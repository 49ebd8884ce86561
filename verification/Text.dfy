/** The string operations the parsers use, on ASCII text: `strip`, `lower`,
    `startswith`, `in`, and splitting a text at line feeds. */
module Text {
  import opened Options

  predicate IsSpace(c: char) {
    c == ' ' || c == '\t' || c == '\n' || c == '\r' || c == '\U{000B}' || c == '\U{000C}'
  }

  function TrimLeft(s: string): (r: string)
    ensures r == [] || !IsSpace(r[0])
  {
    if s != [] && IsSpace(s[0]) then TrimLeft(s[1..]) else s
  }

  function TrimRight(s: string): (r: string)
    ensures r == [] || !IsSpace(r[|r| - 1])
  {
    if s != [] && IsSpace(s[|s| - 1]) then TrimRight(s[..|s| - 1]) else s
  }

  function Trim(s: string): string {
    TrimRight(TrimLeft(s))
  }

  // Nonempty, without white space at either end.
  predicate Trimmed(s: string) {
    s != [] && !IsSpace(s[0]) && !IsSpace(s[|s| - 1])
  }

  lemma TrimTrimmed(s: string)
    requires Trimmed(s)
    ensures Trim(s) == s
  {
  }

  lemma {:induction false} TrimRightKeepsFirst(s: string)
    requires s != [] && !IsSpace(s[0])
    ensures Trimmed(TrimRight(s)) && TrimRight(s)[0] == s[0]
  {
    if IsSpace(s[|s| - 1]) {
      TrimRightKeepsFirst(s[..|s| - 1]);
    }
  }

  lemma TrimIsTrimmed(s: string)
    ensures Trim(s) == [] || Trimmed(Trim(s))
  {
    if TrimLeft(s) != [] {
      TrimRightKeepsFirst(TrimLeft(s));
    }
  }

  lemma TrimTwice(s: string)
    ensures Trim(Trim(s)) == Trim(s)
  {
    TrimIsTrimmed(s);
    if Trim(s) != "" {
      TrimTrimmed(Trim(s));
    }
  }

  // The six ASCII characters that `strip` removes.
  lemma IsSpaceIff(c: char)
    ensures IsSpace(c) <==> 9 <= c as int <= 13 || c as int == 32
  {
  }

  ghost predicate AllSpace(s: string) {
    forall i :: 0 <= i < |s| ==> IsSpace(s[i])
  }

  lemma {:induction false} TrimLeftParts(s: string) returns (before: string)
    ensures AllSpace(before) && s == before + TrimLeft(s)
  {
    if s != "" && IsSpace(s[0]) {
      before := TrimLeftParts(s[1..]);
      before := [s[0]] + before;
    } else {
      before := "";
    }
  }

  lemma {:induction false} TrimRightParts(s: string) returns (after: string)
    ensures AllSpace(after) && s == TrimRight(s) + after
  {
    if s != "" && IsSpace(s[|s| - 1]) {
      after := TrimRightParts(s[..|s| - 1]);
      after := after + [s[|s| - 1]];
      assert s == s[..|s| - 1] + [s[|s| - 1]];
    } else {
      after := "";
    }
  }

  /** Trimming removes white space from both ends, and nothing else. */
  lemma TrimMeans(s: string)
    ensures Trim(s) == "" || Trimmed(Trim(s))
    ensures exists before, after :: AllSpace(before) && AllSpace(after) && s == before + Trim(s) + after
  {
    TrimIsTrimmed(s);
    var before := TrimLeftParts(s);
    var after := TrimRightParts(TrimLeft(s));
    assert s == before + Trim(s) + after;
  }

  // Only the ASCII capitals change.
  lemma LowerCharMeans(c: char)
    ensures LowerChar(c) as int == if 65 <= c as int <= 90 then c as int + 32 else c as int
  {
  }

  function LowerChar(c: char): char {
    if 'A' <= c <= 'Z' then ((c as int) + 32) as char else c
  }

  function Lower(s: string): (r: string)
    ensures |r| == |s|
    ensures forall i :: 0 <= i < |s| ==> r[i] == LowerChar(s[i])
  {
    if s == [] then [] else [LowerChar(s[0])] + Lower(s[1..])
  }

  predicate StartsWith(s: string, prefix: string) {
    |prefix| <= |s| && s[..|prefix|] == prefix
  }

  predicate Contains(s: string, part: string) {
    StartsWith(s, part) || (s != [] && Contains(s[1..], part))
  }

  /** A text contains a part exactly when the part stands somewhere in it. */
  lemma {:induction false} ContainsIff(s: string, part: string)
    ensures Contains(s, part) <==> exists i: nat :: StandsAt(s, part, i)
  {
    StandsAtStart(s, part);
    if !StartsWith(s, part) {
      if s != "" {
        ContainsIff(s[1..], part);
        if i: nat :| StandsAt(s[1..], part, i) {
          assert s[1..][i..i + |part|] == s[i + 1..i + 1 + |part|];
          assert StandsAt(s, part, i + 1);
        }
      }
      if i: nat :| i > 0 && StandsAt(s, part, i) {
        assert s[1..][i - 1..i - 1 + |part|] == s[i..i + |part|];
        assert StandsAt(s[1..], part, i - 1);
      }
    }
  }

  lemma StandsAtStart(s: string, part: string)
    ensures StandsAt(s, part, 0) <==> StartsWith(s, part)
  {
  }

  ghost predicate StandsAt(s: string, part: string, i: nat) {
    i + |part| <= |s| && s[i..i + |part|] == part
  }

  // ----- Lines

  // The pieces between the separators, as `split` gives them: at least one.
  function Split<T(==)>(s: seq<T>, separator: T): (pieces: seq<seq<T>>)
    ensures |pieces| > 0
  {
    if s == [] then [[]]
    else
      var rest := Split(s[1..], separator);
      if s[0] == separator then [[]] + rest else [[s[0]] + rest[0]] + rest[1..]
  }

  // The piece up to the first separator, if there is one.
  function FirstPiece<T(==)>(s: seq<T>, separator: T): (piece: Option<seq<T>>)
    ensures piece.Some? ==> |piece.value| < |s| && s[|piece.value|] == separator && piece.value == s[..|piece.value|]
    ensures piece.Some? ==> separator !in piece.value
    ensures piece.None? <==> separator !in s
  {
    if s == [] then None
    else if s[0] == separator then Some([])
    else
      var rest := FirstPiece(s[1..], separator);
      if rest.None? then None else Some([s[0]] + rest.value)
  }

  lemma {:induction false} SplitByFirst<T>(s: seq<T>, separator: T)
    ensures var first := FirstPiece(s, separator);
            Split(s, separator) ==
              if first.None? then [s] else [first.value] + Split(s[|first.value| + 1..], separator)
  {
    if s != [] && s[0] != separator {
      SplitByFirst(s[1..], separator);
      var first := FirstPiece(s[1..], separator);
      if first.None? {
        assert [s[0]] + s[1..] == s;
      } else {
        assert s[1..][|first.value| + 1..] == s[|first.value| + 2..];
      }
    }
  }

  lemma SplitStep<T>(s: seq<T>, separator: T)
    ensures var pieces, first := Split(s, separator), FirstPiece(s, separator);
            && (first.Some? <==> |pieces| > 1)
            && (first.Some? ==> pieces[0] == first.value && pieces[1..] == Split(s[|first.value| + 1..], separator))
  {
    SplitByFirst(s, separator);
  }

  // A piece closed by a separator stays what it is when text is appended.
  lemma {:induction false} FirstPieceStays<T>(s: seq<T>, more: seq<T>, separator: T)
    requires FirstPiece(s, separator).Some?
    ensures FirstPiece(s + more, separator) == FirstPiece(s, separator)
  {
    assert (s + more)[0] == s[0] && (s + more)[1..] == s[1..] + more;
    if s[0] != separator {
      FirstPieceStays(s[1..], more, separator);
    }
  }

  lemma {:induction false} FirstPieceOfJoin<T>(piece: seq<T>, separator: T, rest: seq<T>)
    requires separator !in piece
    ensures FirstPiece(piece + [separator] + rest, separator) == Some(piece)
  {
    var s := piece + [separator] + rest;
    if piece == [] {
      assert s[0] == separator;
    } else {
      FirstPieceOfJoin(piece[1..], separator, rest);
      assert s[0] == piece[0] && s[1..] == piece[1..] + [separator] + rest;
      assert [piece[0]] + piece[1..] == piece;
    }
  }
}
