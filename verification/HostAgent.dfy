/** The root host agent: rewriting the StrongSwan and SSH configuration files, with
    rollback when the daemon refuses them (quansec/host_policy_agent.py).

    Files are ASCII text with LF line ends. A pattern is searched line by line. Daemons
    and the disk are outcomes: whether each command, and the write, succeeds. */
module HostAgent {
  import opened Options
  import opened Text

  // ----- Lines with their line feeds, as splitlines(keepends=True) gives them

  function SplitLines(text: string): seq<string>
    decreases |text|
  {
    if text == "" then []
    else match FirstPiece(text, '\n')
         case None => [text]
         case Some(line) => [line + "\n"] + SplitLines(text[|line| + 1..])
  }

  function Concat(lines: seq<string>): string {
    if lines == [] then "" else lines[0] + Concat(lines[1..])
  }

  ghost predicate ClosedLine(line: string) {
    line != "" && line[|line| - 1] == '\n' && '\n' !in line[..|line| - 1]
  }

  ghost predicate OpenLine(line: string) {
    line != "" && '\n' !in line
  }

  // Every line is closed, except possibly the last.
  ghost predicate ProperLines(lines: seq<string>) {
    forall i :: 0 <= i < |lines| ==> ClosedLine(lines[i]) || (i == |lines| - 1 && OpenLine(lines[i]))
  }

  lemma ConcatCons(line: string, lines: seq<string>)
    ensures Concat([line] + lines) == line + Concat(lines)
    ensures Concat([line]) == line
  {
    assert ([line] + lines)[1..] == lines;
    assert [line][1..] == [];
    assert line + Concat([]) == line;
  }

  lemma ProperCons(line: string, lines: seq<string>)
    requires ClosedLine(line) && ProperLines(lines)
    ensures ProperLines([line] + lines)
  {
    hide ClosedLine, OpenLine;
    var all := [line] + lines;
    forall i | 0 <= i < |all| ensures ClosedLine(all[i]) || (i == |all| - 1 && OpenLine(all[i])) {
      if i > 0 { assert all[i] == lines[i - 1]; }
    }
  }

  lemma SplitLinesStep(text: string) returns (first: string, rest: string)
    requires '\n' in text
    ensures ClosedLine(first) && text == first + rest && |rest| < |text|
    ensures SplitLines(text) == [first] + SplitLines(rest)
  {
    hide FirstPiece;
    var line := FirstPiece(text, '\n').value;
    first, rest := line + "\n", text[|line| + 1..];
    assert SplitLines(text) == [first] + SplitLines(rest);
    hide SplitLines;
    assert first[..|first| - 1] == line;
    assert text == first + rest;
  }

  lemma SplitLinesCons(first: string, rest: string)
    requires ClosedLine(first)
    ensures SplitLines(first + rest) == [first] + SplitLines(rest)
  {
    var line := first[..|first| - 1];
    assert first == line + "\n";
    FirstPieceOfJoin(line, '\n', rest);
    hide FirstPiece;
    assert first + rest == line + ['\n'] + rest;
    assert (first + rest)[|line| + 1..] == rest;
  }

  lemma {:induction false} SplitLinesProper(text: string)
    ensures ProperLines(SplitLines(text)) && Concat(SplitLines(text)) == text
    decreases |text|
  {
    if '\n' in text {
      var first, rest := SplitLinesStep(text);
      SplitLinesProper(rest);
      hide SplitLines, ProperLines, ClosedLine;
      ProperCons(first, SplitLines(rest));
      ConcatCons(first, SplitLines(rest));
    } else if text != "" {
      ConcatCons(text, []);
    }
  }

  lemma {:induction false} SplitOfConcat(lines: seq<string>)
    requires ProperLines(lines)
    ensures SplitLines(Concat(lines)) == lines
  {
    if lines != [] {
      assert lines == [lines[0]] + lines[1..];
      ProperTail(lines);
      SplitOfConcat(lines[1..]);
      ConcatCons(lines[0], lines[1..]);
      if ClosedLine(lines[0]) {
        hide SplitLines, ProperLines, ClosedLine, Concat;
        SplitLinesCons(lines[0], Concat(lines[1..]));
      } else {
        assert lines == [lines[0]];
      }
    }
  }

  lemma ProperTail(lines: seq<string>)
    requires ProperLines(lines) && lines != []
    ensures ProperLines(lines[1..])
  {
    hide ClosedLine, OpenLine;
  }

  lemma {:induction false} ConcatAppend(a: seq<string>, b: seq<string>)
    ensures Concat(a + b) == Concat(a) + Concat(b)
  {
    if a == [] {
      assert a + b == b;
    } else {
      assert a + b == [a[0]] + (a[1..] + b);
      assert a == [a[0]] + a[1..];
      ConcatAppend(a[1..], b);
      ConcatCons(a[0], a[1..] + b);
      ConcatCons(a[0], a[1..]);
    }
  }

  // The last line is closed if and only if the text ends with a line feed.
  lemma EndsClosed(lines: seq<string>)
    requires ProperLines(lines) && lines != []
    ensures var text := Concat(lines);
            text != "" && (ClosedLine(lines[|lines| - 1]) <==> text[|text| - 1] == '\n')
  {
    var n := |lines| - 1;
    var last := lines[n];
    assert lines == lines[..n] + [last];
    ConcatAppend(lines[..n], [last]);
    ConcatCons(last, []);
    hide Concat;
    var before := Concat(lines[..n]);
    assert (before + last)[|before + last| - 1] == last[|last| - 1];
  }

  // ----- The SSH file

  const KEX := "KexAlgorithms"

  predicate IsKex(line: string) {
    StartsWith(Trim(line), KEX)
  }

  function Replacement(algorithm: string): string {
    KEX + " " + algorithm + "\n"
  }

  // An algorithm name has no white space.
  ghost predicate Algorithm(a: string) {
    a != "" && forall i :: 0 <= i < |a| ==> !IsSpace(a[i])
  }

  function Updated(lines: seq<string>, replacement: string): seq<string> {
    seq(|lines|, i requires 0 <= i < |lines| => if IsKex(lines[i]) then replacement else lines[i])
  }

  predicate AnyKex(lines: seq<string>) {
    exists i :: 0 <= i < |lines| && IsKex(lines[i])
  }

  function UpdatedOrAppended(lines: seq<string>, replacement: string): seq<string> {
    if AnyKex(lines) then Updated(lines, replacement) else Updated(lines, replacement) + [replacement]
  }

  function RewriteSsh(algorithm: string, text: string): string {
    Concat(UpdatedOrAppended(SplitLines(text), Replacement(algorithm)))
  }

  // The directive can be replaced or appended as a line of its own.
  predicate Appendable(text: string) {
    AnyKex(SplitLines(text)) || text == "" || text[|text| - 1] == '\n'
  }

  lemma ReplacementIsLine(a: string)
    requires Algorithm(a)
    ensures ClosedLine(Replacement(a)) && IsKex(Replacement(a))
  {
    var r := Replacement(a);
    var directive := KEX + " " + a;
    assert r[..|r| - 1] == directive;
    assert r[0] == 'K' && TrimLeft(r) == r;
    assert Trimmed(directive);
    assert TrimRight(r) == TrimRight(directive) == directive;
    assert directive[..|KEX|] == KEX;
  }

  /** The rewritten file, read back, is the old file with every KexAlgorithms line
      replaced, or one appended if there was none, and every other line untouched. */
  lemma RewriteTouchesOnlyKex(a: string, text: string)
    requires Algorithm(a) && Appendable(text)
    ensures var before, after := SplitLines(text), SplitLines(RewriteSsh(a, text));
            && |after| == |before| + (if AnyKex(before) then 0 else 1)
            && (forall i :: 0 <= i < |before| ==> after[i] == if IsKex(before[i]) then Replacement(a) else before[i])
            && (!AnyKex(before) ==> after[|before|] == Replacement(a))
  {
    RewrittenLines(a, text);
  }

  lemma RewrittenLines(a: string, text: string)
    requires Algorithm(a) && Appendable(text)
    ensures SplitLines(RewriteSsh(a, text)) == UpdatedOrAppended(SplitLines(text), Replacement(a))
  {
    ReplacementIsLine(a);
    SplitLinesProper(text);
    if SplitLines(text) != [] {
      EndsClosed(SplitLines(text));
    }
    hide SplitLines, IsKex, Replacement, ClosedLine, OpenLine, Concat;
    UpdatedIsProper(SplitLines(text), Replacement(a));
    SplitOfConcat(UpdatedOrAppended(SplitLines(text), Replacement(a)));
  }

  lemma UpdatedIsProper(lines: seq<string>, r: string)
    requires ProperLines(lines) && ClosedLine(r)
    requires AnyKex(lines) || lines == [] || ClosedLine(lines[|lines| - 1])
    ensures ProperLines(UpdatedOrAppended(lines, r))
  {
    hide IsKex, ClosedLine, OpenLine;
  }

  lemma UpdateTwice(lines: seq<string>, p: string, q: string)
    requires IsKex(p) && IsKex(q)
    ensures AnyKex(UpdatedOrAppended(lines, q))
    ensures UpdatedOrAppended(UpdatedOrAppended(lines, q), p) == UpdatedOrAppended(lines, p)
  {
    hide IsKex;
    var once := UpdatedOrAppended(lines, q);
    if AnyKex(lines) {
      var i :| 0 <= i < |lines| && IsKex(lines[i]);
      assert IsKex(once[i]);
    } else {
      assert IsKex(once[|lines|]);
    }
    assert UpdatedOrAppended(once, p) == UpdatedOrAppended(lines, p);
  }

  // ----- When the last line is not closed

  lemma NoKexAppends(a: string, text: string)
    requires !AnyKex(SplitLines(text))
    ensures RewriteSsh(a, text) == text + Replacement(a)
  {
    var lines := SplitLines(text);
    hide IsKex;
    assert Updated(lines, Replacement(a)) == lines;
    SplitLinesProper(text);
    ConcatAppend(lines, [Replacement(a)]);
    ConcatCons(Replacement(a), []);
  }

  /** Applying one policy after another is the same as applying the last one alone, and
      applying a policy twice the same as once, exactly when the file has the directive
      already, is empty, or ends with a line feed. */
  lemma LastPolicyWinsIff(p: string, q: string, text: string)
    requires Algorithm(p) && Algorithm(q)
    ensures RewriteSsh(p, RewriteSsh(q, text)) == RewriteSsh(p, text) <==> Appendable(text)
  {
    if Appendable(text) {
      RewrittenLines(q, text);
      ReplacementIsLine(p);
      ReplacementIsLine(q);
      UpdateTwice(SplitLines(text), Replacement(p), Replacement(q));
    } else {
      UnclosedNotIdempotent(p, q, text);
    }
  }

  lemma NotAppendable(text: string) returns (init: seq<string>, last: string)
    requires !Appendable(text)
    ensures SplitLines(text) == init + [last] && Concat(init + [last]) == text
    ensures ProperLines(init + [last]) && !AnyKex(init + [last]) && !ClosedLine(last)
  {
    var lines := SplitLines(text);
    SplitLinesProper(text);
    hide SplitLines, IsKex;
    assert lines != [];
    EndsClosed(lines);
    hide ProperLines, ClosedLine;
    init, last := lines[..|lines| - 1], lines[|lines| - 1];
    assert lines == init + [last];
  }

  // Otherwise the first apply glues the directive to the last line, and the second one
  // either replaces that line, the old text with it, or appends the directive again.
  lemma UnclosedNotIdempotent(p: string, q: string, text: string)
    requires Algorithm(p) && Algorithm(q) && !Appendable(text)
    ensures |RewriteSsh(p, RewriteSsh(q, text))| != |RewriteSsh(p, text)|
  {
    ReplacementIsLine(q);
    assert |Replacement(q)| > 0;
    hide Appendable, SplitLines, Replacement, ClosedLine, OpenLine, ProperLines, IsKex, Concat, AnyKex, Algorithm, UpdatedOrAppended;
    var init, last := NotAppendable(text);
    NoKexAppends(q, text);
    NoKexAppends(p, text);
    GluedLines(init, last, Replacement(q));
    var glued := last + Replacement(q);
    if IsKex(glued) {
      GluedIsReplaced(init, last, glued, Replacement(p));
    } else {
      NoKexGlued(init, last, glued);
      NoKexAppends(p, text + Replacement(q));
    }
  }

  lemma NoKexGlued(init: seq<string>, last: string, glued: string)
    requires !AnyKex(init + [last]) && !IsKex(glued)
    ensures !AnyKex(init + [glued])
  {
    hide IsKex;
    forall i | 0 <= i < |init + [glued]| ensures !IsKex((init + [glued])[i]) {
      if i < |init| { assert (init + [last])[i] == init[i]; }
    }
  }

  // If the glued line counts as the directive, replacing it drops the old last line.
  lemma GluedIsReplaced(init: seq<string>, last: string, glued: string, r: string)
    requires !AnyKex(init + [last]) && IsKex(glued) && last != ""
    ensures |Concat(UpdatedOrAppended(init + [glued], r))| < |Concat(init + [last]) + r|
  {
    hide IsKex, Concat;
    var lines := init + [glued];
    assert IsKex(lines[|init|]);
    forall i | 0 <= i < |init| ensures !IsKex(init[i]) {
      assert (init + [last])[i] == init[i];
    }
    assert Updated(lines, r) == init + [r];
    ConcatAppend(init, [r]);
    ConcatAppend(init, [last]);
    ConcatCons(r, []);
    ConcatCons(last, []);
  }

  lemma GluedLines(init: seq<string>, last: string, line: string)
    requires ProperLines(init + [last]) && !ClosedLine(last) && ClosedLine(line)
    ensures SplitLines(Concat(init + [last]) + line) == init + [last + line]
    ensures last != ""
  {
    GluedIsProper(init, last, line);
    SplitOfConcat(init + [last + line]);
    hide SplitLines, Concat, ProperLines, ClosedLine;
    ConcatGlue(init, last, line);
  }

  lemma ConcatGlue(init: seq<string>, last: string, line: string)
    ensures Concat(init + [last + line]) == Concat(init + [last]) + line
  {
    hide Concat;
    ConcatAppend(init, [last]);
    ConcatAppend(init, [last + line]);
    ConcatCons(last, []);
    ConcatCons(last + line, []);
    assert Concat(init) + (last + line) == Concat(init) + last + line;
  }

  lemma GluedIsProper(init: seq<string>, last: string, line: string)
    requires ProperLines(init + [last]) && !ClosedLine(last) && ClosedLine(line)
    ensures ProperLines(init + [last + line]) && last != ""
  {
    var before, after := init + [last], init + [last + line];
    assert before[|init|] == last;
    GluedIsClosed(last, line);
    hide ClosedLine, OpenLine;
    forall i | 0 <= i < |init| ensures ClosedLine(after[i]) {
      assert before[i] == after[i];
    }
  }

  lemma GluedIsClosed(open: string, line: string)
    requires OpenLine(open) && ClosedLine(line)
    ensures ClosedLine(open + line)
  {
    assert (open + line)[..|open + line| - 1] == open + line[..|line| - 1];
  }

  // ----- The StrongSwan file, as lines without their line feeds

  function Join(lines: seq<string>): string
    requires lines != []
  {
    if |lines| == 1 then lines[0] else lines[0] + "\n" + Join(lines[1..])
  }

  ghost predicate NoFeeds(lines: seq<string>) {
    forall i :: 0 <= i < |lines| ==> '\n' !in lines[i]
  }

  lemma {:induction false} SplitOfJoin(lines: seq<string>)
    requires lines != [] && NoFeeds(lines)
    ensures Split(Join(lines), '\n') == lines
  {
    var text := Join(lines);
    SplitStep(text, '\n');
    SplitByFirst(text, '\n');
    hide Split, FirstPiece;
    if |lines| > 1 {
      SplitOfJoin(lines[1..]);
      FirstPieceOfJoin(lines[0], '\n', Join(lines[1..]));
      assert text[|lines[0]| + 1..] == Join(lines[1..]);
    }
  }

  lemma {:induction false} JoinOfSplit(text: string)
    ensures NoFeeds(Split(text, '\n')) && Join(Split(text, '\n')) == text
    decreases |text|
  {
    SplitByFirst(text, '\n');
    var first := FirstPiece(text, '\n');
    hide Split, FirstPiece;
    if first.Some? {
      var rest := text[|first.value| + 1..];
      JoinOfSplit(rest);
      assert ([first.value] + Split(rest, '\n'))[1..] == Split(rest, '\n');
      assert text == first.value + "\n" + rest;
    }
  }

  // A line holding `key = value`, after any indentation.
  predicate HasKey(line: string, key: string) {
    var s := TrimLeft(line);
    StartsWith(s, key) && var rest := TrimLeft(s[|key|..]); rest != "" && rest[0] == '='
  }

  // The white space a line starts with.
  function Indent(line: string): (indent: string)
    ensures line == indent + TrimLeft(line)
    ensures forall i :: 0 <= i < |indent| ==> IsSpace(indent[i])
  {
    if line != "" && IsSpace(line[0]) then [line[0]] + Indent(line[1..]) else ""
  }

  function Setting(line: string, key: string, value: string): string {
    Indent(line) + key + " = " + value
  }

  // Replaces the first line with the key.
  function ReplaceFirst(lines: seq<string>, key: string, value: string): Option<seq<string>> {
    if lines == [] then None
    else if HasKey(lines[0], key) then Some([Setting(lines[0], key, value)] + lines[1..])
    else
      var rest := ReplaceFirst(lines[1..], key, value);
      if rest.None? then None else Some([lines[0]] + rest.value)
  }

  const PROPOSALS := "proposals"
  const ESP_PROPOSALS := "esp_proposals"

  // The two substitutions, one after the other; None unless each changes a line.
  function RewriteIpsec(ike: string, esp: string, text: string): Option<string> {
    match ReplaceFirst(Split(text, '\n'), PROPOSALS, ike)
    case None => None
    case Some(changed) =>
      match ReplaceFirst(changed, ESP_PROPOSALS, esp)
      case None => None
      case Some(lines) => if lines == [] then None else Some(Join(lines))
  }

  ghost predicate IsFirst(lines: seq<string>, key: string, i: nat) {
    i < |lines| && HasKey(lines[i], key) && forall k :: 0 <= k < i ==> !HasKey(lines[k], key)
  }

  lemma FirstExists(lines: seq<string>, key: string, n: nat) returns (i: nat)
    requires n < |lines| && HasKey(lines[n], key)
    ensures IsFirst(lines, key, i)
  {
    hide HasKey;
    i := 0;
    while !HasKey(lines[i], key)
      invariant i <= n
      invariant forall k :: 0 <= k < i ==> !HasKey(lines[k], key)
      decreases n - i
    {
      i := i + 1;
    }
  }

  lemma {:induction false} ReplaceFirstChanges(lines: seq<string>, key: string, value: string, i: nat)
    requires IsFirst(lines, key, i)
    ensures ReplaceFirst(lines, key, value) == Some(lines[i := Setting(lines[i], key, value)])
  {
    hide HasKey, Setting;
    var line := Setting(lines[i], key, value);
    if i == 0 {
      assert lines[0 := line] == [line] + lines[1..];
    } else {
      ReplaceFirstChanges(lines[1..], key, value, i - 1);
      assert lines[i := line] == [lines[0]] + lines[1..][i - 1 := line];
    }
  }

  lemma {:induction false} ReplaceFirstFails(lines: seq<string>, key: string, value: string)
    ensures ReplaceFirst(lines, key, value).None? <==> forall i :: 0 <= i < |lines| ==> !HasKey(lines[i], key)
  {
    hide HasKey, Setting;
    if lines != [] {
      ReplaceFirstFails(lines[1..], key, value);
      assert forall i :: 0 < i < |lines| ==> lines[i] == lines[1..][i - 1];
    }
  }

  predicate Key(key: string) {
    key == PROPOSALS || key == ESP_PROPOSALS
  }

  lemma {:induction false} TrimLeftSkips(indent: string, rest: string)
    requires forall i :: 0 <= i < |indent| ==> IsSpace(indent[i])
    requires rest != "" && !IsSpace(rest[0])
    ensures TrimLeft(indent + rest) == rest && Indent(indent + rest) == indent
  {
    if indent == "" {
      assert indent + rest == rest;
    } else {
      TrimLeftSkips(indent[1..], rest);
      assert (indent + rest)[1..] == indent[1..] + rest;
    }
  }

  // A text starts with at most one of the keys.
  lemma OneStart(s: string, key: string, other: string)
    requires Key(key) && Key(other) && StartsWith(s, key) && StartsWith(s, other)
    ensures key == other
  {
    assert s[..|key|][0] == s[..|other|][0];
  }

  lemma SettingShape(line: string, key: string, value: string)
    requires Key(key)
    ensures var rest := key + " = " + value;
            && TrimLeft(Setting(line, key, value)) == rest && Indent(Setting(line, key, value)) == Indent(line)
            && StartsWith(rest, key) && TrimLeft(rest[|key|..]) == "= " + value
  {
    var rest := key + " = " + value;
    assert Setting(line, key, value) == Indent(line) + rest;
    assert rest[0] == key[0];
    assert rest[|key|..] == " " + ("= " + value) && rest[..|key|] == key;
    hide Setting, Indent, TrimLeft, StartsWith;
    TrimLeftSkips(Indent(line), rest);
    TrimLeftSkips(" ", "= " + value);
  }

  /** A rewritten line still has its key, after the same indentation, and not the other
      one; rewriting it again leaves no trace of the first value. */
  lemma SettingKeepsLine(line: string, key: string, value: string)
    requires Key(key)
    ensures forall other :: Key(other) ==> (HasKey(Setting(line, key, value), other) <==> other == key)
    ensures forall v :: Setting(Setting(line, key, value), key, v) == Setting(line, key, v)
  {
    SettingShape(line, key, value);
    hide TrimLeft, Indent, StartsWith, Key;
    forall v ensures Setting(Setting(line, key, value), key, v) == Setting(line, key, v) {}
    hide Setting;
    var rest := key + " = " + value;
    forall other | Key(other) && StartsWith(rest, other) ensures other == key {
      OneStart(rest, key, other);
    }
  }

  // ----- What the pattern and the replacement are, as texts

  // White space, the key, white space, and an equals sign.
  ghost predicate KeyLine(line: string, key: string, before: string, between: string, rest: string) {
    AllSpace(before) && AllSpace(between) && line == before + (key + (between + ("=" + rest)))
  }

  /** A line has a key exactly when it is white space, the key, white space, `=`, anything. */
  lemma HasKeyIff(line: string, key: string)
    requires Key(key)
    ensures HasKey(line, key) <==> exists before, between, rest :: KeyLine(line, key, before, between, rest)
  {
    if HasKey(line, key) {
      var s := TrimLeft(line);
      var before := TrimLeftParts(line);
      var between := TrimLeftParts(s[|key|..]);
      var value := TrimLeft(s[|key|..]);
      assert s == key + s[|key|..] && value == "=" + value[1..];
      assert KeyLine(line, key, before, between, value[1..]);
    }
    if before, between, rest :| KeyLine(line, key, before, between, rest) {
      var tail := between + ("=" + rest);
      assert (key + tail)[0] == key[0];
      TrimLeftSkips(before, key + tail);
      TrimLeftSkips(between, "=" + rest);
      assert (key + tail)[..|key|] == key && (key + tail)[|key|..] == tail;
    }
  }

  // The white space a line starts with, and what is written after it.
  lemma SettingMeans(line: string, key: string, value: string)
    ensures exists before :: AllSpace(before) && line == before + TrimLeft(line)
                             && Setting(line, key, value) == before + (key + (" = " + value))
  {
    var before := Indent(line);
    assert AllSpace(before) && line == before + TrimLeft(line);
    assert before + key + " = " + value == before + (key + (" = " + value));
  }

  // ----- What the two substitutions do

  lemma OneKeyPerLine(line: string)
    ensures !(HasKey(line, PROPOSALS) && HasKey(line, ESP_PROPOSALS))
  {
    var s := TrimLeft(line);
    hide TrimLeft, StartsWith;
    if StartsWith(s, PROPOSALS) && StartsWith(s, ESP_PROPOSALS) {
      OneStart(s, PROPOSALS, ESP_PROPOSALS);
    }
  }

  function SetBoth(lines: seq<string>, i: nat, ike: string, j: nat, esp: string): seq<string>
    requires i < |lines| && j < |lines|
  {
    lines[i := Setting(lines[i], PROPOSALS, ike)][j := Setting(lines[j], ESP_PROPOSALS, esp)]
  }

  // Setting line n keeps both keys' first lines where they were.
  lemma FirstsStay(lines: seq<string>, key: string, n: nat, value: string, other: string, k: nat)
    requires Key(key) && Key(other)
    requires IsFirst(lines, key, n) && IsFirst(lines, other, k)
    ensures IsFirst(lines[n := Setting(lines[n], key, value)], other, k)
  {
    SettingKeepsLine(lines[n], key, value);
    if key != other { OneKeyPerLine(lines[n]); }
    hide HasKey, Setting;
  }

  lemma SetBothKeeps(lines: seq<string>, i: nat, ike: string, j: nat, esp: string)
    requires IsFirst(lines, PROPOSALS, i) && IsFirst(lines, ESP_PROPOSALS, j)
    ensures i != j
    ensures IsFirst(SetBoth(lines, i, ike, j, esp), PROPOSALS, i)
    ensures IsFirst(SetBoth(lines, i, ike, j, esp), ESP_PROPOSALS, j)
  {
    OneKeyPerLine(lines[i]);
    hide HasKey, Setting;
    FirstsStay(lines, PROPOSALS, i, ike, PROPOSALS, i);
    FirstsStay(lines, PROPOSALS, i, ike, ESP_PROPOSALS, j);
    var once := lines[i := Setting(lines[i], PROPOSALS, ike)];
    FirstsStay(once, ESP_PROPOSALS, j, esp, PROPOSALS, i);
    FirstsStay(once, ESP_PROPOSALS, j, esp, ESP_PROPOSALS, j);
  }

  lemma BothSet(lines: seq<string>, i: nat, ike: string, j: nat, esp: string)
    requires IsFirst(lines, PROPOSALS, i) && IsFirst(lines, ESP_PROPOSALS, j)
    ensures ReplaceFirst(lines, PROPOSALS, ike).Some?
    ensures ReplaceFirst(ReplaceFirst(lines, PROPOSALS, ike).value, ESP_PROPOSALS, esp)
         == Some(SetBoth(lines, i, ike, j, esp))
  {
    OneKeyPerLine(lines[i]);
    hide HasKey, Setting, ReplaceFirst;
    ReplaceFirstChanges(lines, PROPOSALS, ike, i);
    FirstsStay(lines, PROPOSALS, i, ike, ESP_PROPOSALS, j);
    ReplaceFirstChanges(lines[i := Setting(lines[i], PROPOSALS, ike)], ESP_PROPOSALS, esp, j);
  }

  // A policy value is one line of text.
  ghost predicate OneLine(value: string) {
    '\n' !in value
  }

  lemma SettingIsOneLine(line: string, key: string, value: string)
    requires OneLine(line) && Key(key) && OneLine(value)
    ensures OneLine(Setting(line, key, value))
  {
    assert forall c :: c in Indent(line) ==> c in line;
  }

  lemma SetBothNoFeeds(lines: seq<string>, i: nat, ike: string, j: nat, esp: string)
    requires NoFeeds(lines) && i < |lines| && j < |lines| && i != j && OneLine(ike) && OneLine(esp)
    ensures NoFeeds(SetBoth(lines, i, ike, j, esp))
  {
    SettingIsOneLine(lines[i], PROPOSALS, ike);
    SettingIsOneLine(lines[j], ESP_PROPOSALS, esp);
    hide Setting;
  }

  ghost predicate HasBoth(text: string, i: nat, j: nat) {
    IsFirst(Split(text, '\n'), PROPOSALS, i) && IsFirst(Split(text, '\n'), ESP_PROPOSALS, j)
  }

  /** The rewrite succeeds exactly when the file has both keys, whatever the values, and
      then its lines are the old ones but for the first line of each key. */
  lemma RewriteTouchesTwoLines(ike: string, esp: string, text: string, i: nat, j: nat)
    requires HasBoth(text, i, j) && OneLine(ike) && OneLine(esp)
    ensures RewriteIpsec(ike, esp, text).Some?
    ensures Split(RewriteIpsec(ike, esp, text).value, '\n') == SetBoth(Split(text, '\n'), i, ike, j, esp)
  {
    var lines := Split(text, '\n');
    hide Split, HasKey, Setting, ReplaceFirst, Join, NoFeeds;
    BothSet(lines, i, ike, j, esp);
    SetBothKeeps(lines, i, ike, j, esp);
    JoinOfSplit(text);
    SetBothNoFeeds(lines, i, ike, j, esp);
    SplitOfJoin(SetBoth(lines, i, ike, j, esp));
  }

  lemma RewriteNeedsBoth(ike: string, esp: string, text: string)
    requires RewriteIpsec(ike, esp, text).Some?
    ensures exists i: nat, j: nat :: HasBoth(text, i, j)
  {
    var lines := Split(text, '\n');
    hide Split, HasKey, Setting, ReplaceFirst, Join;
    ReplaceFirstFails(lines, PROPOSALS, ike);
    var m :| 0 <= m < |lines| && HasKey(lines[m], PROPOSALS);
    var i := FirstExists(lines, PROPOSALS, m);
    ReplaceFirstChanges(lines, PROPOSALS, ike, i);
    SettingKeepsLine(lines[i], PROPOSALS, ike);
    var changed := lines[i := Setting(lines[i], PROPOSALS, ike)];
    ReplaceFirstFails(changed, ESP_PROPOSALS, esp);
    var n :| 0 <= n < |changed| && HasKey(changed[n], ESP_PROPOSALS);
    var j := FirstExists(lines, ESP_PROPOSALS, n);
    assert HasBoth(text, i, j);
  }

  lemma RewriteFailsIff(ike: string, esp: string, text: string)
    ensures RewriteIpsec(ike, esp, text).Some? <==> exists i: nat, j: nat :: HasBoth(text, i, j)
  {
    hide Split, HasKey, Setting, ReplaceFirst, Join;
    if RewriteIpsec(ike, esp, text).Some? {
      RewriteNeedsBoth(ike, esp, text);
    }
    if i: nat, j: nat :| HasBoth(text, i, j) {
      BothSet(Split(text, '\n'), i, ike, j, esp);
    }
  }

  lemma SetBothTwice(lines: seq<string>, i: nat, ike0: string, ike: string, j: nat, esp0: string, esp: string)
    requires IsFirst(lines, PROPOSALS, i) && IsFirst(lines, ESP_PROPOSALS, j) && i != j
    ensures SetBoth(SetBoth(lines, i, ike0, j, esp0), i, ike, j, esp) == SetBoth(lines, i, ike, j, esp)
  {
    SettingKeepsLine(lines[i], PROPOSALS, ike0);
    SettingKeepsLine(lines[j], ESP_PROPOSALS, esp0);
    hide HasKey, Setting, IsFirst;
  }

  /** Rewriting for policy p after policy q gives what rewriting for p alone gives: the
      last policy wins, and rewriting twice is rewriting once. */
  lemma LastIpsecPolicyWins(ike: string, esp: string, ike0: string, esp0: string, text: string)
    requires OneLine(ike) && OneLine(esp) && OneLine(ike0) && OneLine(esp0)
    requires RewriteIpsec(ike0, esp0, text).Some?
    ensures RewriteIpsec(ike, esp, RewriteIpsec(ike0, esp0, text).value) == RewriteIpsec(ike, esp, text)
  {
    RewriteFailsIff(ike0, esp0, text);
    var i: nat, j: nat :| HasBoth(text, i, j);
    var lines := Split(text, '\n');
    hide Split, HasKey, Setting, ReplaceFirst, Join, SetBoth, OneLine, IsFirst;
    RewriteTouchesTwoLines(ike0, esp0, text, i, j);
    SetBothKeeps(lines, i, ike0, j, esp0);
    BothSet(lines, i, ike, j, esp);
    BothSet(SetBoth(lines, i, ike0, j, esp0), i, ike, j, esp);
    SetBothTwice(lines, i, ike0, ike, j, esp0, esp);
  }

  // ----- Applying a policy: write, load, and roll back

  const IPSEC_POLICIES := map[
    "classical" := ("aes256-sha256-ecp384", "aes256-sha256"),
    "pqc-level3" := ("aes256-sha256-mlkem768", "aes256-sha256"),
    "pqc-level5" := ("aes256-sha256-mlkem1024", "aes256-sha256")]

  const SSH_POLICIES := map[
    "classical" := "curve25519-sha256",
    "pqc-hybrid" := "mlkem768x25519-sha256"]

  lemma PoliciesAreOneLine(policy: string)
    ensures policy in IPSEC_POLICIES ==> OneLine(IPSEC_POLICIES[policy].0) && OneLine(IPSEC_POLICIES[policy].1)
    ensures policy in SSH_POLICIES ==> Algorithm(SSH_POLICIES[policy])
  {
  }

  /** What an allow-listed IPsec policy puts in the file: its key exchange after the first
      `proposals`, its encryption after the first `esp_proposals`, both on their own line. */
  lemma IpsecPolicyWritten(policy: string, text: string, i: nat, j: nat)
    requires policy in {"classical", "pqc-level3", "pqc-level5"} && HasBoth(text, i, j)
    ensures var target := IpsecTarget(policy, Some(text));
            && target.Some?
            && WrittenBoth(text, target.value, i, j,
                           if policy == "classical" then "aes256-sha256-ecp384"
                           else if policy == "pqc-level3" then "aes256-sha256-mlkem768"
                           else "aes256-sha256-mlkem1024",
                           "aes256-sha256")
  {
    IpsecValues(policy);
    PoliciesAreOneLine(policy);
    hide Split, HasKey, Setting, Indent, RewriteIpsec, HasBoth, WrittenBoth, OneLine;
    BothWritten(IPSEC_POLICIES[policy].0, IPSEC_POLICIES[policy].1, text, i, j);
  }

  // Line i of the new text sets proposals to `ike` and line j sets esp_proposals to `esp`,
  // after their old indentation; the other lines are those of the old text.
  ghost predicate WrittenBoth(text: string, target: string, i: nat, j: nat, ike: string, esp: string) {
    var before, after := Split(text, '\n'), Split(target, '\n');
    && |after| == |before| && i < |before| && j < |before|
    && after[i] == Indent(before[i]) + "proposals" + " = " + ike
    && after[j] == Indent(before[j]) + "esp_proposals" + " = " + esp
    && forall k :: 0 <= k < |before| && k != i && k != j ==> after[k] == before[k]
  }

  lemma IpsecValues(policy: string)
    requires policy in {"classical", "pqc-level3", "pqc-level5"}
    ensures policy in IPSEC_POLICIES
    ensures IPSEC_POLICIES[policy].1 == "aes256-sha256"
    ensures IPSEC_POLICIES[policy].0 ==
            if policy == "classical" then "aes256-sha256-ecp384"
            else if policy == "pqc-level3" then "aes256-sha256-mlkem768"
            else "aes256-sha256-mlkem1024"
  {
  }

  lemma BothWritten(ike: string, esp: string, text: string, i: nat, j: nat)
    requires HasBoth(text, i, j) && OneLine(ike) && OneLine(esp)
    ensures RewriteIpsec(ike, esp, text).Some? && WrittenBoth(text, RewriteIpsec(ike, esp, text).value, i, j, ike, esp)
  {
    RewriteTouchesTwoLines(ike, esp, text, i, j);
    OneKeyPerLine(Split(text, '\n')[i]);
    hide Split, HasKey, Indent, RewriteIpsec;
  }

  lemma IpsecTargetIff(policy: string, file: Option<string>)
    ensures IpsecTarget(policy, file).Some? <==>
              && policy in {"classical", "pqc-level3", "pqc-level5"}
              && file.Some? && exists i: nat, j: nat :: HasBoth(file.value, i, j)
  {
    if policy in IPSEC_POLICIES && file.Some? {
      RewriteFailsIff(IPSEC_POLICIES[policy].0, IPSEC_POLICIES[policy].1, file.value);
    }
    hide RewriteIpsec, HasBoth;
  }

  // White space, the directive, anything.
  ghost predicate KexLine(line: string, before: string, rest: string) {
    AllSpace(before) && line == before + ("KexAlgorithms" + rest)
  }

  /** A line is the directive exactly when its first text is `KexAlgorithms`. */
  lemma IsKexIff(line: string)
    ensures IsKex(line) <==> exists before, rest :: KexLine(line, before, rest)
  {
    hide IsKex, KexLine;
    if IsKex(line) {
      var before, rest := KexHasParts(line);
    }
    if before, rest :| KexLine(line, before, rest) {
      PartsMakeKex(line, before, rest);
    }
  }

  lemma KexHasParts(line: string) returns (before: string, rest: string)
    requires IsKex(line)
    ensures KexLine(line, before, rest)
  {
    var s := TrimLeft(line);
    before := TrimLeftParts(line);
    TrimRightIsPrefix(s);
    assert s[..|KEX|] == TrimRight(s)[..|KEX|];
    rest := s[|KEX|..];
    assert s == KEX + rest;
  }

  lemma PartsMakeKex(line: string, before: string, rest: string)
    requires KexLine(line, before, rest)
    ensures IsKex(line)
  {
    assert (KEX + rest)[0] == 'K';
    TrimLeftSkips(before, KEX + rest);
    TrimRightKeeps(KEX, rest);
    hide TrimLeft, TrimRight;
    assert TrimRight(KEX + rest)[..|KEX|] == KEX;
  }

  lemma {:induction false} TrimRightIsPrefix(s: string)
    ensures TrimRight(s) <= s
  {
    if s != "" && IsSpace(s[|s| - 1]) {
      TrimRightIsPrefix(s[..|s| - 1]);
    }
  }

  lemma {:induction false} TrimRightKeeps(word: string, rest: string)
    requires word != "" && !IsSpace(word[|word| - 1])
    ensures word <= TrimRight(word + rest)
  {
    var s := word + rest;
    if rest != "" && IsSpace(rest[|rest| - 1]) {
      assert s[..|s| - 1] == word + rest[..|rest| - 1];
      TrimRightKeeps(word, rest[..|rest| - 1]);
    } else if rest == "" {
      assert s == word;
    }
  }

  /** What an allow-listed SSH policy puts in the file, and what it leaves. */
  lemma SshPolicyWritten(policy: string, text: string)
    requires policy in {"classical", "pqc-hybrid"} && Appendable(text)
    ensures var target := SshTarget(policy, Some(text));
            && target.Some?
            && var before, after := SplitLines(text), SplitLines(target.value);
               var algorithm := if policy == "classical" then "curve25519-sha256" else "mlkem768x25519-sha256";
               var line := "KexAlgorithms" + " " + algorithm + "\n";
               && |before| <= |after|
               && (forall i :: 0 <= i < |before| ==> after[i] == if IsKex(before[i]) then line else before[i])
               && after[|before|..] == if AnyKex(before) then [] else [line]
  {
    PoliciesAreOneLine(policy);
    RewriteTouchesOnlyKex(SSH_POLICIES[policy], text);
    ReplacementText(policy);
    hide SplitLines, IsKex, Algorithm, RewriteSsh, AnyKex, Appendable;
  }

  lemma ReplacementText(policy: string)
    requires policy in {"classical", "pqc-hybrid"}
    ensures policy in SSH_POLICIES
    ensures SSH_POLICIES[policy] == if policy == "classical" then "curve25519-sha256" else "mlkem768x25519-sha256"
  {
  }

  lemma SshTargetIff(policy: string, file: Option<string>)
    ensures SshTarget(policy, file).Some? <==> policy in {"classical", "pqc-hybrid"} && file.Some?
  {
    hide RewriteSsh;
  }

  // A command runs, or fails and leaves the daemon with some configuration.
  datatype Command = Ran | Failed(leaves: string)

  datatype Reply = NotAllowed | Missing | NoMatch | WriteFailed | DaemonFailed | Applied

  // What the host does during one call: whether the binary is there, the file can be
  // written, the new file passes its test, and each load of it succeeds.
  datatype Host = Host(binary: bool, write: bool, test: bool, load: Command, retest: bool, reload: Command)

  // What the call should make of the file: None if it is refused before the write.
  function IpsecTarget(policy: string, file: Option<string>): Option<string> {
    if policy in IPSEC_POLICIES && file.Some? then
      RewriteIpsec(IPSEC_POLICIES[policy].0, IPSEC_POLICIES[policy].1, file.value)
    else None
  }

  function SshTarget(policy: string, file: Option<string>): Option<string> {
    if policy in SSH_POLICIES && file.Some? then Some(RewriteSsh(SSH_POLICIES[policy], file.value)) else None
  }

  // A configuration file and the daemon that reads it.
  class DaemonHost {
    var file: Option<string>
    var running: string // the configuration the daemon has loaded

    constructor (file: Option<string>, running: string)
      ensures this.file == file && this.running == running
    {
      this.file, this.running := file, running;
    }

    method Load(c: Command) returns (ok: bool)
      requires file.Some?
      modifies this`running
      ensures ok == c.Ran?
      ensures running == if ok then file.value else c.leaves
    {
      ok := c.Ran?;
      running := if c.Ran? then file.value else c.leaves;
    }

    method ApplyIpsec(policy: string, host: Host) returns (reply: Reply)
      modifies this
      ensures reply.NotAllowed? <==> policy !in IPSEC_POLICIES
      ensures reply.Missing? <==> policy in IPSEC_POLICIES && (old(file).None? || !host.binary)
      ensures reply.Applied? <==> IpsecTarget(policy, old(file)).Some? && host.binary && host.write && host.load.Ran?
      ensures reply.Applied? ==> file == IpsecTarget(policy, old(file)) && running == file.value
      ensures !reply.Applied? ==> file == old(file)
      ensures old(file).Some? ==> file == Some(IpsecStep(old(file).value, Call(policy, host)))
      ensures reply.DaemonFailed? ==> file.Some? && running == if host.reload.Ran? then file.value else host.reload.leaves
      ensures !reply.Applied? && !reply.DaemonFailed? ==> running == old(running)
    {
      if policy !in IPSEC_POLICIES { return NotAllowed; }
      if file.None? || !host.binary { return Missing; }
      var config := RewriteIpsec(IPSEC_POLICIES[policy].0, IPSEC_POLICIES[policy].1, file.value);
      if config.None? { return NoMatch; }
      if !host.write { return WriteFailed; }
      var previous := file;
      file := config;
      var ok := Load(host.load);
      if !ok {
        file := previous;
        ok := Load(host.reload);
        return DaemonFailed;
      }
      return Applied;
    }

    method ApplySsh(policy: string, host: Host) returns (reply: Reply)
      modifies this
      ensures reply.NotAllowed? <==> policy !in SSH_POLICIES
      ensures reply.Missing? <==> policy in SSH_POLICIES && (old(file).None? || !host.binary)
      ensures reply.Applied? <==>
              SshTarget(policy, old(file)).Some? && host.binary && host.write && host.test && host.load.Ran?
      ensures reply.Applied? ==> file == SshTarget(policy, old(file)) && running == file.value
      ensures !reply.Applied? ==> file == old(file)
      ensures old(file).Some? ==> file == Some(SshStep(old(file).value, Call(policy, host)))
      ensures reply.DaemonFailed? ==>
                && file.Some?
                && (host.retest && host.reload.Ran? ==> running == file.value)
                && (!host.test && !host.retest ==> running == old(running))
      ensures !reply.Applied? && !reply.DaemonFailed? ==> running == old(running)
    {
      if policy !in SSH_POLICIES { return NotAllowed; }
      if file.None? || !host.binary { return Missing; }
      var updated := RewriteSsh(SSH_POLICIES[policy], file.value);
      if !host.write { return WriteFailed; }
      var previous := file;
      file := Some(updated);
      var ok := host.test;
      if ok { ok := Load(host.load); }
      if !ok {
        file := previous;
        if host.retest { ok := Load(host.reload); }
        return DaemonFailed;
      }
      return Applied;
    }
  }

  // ----- Whole histories

  datatype Call = Call(policy: string, host: Host)

  function IpsecStep(file: string, c: Call): string {
    var target := IpsecTarget(c.policy, Some(file));
    if target.Some? && c.host.binary && c.host.write && c.host.load.Ran? then target.value else file
  }

  function IpsecRun(file: string, calls: seq<Call>): string {
    if calls == [] then file else IpsecStep(IpsecRun(file, calls[..|calls| - 1]), calls[|calls| - 1])
  }

  // The last allow-listed policy whose write and load went through.
  function LastIpsec(calls: seq<Call>): (policy: Option<string>)
    ensures policy.Some? ==> policy.value in IPSEC_POLICIES
  {
    if calls == [] then None
    else
      var c := calls[|calls| - 1];
      if c.policy in IPSEC_POLICIES && c.host.binary && c.host.write && c.host.load.Ran? then Some(c.policy)
      else LastIpsec(calls[..|calls| - 1])
  }

  /** After any history of calls the file is the first file rewritten for the last policy
      that went through: no trace of the earlier ones, nor of the failed ones. */
  lemma {:induction false} IpsecHistory(file: string, calls: seq<Call>)
    ensures IpsecRun(file, calls) ==
              var last := LastIpsec(calls);
              var target := if last.Some? then IpsecTarget(last.value, Some(file)) else None;
              if target.Some? then target.value else file
  {
    if calls != [] {
      var before, c := calls[..|calls| - 1], calls[|calls| - 1];
      IpsecHistory(file, before);
      var last := LastIpsec(before);
      PoliciesAreOneLine(c.policy);
      if last.Some? { PoliciesAreOneLine(last.value); }
      hide RewriteIpsec, OneLine;
      if c.policy in IPSEC_POLICIES && last.Some? && IpsecTarget(last.value, Some(file)).Some? {
        RewriteFailsIff(IPSEC_POLICIES[c.policy].0, IPSEC_POLICIES[c.policy].1, file);
        RewriteFailsIff(IPSEC_POLICIES[last.value].0, IPSEC_POLICIES[last.value].1, file);
        LastIpsecPolicyWins(IPSEC_POLICIES[c.policy].0, IPSEC_POLICIES[c.policy].1,
                            IPSEC_POLICIES[last.value].0, IPSEC_POLICIES[last.value].1, file);
      }
    }
  }

  function SshStep(file: string, c: Call): string {
    var target := SshTarget(c.policy, Some(file));
    if target.Some? && c.host.binary && c.host.write && c.host.test && c.host.load.Ran? then target.value else file
  }

  function SshRun(file: string, calls: seq<Call>): string {
    if calls == [] then file else SshStep(SshRun(file, calls[..|calls| - 1]), calls[|calls| - 1])
  }

  function LastSsh(calls: seq<Call>): (policy: Option<string>)
    ensures policy.Some? ==> policy.value in SSH_POLICIES
  {
    if calls == [] then None
    else
      var c := calls[|calls| - 1];
      if c.policy in SSH_POLICIES && c.host.binary && c.host.write && c.host.test && c.host.load.Ran? then Some(c.policy)
      else LastSsh(calls[..|calls| - 1])
  }

  lemma {:induction false} SshHistory(file: string, calls: seq<Call>)
    requires Appendable(file)
    ensures SshRun(file, calls) ==
              if LastSsh(calls).Some? then RewriteSsh(SSH_POLICIES[LastSsh(calls).value], file) else file
  {
    if calls != [] {
      var before, c := calls[..|calls| - 1], calls[|calls| - 1];
      SshHistory(file, before);
      var last := LastSsh(before);
      if c.policy in SSH_POLICIES && last.Some? {
        LaterSshPolicyWins(c.policy, last.value, file);
      }
      hide RewriteSsh, Appendable;
    }
  }

  lemma LaterSshPolicyWins(policy: string, earlier: string, file: string)
    requires Appendable(file) && policy in SSH_POLICIES && earlier in SSH_POLICIES
    ensures RewriteSsh(SSH_POLICIES[policy], RewriteSsh(SSH_POLICIES[earlier], file)) == RewriteSsh(SSH_POLICIES[policy], file)
  {
    PoliciesAreOneLine(policy);
    PoliciesAreOneLine(earlier);
    hide RewriteSsh, Appendable, Algorithm;
    LastPolicyWinsIff(SSH_POLICIES[policy], SSH_POLICIES[earlier], file);
  }
}
