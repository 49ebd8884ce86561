/** The tailer of the NGINX access log (quansec/protocols/tls/collector.py).

    The log is a sequence of bytes whose text is valid UTF-8 with LF line ends. Turning
    the JSON text of a line into its fields is a pure partial function, a parameter. */
module Collector {
  import opened Options
  import opened Text

  type Byte = b: int | 0 <= b < 256
  type Bytes = seq<Byte>

  const LF: Byte := 10

  // ----- From a line to a session

  // The fields of a line that the statistics need, as NGINX wrote them.
  datatype Record = Record(
    occurredAt: int,
    negotiatedGroup: Option<string>,
    connectionId: Option<string>,
    listener: Option<string>,
    tlsProtocol: Option<string>,
    clientVerify: Option<string>)

  type Decoder = Bytes -> Option<Record>

  datatype Session = Session(
    occurredAt: int,
    negotiatedGroup: Option<string>,
    kemLabel: Option<string>,
    pqcEnabled: bool,
    hybridNegotiated: Option<bool>,
    connectionId: Option<string>,
    tlsProtocol: Option<string>,
    certificateVerified: Option<bool>,
    logOffset: nat)

  const PQC_GROUPS: map<string, string> := map[
    "x25519mlkem768" := "ML-KEM-768 + X25519",
    "secp256r1mlkem768" := "ML-KEM-768 + P-256",
    "secp384r1mlkem1024" := "ML-KEM-1024 + P-384",
    "mlkem512" := "ML-KEM-512",
    "mlkem768" := "ML-KEM-768",
    "mlkem1024" := "ML-KEM-1024",
    "x25519kyber768draft00" := "Kyber768 + X25519 (pre-standard)"]

  const CLASSICAL_GROUPS: map<string, string> := map[
    "x25519" := "X25519 (classical)",
    "prime256v1" := "ECDH P-256 (classical)",
    "secp256r1" := "ECDH P-256 (classical)",
    "secp384r1" := "ECDH P-384 (classical)",
    "secp521r1" := "ECDH P-521 (classical)",
    "x448" := "X448 (classical)"]

  // '-' and '' both mean that a field is not present.
  function Clean(field: Option<string>): (r: Option<string>)
    ensures r.Some? ==> r.value != [] && r.value != "-"
  {
    if field.None? || Trim(field.value) == "" || Trim(field.value) == "-" then None else Some(Trim(field.value))
  }

  function ClassifyGroup(group: Option<string>): (r: (bool, Option<string>))
    ensures r.0 ==> group.Some? && r.1.Some?
  {
    if group.None? || Trim(group.value) == "" || Trim(group.value) == "." || Trim(group.value) == "-" then (false, None)
    else
      var key := Lower(Trim(group.value));
      if key in PQC_GROUPS then (true, Some(PQC_GROUPS[key]))
      else if key in CLASSICAL_GROUPS then (false, Some(CLASSICAL_GROUPS[key]))
      else (Contains(key, "mlkem") || Contains(key, "ml-kem") || Contains(key, "kyber"), Some(Trim(group.value)))
  }

  function ConnectionId(connection: Option<string>, listener: Option<string>): Option<string> {
    match Clean(connection)
    case None => None
    case Some(conn) =>
      Some(Namespace(listener) + ":" + conn)
  }

  // The names of post-quantum key exchange.
  ghost predicate NamesPostQuantum(group: string) {
    var key := Lower(Trim(group));
    Contains(key, "mlkem") || Contains(key, "ml-kem") || Contains(key, "kyber")
  }

  lemma {:induction false} ContainsMiddle(before: string, part: string, after: string)
    ensures Contains(before + part + after, part)
  {
    var s := before + part + after;
    if before == "" {
      assert s[..|part|] == part;
    } else {
      assert s[1..] == before[1..] + part + after;
      ContainsMiddle(before[1..], part, after);
    }
  }

  lemma {:induction false} ContainsChar(s: string, part: string, c: char)
    requires c in part
    ensures Contains(s, part) ==> c in s
  {
    if StartsWith(s, part) {
      assert c in s[..|part|];
    } else if s != "" {
      ContainsChar(s[1..], part, c);
    }
  }

  // Without the letter k no text contains any of the three names.
  lemma WithoutK(key: string)
    requires 'k' !in key
    ensures !Contains(key, "mlkem") && !Contains(key, "ml-kem") && !Contains(key, "kyber")
  {
    assert "mlkem"[2] == 'k' && "ml-kem"[3] == 'k' && "kyber"[0] == 'k';
    ContainsChar(key, "mlkem", 'k');
    ContainsChar(key, "ml-kem", 'k');
    ContainsChar(key, "kyber", 'k');
  }

  lemma HybridTable(key: string)
    requires key in PQC_GROUPS
    ensures Contains(key, "mlkem") || Contains(key, "kyber")
  {
    hide Contains;
    if key == "x25519mlkem768" {
      assert "x25519mlkem768" == "x25519" + "mlkem" + "768";
      ContainsMiddle("x25519", "mlkem", "768");
    } else if key == "secp256r1mlkem768" {
      assert "secp256r1mlkem768" == "secp256r1" + "mlkem" + "768";
      ContainsMiddle("secp256r1", "mlkem", "768");
    } else if key == "secp384r1mlkem1024" {
      assert "secp384r1mlkem1024" == "secp384r1" + "mlkem" + "1024";
      ContainsMiddle("secp384r1", "mlkem", "1024");
    } else if key == "x25519kyber768draft00" {
      assert "x25519kyber768draft00" == "x25519" + "kyber" + "768draft00";
      ContainsMiddle("x25519", "kyber", "768draft00");
    } else {
      assert key == "" + "mlkem" + key[5..];
      ContainsMiddle("", "mlkem", key[5..]);
    }
  }

  lemma ClassicalTable(key: string)
    requires key in CLASSICAL_GROUPS
    ensures 'k' !in key
  {
  }

  /** A group is hybrid exactly when its name says so, whichever table it is or is not in;
      and it has a label exactly when there is a group. */
  lemma HybridIffNamed(group: Option<string>)
    ensures ClassifyGroup(group).0 <==> group.Some? && NamesPostQuantum(group.value)
    ensures ClassifyGroup(group).1.Some? <==> group.Some? && Trim(group.value) !in {"", ".", "-"}
  {
    if group.Some? {
      var key := Lower(Trim(group.value));
      if Trim(group.value) in {"", ".", "-"} {
        assert |key| == 1 ==> key[0] == LowerChar(Trim(group.value)[0]);
        WithoutK(key);
      } else if key in PQC_GROUPS {
        HybridTable(key);
      } else if key in CLASSICAL_GROUPS {
        ClassicalTable(key);
        WithoutK(key);
      }
      hide Contains, Lower, Trim;
    }
  }

  // Labels are found without regard to case; an unlisted name is its own label.
  lemma LabelOf(name: string)
    requires Trim(name) !in {"", ".", "-"}
    ensures var key := Lower(Trim(name));
            ClassifyGroup(Some(name)).1 == Some(
              if key == "x25519mlkem768" then "ML-KEM-768 + X25519"
              else if key == "secp256r1mlkem768" then "ML-KEM-768 + P-256"
              else if key == "secp384r1mlkem1024" then "ML-KEM-1024 + P-384"
              else if key == "mlkem512" then "ML-KEM-512"
              else if key == "mlkem768" then "ML-KEM-768"
              else if key == "mlkem1024" then "ML-KEM-1024"
              else if key == "x25519kyber768draft00" then "Kyber768 + X25519 (pre-standard)"
              else if key == "x25519" then "X25519 (classical)"
              else if key in {"prime256v1", "secp256r1"} then "ECDH P-256 (classical)"
              else if key == "secp384r1" then "ECDH P-384 (classical)"
              else if key == "secp521r1" then "ECDH P-521 (classical)"
              else if key == "x448" then "X448 (classical)"
              else Trim(name))
  {
    hide Contains, Lower, Trim;
  }

  // The namespace of a connection id: the listener, if the line has one.
  function Namespace(listener: Option<string>): string {
    if Clean(listener).Some? then Clean(listener).value else "unknown"
  }

  // The listener, or "unknown", a colon, and the connection; nothing without a connection.
  lemma ConnectionIdText(connection: Option<string>, listener: Option<string>)
    ensures ConnectionId(connection, listener).None? <==> connection.None? || Trim(connection.value) in {"", "-"}
    ensures ConnectionId(connection, listener).Some? ==>
              ConnectionId(connection, listener).value ==
                (if listener.Some? && Trim(listener.value) !in {"", "-"} then Trim(listener.value) else "unknown")
                + ":" + Trim(connection.value)
  {
    hide Trim;
  }

  // `middle` can be read as the end of one namespace or the start of the other's number.
  ghost predicate Shifted(a: string, x: string, b: string, y: string, middle: string) {
    b == a + ":" + middle && x == middle + ":" + y
  }

  lemma ColonSplits(a: string, x: string, b: string, y: string)
    ensures a + ":" + x == b + ":" + y && |a| < |b| ==> exists middle :: Shifted(a, x, b, y, middle)
    ensures forall middle :: Shifted(a, x, b, y, middle) ==> a + ":" + x == b + ":" + y
  {
    var s, t := a + ":" + x, b + ":" + y;
    if s == t && |a| < |b| {
      var middle := b[|a| + 1..];
      assert s[..|a|] == a && t[..|b|] == b && t[|a|] == ':';
      assert b == a + ":" + middle;
      assert x == s[|a| + 1..] && t[|a| + 1..] == middle + ":" + y;
      assert Shifted(a, x, b, y, middle);
    }
    forall middle | Shifted(a, x, b, y, middle) ensures s == t {
      assert a + ":" + (middle + ":" + y) == a + ":" + middle + ":" + y;
    }
  }

  /** Two connections share an id exactly when they have the same number on the same
      listener, or a colon lets part of one listener's name pass for the other's number. */
  lemma ConnectionIdsEqualIff(c1: Option<string>, l1: Option<string>, c2: Option<string>, l2: Option<string>)
    requires Clean(c1).Some? && Clean(c2).Some?
    ensures var a, x, b, y := Namespace(l1), Clean(c1).value, Namespace(l2), Clean(c2).value;
            ConnectionId(c1, l1) == ConnectionId(c2, l2) <==>
              || (a == b && x == y)
              || (exists middle :: Shifted(a, x, b, y, middle))
              || (exists middle :: Shifted(b, y, a, x, middle))
  {
    var a, x, b, y := Namespace(l1), Clean(c1).value, Namespace(l2), Clean(c2).value;
    assert ConnectionId(c1, l1) == Some(a + ":" + x) && ConnectionId(c2, l2) == Some(b + ":" + y);
    hide Clean, Namespace, ConnectionId;
    ColonSplits(a, x, b, y);
    ColonSplits(b, y, a, x);
    if a + ":" + x == b + ":" + y && |a| == |b| {
      SameLengthSame(a, x, b, y);
    }
  }

  lemma SameLengthSame(a: string, x: string, b: string, y: string)
    requires a + ":" + x == b + ":" + y && |a| == |b|
    ensures a == b && x == y
  {
    assert a == (a + ":" + x)[..|a|] && b == (b + ":" + y)[..|b|];
    assert x == (a + ":" + x)[|a| + 1..] && y == (b + ":" + y)[|b| + 1..];
  }

  // Listeners are ports and connections are numbers: without colons ids are distinct.
  lemma ConnectionIdsDistinct(c1: Option<string>, l1: Option<string>, c2: Option<string>, l2: Option<string>)
    requires ConnectionId(c1, l1).Some? && ConnectionId(c1, l1) == ConnectionId(c2, l2)
    requires (':' !in Namespace(l1) && ':' !in Namespace(l2)) || (':' !in Clean(c1).value && ':' !in Clean(c2).value)
    ensures Namespace(l1) == Namespace(l2) && Clean(c1) == Clean(c2)
  {
    ConnectionIdsEqualIff(c1, l1, c2, l2);
    forall a: string, x: string, b: string, y: string, middle: string | Shifted(a, x, b, y, middle)
      ensures ':' in b && ':' in x
    {
      assert b[|a|] == ':' && x[|middle|] == ':';
    }
  }

  function VerifyResult(raw: Option<string>): Option<bool> {
    match Clean(raw)
    case None => None
    case Some(value) => if Lower(value) == "none" then None else Some(Lower(value) == "success")
  }

  // NGINX writes NONE when it asked for no certificate, and SUCCESS when one was good.
  lemma VerifyResultMeans(raw: Option<string>)
    ensures VerifyResult(raw).None? <==> raw.None? || Lower(Trim(raw.value)) in {"", "-", "none"}
    ensures VerifyResult(raw) == Some(true) <==> raw.Some? && Lower(Trim(raw.value)) == "success"
  {
    if raw.Some? {
      ShortLower(Trim(raw.value));
    }
  }

  lemma ShortLower(s: string)
    ensures Lower(s) == "" <==> s == ""
    ensures Lower(s) == "-" <==> s == "-"
  {
    if |s| == 1 {
      assert Lower(s)[0] == LowerChar(s[0]);
    }
  }

  function ParseLine(decode: Decoder, line: Bytes, offset: nat): Option<Session> {
    match decode(line)
    case None => None
    case Some(record) =>
      var group := Clean(record.negotiatedGroup);
      var (pqc, kem) := ClassifyGroup(group);
      Some(Session(
        record.occurredAt, group, kem, pqc, if group.Some? then Some(pqc) else None,
        ConnectionId(record.connectionId, record.listener), Clean(record.tlsProtocol),
        VerifyResult(record.clientVerify), offset))
  }

  /** Every line that decodes becomes a session of its own offset, with the fields of that
      line; whether it was hybrid is unknown only without a group. */
  lemma ParsedFields(decode: Decoder, line: Bytes, offset: nat)
    ensures ParseLine(decode, line, offset).Some? <==> decode(line).Some?
    ensures decode(line).Some? ==>
              var r, s := decode(line).value, ParseLine(decode, line, offset).value;
              && s.logOffset == offset && s.occurredAt == r.occurredAt
              && (s.negotiatedGroup.None? <==> r.negotiatedGroup.None? || Trim(r.negotiatedGroup.value) in {"", "-"})
              && (s.negotiatedGroup.Some? ==> s.negotiatedGroup.value == Trim(r.negotiatedGroup.value))
              && (s.tlsProtocol.None? <==> r.tlsProtocol.None? || Trim(r.tlsProtocol.value) in {"", "-"})
              && (s.tlsProtocol.Some? ==> s.tlsProtocol.value == Trim(r.tlsProtocol.value))
              && s.connectionId == ConnectionId(r.connectionId, r.listener)
              && s.certificateVerified == VerifyResult(r.clientVerify)
              && (s.hybridNegotiated.None? <==> s.negotiatedGroup.None?)
              && (s.pqcEnabled <==> s.hybridNegotiated == Some(true))
              && (s.pqcEnabled <==> s.negotiatedGroup.Some? && NamesPostQuantum(s.negotiatedGroup.value))
  {
    if decode(line).Some? {
      HybridIffNamed(Clean(decode(line).value.negotiatedGroup));
    }
    hide NamesPostQuantum, VerifyResult, ConnectionId, Trim;
  }

  /** The one group that is stored although `classify_group` takes it for no group. */
  lemma DotIsTheOnlyUnlabelled(decode: Decoder, line: Bytes, offset: nat)
    requires ParseLine(decode, line, offset).Some?
    ensures var s := ParseLine(decode, line, offset).value;
            && (s.negotiatedGroup.Some? && s.kemLabel.None? <==> s.negotiatedGroup == Some("."))
            && (s.kemLabel.Some? ==> s.negotiatedGroup.Some?)
  {
    var group := Clean(decode(line).value.negotiatedGroup);
    if group.Some? {
      TrimIsTrimmed(decode(line).value.negotiatedGroup.value);
      TrimTrimmed(group.value);
    }
  }

  // ----- What the log says: the complete line starting at a byte offset, and its row

  ghost predicate LineStart(file: Bytes, o: nat) {
    o == 0 || (o <= |file| && file[o - 1] == LF)
  }

  ghost function LineAt(file: Bytes, o: nat): Option<Bytes> {
    if o <= |file| && LineStart(file, o) then FirstPiece(file[o..], LF) else None
  }

  ghost function RowAt(decode: Decoder, file: Bytes, o: nat): Option<Session> {
    match LineAt(file, o)
    case None => None
    case Some(line) => ParseLine(decode, line, o)
  }

  // Appending to the log completes lines but changes none.
  lemma AppendKeepsLines(decode: Decoder, file: Bytes, more: Bytes, o: nat)
    ensures LineAt(file, o).Some? ==> LineAt(file + more, o) == LineAt(file, o)
    ensures RowAt(decode, file, o).Some? ==> RowAt(decode, file + more, o) == RowAt(decode, file, o)
  {
    if LineAt(file, o).Some? {
      FirstPieceStays(file[o..], more, LF);
      assert (file + more)[o..] == file[o..] + more;
      assert LineStart(file + more, o);
    }
  }

  // ----- Reading complete lines from an offset

  // Every complete line from `pos` on, with the offset of its first byte.
  ghost function Lines(file: Bytes, pos: nat): seq<(nat, Bytes)>
    requires pos <= |file|
    decreases |file| - pos
  {
    match FirstPiece(file[pos..], LF)
    case None => []
    case Some(line) => [(pos, line)] + Lines(file, pos + |line| + 1)
  }

  ghost function EndOfLines(file: Bytes, pos: nat): (end: nat)
    requires pos <= |file|
    ensures pos <= end <= |file|
    decreases |file| - pos
  {
    match FirstPiece(file[pos..], LF)
    case None => pos
    case Some(line) => EndOfLines(file, pos + |line| + 1)
  }

  lemma FirstLine(file: Bytes, pos: nat)
    requires pos <= |file|
    ensures match FirstPiece(file[pos..], LF)
            case None => Lines(file, pos) == [] && EndOfLines(file, pos) == pos
            case Some(line) =>
              var next := pos + |line| + 1;
              && next <= |file| && file[next..] == file[pos..][|line| + 1..]
              && Lines(file, pos) == [(pos, line)] + Lines(file, next)
              && EndOfLines(file, pos) == EndOfLines(file, next)
  {
    var first := FirstPiece(file[pos..], LF);
    hide FirstPiece;
    if first.Some? {
      assert file[pos + |first.value| + 1..] == file[pos..][|first.value| + 1..];
    }
  }

  // One step of the loop over the pieces is one line.
  lemma NextLine(file: Bytes, pos: nat, pieces: seq<Bytes>)
    requires pos <= |file| && pieces == Split(file[pos..], LF)
    ensures |pieces| == 1 ==> Lines(file, pos) == [] && EndOfLines(file, pos) == pos
    ensures |pieces| > 1 ==> var next := pos + |pieces[0]| + 1;
                             && next <= |file|
                             && pieces[1..] == Split(file[next..], LF)
                             && Lines(file, pos) == [(pos, pieces[0])] + Lines(file, next)
                             && EndOfLines(file, pos) == EndOfLines(file, next)
  {
    hide Split, FirstPiece, Lines, EndOfLines;
    SplitStep(file[pos..], LF);
    FirstLine(file, pos);
  }

  /** The reader: whether the log is there, the size stat() saw (0 if it failed), the
      stored offset, and the log when it is read, if it can be. It may have been cut
      short in between; reading past its end gives nothing. */
  method ReadFrom(present: bool, size: nat, stored: nat, file: Option<Bytes>)
    returns (lines: seq<(nat, Bytes)>, next: nat)
    ensures var from := if present && size < stored then 0 else stored;
            if !present || size == from || file.None? || from > |file.value| then lines == [] && next == from
            else lines == Lines(file.value, from) && next == EndOfLines(file.value, from)
  {
    hide Lines, EndOfLines, Split;
    lines := [];
    if !present {
      return [], stored;
    }
    var offset := stored;
    if size < offset {
      offset := 0;
    }
    if size == offset {
      return [], offset;
    }
    if file.None? {
      return [], offset;
    }
    if offset > |file.value| {
      return [], offset;
    }
    var data := file.value[offset..];
    var position := offset;
    var pieces := Split(data, LF);
    var complete := pieces[..|pieces| - 1];
    var i := 0;
    assert pieces[0..] == pieces;
    while i < |complete|
      invariant 0 <= i <= |complete|
      invariant offset <= position <= |file.value|
      invariant pieces[i..] == Split(file.value[position..], LF)
      invariant Lines(file.value, offset) == lines + Lines(file.value, position)
      invariant EndOfLines(file.value, offset) == EndOfLines(file.value, position)
    {
      NextLine(file.value, position, pieces[i..]);
      assert complete[i] == pieces[i..][0];
      assert pieces[i + 1..] == pieces[i..][1..];
      lines := lines + [(position, complete[i])];
      position := position + |complete[i]| + 1;
      i := i + 1;
    }
    NextLine(file.value, position, pieces[i..]);
    return lines, position;
  }

  // From a line start, the lines read are exactly the complete lines from there on,
  // each under its own offset, and reading stops at the start of the first incomplete one.
  lemma {:induction false} LinesAreExact(file: Bytes, pos: nat)
    requires pos <= |file| && LineStart(file, pos)
    ensures LineStart(file, EndOfLines(file, pos))
    ensures forall o :: o >= EndOfLines(file, pos) ==> LineAt(file, o).None?
    ensures forall i :: 0 <= i < |Lines(file, pos)| ==>
              && pos <= Lines(file, pos)[i].0 < EndOfLines(file, pos)
              && LineAt(file, Lines(file, pos)[i].0) == Some(Lines(file, pos)[i].1)
    ensures forall o :: o >= pos && LineAt(file, o).Some? ==> (o, LineAt(file, o).value) in Lines(file, pos)
    decreases |file| - pos
  {
    match FirstPiece(file[pos..], LF)
    case None =>
      forall o | o >= pos ensures LineAt(file, o).None? {
        if o <= |file| { assert file[o..] == file[pos..][o - pos..]; }
      }
    case Some(line) =>
      var next := pos + |line| + 1;
      assert file[next - 1] == LF;
      LinesAreExact(file, next);
      forall o | pos < o < next ensures !LineStart(file, o) {
        assert line[o - 1 - pos] == file[o - 1];
      }
      assert LineAt(file, pos) == Some(line);
      assert Lines(file, pos)[0] == (pos, line);
      assert Lines(file, pos) == [(pos, line)] + Lines(file, next);
  }

  // ----- Collection cycles

  datatype State = State(file: Bytes, offset: nat, table: map<nat, Session>)

  // The rows parsed from lines, in order.
  function Parsed(decode: Decoder, lines: seq<(nat, Bytes)>): seq<Session> {
    if lines == [] then []
    else
      var first := ParseLine(decode, lines[0].1, lines[0].0);
      (if first.Some? then [first.value] else []) + Parsed(decode, lines[1..])
  }

  // INSERT ... ON CONFLICT DO NOTHING, keyed by the offset.
  function Inserted(table: map<nat, Session>, sessions: seq<Session>): map<nat, Session>
    decreases |sessions|
  {
    if sessions == [] then table
    else
      var s := sessions[0];
      Inserted(if s.logOffset in table then table else table[s.logOffset := s], sessions[1..])
  }

  /** What a cycle finds: the module is disabled or the log is not there; or a size,
      and whether the log can then be read. */
  datatype Look = Skipped | Looked(size: nat, readable: bool)

  /** How a cycle ends: completed, or crashed after some of the inserts. */
  datatype Ending = Completed | Crashed(rows: nat)

  ghost function Collected(decode: Decoder, s: State, look: Look, ending: Ending): State {
    match look
    case Skipped => s
    case Looked(size, readable) =>
      var from := if size < s.offset then 0 else s.offset;
      if size == from || !readable || from > |s.file| then (if ending.Completed? then s.(offset := from) else s)
      else
        var sessions := Parsed(decode, Lines(s.file, from));
        match ending
        case Completed => s.(offset := EndOfLines(s.file, from), table := Inserted(s.table, sessions))
        case Crashed(rows) => s.(table := Inserted(s.table, sessions[..if rows < |sessions| then rows else |sessions|]))
  }

  // A completed cycle that sees the whole log.
  ghost function CaughtUp(decode: Decoder, s: State): State {
    Collected(decode, s, Looked(|s.file|, true), Completed)
  }

  class LogCollector {
    const decode: Decoder
    var file: Bytes
    var offset: nat
    var table: map<nat, Session>

    constructor (decode: Decoder, file: Bytes)
      ensures this.decode == decode && Contents() == State(file, 0, map[])
    {
      this.decode, this.file, offset, table := decode, file, 0, map[];
    }

    function Contents(): State
      reads this
    {
      State(file, offset, table)
    }

    method Append(more: Bytes)
      modifies this`file
      ensures Contents() == old(Contents()).(file := old(file) + more)
    {
      file := file + more;
    }

    method InsertSessions(sessions: seq<Session>) returns (inserted: nat)
      modifies this`table
      ensures table == Inserted(old(table), sessions)
      ensures |table| == |old(table)| + inserted
    {
      inserted := 0;
      var i := 0;
      assert sessions[0..] == sessions;
      while i < |sessions|
        invariant 0 <= i <= |sessions|
        invariant Inserted(old(table), sessions) == Inserted(table, sessions[i..])
        invariant |table| == |old(table)| + inserted
      {
        var s := sessions[i];
        assert sessions[i..][1..] == sessions[i + 1..];
        if s.logOffset !in table {
          table := table[s.logOffset := s];
          inserted := inserted + 1;
        }
        i := i + 1;
      }
    }

    method ParseLines(lines: seq<(nat, Bytes)>) returns (parsed: seq<Session>)
      ensures parsed == Parsed(decode, lines)
    {
      parsed := [];
      var i := 0;
      assert lines[0..] == lines;
      while i < |lines|
        invariant 0 <= i <= |lines|
        invariant Parsed(decode, lines) == parsed + Parsed(decode, lines[i..])
      {
        var session := ParseLine(decode, lines[i].1, lines[i].0);
        assert lines[i..][1..] == lines[i + 1..];
        if session.Some? {
          parsed := parsed + [session.value];
        }
        i := i + 1;
      }
    }

    method CollectOnce(enabled: bool, present: bool, size: nat, readable: bool, ending: Ending) returns (inserted: nat)
      modifies this`offset, this`table
      ensures Contents() ==
              Collected(decode, old(Contents()), if enabled && present then Looked(size, readable) else Skipped, ending)
      ensures |table| == |old(table)| + inserted
    {
      if !enabled {
        return 0;
      }
      if !present {
        return 0;
      }
      var lines, next := ReadFrom(true, size, offset, if readable then Some(file) else None);
      if lines == [] {
        if next != offset && ending.Completed? {
          offset := next;
        }
        return 0;
      }
      var parsed := ParseLines(lines);
      match ending {
        case Crashed(rows) =>
          inserted := InsertSessions(parsed[..if rows < |parsed| then rows else |parsed|]);
        case Completed =>
          inserted := InsertSessions(parsed);
          offset := next;
      }
    }
  }

  // ----- What every schedule of appends, cycles and crashes keeps

  ghost predicate Sound(decode: Decoder, s: State) {
    && s.offset <= |s.file| && LineStart(s.file, s.offset)
    && (forall o :: o in s.table ==> RowAt(decode, s.file, o) == Some(s.table[o]))
    && (forall o: nat :: o < s.offset && RowAt(decode, s.file, o).Some? ==> o in s.table)
  }

  datatype Event =
    | Appended(more: Bytes)              // NGINX writes, possibly half a line
    | Cycle(look: Look, ending: Ending)  // the size seen may be out of date, or 0

  ghost function Happens(decode: Decoder, s: State, e: Event): State {
    match e
    case Appended(more) => s.(file := s.file + more)
    case Cycle(look, ending) => Collected(decode, s, look, ending)
  }

  ghost predicate HasRow(rows: seq<Session>, o: nat) {
    exists i :: 0 <= i < |rows| && rows[i].logOffset == o
  }

  // The rows parsed from lines read at distinct offsets.
  lemma {:induction false} ParsedRows(decode: Decoder, file: Bytes, lines: seq<(nat, Bytes)>)
    requires forall i :: 0 <= i < |lines| ==> LineAt(file, lines[i].0) == Some(lines[i].1)
    ensures forall i :: 0 <= i < |Parsed(decode, lines)| ==>
              RowAt(decode, file, Parsed(decode, lines)[i].logOffset) == Some(Parsed(decode, lines)[i])
    ensures forall i :: 0 <= i < |lines| && RowAt(decode, file, lines[i].0).Some? ==> HasRow(Parsed(decode, lines), lines[i].0)
  {
    if lines != [] {
      ParsedRows(decode, file, lines[1..]);
      var first := ParseLine(decode, lines[0].1, lines[0].0);
      var rest := Parsed(decode, lines[1..]);
      var rows := Parsed(decode, lines);
      assert rows == (if first.Some? then [first.value] else []) + rest;
      forall i | 0 <= i < |lines| && RowAt(decode, file, lines[i].0).Some? ensures HasRow(rows, lines[i].0) {
        if i == 0 {
          assert rows[0].logOffset == lines[0].0;
        } else {
          assert lines[1..][i - 1] == lines[i];
          var k :| 0 <= k < |rest| && rest[k].logOffset == lines[i].0;
          assert rows[if first.Some? then k + 1 else k].logOffset == lines[i].0;
        }
      }
    }
  }

  // Inserting adds the rows whose offset is not taken, and overwrites none.
  lemma {:induction false} InsertedRows(table: map<nat, Session>, rows: seq<Session>)
    ensures forall o :: o in Inserted(table, rows) <==> o in table || HasRow(rows, o)
    ensures forall o :: o in table ==> Inserted(table, rows)[o] == table[o]
    ensures forall o :: o in Inserted(table, rows) && o !in table ==> Inserted(table, rows)[o] in rows && Inserted(table, rows)[o].logOffset == o
    decreases |rows|
  {
    if rows != [] {
      var s := rows[0];
      var table' := if s.logOffset in table then table else table[s.logOffset := s];
      InsertedRows(table', rows[1..]);
      forall o ensures HasRow(rows, o) <==> s.logOffset == o || HasRow(rows[1..], o) {
        if HasRow(rows[1..], o) {
          var i :| 0 <= i < |rows[1..]| && rows[1..][i].logOffset == o;
          assert rows[i + 1].logOffset == o;
        }
        if s.logOffset == o { assert rows[0].logOffset == o; }
        if HasRow(rows, o) && s.logOffset != o {
          var i :| 0 <= i < |rows| && rows[i].logOffset == o;
          assert rows[1..][i - 1].logOffset == o;
        }
      }
    }
  }

  // What a reading from a line start adds to the table, completely or in part.
  lemma ReadingAdds(decode: Decoder, file: Bytes, from: nat, table: map<nat, Session>, rows: seq<Session>)
    requires from <= |file| && LineStart(file, from)
    requires rows <= Parsed(decode, Lines(file, from))
    ensures var table' := Inserted(table, rows);
            && (forall o :: o in table ==> o in table' && table'[o] == table[o])
            && (forall o :: o in table' && o !in table ==> RowAt(decode, file, o) == Some(table'[o]))
            && (rows == Parsed(decode, Lines(file, from)) ==>
                  forall o :: o >= from && RowAt(decode, file, o).Some? ==> o in table')
  {
    var all := Parsed(decode, Lines(file, from));
    LinesAreExact(file, from);
    ParsedRows(decode, file, Lines(file, from));
    InsertedRows(table, rows);
    var table' := Inserted(table, rows);
    forall o | o in table' && o !in table ensures RowAt(decode, file, o) == Some(table'[o]) {
      var i :| 0 <= i < |rows| && rows[i] == table'[o];
      assert all[i] == rows[i];
    }
    forall o | rows == all && o >= from && RowAt(decode, file, o).Some? ensures o in table' {
      var i :| 0 <= i < |Lines(file, from)| && Lines(file, from)[i] == (o, LineAt(file, o).value);
      assert HasRow(all, Lines(file, from)[i].0);
    }
  }

  /** Appending, collecting, and crashing at any point between the inserts and the
      offset write all keep the table sound: the stored offset is at a line start,
      every row is that of the line at its offset, and no row before the offset is missing. */
  lemma StaysSound(decode: Decoder, s: State, e: Event)
    requires Sound(decode, s)
    ensures Sound(decode, Happens(decode, s, e))
  {
    match e
    case Appended(more) =>
      AppendStaysSound(decode, s, more);
    case Cycle(look, ending) =>
      if look.Looked? {
        CycleStaysSound(decode, s, look, ending);
      }
  }

  lemma CycleStaysSound(decode: Decoder, s: State, look: Look, ending: Ending)
    requires Sound(decode, s) && look.Looked?
    ensures Sound(decode, Collected(decode, s, look, ending))
  {
    var from := if look.size < s.offset then 0 else s.offset;
    var all := Parsed(decode, Lines(s.file, from));
    LinesAreExact(s.file, from);
    hide Sound, Parsed, Lines, EndOfLines, LineAt, LineStart, RowAt, Inserted;
    BackToStart(decode, s);
    var rows := match ending case Completed => all case Crashed(n) => all[..if n < |all| then n else |all|];
    PartlyRead(decode, s, from, rows);
    if ending.Completed? {
      FullyRead(decode, s, from);
    }
  }

  lemma BackToStart(decode: Decoder, s: State)
    requires Sound(decode, s)
    ensures LineStart(s.file, 0) && Sound(decode, s.(offset := 0))
  {
  }

  lemma PartlyRead(decode: Decoder, s: State, from: nat, rows: seq<Session>)
    requires Sound(decode, s) && from <= |s.file| && LineStart(s.file, from)
    requires rows <= Parsed(decode, Lines(s.file, from))
    ensures Sound(decode, s.(table := Inserted(s.table, rows)))
  {
    hide Parsed, Lines, EndOfLines, LineAt, LineStart, RowAt, Inserted;
    ReadingAdds(decode, s.file, from, s.table, rows);
  }

  lemma FullyRead(decode: Decoder, s: State, from: nat)
    requires Sound(decode, s) && (from == 0 || from == s.offset)
    requires from <= |s.file| && LineStart(s.file, from)
    ensures Sound(decode, s.(offset := EndOfLines(s.file, from), table := Inserted(s.table, Parsed(decode, Lines(s.file, from)))))
  {
    LinesAreExact(s.file, from);
    hide Parsed, Lines, EndOfLines, LineAt, LineStart, RowAt, Inserted;
    ReadingAdds(decode, s.file, from, s.table, Parsed(decode, Lines(s.file, from)));
  }

  lemma AppendStaysSound(decode: Decoder, s: State, more: Bytes)
    requires Sound(decode, s)
    ensures Sound(decode, s.(file := s.file + more))
  {
    var s' := s.(file := s.file + more);
    forall o | o in s'.table ensures RowAt(decode, s'.file, o) == Some(s'.table[o]) {
      AppendKeepsLines(decode, s.file, more, o);
    }
    forall o: nat | o < s.offset && RowAt(decode, s'.file, o).Some? ensures o in s'.table {
      AppendKeepsLines(decode, s.file, more, o);
      CompleteBeforeLineStart(s.file, more, s.offset, o);
    }
  }

  // Before a line start every line is complete already.
  lemma CompleteBeforeLineStart(file: Bytes, more: Bytes, start: nat, o: nat)
    requires start <= |file| && LineStart(file, start) && o < start
    ensures LineAt(file + more, o).Some? ==> LineAt(file, o) == LineAt(file + more, o)
  {
    if LineAt(file + more, o).Some? {
      assert LineStart(file, o);
      assert file[o..][start - 1 - o] == LF;
      FirstPieceStays(file[o..], more, LF);
      assert (file + more)[o..] == file[o..] + more;
    }
  }

  // One row per parseable complete line, under its true offset, and nothing left to read.
  ghost predicate Complete(decode: Decoder, s: State) {
    && (forall o: nat :: o in s.table <==> RowAt(decode, s.file, o).Some?)
    && (forall o :: o in s.table ==> RowAt(decode, s.file, o) == Some(s.table[o]))
    && s.offset <= |s.file| && LineStart(s.file, s.offset)
    && (forall o: nat :: o >= s.offset ==> LineAt(s.file, o).None?)
  }

  /** A completed cycle leaves exactly one row per parseable complete line of the log,
      keyed by the true byte offset of that line, and its offset after the last of them. */
  lemma CycleIsComplete(decode: Decoder, s: State)
    requires Sound(decode, s)
    ensures CaughtUp(decode, s).file == s.file && Complete(decode, CaughtUp(decode, s))
  {
    LinesAreExact(s.file, s.offset);
    if |s.file| != s.offset {
      ReadingAdds(decode, s.file, s.offset, s.table, Parsed(decode, Lines(s.file, s.offset)));
    } else {
      assert EndOfLines(s.file, s.offset) == s.offset;
    }
  }

  /** Any completed cycle that reads the log leaves it recorded to the last complete line,
      however stale the size it saw; one that saw nothing new records nothing. */
  lemma CompletedReadIsComplete(decode: Decoder, s: State, size: nat)
    requires Sound(decode, s)
    ensures var s' := Collected(decode, s, Looked(size, true), Completed);
            if size == s.offset then s' == s
            else if size == 0 then s' == s.(offset := 0)
            else Complete(decode, s')
  {
    var from := if size < s.offset then 0 else s.offset;
    if size != from {
      LinesAreExact(s.file, from);
      hide Sound, Parsed, Lines, EndOfLines, LineAt, LineStart, RowAt, Inserted;
      BackToStart(decode, s);
      ReadToEnd(decode, s.(offset := from));
    }
  }

  lemma ReadToEnd(decode: Decoder, s: State)
    requires Sound(decode, s)
    ensures s.offset <= |s.file| && Complete(decode, s.(offset := EndOfLines(s.file, s.offset),
                                table := Inserted(s.table, Parsed(decode, Lines(s.file, s.offset)))))
  {
    assert s.offset <= |s.file|;
    hide Sound, Complete, LineAt, LineStart, RowAt, Inserted, Parsed, Lines, EndOfLines;
    CycleIsComplete(decode, s);
    if |s.file| == s.offset {
      NothingToRead(s.file);
      InsertsNothing(decode, s.table);
    }
  }

  lemma NothingToRead(file: Bytes)
    ensures Lines(file, |file|) == [] && EndOfLines(file, |file|) == |file|
  {
  }

  lemma InsertsNothing(decode: Decoder, table: map<nat, Session>)
    ensures Parsed(decode, []) == [] && Inserted(table, []) == table
  {
  }

  /** A cycle that does not complete never moves the offset; one that cannot look or read
      records nothing; and one that crashes after n rows has recorded the first n lines
      that decode, of those it read. */
  lemma FailedCycles(decode: Decoder, s: State, size: nat, readable: bool, ending: Ending, n: nat)
    requires Sound(decode, s)
    ensures Collected(decode, s, Skipped, ending) == s
    ensures Collected(decode, s, Looked(size, false), ending).table == s.table
    ensures Collected(decode, s, Looked(size, readable), Crashed(n)).offset == s.offset
    ensures size > s.offset ==>
              var rows := Parsed(decode, Lines(s.file, s.offset));
              var table := Collected(decode, s, Looked(size, true), Crashed(n)).table;
              forall i :: 0 <= i < |rows| && i < n ==> rows[i].logOffset in table
  {
    if size > s.offset {
      var rows := Parsed(decode, Lines(s.file, s.offset));
      var some := rows[..if n < |rows| then n else |rows|];
      InsertedRows(s.table, some);
      forall i | 0 <= i < |rows| && i < n ensures HasRow(some, rows[i].logOffset) {
        assert some[i] == rows[i];
      }
    }
  }

  ghost function After(decode: Decoder, s: State, events: seq<Event>): State
    decreases |events|
  {
    if events == [] then s else After(decode, Happens(decode, s, events[0]), events[1..])
  }

  lemma {:induction false} RunsStaySound(decode: Decoder, s: State, events: seq<Event>)
    requires Sound(decode, s)
    ensures Sound(decode, After(decode, s, events))
    decreases |events|
  {
    if events != [] {
      StaysSound(decode, s, events[0]);
      RunsStaySound(decode, Happens(decode, s, events[0]), events[1..]);
    }
  }

  // Collection starts with an empty table at offset 0, whatever the log holds.
  lemma StartIsSound(decode: Decoder, file: Bytes)
    ensures Sound(decode, State(file, 0, map[]))
  {
  }

  /** From the start, whatever is appended, in whatever pieces, and however many cycles
      run, fail or crash: the next completed cycle leaves exactly the complete lines. */
  lemma CollectionIsExact(decode: Decoder, file: Bytes, events: seq<Event>)
    ensures Complete(decode, CaughtUp(decode, After(decode, State(file, 0, map[]), events)))
  {
    hide *;
    StartIsSound(decode, file);
    RunsStaySound(decode, State(file, 0, map[]), events);
    CycleIsComplete(decode, After(decode, State(file, 0, map[]), events));
  }

  lemma NothingAfterEnd(file: Bytes, end: nat)
    requires end <= |file| && LineStart(file, end) && LineAt(file, end).None?
    ensures forall k :: end <= k < |file| ==> file[k] != LF
  {
    forall k | end <= k < |file| ensures file[k] != LF {
      assert file[end..][k - end] == file[k];
    }
  }

  lemma CompleteIsUnique(decode: Decoder, s: State, t: State)
    requires Complete(decode, s) && Complete(decode, t) && s.file == t.file
    ensures s == t
  {
    hide RowAt;
    assert LineAt(s.file, s.offset).None? && LineAt(t.file, t.offset).None?;
    NothingAfterEnd(s.file, s.offset);
    NothingAfterEnd(t.file, t.offset);
    assert s.table == t.table;
  }

  /** So two schedules that end with the same log and a completed cycle end with the
      same table: neither the timing of the cycles nor any crash leaves a trace. */
  lemma ScheduleLeavesNoTrace(decode: Decoder, start: State, one: seq<Event>, two: seq<Event>)
    requires Sound(decode, start)
    requires After(decode, start, one).file == After(decode, start, two).file
    ensures CaughtUp(decode, After(decode, start, one)) == CaughtUp(decode, After(decode, start, two))
  {
    RunsStaySound(decode, start, one);
    RunsStaySound(decode, start, two);
    hide *;
    var s, t := After(decode, start, one), After(decode, start, two);
    CycleIsComplete(decode, s);
    CycleIsComplete(decode, t);
    CompleteIsUnique(decode, CaughtUp(decode, s), CaughtUp(decode, t));
  }

  // ----- After a rotation

  /** A rotation that is noticed, because the new log is shorter than the stored offset,
      restarts at 0; each line of the new log then has a row, which is that of the old
      log where one was recorded at the same offset. */
  lemma RotationKeepsOldRows(decode: Decoder, s: State, log: Bytes)
    requires Sound(decode, s) && 0 < |log| < s.offset
    ensures var s' := CaughtUp(decode, s.(file := log));
            forall o: nat :: RowAt(decode, log, o).Some? ==>
              && o in s'.table
              && s'.table[o] == if o in s.table then s.table[o] else RowAt(decode, log, o).value
  {
    ReadingAdds(decode, log, 0, s.table, Parsed(decode, Lines(log, 0)));
  }

  // Every line of the log has its own row.
  ghost predicate Recorded(decode: Decoder, log: Bytes, table: map<nat, Session>) {
    forall o: nat :: RowAt(decode, log, o).Some? ==> o in table && table[o] == RowAt(decode, log, o).value
  }

  /** So the new log is recorded in full exactly when, wherever both logs have a line
      starting at the same offset, the two lines give the same row. */
  lemma RotationIsCompleteIff(decode: Decoder, s: State, log: Bytes)
    requires Sound(decode, s) && 0 < |log| < s.offset
    ensures Recorded(decode, log, CaughtUp(decode, s.(file := log)).table) <==>
            forall o: nat :: o in s.table && RowAt(decode, log, o).Some? ==>
              RowAt(decode, s.file, o) == RowAt(decode, log, o)
  {
    RotationKeepsOldRows(decode, s, log);
    hide RowAt, CaughtUp;
  }

  /** The first line of a rotated log is never recorded, if the old log began with a
      parseable line too: offset 0 is taken. */
  lemma RotationDropsFirstLine(decode: Decoder, s: State, log: Bytes)
    requires Sound(decode, s) && 0 < |log| < s.offset
    requires RowAt(decode, s.file, 0).Some? && RowAt(decode, log, 0).Some?
    ensures var table := CaughtUp(decode, s.(file := log)).table;
            0 in table && table[0] == RowAt(decode, s.file, 0).value
  {
    RotationKeepsOldRows(decode, s, log);
    hide RowAt, CaughtUp;
  }

  lemma FirstRow(decode: Decoder, line: Bytes)
    requires LF !in line
    ensures RowAt(decode, line + [LF], 0) == ParseLine(decode, line, 0)
  {
    FirstPieceOfJoin(line, LF, []);
    assert (line + [LF])[0..] == line + [LF] + [];
  }

  // A complete state is sound, and of a log that ends in a line feed nothing is left to read.
  lemma CompleteIsSound(decode: Decoder, s: State)
    requires Complete(decode, s)
    ensures Sound(decode, s)
    ensures s.file != [] && s.file[|s.file| - 1] == LF ==> s.offset == |s.file|
  {
    hide RowAt;
    assert LineAt(s.file, s.offset).None?;
    NothingAfterEnd(s.file, s.offset);
  }

  // For instance: an old log of one line, "a", and a new one of one empty line.
  lemma RotationLosesALine() returns (decode: Decoder, s: State, log: Bytes)
    ensures s == CaughtUp(decode, State([97, LF], 0, map[])) && log == [LF]
    ensures !Recorded(decode, log, CaughtUp(decode, s.(file := log)).table)
  {
    decode := (line: Bytes) => Some(Record(|line|, None, None, None, None, None));
    var start := State([97, LF], 0, map[]);
    s, log := CaughtUp(decode, start), [LF];
    StartIsSound(decode, start.file);
    FirstRow(decode, [97]);
    FirstRow(decode, []);
    assert [97] + [LF] == start.file && [] + [LF] == log;
    assert ParseLine(decode, [97], 0).value.occurredAt == 1 && ParseLine(decode, [], 0).value.occurredAt == 0;
    hide RowAt, ParseLine, CaughtUp, LineAt, LineStart, Sound;
    CycleIsComplete(decode, start);
    CompleteIsSound(decode, s);
    RotationIsCompleteIff(decode, s, log);
  }
}
