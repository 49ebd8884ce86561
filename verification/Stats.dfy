/** Counts over the recorded sessions (quansec/protocols/tls/stats.py): one session per
    connection, classified by its strongest evidence. */
module Stats {
  import opened Options
  import opened Text
  import opened Collector

  type Sessions = map<nat, Session>

  // COALESCE(connection_id, 'row:' || id): a row without connection stands for itself.
  datatype Sid = Connection(id: string) | RowOnly(row: nat)

  datatype Class = Unknown | Classical | Hybrid

  datatype TlsStats = TlsStats(total: nat, hybrid: nat, classical: nat, unknown: nat)

  function SidOf(row: nat, s: Session): Sid {
    if s.connectionId.Some? then Connection(s.connectionId.value) else RowOnly(row)
  }

  // bool_or(hybrid_negotiated IS TRUE), and bool_or over a recorded, nonempty group.
  predicate IsHybrid(t: Sessions, sid: Sid) {
    exists r :: r in t && SidOf(r, t[r]) == sid && t[r].hybridNegotiated == Some(true)
  }

  predicate HasGroup(t: Sessions, sid: Sid) {
    exists r :: r in t && SidOf(r, t[r]) == sid && t[r].negotiatedGroup.Some? && t[r].negotiatedGroup.value != ""
  }

  function Sids(t: Sessions): set<Sid> {
    set r | r in t :: SidOf(r, t[r])
  }

  function HybridSids(t: Sessions): set<Sid> {
    set sid | sid in Sids(t) && IsHybrid(t, sid)
  }

  function ClassicalSids(t: Sessions): set<Sid> {
    set sid | sid in Sids(t) && HasGroup(t, sid) && !IsHybrid(t, sid)
  }

  function UnknownSids(t: Sessions): set<Sid> {
    set sid | sid in Sids(t) && !HasGroup(t, sid)
  }

  /** The grouped aggregate query. */
  function GetTlsStats(t: Sessions): TlsStats {
    TlsStats(|Sids(t)|, |HybridSids(t)|, |ClassicalSids(t)|, |UnknownSids(t)|)
  }

  function ClassOf(t: Sessions, sid: Sid): Class {
    if IsHybrid(t, sid) then Hybrid else if HasGroup(t, sid) then Classical else Unknown
  }

  // ----- Rows the collector writes

  // A hybrid row always carries a recorded group.
  ghost predicate FromLines(decode: Decoder, t: Sessions) {
    forall r :: r in t ==> exists line :: ParseLine(decode, line, r) == Some(t[r])
  }

  lemma HybridHasGroup(decode: Decoder, t: Sessions, sid: Sid)
    requires FromLines(decode, t)
    ensures IsHybrid(t, sid) ==> HasGroup(t, sid)
  {
    if IsHybrid(t, sid) {
      var r :| r in t && SidOf(r, t[r]) == sid && t[r].hybridNegotiated == Some(true);
      var line :| ParseLine(decode, line, r) == Some(t[r]);
    }
  }

  lemma SoundTableIsFromLines(decode: Decoder, s: State)
    requires Sound(decode, s)
    ensures FromLines(decode, s.table)
  {
    forall r | r in s.table ensures exists line :: ParseLine(decode, line, r) == Some(s.table[r]) {
      assert ParseLine(decode, LineAt(s.file, r).value, r) == Some(s.table[r]);
    }
  }

  // ----- Conservation

  /** On every table the collector can build, each session is counted in exactly one of
      the three classes. */
  lemma CountsAddUp(decode: Decoder, s: State)
    requires Sound(decode, s)
    ensures var stats := GetTlsStats(s.table);
            stats.total == stats.hybrid + stats.classical + stats.unknown
  {
    SoundTableIsFromLines(decode, s);
    var t := s.table;
    forall sid ensures IsHybrid(t, sid) ==> HasGroup(t, sid) {
      HybridHasGroup(decode, t, sid);
    }
    ClassesCover(t);
    hide Sound, HybridSids, ClassicalSids, UnknownSids;
    Partition(Sids(t), HybridSids(t), ClassicalSids(t), UnknownSids(t));
  }

  lemma ClassesCover(t: Sessions)
    requires forall sid :: IsHybrid(t, sid) ==> HasGroup(t, sid)
    ensures Sids(t) == HybridSids(t) + ClassicalSids(t) + UnknownSids(t)
    ensures HybridSids(t) !! ClassicalSids(t) && HybridSids(t) !! UnknownSids(t) && ClassicalSids(t) !! UnknownSids(t)
  {
    hide IsHybrid, HasGroup, Sids;
  }

  lemma Partition(all: set<Sid>, a: set<Sid>, b: set<Sid>, c: set<Sid>)
    requires all == a + b + c && a !! b && a !! c && b !! c
    ensures |all| == |a| + |b| + |c|
  {
    assert |a + b| == |a| + |b|;
    assert |a + b + c| == |a + b| + |c|;
  }

  // Without that property of the rows they need not: this row counts twice.
  lemma HybridWithoutGroupCountsTwice()
    ensures var t: Sessions := map[0 := Session(0, None, None, true, Some(true), None, None, None, 0)];
            GetTlsStats(t) == TlsStats(1, 1, 0, 1)
  {
    var t: Sessions := map[0 := Session(0, None, None, true, Some(true), None, None, None, 0)];
    var sid := SidOf(0, t[0]);
    assert IsHybrid(t, sid) by {
      assert t[0].hybridNegotiated == Some(true);
    }
    assert Sids(t) == {sid} && HybridSids(t) == {sid} && ClassicalSids(t) == {} && UnknownSids(t) == {sid};
  }

  // ----- What the classes mean

  // Rows are one session exactly when they name the same connection; a row without one
  // stands alone.
  lemma SameSessionIff(a: nat, x: Session, b: nat, y: Session)
    ensures SidOf(a, x) == SidOf(b, y) <==>
            if x.connectionId.Some? || y.connectionId.Some? then x.connectionId == y.connectionId else a == b
  {
  }

  lemma SidsMeans(t: Sessions, sid: Sid)
    ensures sid in Sids(t) <==> exists r :: r in t && SidOf(r, t[r]) == sid
  {
  }

  // Some line of the connection logged a group with a post-quantum name.
  ghost predicate LoggedHybrid(t: Sessions, sid: Sid) {
    exists r :: r in t && SidOf(r, t[r]) == sid && t[r].negotiatedGroup.Some? && NamesPostQuantum(t[r].negotiatedGroup.value)
  }

  // Some line of the connection logged a group.
  ghost predicate LoggedGroup(t: Sessions, sid: Sid) {
    exists r :: r in t && SidOf(r, t[r]) == sid && t[r].negotiatedGroup.Some?
  }

  lemma ClassFollowsLog(decode: Decoder, t: Sessions, sid: Sid)
    requires FromLines(decode, t)
    ensures IsHybrid(t, sid) <==> LoggedHybrid(t, sid)
    ensures HasGroup(t, sid) <==> LoggedGroup(t, sid)
  {
    forall r | r in t
      ensures t[r].negotiatedGroup.Some? ==> t[r].negotiatedGroup.value != ""
      ensures t[r].hybridNegotiated == Some(true) <==> t[r].negotiatedGroup.Some? && NamesPostQuantum(t[r].negotiatedGroup.value)
    {
      var line :| ParseLine(decode, line, r) == Some(t[r]);
      ParsedFields(decode, line, r);
    }
    hide SidOf, NamesPostQuantum;
  }

  /** On every table the collector builds: a session is a connection, it counts as hybrid
      exactly when one of its lines logged a post-quantum group, as classical when lines
      logged groups but none of those, and as unknown when none logged a group. */
  lemma StatsFollowLog(decode: Decoder, s: State)
    requires Sound(decode, s)
    ensures var t, stats := s.table, GetTlsStats(s.table);
            var sids := Sids(t);
            && stats.total == |sids|
            && stats.hybrid == |set sid | sid in sids && LoggedHybrid(t, sid)|
            && stats.classical == |set sid | sid in sids && LoggedGroup(t, sid) && !LoggedHybrid(t, sid)|
            && stats.unknown == |set sid | sid in sids && !LoggedGroup(t, sid)|
  {
    var t := s.table;
    SoundTableIsFromLines(decode, s);
    forall sid
      ensures IsHybrid(t, sid) <==> LoggedHybrid(t, sid)
      ensures HasGroup(t, sid) <==> LoggedGroup(t, sid)
    {
      ClassFollowsLog(decode, t, sid);
    }
    hide Sound, IsHybrid, HasGroup, LoggedHybrid, LoggedGroup, Sids, HybridSids, ClassicalSids, UnknownSids, FromLines;
    SetsFollowLog(t);
  }

  lemma SetsFollowLog(t: Sessions)
    requires forall sid :: IsHybrid(t, sid) <==> LoggedHybrid(t, sid)
    requires forall sid :: HasGroup(t, sid) <==> LoggedGroup(t, sid)
    ensures HybridSids(t) == set sid | sid in Sids(t) && LoggedHybrid(t, sid)
    ensures ClassicalSids(t) == set sid | sid in Sids(t) && LoggedGroup(t, sid) && !LoggedHybrid(t, sid)
    ensures UnknownSids(t) == set sid | sid in Sids(t) && !LoggedGroup(t, sid)
  {
    hide IsHybrid, HasGroup, LoggedHybrid, LoggedGroup, Sids;
  }

  // ----- The group "."

  // A row whose group `classify_group` could name.
  predicate Labelled(t: Sessions, sid: Sid) {
    exists r :: r in t && SidOf(r, t[r]) == sid && t[r].kemLabel.Some?
  }

  predicate Dotted(t: Sessions, sid: Sid) {
    exists r :: r in t && SidOf(r, t[r]) == sid && t[r].negotiatedGroup == Some(".")
  }

  lemma GroupIsLabelOrDot(decode: Decoder, t: Sessions, sid: Sid)
    requires FromLines(decode, t)
    ensures HasGroup(t, sid) <==> Labelled(t, sid) || Dotted(t, sid)
  {
    forall r | r in t
      ensures t[r].negotiatedGroup.Some? && t[r].negotiatedGroup.value != "" <==>
              t[r].kemLabel.Some? || t[r].negotiatedGroup == Some(".")
    {
      var line :| ParseLine(decode, line, r) == Some(t[r]);
      DotIsTheOnlyUnlabelled(decode, line, r);
    }
    hide SidOf;
  }

  // A connection whose only line has the group "." counts as classical.
  lemma DotCountsAsClassical(decode: Decoder, line: Bytes, row: nat)
    requires decode(line).Some? && Clean(decode(line).value.negotiatedGroup) == Some(".")
    ensures var s := ParseLine(decode, line, row).value;
            s.kemLabel.None? && GetTlsStats(map[row := s]) == TlsStats(1, 0, 1, 0)
  {
    var s := ParseLine(decode, line, row).value;
    var t: Sessions := map[row := s];
    var sid := SidOf(row, s);
    TrimTrimmed(".");
    assert s.hybridNegotiated == Some(false);
    assert HasGroup(t, sid) by {
      assert t[row].negotiatedGroup == Some(".");
    }
    assert Sids(t) == {sid} && HybridSids(t) == {} && ClassicalSids(t) == {sid} && UnknownSids(t) == {};
  }

  /** The connections counted as unknown are exactly those whose group could not be
      named, if and only if no connection logged "." and never a named group. */
  lemma UnknownIsUnlabelledIff(decode: Decoder, s: State)
    requires Sound(decode, s)
    ensures var t := s.table;
            UnknownSids(t) == (set sid | sid in Sids(t) && !Labelled(t, sid)) <==>
            forall sid :: sid in Sids(t) && Dotted(t, sid) ==> Labelled(t, sid)
  {
    var t := s.table;
    SoundTableIsFromLines(decode, s);
    forall sid ensures HasGroup(t, sid) <==> Labelled(t, sid) || Dotted(t, sid) {
      GroupIsLabelOrDot(decode, t, sid);
    }
    hide Sound, HasGroup, Labelled, Dotted, Sids;
    var unlabelled := set sid | sid in Sids(t) && !Labelled(t, sid);
    if UnknownSids(t) == unlabelled {
      forall sid | sid in Sids(t) && Dotted(t, sid) ensures Labelled(t, sid) {
        assert sid in unlabelled <==> sid in UnknownSids(t);
      }
    }
  }

  function Rank(c: Class): nat {
    match c case Unknown => 0 case Classical => 1 case Hybrid => 2
  }

  lemma EvidenceStays(t: Sessions, t': Sessions, sid: Sid)
    requires forall r :: r in t ==> r in t' && t'[r] == t[r]
    ensures (IsHybrid(t, sid) ==> IsHybrid(t', sid)) && (HasGroup(t, sid) ==> HasGroup(t', sid))
  {
    if IsHybrid(t, sid) {
      var r :| r in t && SidOf(r, t[r]) == sid && t[r].hybridNegotiated == Some(true);
      assert t'[r] == t[r];
    }
    if HasGroup(t, sid) {
      var r :| r in t && SidOf(r, t[r]) == sid && t[r].negotiatedGroup.Some? && t[r].negotiatedGroup.value != "";
      assert t'[r] == t[r];
    }
  }

  lemma OthersKeepEvidence(t: Sessions, row: nat, s: Session, sid: Sid)
    requires row !in t && sid != SidOf(row, s)
    ensures ClassOf(t[row := s], sid) == ClassOf(t, sid)
  {
    var t' := t[row := s];
    EvidenceStays(t, t', sid);
    if IsHybrid(t', sid) {
      var r :| r in t' && SidOf(r, t'[r]) == sid && t'[r].hybridNegotiated == Some(true);
      assert r in t && t[r] == t'[r];
    }
    if HasGroup(t', sid) {
      var r :| r in t' && SidOf(r, t'[r]) == sid && t'[r].negotiatedGroup.Some? && t'[r].negotiatedGroup.value != "";
      assert r in t && t[r] == t'[r];
    }
  }

  lemma SidsGrow(t: Sessions, row: nat, s: Session)
    requires row !in t
    ensures Sids(t[row := s]) == Sids(t) + {SidOf(row, s)}
  {
    var t' := t[row := s];
    forall sid | sid in Sids(t) ensures sid in Sids(t') {
      var r :| r in t && SidOf(r, t[r]) == sid;
      assert r in t' && SidOf(r, t'[r]) == sid;
    }
    assert row in t' && SidOf(row, t'[row]) == SidOf(row, s);
  }

  /** Another request line on a known connection leaves the number of sessions and the
      class of every other session as they were, and can only strengthen its own. A line
      on a new connection adds one session. */
  lemma RequestLineOnlyStrengthens(t: Sessions, row: nat, s: Session)
    requires row !in t
    ensures var t' := t[row := s];
            && GetTlsStats(t').total == GetTlsStats(t).total + (if SidOf(row, s) in Sids(t) then 0 else 1)
            && (forall sid :: sid != SidOf(row, s) ==> ClassOf(t', sid) == ClassOf(t, sid))
            && Rank(ClassOf(t', SidOf(row, s))) >= Rank(ClassOf(t, SidOf(row, s)))
  {
    var t' := t[row := s];
    SidsGrow(t, row, s);
    EvidenceStays(t, t', SidOf(row, s));
    forall sid | sid != SidOf(row, s) ensures ClassOf(t', sid) == ClassOf(t, sid) {
      OthersKeepEvidence(t, row, s, sid);
    }
  }
}
