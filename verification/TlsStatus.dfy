/** The overall status, derived from probe and session evidence
    (quansec/protocols/tls/service.py, quansec/protocols/tls/router.py). */
module TlsStatus {
  import opened NumberTheory
  import opened Options
  import opened Text
  import opened Collector
  import opened TlsService
  import TlsPolicy

  datatype ProbeType = PositiveHybrid | NegativeX25519 | NegativePrime256v1 | NegativeTls12 | NegativeAes128

  datatype Probe = Probe(kind: ProbeType, passed: bool, runAt: int)

  const ENFORCEMENT_PROBES := {NegativeX25519, NegativePrime256v1}

  // ----- Evidence

  // DISTINCT ON (probe_type) ... ORDER BY run_at DESC: the most recent run of a kind.
  function Latest(history: seq<Probe>, kind: ProbeType): Option<Probe> {
    if history == [] then None
    else
      var last := history[|history| - 1];
      var before := Latest(history[..|history| - 1], kind);
      if last.kind == kind && (before.None? || before.value.runAt < last.runAt) then Some(last) else before
  }

  function Passed(history: seq<Probe>, kind: ProbeType): bool {
    Latest(history, kind).Some? && Latest(history, kind).value.passed
  }

  function EverPassed(history: seq<Probe>): set<ProbeType> {
    set p | p in history && p.kind in ENFORCEMENT_PROBES && p.passed :: p.kind
  }

  // COUNT(DISTINCT probe_type) of the passed enforcement probes.
  function WasEnforced(history: seq<Probe>): bool {
    |EverPassed(history)| >= |ENFORCEMENT_PROBES|
  }

  function OnlyHybridEnforced(history: seq<Probe>): bool {
    Passed(history, NegativeX25519) && Passed(history, NegativePrime256v1)
  }

  predicate SessionNegotiated(s: Session, hybrid: string) {
    s.negotiatedGroup.Some? && Lower(s.negotiatedGroup.value) == Lower(hybrid)
  }

  function ObservedHybridCount(t: map<nat, Session>, hybrid: string): nat {
    |set r | r in t && SessionNegotiated(t[r], hybrid)|
  }

  method StoreProbeResults(history: seq<Probe>, results: seq<Probe>) returns (stored: seq<Probe>, passed: nat)
    ensures stored == history + results
    ensures passed == |set i | 0 <= i < |results| && results[i].passed|
  {
    stored, passed := history, 0;
    var i := 0;
    ghost var done: set<int> := {};
    while i < |results|
      invariant 0 <= i <= |results|
      invariant stored == history + results[..i]
      invariant done == set k | 0 <= k < i && results[k].passed
      invariant passed == |done|
    {
      stored := stored + [results[i]];
      if results[i].passed {
        passed := passed + 1;
        done := done + {i};
      }
      i := i + 1;
    }
  }

  // ----- The status

  datatype Status = Unavailable | ClassicalOnly | ConfiguredUnproven | HybridObserved | HybridEnforced | Degraded

  function Overall(runtimeBuilt: bool, running: bool, configured: bool, negotiated: bool,
                   onlyHybrid: bool, wasEnforced: bool): Status {
    if !runtimeBuilt || !running then Unavailable
    else if !configured then ClassicalOnly
    else if onlyHybrid && negotiated then HybridEnforced
    else if wasEnforced && !onlyHybrid then Degraded
    else if negotiated then HybridObserved
    else ConfiguredUnproven
  }

  function StatusOf(conf: Option<seq<string>>, hybrid: string, built: bool, running: bool,
                    history: seq<Probe>, sessions: map<nat, Session>): Status {
    Overall(built, running,
            TlsPolicy.HybridConfigured(if conf.Some? then RunningPolicy(conf.value).groups else "", hybrid),
            ObservedHybridCount(sessions, hybrid) > 0,
            OnlyHybridEnforced(history), WasEnforced(history))
  }

  // ----- Evidence only accumulates

  lemma {:induction false} LatestIsRecorded(history: seq<Probe>, kind: ProbeType)
    ensures Latest(history, kind).Some? ==> Latest(history, kind).value in history && Latest(history, kind).value.kind == kind
  {
    if history != [] {
      LatestIsRecorded(history[..|history| - 1], kind);
    }
  }

  lemma {:induction false} LatestIsMostRecent(history: seq<Probe>, p: Probe)
    requires p in history
    ensures Latest(history, p.kind).Some? && p.runAt <= Latest(history, p.kind).value.runAt
  {
    var before := history[..|history| - 1];
    assert history == before + [history[|history| - 1]];
    if p in before {
      LatestIsMostRecent(before, p);
    }
  }

  lemma EnforcedIffBothEverPassed(history: seq<Probe>)
    ensures WasEnforced(history) <==> NegativeX25519 in EverPassed(history) && NegativePrime256v1 in EverPassed(history)
  {
    var ever := EverPassed(history);
    assert ever <= ENFORCEMENT_PROBES;
    assert |ENFORCEMENT_PROBES| == 2;
    if NegativeX25519 in ever && NegativePrime256v1 in ever {
      assert ever == ENFORCEMENT_PROBES;
    } else {
      var missing := if NegativeX25519 in ever then NegativePrime256v1 else NegativeX25519;
      SubsetSize(ever, ENFORCEMENT_PROBES - {missing});
    }
  }

  /** If both classical clients are refused in the latest runs, enforcement was proven. */
  lemma LatestImpliesEver(history: seq<Probe>)
    requires OnlyHybridEnforced(history)
    ensures WasEnforced(history)
  {
    LatestIsRecorded(history, NegativeX25519);
    LatestIsRecorded(history, NegativePrime256v1);
    EnforcedIffBothEverPassed(history);
  }

  lemma EverStays(history: seq<Probe>, more: seq<Probe>)
    requires WasEnforced(history)
    ensures WasEnforced(history + more)
  {
    EnforcedIffBothEverPassed(history);
    EnforcedIffBothEverPassed(history + more);
    assert EverPassed(history) <= EverPassed(history + more);
  }

  /** Once enforcement has been proven, no later evidence makes a running, configured
      service report `hybrid_observed` again; it reports a regression instead. */
  lemma NeverMerelyObservedAgain(conf: Option<seq<string>>, hybrid: string, built: bool, running: bool,
                                 history: seq<Probe>, more: seq<Probe>, sessions: map<nat, Session>)
    requires WasEnforced(history)
    ensures var status := StatusOf(conf, hybrid, built, running, history + more, sessions);
            && !status.HybridObserved?
            && (status.Degraded? || status.HybridEnforced? || status.ConfiguredUnproven? ==>
                  (status.Degraded? <==> !OnlyHybridEnforced(history + more)))
  {
    EverStays(history, more);
  }

  lemma HybridSessionExists(sessions: map<nat, Session>, hybrid: string)
    ensures ObservedHybridCount(sessions, hybrid) > 0 <==> exists r :: r in sessions && SessionNegotiated(sessions[r], hybrid)
  {
    var observed := set r | r in sessions && SessionNegotiated(sessions[r], hybrid);
    if r :| r in sessions && SessionNegotiated(sessions[r], hybrid) {
      assert r in observed;
    } else {
      assert observed == {};
    }
  }

  /** `hybrid_enforced` is claimed exactly on the evidence it needs: the service runs with
      the hybrid group configured, the latest run of both classical probes was refused, and
      a session negotiated the hybrid group. */
  lemma EnforcedIff(conf: Option<seq<string>>, hybrid: string, built: bool, running: bool,
                    history: seq<Probe>, sessions: map<nat, Session>)
    ensures StatusOf(conf, hybrid, built, running, history, sessions).HybridEnforced? <==>
              && built && running
              && TlsPolicy.HybridConfigured(if conf.Some? then RunningPolicy(conf.value).groups else "", hybrid)
              && Passed(history, NegativeX25519) && Passed(history, NegativePrime256v1)
              && exists r :: r in sessions && SessionNegotiated(sessions[r], hybrid)
  {
    HybridSessionExists(sessions, hybrid);
    hide RunningPolicy, Lower, Latest;
  }

  // The latest run of a kind is one that no recorded run of the kind is later than.
  lemma PassedIff(history: seq<Probe>, kind: ProbeType)
    ensures Passed(history, kind) ==> exists p :: p in history && p.kind == kind && p.passed && NoLater(history, p)
    ensures DistinctRuns(history) && (exists p :: p in history && p.kind == kind && p.passed && NoLater(history, p)) ==>
              Passed(history, kind)
  {
    LatestIsRecorded(history, kind);
    if Latest(history, kind).Some? {
      var last := Latest(history, kind).value;
      forall q | q in history && q.kind == kind ensures q.runAt <= last.runAt {
        LatestIsMostRecent(history, q);
      }
      assert NoLater(history, last);
    }
    if p :| p in history && p.kind == kind && p.passed && NoLater(history, p) {
      LatestIsMostRecent(history, p);
      assert DistinctRuns(history) ==> Latest(history, kind).value == p;
    }
    hide Latest;
  }

  ghost predicate NoLater(history: seq<Probe>, p: Probe) {
    forall q :: q in history && q.kind == p.kind ==> q.runAt <= p.runAt
  }

  // No two runs of a kind at the same time.
  ghost predicate DistinctRuns(history: seq<Probe>) {
    forall p, q :: p in history && q in history && p.kind == q.kind && p.runAt == q.runAt ==> p == q
  }

  // Both classical clients were refused at some time.
  ghost predicate EverRefused(history: seq<Probe>, kind: ProbeType) {
    exists p :: p in history && p.kind == kind && p.passed
  }

  lemma WasEnforcedIff(history: seq<Probe>)
    ensures WasEnforced(history) <==> EverRefused(history, NegativeX25519) && EverRefused(history, NegativePrime256v1)
  {
    EnforcedIffBothEverPassed(history);
  }

  /** Which status is reported on which evidence. */
  lemma StatusMeans(conf: Option<seq<string>>, hybrid: string, built: bool, running: bool,
                    history: seq<Probe>, sessions: map<nat, Session>)
    ensures var status := StatusOf(conf, hybrid, built, running, history, sessions);
            var up := built && running;
            var groups := if conf.Some? then RunningPolicy(conf.value).groups else "";
            var configured := Lower(Trim(groups)) == Lower(hybrid);
            var refused := Passed(history, NegativeX25519) && Passed(history, NegativePrime256v1);
            var ever := EverRefused(history, NegativeX25519) && EverRefused(history, NegativePrime256v1);
            var seen := exists r :: r in sessions && sessions[r].negotiatedGroup.Some? &&
                                    Lower(sessions[r].negotiatedGroup.value) == Lower(hybrid);
            && (status.Unavailable? <==> !up)
            && (status.ClassicalOnly? <==> up && !configured)
            && (status.HybridEnforced? <==> up && configured && refused && seen)
            && (status.Degraded? <==> up && configured && !refused && ever)
            && (status.HybridObserved? <==> up && configured && !refused && !ever && seen)
            && (status.ConfiguredUnproven? <==> up && configured && !seen && (refused || !ever))
  {
    HybridSessionExists(sessions, hybrid);
    WasEnforcedIff(history);
    hide RunningPolicy, Lower, Trim, Latest, WasEnforced, ObservedHybridCount, EverRefused;
  }

  /** A policy that was applied is reported as classical exactly when its group list,
      although fail-closed, holds a separator other than white space at its ends. */
  lemma AppliedPolicyIsRecognised(p: TlsPolicy.Plane, s: Settings, reload: bool, nginx: TlsPolicy.Nginx,
                                  history: seq<Probe>, sessions: map<nat, Session>)
    requires WellFormed(s) && TlsPolicy.Apply(p, s, reload, nginx).1.Applied?
    ensures var conf := TlsPolicy.Apply(p, s, reload, nginx).0.conf;
            StatusOf(conf, s.hybridGroup, true, true, history, sessions).ClassicalOnly? <==> !TlsPolicy.GroupName(Trim(s.groups))
  {
    assert Effective(s, NO_OVERRIDES) == s;
    hide RenderConfig, RunningPolicy, Lower, Trim, TlsPolicy.IsFailClosed, TlsPolicy.Apply, TlsPolicy.GroupName, Effective, WellFormed;
    TlsPolicy.ApplyCases(p, s, reload, nginx);
    ParseOfRender(s, NO_OVERRIDES, true);
    TlsPolicy.ConfiguredIffNoInnerSeparator(s.groups, s.hybridGroup);
    TrimTwice(s.groups);
  }
}
