/** The enforced TLS policy: when it is fail-closed, how it is applied and recorded, and
    how drift from the running configuration is reported (quansec/protocols/tls/policy.py).

    NGINX is a set of outcomes: whether it accepts a configuration, runs, and reloads. */
module TlsPolicy {
  import opened Options
  import opened Text
  import opened TlsService

  // ----- Fail-closed group lists

  predicate IsSeparator(c: char) {
    c == ':' || c == ',' || IsSpace(c)
  }

  // The separators are the colon, the comma and the six white space characters.
  lemma IsSeparatorIff(c: char)
    ensures IsSeparator(c) <==> c == ':' || c == ',' || 9 <= c as int <= 13 || c as int == 32
  {
  }

  // Length of the name at the start of a list.
  function NameLength(s: string): (n: nat)
    ensures n <= |s| && (forall i :: 0 <= i < n ==> !IsSeparator(s[i])) && (n < |s| ==> IsSeparator(s[n]))
  {
    if s == "" || IsSeparator(s[0]) then 0 else 1 + NameLength(s[1..])
  }

  // The names between runs of separators.
  function ParseGroups(groups: string): seq<string>
    decreases |groups|
  {
    if groups == "" then []
    else if IsSeparator(groups[0]) then ParseGroups(groups[1..])
    else [groups[..NameLength(groups)]] + ParseGroups(groups[NameLength(groups)..])
  }

  function Fallbacks(names: seq<string>, hybrid: string): seq<string> {
    if names == [] then []
    else (if Lower(names[0]) != Lower(hybrid) then [names[0]] else []) + Fallbacks(names[1..], hybrid)
  }

  function IsFailClosed(groups: string, hybrid: string): (bool, seq<string>) {
    var names := ParseGroups(groups);
    if names == [] then (false, [])
    else (Fallbacks(names, hybrid) == [] && |names| == 1, Fallbacks(names, hybrid))
  }

  ghost predicate AllSeparators(s: string) {
    forall i :: 0 <= i < |s| ==> IsSeparator(s[i])
  }

  ghost predicate GroupName(s: string) {
    s != "" && forall i :: 0 <= i < |s| ==> !IsSeparator(s[i])
  }

  lemma {:induction false} SeparatorsHoldNoName(s: string)
    ensures ParseGroups(s) == [] <==> AllSeparators(s)
    decreases |s|
  {
    if s != "" && IsSeparator(s[0]) {
      SeparatorsHoldNoName(s[1..]);
      assert forall i :: 1 <= i < |s| ==> s[i] == s[1..][i - 1];
    }
  }

  lemma {:induction false} LeadingSeparators(before: string, s: string)
    requires AllSeparators(before)
    ensures ParseGroups(before + s) == ParseGroups(s)
  {
    if before == "" {
      assert before + s == s;
    } else {
      assert (before + s)[1..] == before[1..] + s;
      LeadingSeparators(before[1..], s);
    }
  }

  lemma NameThenSeparators(name: string, after: string)
    requires GroupName(name) && AllSeparators(after)
    ensures ParseGroups(name + after) == [name]
  {
    var s := name + after;
    assert s[0] == name[0];
    assert NameLength(s) == |name| by {
      assert forall i :: 0 <= i < |name| ==> s[i] == name[i];
      assert after != "" ==> s[|name|] == after[0];
    }
    assert s[..|name|] == name && s[|name|..] == after;
    SeparatorsHoldNoName(after);
  }

  // A list with one name is that name, between separators.
  lemma {:induction false} SingleName(s: string) returns (before: string, after: string)
    requires |ParseGroups(s)| == 1
    ensures AllSeparators(before) && AllSeparators(after) && GroupName(ParseGroups(s)[0])
    ensures s == before + ParseGroups(s)[0] + after
    decreases |s|
  {
    if IsSeparator(s[0]) {
      before, after := SingleName(s[1..]);
      before := [s[0]] + before;
    } else {
      before, after := "", s[NameLength(s)..];
      SeparatorsHoldNoName(after);
    }
  }

  // `name` stands at [i..j) of the list, with a separator or an end on either side.
  ghost predicate NameAt(s: string, name: string, i: nat, j: nat) {
    && i < j <= |s| && s[i..j] == name
    && (forall k :: i <= k < j ==> !IsSeparator(s[k]))
    && (i == 0 || IsSeparator(s[i - 1])) && (j == |s| || IsSeparator(s[j]))
  }

  lemma NameLater(s: string, name: string, skip: nat, i: nat, j: nat)
    requires skip <= |s| && NameAt(s[skip..], name, i, j)
    requires i == 0 ==> skip == 0 || IsSeparator(s[skip - 1])
    ensures NameAt(s, name, skip + i, skip + j)
  {
    assert s[skip..][i..j] == s[skip + i..skip + j];
    assert forall k :: i <= k < j ==> s[skip..][k] == s[skip + k];
    assert i > 0 ==> s[skip..][i - 1] == s[skip + i - 1];
    assert j < |s| - skip ==> s[skip..][j] == s[skip + j];
  }

  lemma NameEarlier(s: string, name: string, skip: nat, i: nat, j: nat)
    requires skip <= i && NameAt(s, name, i, j)
    ensures NameAt(s[skip..], name, i - skip, j - skip)
  {
    assert s[skip..][i - skip..j - skip] == s[i..j];
    assert forall k :: i <= k < |s| ==> s[skip..][k - skip] == s[k];
    assert i > skip ==> s[skip..][i - skip - 1] == s[i - 1];
  }

  /** The names of a list are exactly its maximal stretches without separators. */
  lemma {:induction false} NamesAreStretches(s: string, name: string)
    ensures name in ParseGroups(s) <==> exists i: nat, j: nat :: NameAt(s, name, i, j)
    decreases |s|
  {
    if s != "" && IsSeparator(s[0]) {
      NamesAreStretches(s[1..], name);
      if i: nat, j: nat :| NameAt(s[1..], name, i, j) {
        NameLater(s, name, 1, i, j);
      }
      if i: nat, j: nat :| NameAt(s, name, i, j) {
        NameEarlier(s, name, 1, i, j);
      }
    } else if s != "" {
      var n := NameLength(s);
      NamesAreStretches(s[n..], name);
      var rest := ParseGroups(s[n..]);
      assert ParseGroups(s) == [s[..n]] + rest;
      assert NameAt(s, s[..n], 0, n);
      if i: nat, j: nat :| NameAt(s[n..], name, i, j) {
        assert i > 0;
        NameLater(s, name, n, i, j);
      }
      if i: nat, j: nat :| NameAt(s, name, i, j) {
        FirstOrLater(s, name, i, j);
        if i >= n {
          NameEarlier(s, name, n, i, j);
        }
      }
    }
  }

  // A stretch in a list that starts with a name is that name, or starts after it.
  lemma FirstOrLater(s: string, name: string, i: nat, j: nat)
    requires s != "" && !IsSeparator(s[0]) && NameAt(s, name, i, j)
    ensures NameLength(s) > 0
    ensures i >= NameLength(s) || (i == 0 && j == NameLength(s) && name == s[..NameLength(s)])
  {
  }

  /** The groups reported as fallbacks are exactly the names that are not the hybrid group. */
  lemma {:induction false} FallbacksAreTheOthers(names: seq<string>, hybrid: string, name: string)
    ensures name in Fallbacks(names, hybrid) <==> name in names && Lower(name) != Lower(hybrid)
  {
    hide Lower;
    if names != [] {
      FallbacksAreTheOthers(names[1..], hybrid, name);
    }
  }

  // The list is one spelling of the hybrid group, between separators.
  ghost predicate OnlyHybrid(groups: string, hybrid: string, before: string, name: string, after: string) {
    && AllSeparators(before) && AllSeparators(after) && GroupName(name)
    && Lower(name) == Lower(hybrid)
    && groups == before + (name + after)
  }

  lemma NoFallbackInOne(name: string, hybrid: string)
    ensures Fallbacks([name], hybrid) == [] <==> Lower(name) == Lower(hybrid)
  {
    assert [name][1..] == [];
    hide Lower;
  }

  /** Fail-closed means exactly: one spelling of the hybrid group, and nothing else but
      separators around it. */
  lemma FailClosedIff(groups: string, hybrid: string)
    ensures IsFailClosed(groups, hybrid).0 <==>
            exists before, name, after :: OnlyHybrid(groups, hybrid, before, name, after)
  {
    hide Lower, AllSeparators, GroupName, ParseGroups, Fallbacks;
    if IsFailClosed(groups, hybrid).0 {
      var name := ParseGroups(groups)[0];
      assert ParseGroups(groups) == [name];
      var before, after := SingleName(groups);
      NoFallbackInOne(name, hybrid);
      assert before + name + after == before + (name + after);
      assert OnlyHybrid(groups, hybrid, before, name, after);
    }
    if before, name, after :| OnlyHybrid(groups, hybrid, before, name, after) {
      LeadingSeparators(before, name + after);
      NameThenSeparators(name, after);
      NoFallbackInOne(name, hybrid);
    }
  }

  // Whether the status page recognises the configured groups as the hybrid group.
  predicate HybridConfigured(groups: string, hybrid: string) {
    Lower(Trim(groups)) == Lower(hybrid)
  }

  /** Of the group lists that may be applied, the status page recognises exactly those
      whose only separators are white space at the ends. */
  lemma ConfiguredIffNoInnerSeparator(groups: string, hybrid: string)
    requires IsFailClosed(groups, hybrid).0
    ensures HybridConfigured(groups, hybrid) <==> GroupName(Trim(groups))
  {
    var before, after := SingleName(groups);
    var name := ParseGroups(groups)[0];
    assert ParseGroups(groups) == [name];
    NoFallbackInOne(name, hybrid);
    TrimParts(groups);
    LowerKeepsSeparators(Trim(groups));
    LowerKeepsSeparators(name);
    hide Lower, Trim, AllSeparators, GroupName, ParseGroups;
    var b, a :| groups == b + Trim(groups) + a && AllSeparators(b) && AllSeparators(a);
    if GroupName(Trim(groups)) {
      assert groups == b + (Trim(groups) + a);
      LeadingSeparators(b, Trim(groups) + a);
      NameThenSeparators(Trim(groups), a);
    }
  }

  lemma TrimParts(s: string)
    ensures exists b, a :: s == b + Trim(s) + a && AllSeparators(b) && AllSeparators(a)
  {
    TrimMeans(s);
    var b, a :| AllSpace(b) && AllSpace(a) && s == b + Trim(s) + a;
    assert AllSeparators(b) && AllSeparators(a);
  }

  lemma {:induction false} TrailingSeparators(s: string, after: string)
    requires AllSeparators(after)
    ensures ParseGroups(s + after) == ParseGroups(s)
    decreases |s|
  {
    if s == "" {
      assert s + after == after;
      SeparatorsHoldNoName(after);
    } else if IsSeparator(s[0]) {
      assert (s + after)[1..] == s[1..] + after;
      TrailingSeparators(s[1..], after);
    } else {
      NameBeforeSeparators(s, after);
      var n := NameLength(s);
      assert (s + after)[..n] == s[..n] && (s + after)[n..] == s[n..] + after;
      TrailingSeparators(s[n..], after);
    }
  }

  lemma {:induction false} NameBeforeSeparators(s: string, after: string)
    requires AllSeparators(after)
    ensures NameLength(s + after) == NameLength(s)
  {
    if s == "" {
      assert s + after == after;
    } else if !IsSeparator(s[0]) {
      assert (s + after)[1..] == s[1..] + after;
      NameBeforeSeparators(s[1..], after);
    }
  }

  // White space at the ends of a list is no part of it.
  lemma TrimKeepsGroups(groups: string)
    ensures ParseGroups(Trim(groups)) == ParseGroups(groups)
  {
    TrimParts(groups);
    var b, a :| groups == b + Trim(groups) + a && AllSeparators(b) && AllSeparators(a);
    TrailingSeparators(b + Trim(groups), a);
    LeadingSeparators(b, Trim(groups));
  }

  lemma LowerKeepsSeparators(s: string)
    ensures GroupName(s) <==> GroupName(Lower(s))
  {
  }

  // Such a list is applied, and then reported as classical.
  lemma AppliedButNotConfigured(hybrid: string)
    requires GroupName(hybrid)
    ensures IsFailClosed(hybrid + ":", hybrid).0 && !HybridConfigured(hybrid + ":", hybrid)
  {
    var groups := hybrid + ":";
    NameThenSeparators(hybrid, ":");
    NoFallbackInOne(hybrid, hybrid);
    assert groups[0] == hybrid[0] && groups[|hybrid|] == ':';
    TrimTrimmed(groups);
    assert |Lower(groups)| != |Lower(hybrid)|;
  }

  // ----- Policies, and drift between them

  datatype View = View(
    protocols: string, groups: string, ciphersuites: string, mtls: bool, earlyData: bool,
    hybridGroupOnly: bool, fallbackGroups: seq<string>, tls13Only: bool, failClosed: bool)

  function Evaluate(p: Policy, hybrid: string): View {
    var (closed, fallbacks) := IsFailClosed(p.groups, hybrid);
    var tls13 := Trim(p.protocols) == "TLSv1.3";
    View(p.protocols, p.groups, p.ciphersuites, p.mtls, p.earlyData, closed, fallbacks, tls13, closed && tls13)
  }

  function IntendedView(s: Settings): View {
    Evaluate(Intended(s), s.hybridGroup)
  }

  // None when there is no configuration file.
  function RunningView(conf: Option<seq<string>>, hybrid: string): Option<View> {
    if conf.None? then None else Some(Evaluate(RunningPolicy(conf.value), hybrid))
  }

  /** A policy is fail-closed when its groups are and TLS 1.3 is the only protocol; the
      fallbacks shown are the names other than the hybrid group. */
  lemma EvaluateMeans(p: Policy, hybrid: string)
    ensures var v := Evaluate(p, hybrid);
            && v.protocols == p.protocols && v.groups == p.groups && v.ciphersuites == p.ciphersuites
            && v.mtls == p.mtls && v.earlyData == p.earlyData
            && (v.tls13Only <==> Trim(p.protocols) == "TLSv1.3")
            && (v.hybridGroupOnly <==> exists before, name, after :: OnlyHybrid(p.groups, hybrid, before, name, after))
            && (v.failClosed <==> v.tls13Only && v.hybridGroupOnly)
            && forall name :: name in v.fallbackGroups <==> name in ParseGroups(p.groups) && Lower(name) != Lower(hybrid)
  {
    FailClosedIff(p.groups, hybrid);
    forall name
      ensures name in Evaluate(p, hybrid).fallbackGroups <==> name in ParseGroups(p.groups) && Lower(name) != Lower(hybrid)
    {
      FallbacksAreTheOthers(ParseGroups(p.groups), hybrid, name);
    }
    hide OnlyHybrid, Lower, Trim, Fallbacks, ParseGroups;
  }

  datatype Field = Protocols | Groups | Ciphersuites | Mtls | EarlyData

  datatype Drift = Drift(inSync: bool, noConfig: bool, differences: seq<Field>)

  predicate Differs(f: Field, want: View, have: View) {
    match f
    case Protocols => Trim(want.protocols) != Trim(have.protocols)
    case Groups => Trim(want.groups) != Trim(have.groups)
    case Ciphersuites => Trim(want.ciphersuites) != Trim(have.ciphersuites)
    case Mtls => want.mtls != have.mtls
    case EarlyData => want.earlyData != have.earlyData
  }

  const FIELDS := [Protocols, Groups, Ciphersuites, Mtls, EarlyData]

  lemma AllFields()
    ensures forall f: Field :: f in FIELDS
  {
    forall f: Field ensures f in FIELDS {
      match f
      case Protocols => assert FIELDS[0] == f;
      case Groups => assert FIELDS[1] == f;
      case Ciphersuites => assert FIELDS[2] == f;
      case Mtls => assert FIELDS[3] == f;
      case EarlyData => assert FIELDS[4] == f;
    }
  }

  method Compare(intended: View, running: Option<View>) returns (d: Drift)
    ensures d.inSync <==>
              && running.Some?
              && Trim(intended.protocols) == Trim(running.value.protocols)
              && Trim(intended.groups) == Trim(running.value.groups)
              && Trim(intended.ciphersuites) == Trim(running.value.ciphersuites)
              && intended.mtls == running.value.mtls && intended.earlyData == running.value.earlyData
    ensures running.Some? ==> forall f :: f in d.differences <==> Differs(f, intended, running.value)
    ensures d.noConfig <==> running.None?
  {
    if running.None? {
      return Drift(false, true, []);
    }
    var differences: seq<Field> := [];
    var i := 0;
    while i < |FIELDS|
      invariant 0 <= i <= |FIELDS|
      invariant forall f :: f in differences <==> f in FIELDS[..i] && Differs(f, intended, running.value)
    {
      if Differs(FIELDS[i], intended, running.value) {
        differences := differences + [FIELDS[i]];
      }
      i := i + 1;
    }
    assert FIELDS[..i] == FIELDS;
    AllFields();
    hide Trim;
    if differences != [] {
      assert differences[0] in differences;
    }
    assert differences == [] ==> forall f :: !Differs(f, intended, running.value);
    assert differences == [] ==>
      !Differs(Protocols, intended, running.value) && !Differs(Groups, intended, running.value)
      && !Differs(Ciphersuites, intended, running.value) && !Differs(Mtls, intended, running.value)
      && !Differs(EarlyData, intended, running.value);
    d := Drift(differences == [], false, differences);
  }

  // ----- Applying a policy

  datatype Row = Row(
    protocols: string, groups: string, ciphersuites: string, mtls: bool, earlyData: bool, listen: string,
    validated: bool, active: bool)

  // The configuration on disk and the table of applied policies.
  datatype Plane = Plane(conf: Option<seq<string>>, rows: seq<Row>)

  datatype Nginx = Nginx(accepts: bool, running: bool, acceptsAgain: bool, reloads: bool)

  datatype Result = NotFailClosed(fallbacks: seq<string>) | InvalidConfig | Applied(reloaded: bool)

  function Deactivated(rows: seq<Row>): seq<Row> {
    seq(|rows|, i requires 0 <= i < |rows| => rows[i].(active := false))
  }

  function RowFor(s: Settings, validated: bool, active: bool): Row {
    Row(s.protocols, s.groups, s.ciphersuites, s.mtls, s.earlyData, s.host + ":" + s.port, validated, active)
  }

  function Apply(p: Plane, s: Settings, reload: bool, nginx: Nginx): (Plane, Result) {
    var view := IntendedView(s);
    if !view.failClosed then (p, NotFailClosed(view.fallbackGroups))
    else
      var conf := RenderConfig(s, NO_OVERRIDES, true);
      var rows := Deactivated(p.rows) + [RowFor(s, nginx.accepts, nginx.accepts)];
      (Plane(Some(conf), rows),
       if !nginx.accepts then InvalidConfig
       else Applied(reload && nginx.running && nginx.acceptsAgain && nginx.reloads))
  }

  class PolicyManager {
    var conf: Option<seq<string>>
    var rows: seq<Row>

    function Contents(): Plane
      reads this
    {
      Plane(conf, rows)
    }

    constructor ()
      ensures Contents() == Plane(None, [])
    {
      conf, rows := None, [];
    }

    // The previous row is deactivated before the new one is inserted as active.
    method RecordPolicyState(s: Settings, validated: bool) returns (id: nat)
      modifies this`rows
      ensures rows == Deactivated(old(rows)) + [RowFor(s, validated, true)]
      ensures id == |old(rows)|
    {
      id := |rows|;
      rows := Deactivated(rows);
      rows := rows + [RowFor(s, validated, true)];
    }

    method ApplyPolicy(s: Settings, reload: bool, nginx: Nginx) returns (r: Result)
      modifies this
      ensures (Contents(), r) == Apply(old(Contents()), s, reload, nginx)
    {
      var view := IntendedView(s);
      if !view.failClosed {
        return NotFailClosed(view.fallbackGroups);
      }
      conf := Some(RenderConfig(s, NO_OVERRIDES, true));
      var id := RecordPolicyState(s, nginx.accepts);
      if !nginx.accepts {
        rows := rows[id := rows[id].(active := false)];
        assert rows == Deactivated(old(rows)) + [RowFor(s, false, false)];
        return InvalidConfig;
      }
      var reloaded := false;
      if reload {
        if nginx.running {
          reloaded := nginx.acceptsAgain && nginx.reloads;
        }
      }
      return Applied(reloaded);
    }
  }

  /** An apply is refused exactly for a policy that is not fail-closed, and then names the
      groups to blame; otherwise the configuration is written and recorded, it is applied
      exactly when NGINX accepts it, and reported as reloaded exactly when a reload was
      asked for, NGINX runs, and accepts and makes it. */
  lemma ApplyMeans(p: Plane, s: Settings, reload: bool, nginx: Nginx)
    ensures var (p', r) := Apply(p, s, reload, nginx);
            && (r.NotFailClosed? <==>
                  !(Trim(s.protocols) == "TLSv1.3"
                    && exists before, name, after :: OnlyHybrid(s.groups, s.hybridGroup, before, name, after)))
            && (r.NotFailClosed? ==> p' == p && forall name :: name in r.fallbacks <==>
                  name in ParseGroups(s.groups) && Lower(name) != Lower(s.hybridGroup))
            && (!r.NotFailClosed? ==>
                  && p'.conf == Some(RenderConfig(s, NO_OVERRIDES, true)) && |p'.rows| == |p.rows| + 1
                  && (r.Applied? <==> nginx.accepts)
                  && (r.Applied? ==> (r.reloaded <==> reload && nginx.running && nginx.acceptsAgain && nginx.reloads)))
  {
    EvaluateMeans(Intended(s), s.hybridGroup);
    hide OnlyHybrid, Lower, Trim, ParseGroups, RenderConfig, Evaluate, RowFor;
  }

  // ----- What every sequence of applies keeps

  // At most one row is active, and it is validated and fail-closed.
  ghost predicate OneActive(rows: seq<Row>, hybrid: string) {
    && (forall i, j :: 0 <= i < |rows| && 0 <= j < |rows| && rows[i].active && rows[j].active ==> i == j)
    && (forall i :: 0 <= i < |rows| && rows[i].active ==> rows[i].validated && FailClosedRow(rows[i], hybrid))
  }

  ghost predicate FailClosedRow(r: Row, hybrid: string) {
    Trim(r.protocols) == "TLSv1.3" && IsFailClosed(r.groups, hybrid).0
  }

  // The policy read back from a file is that of the row.
  ghost predicate Describes(r: Row, conf: seq<string>) {
    RunningPolicy(conf) == Stripped(Policy(r.protocols, r.groups, r.ciphersuites, r.earlyData, r.mtls, r.listen + " ssl"))
  }

  // An active row is the policy on disk.
  ghost predicate OnDisk(p: Plane) {
    forall i :: 0 <= i < |p.rows| && p.rows[i].active ==> p.conf.Some? && Describes(p.rows[i], p.conf.value)
  }

  // The table is a history: rows are only added, and only `active` is ever withdrawn.
  ghost predicate Extends(later: seq<Row>, earlier: seq<Row>) {
    |earlier| <= |later| && forall i :: 0 <= i < |earlier| ==>
      later[i].(active := false) == earlier[i].(active := false) && (later[i].active ==> earlier[i].active)
  }

  lemma RenderedRow(s: Settings, validated: bool, active: bool)
    requires WellFormed(s)
    ensures Describes(RowFor(s, validated, active), RenderConfig(s, NO_OVERRIDES, true))
  {
    assert Effective(s, NO_OVERRIDES) == s;
    hide RenderConfig, RunningPolicy;
    ParseOfRender(s, NO_OVERRIDES, true);
  }

  /** Whatever the settings and whatever NGINX answers, an apply keeps at most one active
      row, validated and fail-closed, and adds to the history. It leaves one active row,
      the new one, if the policy was applied; none if NGINX rejected the configuration;
      and changes nothing if the policy is not fail-closed. */
  lemma ApplyKeepsOneActive(p: Plane, s: Settings, reload: bool, nginx: Nginx, hybrid: string)
    requires OneActive(p.rows, hybrid)
    ensures var (p', r) := Apply(p, s, reload, nginx);
            && OneActive(p'.rows, if r.NotFailClosed? then hybrid else s.hybridGroup)
            && Extends(p'.rows, p.rows)
            && match r
               case Applied(_) => |p'.rows| == |p.rows| + 1 && p'.rows[|p.rows|].active
               case InvalidConfig => |p'.rows| == |p.rows| + 1 && forall i :: 0 <= i < |p'.rows| ==> !p'.rows[i].active
               case NotFailClosed(_) => p' == p
  {
    hide *;
    var (p', r) := Apply(p, s, reload, nginx);
    ApplyCases(p, s, reload, nginx);
    if !r.NotFailClosed? {
      HistoryGrows(p.rows, RowFor(s, nginx.accepts, nginx.accepts));
      RowForActive(s, nginx.accepts, nginx.accepts);
      OnlyLastActive(p'.rows, |p.rows|, s.hybridGroup);
    } else {
      ExtendsItself(p.rows);
    }
  }

  // The active row, if there is one, is the policy in the file.
  lemma ApplyKeepsOnDisk(p: Plane, s: Settings, reload: bool, nginx: Nginx)
    requires OnDisk(p) && WellFormed(s)
    ensures OnDisk(Apply(p, s, reload, nginx).0)
  {
    hide *;
    var (p', r) := Apply(p, s, reload, nginx);
    ApplyCases(p, s, reload, nginx);
    if !r.NotFailClosed? {
      RenderedRow(s, nginx.accepts, nginx.accepts);
      HistoryGrows(p.rows, RowFor(s, nginx.accepts, nginx.accepts));
      OnlyLastOnDisk(p', |p.rows|);
    }
  }

  lemma OnlyLastOnDisk(p: Plane, n: nat)
    requires |p.rows| == n + 1 && forall i :: 0 <= i < n ==> !p.rows[i].active
    requires p.conf.Some? && Describes(p.rows[n], p.conf.value)
    ensures OnDisk(p)
  {
    hide Describes;
  }

  lemma ApplyCases(p: Plane, s: Settings, reload: bool, nginx: Nginx)
    ensures var (p', r) := Apply(p, s, reload, nginx);
            var row := RowFor(s, nginx.accepts, nginx.accepts);
            match r
            case NotFailClosed(_) => p' == p
            case _ =>
              && (r.Applied? <==> nginx.accepts)
              && p'.conf == Some(RenderConfig(s, NO_OVERRIDES, true))
              && p'.rows == Deactivated(p.rows) + [row]
              && FailClosedRow(row, s.hybridGroup)
  {
    hide IsFailClosed, Trim, RenderConfig;
  }

  lemma ExtendsItself(rows: seq<Row>)
    ensures Extends(rows, rows)
  {
  }

  lemma OnlyLastActive(rows: seq<Row>, n: nat, hybrid: string)
    requires |rows| == n + 1 && forall i :: 0 <= i < n ==> !rows[i].active
    requires rows[n].active ==> rows[n].validated && FailClosedRow(rows[n], hybrid)
    ensures OneActive(rows, hybrid)
  {
    hide FailClosedRow;
  }

  lemma RowForActive(s: Settings, validated: bool, active: bool)
    ensures RowFor(s, validated, active).active == active && RowFor(s, validated, active).validated == validated
  {
  }

  lemma HistoryGrows(rows: seq<Row>, row: Row)
    ensures var rows' := Deactivated(rows) + [row];
            && |rows'| == |rows| + 1 && rows'[|rows|] == row
            && Extends(rows', rows)
            && forall i :: 0 <= i < |rows| ==> !rows'[i].active
  {
  }

  /** After an apply the policy on disk is the intended one but for outer white space: it
      is as fail-closed, and no field is reported as drift, until someone edits the file. */
  lemma AppliedIsInSync(p: Plane, s: Settings, reload: bool, nginx: Nginx)
    requires WellFormed(s) && Apply(p, s, reload, nginx).1.Applied?
    ensures var running := RunningView(Apply(p, s, reload, nginx).0.conf, s.hybridGroup);
            && running == Some(IntendedView(s).(protocols := Trim(s.protocols), groups := Trim(s.groups),
                                                ciphersuites := Trim(s.ciphersuites)))
            && running.value.failClosed
            && (forall f :: !Differs(f, IntendedView(s), running.value))
  {
    assert Effective(s, NO_OVERRIDES) == s;
    TrimKeepsGroups(s.groups);
    TrimTwice(s.protocols);
    TrimTwice(s.groups);
    TrimTwice(s.ciphersuites);
    hide RenderConfig, RunningPolicy, ParseGroups, Fallbacks, Trim;
    ParseOfRender(s, NO_OVERRIDES, true);
  }

  datatype Call = Call(settings: Settings, reload: bool, nginx: Nginx)

  function AfterCalls(p: Plane, calls: seq<Call>): Plane
    decreases |calls|
  {
    if calls == [] then p
    else AfterCalls(Apply(p, calls[0].settings, calls[0].reload, calls[0].nginx).0, calls[1..])
  }

  // The hybrid group in force at the last call that was not refused.
  function HybridAfter(calls: seq<Call>, hybrid: string): string
    decreases |calls|
  {
    if calls == [] then hybrid
    else HybridAfter(calls[1..], if IntendedView(calls[0].settings).failClosed then calls[0].settings.hybridGroup else hybrid)
  }

  /** Over any sequence of applies of any settings, the hybrid group included. */
  lemma {:induction false} CallsKeepOneActive(p: Plane, calls: seq<Call>, hybrid: string)
    requires OneActive(p.rows, hybrid)
    ensures OneActive(AfterCalls(p, calls).rows, HybridAfter(calls, hybrid))
    ensures Extends(AfterCalls(p, calls).rows, p.rows)
    decreases |calls|
  {
    if calls != [] {
      var c := calls[0];
      ApplyKeepsOneActive(p, c.settings, c.reload, c.nginx, hybrid);
      RefusedIff(p, c);
      hide Apply, OneActive, IntendedView;
      CallsKeepOneActive(Apply(p, c.settings, c.reload, c.nginx).0, calls[1..], if IntendedView(c.settings).failClosed then c.settings.hybridGroup else hybrid);
    }
  }

  lemma RefusedIff(p: Plane, c: Call)
    ensures Apply(p, c.settings, c.reload, c.nginx).1.NotFailClosed? <==> !IntendedView(c.settings).failClosed
  {
    hide IntendedView, RenderConfig;
  }

  /** Over any sequence of applies the active row is the policy on disk. */
  lemma {:induction false} CallsKeepOnDisk(p: Plane, calls: seq<Call>)
    requires OnDisk(p) && forall i :: 0 <= i < |calls| ==> WellFormed(calls[i].settings)
    ensures OnDisk(AfterCalls(p, calls))
    decreases |calls|
  {
    hide Apply, OnDisk;
    if calls != [] {
      ApplyKeepsOnDisk(p, calls[0].settings, calls[0].reload, calls[0].nginx);
      CallsKeepOnDisk(Apply(p, calls[0].settings, calls[0].reload, calls[0].nginx).0, calls[1..]);
    }
  }
}
