/** What refresh-token rotation guarantees over whole runs of the endpoints: login,
    refresh, logout, revoke-all and purge, in any order. */
module TokenRuns {
  import opened Options
  import opened RefreshTokens
  import opened TokenFamilies

  datatype Event =
    | LoginAs(family: Family, user: User, raw: Token)
    | RefreshWith(presented: Token, raw: Token)
    | LogoutWith(presented: Token)
    | RevokeAllOf(user: User)
    | PurgeOlder(days: nat)

  datatype Timed = Timed(now: int, event: Event)

  ghost function Apply(t: Table, e: Timed, ttl: nat): (Table, Option<Outcome>) {
    match e.event
    case LoginAs(family, user, raw) => (Issue(t, family, user, None, raw, e.now, ttl), None)
    case RefreshWith(presented, raw) =>
      var (t', outcome) := Rotate(t, presented, raw, e.now, ttl);
      (t', Some(outcome))
    case LogoutWith(presented) => (Logout(t, presented), None)
    case RevokeAllOf(user) => (Revoke(t, UnrevokedOf(t, user), RevokedAll), None)
    case PurgeOlder(days) => (Purge(t, e.now, days), None)
  }

  ghost function ApplyToChains(a: Families, e: Timed, ttl: nat, nextId: Id): Families {
    match e.event
    case LoginAs(family, user, raw) => Login(a, family, user, Link(nextId, raw, e.now + ttl))
    case RefreshWith(presented, raw) => PresentToken(a, presented, e.now, Link(nextId, raw, e.now + ttl))
    case LogoutWith(presented) => LogoutOf(a, presented)
    case RevokeAllOf(user) => RevokeAll(a, user)
    case PurgeOlder(days) => PurgeAll(a, e.now, days)
  }

  // ----- Runs

  ghost function TableAt(t: Table, run: seq<Timed>, j: nat, ttl: nat): Table
    requires j <= |run|
    decreases j
  {
    if j == 0 then t else TableAt(Apply(t, run[0], ttl).0, run[1..], j - 1, ttl)
  }

  ghost function OutcomeAt(t: Table, run: seq<Timed>, j: nat, ttl: nat): Option<Outcome>
    requires j < |run|
  {
    Apply(TableAt(t, run, j, ttl), run[j], ttl).1
  }

  // The tokens and families an event generates.
  function Generated(e: Event): set<Token> {
    match e
    case LoginAs(_, _, raw) => {raw}
    case RefreshWith(_, raw) => {raw}
    case _ => {}
  }

  function Opened(e: Event): set<Family> {
    if e.LoginAs? then {e.family} else {}
  }

  // Time does not run backwards, and nothing generated was ever generated before.
  ghost predicate ValidRun(run: seq<Timed>, from: int, tokens: set<Token>, families: set<Family>)
    decreases |run|
  {
    run != [] ==>
      && from <= run[0].now
      && Generated(run[0].event) !! tokens
      && Opened(run[0].event) !! families
      && ValidRun(run[1..], run[0].now, tokens + Generated(run[0].event), families + Opened(run[0].event))
  }

  // A run of the service from the empty table.
  ghost predicate ServiceRun(run: seq<Timed>) {
    run == [] || ValidRun(run, run[0].now, {}, {})
  }

  const EMPTY := Table(map[], 0)

  ghost predicate Covers(a: Families, tokens: set<Token>, families: set<Family>) {
    a.issued.Keys <= tokens && a.chains.Keys <= families
  }

  lemma StepCovers(t: Table, a: Families, e: Timed, ttl: nat, tokens: set<Token>, families: set<Family>)
    requires Covers(a, tokens, families)
    ensures Covers(ApplyToChains(a, e, ttl, t.nextId), tokens + Generated(e.event), families + Opened(e.event))
  {
  }

  lemma StepMeans(t: Table, a: Families, e: Timed, from: int, ttl: nat, tokens: set<Token>, families: set<Family>)
    requires Means(t, a, from + ttl) && from <= e.now && Covers(a, tokens, families)
    requires Generated(e.event) !! tokens && Opened(e.event) !! families
    ensures Means(Apply(t, e, ttl).0, ApplyToChains(a, e, ttl, t.nextId), e.now + ttl)
    ensures Covers(ApplyToChains(a, e, ttl, t.nextId), tokens + Generated(e.event), families + Opened(e.event))
  {
    StepCovers(t, a, e, ttl, tokens, families);
    hide Means, Apply, ApplyToChains;
    if e.event.LoginAs? {
      assert e.event.raw in Generated(e.event) && e.event.family in Opened(e.event);
      LoginMeans(t, a, e, from, ttl);
    } else if e.event.RefreshWith? {
      assert e.event.raw in Generated(e.event);
      RefreshMeans(t, a, e, from, ttl);
    } else {
      RevocationMeans(t, a, e, from, ttl);
      LaterHorizon(Apply(t, e, ttl).0, ApplyToChains(a, e, ttl, t.nextId), from + ttl, e.now + ttl);
    }
  }

  lemma LoginMeans(t: Table, a: Families, e: Timed, from: int, ttl: nat)
    requires Means(t, a, from + ttl) && from <= e.now && e.event.LoginAs?
    requires e.event.raw !in a.issued && e.event.family !in a.chains
    ensures Means(Apply(t, e, ttl).0, ApplyToChains(a, e, ttl, t.nextId), e.now + ttl)
  {
    hide Means;
    var link := Link(t.nextId, e.event.raw, e.now + ttl);
    assert ApplyToChains(a, e, ttl, t.nextId) == Login(a, e.event.family, e.event.user, link);
    IssueMeansLogin(t, a, from + ttl, e.event.family, e.event.user, e.event.raw, e.now, ttl);
  }

  lemma RefreshMeans(t: Table, a: Families, e: Timed, from: int, ttl: nat)
    requires Means(t, a, from + ttl) && from <= e.now && e.event.RefreshWith?
    requires e.event.raw !in a.issued
    ensures Means(Apply(t, e, ttl).0, ApplyToChains(a, e, ttl, t.nextId), e.now + ttl)
  {
    hide Means;
    var link := Link(t.nextId, e.event.raw, e.now + ttl);
    assert Apply(t, e, ttl).0 == Rotate(t, e.event.presented, e.event.raw, e.now, ttl).0;
    assert ApplyToChains(a, e, ttl, t.nextId) == PresentToken(a, e.event.presented, e.now, link);
    RotateMeansPresent(t, a, from + ttl, e.event.presented, e.event.raw, e.now, ttl);
  }

  lemma RevocationMeans(t: Table, a: Families, e: Timed, from: int, ttl: nat)
    requires Means(t, a, from + ttl) && !e.event.LoginAs? && !e.event.RefreshWith?
    ensures Means(Apply(t, e, ttl).0, ApplyToChains(a, e, ttl, t.nextId), from + ttl)
  {
    hide Means;
    match e.event
    case LogoutWith(presented) => LogoutMeansKill(t, a, from + ttl, presented);
    case RevokeAllOf(user) => RevokeAllMeansKill(t, a, from + ttl, user);
    case PurgeOlder(days) => PurgeMeansPrefix(t, a, from + ttl, e.now, days);
  }

  /** At every point of every run the table is a set of chains, one per family:
      parent and successor references are inverse links of a single line, every
      replaced row is revoked, and only the end of the line can be unrevoked. */
  lemma {:induction false} RunMeans(t: Table, a: Families, run: seq<Timed>, j: nat, from: int, ttl: nat,
                                    tokens: set<Token>, families: set<Family>) returns (a': Families)
    requires Means(t, a, from + ttl) && Covers(a, tokens, families)
    requires ValidRun(run, from, tokens, families) && j <= |run|
    ensures Means(TableAt(t, run, j, ttl), a', (if j == 0 then from else run[j - 1].now) + ttl)
    decreases j
  {
    hide Means, Apply, ApplyToChains;
    if j == 0 {
      a' := a;
    } else {
      StepMeans(t, a, run[0], from, ttl, tokens, families);
      a' := RunMeans(Apply(t, run[0], ttl).0, ApplyToChains(a, run[0], ttl, t.nextId), run[1..], j - 1, run[0].now, ttl,
                     tokens + Generated(run[0].event), families + Opened(run[0].event));
    }
  }

  lemma EveryTableIsChains(run: seq<Timed>, j: nat, ttl: nat)
    requires ServiceRun(run) && j <= |run|
    ensures exists a, horizon :: Means(TableAt(EMPTY, run, j, ttl), a, horizon)
  {
    var from := if run == [] then 0 else run[0].now;
    EmptyMeansNone(from + ttl);
    var a := RunMeans(EMPTY, NONE, run, j, from, ttl, {}, {});
  }

  /** Never more than one live token in a family, hence never two sessions of one login. */
  lemma AtMostOneLiveToken(run: seq<Timed>, j: nat, ttl: nat, f: Family, user: User, now: int)
    requires ServiceRun(run) && j <= |run|
    ensures var t := TableAt(EMPTY, run, j, ttl);
            && |Unrevoked(t, f)| <= 1
            && forall x, y ::
                 x in Sessions(t, user, now) && y in Sessions(t, user, now) && t.rows[x].family == t.rows[y].family ==> x == y
  {
    EveryTableIsChains(run, j, ttl);
    var t := TableAt(EMPTY, run, j, ttl);
    var a, horizon :| Means(t, a, horizon);
    if f in a.chains {
      UnrevokedIsHead(t, a, horizon, f);
    } else {
      assert Unrevoked(t, f) == {};
    }
    forall x, y | x in Sessions(t, user, now) && y in Sessions(t, user, now) && t.rows[x].family == t.rows[y].family
      ensures x == y
    {
      UnrevokedIsHead(t, a, horizon, t.rows[x].family);
      assert x in Unrevoked(t, t.rows[x].family) && y in Unrevoked(t, t.rows[x].family);
    }
  }

  // ----- A rotated token is spent for ever

  ghost predicate Spent(a: Families, tk: Token) {
    tk in a.issued && a.issued[tk] in a.chains && !AtHead(a.chains[a.issued[tk]], tk)
  }

  lemma SpentStays(t: Table, a: Families, e: Timed, ttl: nat, tk: Token)
    requires Spent(a, tk) && Generated(e.event) !! a.issued.Keys && Opened(e.event) !! a.chains.Keys
    ensures Spent(ApplyToChains(a, e, ttl, t.nextId), tk)
  {
  }

  ghost predicate Refused(outcome: Outcome, t: Table, tk: Token) {
    if Find(t, Digest(tk)).None? then outcome.Unknown? else outcome.Reused?
  }

  lemma SpentVerdict(t: Table, a: Families, horizon: int, tk: Token, raw: Token, now: int, ttl: nat)
    requires Means(t, a, horizon) && Spent(a, tk)
    ensures Refused(Rotate(t, tk, raw, now, ttl).1, t, tk)
  {
    RotateFollowsVerdict(t, a, horizon, tk, raw, now, ttl);
    FindMeansPresent(t, a, horizon, tk);
  }

  // A refresh that is accepted spends the token presented.
  lemma AcceptedSpends(t: Table, a: Families, horizon: int, e: Timed, ttl: nat)
    requires Means(t, a, horizon) && e.event.RefreshWith? && e.event.raw !in a.issued
    requires Apply(t, e, ttl).1 == Some(Ok)
    ensures Spent(ApplyToChains(a, e, ttl, t.nextId), e.event.presented)
  {
    RotateFollowsVerdict(t, a, horizon, e.event.presented, e.event.raw, e.now, ttl);
  }

  lemma {:induction false} SpentIsRefused(t: Table, a: Families, run: seq<Timed>, j: nat, from: int, ttl: nat,
                                          tokens: set<Token>, families: set<Family>, tk: Token)
    requires Means(t, a, from + ttl) && Covers(a, tokens, families)
    requires ValidRun(run, from, tokens, families) && j < |run|
    requires Spent(a, tk) && run[j].event.RefreshWith? && run[j].event.presented == tk
    ensures OutcomeAt(t, run, j, ttl).Some? && Refused(OutcomeAt(t, run, j, ttl).value, TableAt(t, run, j, ttl), tk)
    decreases j
  {
    hide Means, ApplyToChains, Find;
    if j == 0 {
      SpentVerdict(t, a, from + ttl, tk, run[0].event.raw, run[0].now, ttl);
    } else {
      StepMeans(t, a, run[0], from, ttl, tokens, families);
      SpentStays(t, a, run[0], ttl, tk);
      SpentIsRefused(Apply(t, run[0], ttl).0, ApplyToChains(a, run[0], ttl, t.nextId), run[1..], j - 1, run[0].now, ttl,
                     tokens + Generated(run[0].event), families + Opened(run[0].event), tk);
    }
  }

  lemma {:induction false} AcceptedIsSpent(t: Table, a: Families, run: seq<Timed>, i: nat, j: nat, from: int, ttl: nat,
                                           tokens: set<Token>, families: set<Family>)
    requires Means(t, a, from + ttl) && Covers(a, tokens, families)
    requires ValidRun(run, from, tokens, families) && i < j < |run|
    requires run[i].event.RefreshWith? && run[j].event.RefreshWith? && run[i].event.presented == run[j].event.presented
    requires OutcomeAt(t, run, i, ttl) == Some(Ok)
    ensures OutcomeAt(t, run, j, ttl).Some?
    ensures Refused(OutcomeAt(t, run, j, ttl).value, TableAt(t, run, j, ttl), run[j].event.presented)
    decreases i
  {
    hide Means, Apply, ApplyToChains, Find;
    StepMeans(t, a, run[0], from, ttl, tokens, families);
    var t', a' := Apply(t, run[0], ttl).0, ApplyToChains(a, run[0], ttl, t.nextId);
    var tokens', families' := tokens + Generated(run[0].event), families + Opened(run[0].event);
    if i == 0 {
      AcceptedSpends(t, a, from + ttl, run[0], ttl);
      SpentIsRefused(t', a', run[1..], j - 1, run[0].now, ttl, tokens', families', run[0].event.presented);
    } else {
      AcceptedIsSpent(t', a', run[1..], i - 1, j - 1, run[0].now, ttl, tokens', families');
    }
  }

  /** In every run a refresh token is accepted at most once. Presenting it again is
      reported as reuse as long as its row exists, and as unknown after a purge. */
  lemma AcceptedAtMostOnce(run: seq<Timed>, i: nat, j: nat, ttl: nat)
    requires ServiceRun(run) && i < j < |run|
    requires run[i].event.RefreshWith? && run[j].event.RefreshWith? && run[i].event.presented == run[j].event.presented
    requires OutcomeAt(EMPTY, run, i, ttl) == Some(Ok)
    ensures OutcomeAt(EMPTY, run, j, ttl).Some?
    ensures Refused(OutcomeAt(EMPTY, run, j, ttl).value, TableAt(EMPTY, run, j, ttl), run[j].event.presented)
  {
    EmptyMeansNone(run[0].now + ttl);
    AcceptedIsSpent(EMPTY, NONE, run, i, j, run[0].now, ttl, {}, {});
  }

  // ----- A dead family stays dead

  ghost predicate DeadFamily(a: Families, f: Family) {
    f in a.chains && !a.chains[f].head.Live?
  }

  lemma DeadStays(t: Table, a: Families, e: Timed, ttl: nat, f: Family)
    requires DeadFamily(a, f) && Opened(e.event) !! a.chains.Keys
    ensures DeadFamily(ApplyToChains(a, e, ttl, t.nextId), f)
  {
  }

  lemma {:induction false} DeadFamilyIsEmpty(t: Table, a: Families, run: seq<Timed>, j: nat, from: int, ttl: nat,
                                             tokens: set<Token>, families: set<Family>, f: Family)
    requires Means(t, a, from + ttl) && Covers(a, tokens, families)
    requires ValidRun(run, from, tokens, families) && j <= |run| && DeadFamily(a, f)
    ensures Unrevoked(TableAt(t, run, j, ttl), f) == {}
    decreases j
  {
    hide Means, Apply, ApplyToChains;
    if j == 0 {
      UnrevokedIsHead(t, a, from + ttl, f);
    } else {
      StepMeans(t, a, run[0], from, ttl, tokens, families);
      DeadStays(t, a, run[0], ttl, f);
      DeadFamilyIsEmpty(Apply(t, run[0], ttl).0, ApplyToChains(a, run[0], ttl, t.nextId), run[1..], j - 1, run[0].now, ttl,
                        tokens + Generated(run[0].event), families + Opened(run[0].event), f);
    }
  }

  lemma ReusedDies(t: Table, a: Families, horizon: int, e: Timed, ttl: nat)
    requires Means(t, a, horizon) && e.event.RefreshWith?
    requires Apply(t, e, ttl).1.Some? && Apply(t, e, ttl).1.value.Reused?
    ensures var row := Find(t, Digest(e.event.presented));
            && row.Some? && e.event.presented in a.issued
            && t.rows[row.value].family == a.issued[e.event.presented]
            && DeadFamily(ApplyToChains(a, e, ttl, t.nextId), a.issued[e.event.presented])
  {
    RotateFollowsVerdict(t, a, horizon, e.event.presented, e.event.raw, e.now, ttl);
    VerdictFromRow(t, a, horizon, e.event.presented, e.now);
  }

  lemma {:induction false} ReuseKills(t: Table, a: Families, run: seq<Timed>, i: nat, j: nat, from: int, ttl: nat,
                                      tokens: set<Token>, families: set<Family>) returns (f: Family)
    requires Means(t, a, from + ttl) && Covers(a, tokens, families)
    requires ValidRun(run, from, tokens, families) && i < j <= |run| && run[i].event.RefreshWith?
    requires OutcomeAt(t, run, i, ttl).Some? && OutcomeAt(t, run, i, ttl).value.Reused?
    ensures Find(TableAt(t, run, i, ttl), Digest(run[i].event.presented)).Some?
    ensures f == TableAt(t, run, i, ttl).rows[Find(TableAt(t, run, i, ttl), Digest(run[i].event.presented)).value].family
    ensures Unrevoked(TableAt(t, run, j, ttl), f) == {}
    decreases i
  {
    hide Means, Apply, ApplyToChains, Find;
    StepMeans(t, a, run[0], from, ttl, tokens, families);
    var t', a' := Apply(t, run[0], ttl).0, ApplyToChains(a, run[0], ttl, t.nextId);
    var tokens', families' := tokens + Generated(run[0].event), families + Opened(run[0].event);
    if i == 0 {
      ReusedDies(t, a, from + ttl, run[0], ttl);
      f := a.issued[run[0].event.presented];
      DeadFamilyIsEmpty(t', a', run[1..], j - 1, run[0].now, ttl, tokens', families', f);
    } else {
      f := ReuseKills(t', a', run[1..], i - 1, j - 1, run[0].now, ttl, tokens', families');
    }
  }

  /** Once reuse is detected, the whole family is dead for the rest of the run: it has
      no unrevoked token, so no session, and presenting any of its tokens is refused. */
  lemma ReuseEndsTheFamily(run: seq<Timed>, i: nat, j: nat, ttl: nat)
    requires ServiceRun(run) && i < j < |run| && run[i].event.RefreshWith?
    requires OutcomeAt(EMPTY, run, i, ttl).Some? && OutcomeAt(EMPTY, run, i, ttl).value.Reused?
    ensures var t := TableAt(EMPTY, run, i, ttl);
            var t' := TableAt(EMPTY, run, j, ttl);
            var row := Find(t, Digest(run[i].event.presented));
            && row.Some?
            && var f := t.rows[row.value].family;
               && Unrevoked(t', f) == {}
               && (forall user, now, id :: id in Sessions(t', user, now) ==> t'.rows[id].family != f)
               && (run[j].event.RefreshWith? ==>
                     var again := Find(t', Digest(run[j].event.presented));
                     again.Some? && t'.rows[again.value].family == f ==> OutcomeAt(EMPTY, run, j, ttl) != Some(Ok))
  {
    EmptyMeansNone(run[0].now + ttl);
    var f := ReuseKills(EMPTY, NONE, run, i, j, run[0].now, ttl, {}, {});
    var t' := TableAt(EMPTY, run, j, ttl);
    forall id | id in t'.rows && t'.rows[id].family == f ensures t'.rows[id].revoked.Some? {
      assert id !in Unrevoked(t', f);
    }
  }

  // ----- Purging is invisible except for the rows it deletes

  lemma PurgeKeepsChainVerdict(a: Families, now: int, days: nat, tk: Token, later: int)
    requires tk in a.issued && a.issued[tk] in a.chains
    requires Present(PurgeAll(a, now, days).chains[a.issued[tk]], tk)
    ensures Verdict(PurgeAll(a, now, days), tk, later) == Verdict(a, tk, later)
  {
    var c, c' := a.chains[a.issued[tk]], PurgeAll(a, now, days).chains[a.issued[tk]];
    var i :| 0 <= i < |c'.links| && c'.links[i].token == tk;
    assert c.links[i + Stale(c.links, now - days * DAY)].token == tk;
  }

  /** A purge deletes no unexpired token, and leaves the verdict on every token whose
      row it keeps as it was, at any later time. */
  lemma PurgeKeepsVerdicts(t: Table, a: Families, horizon: int, now: int, days: nat, tk: Token, raw: Token, later: int, ttl: nat)
    requires Means(t, a, horizon)
    ensures forall id :: id in t.rows && t.rows[id].expiresAt > now ==> id in Purge(t, now, days).rows
    ensures Find(Purge(t, now, days), Digest(tk)).Some? ==>
              Rotate(Purge(t, now, days), tk, raw, later, ttl).1 == Rotate(t, tk, raw, later, ttl).1
  {
    PurgeMeansPrefix(t, a, horizon, now, days);
    var t', a' := Purge(t, now, days), PurgeAll(a, now, days);
    if Find(t', Digest(tk)).Some? {
      FindMeansPresent(t', a', horizon, tk);
      PurgeKeepsChainVerdict(a, now, days, tk, later);
      RotateFollowsVerdict(t, a, horizon, tk, raw, later, ttl);
      RotateFollowsVerdict(t', a', horizon, tk, raw, later, ttl);
    }
    forall id | id in t.rows && t.rows[id].expiresAt > now ensures id in t'.rows {
      assert id in Unpurged(t, now - days * DAY);
    }
  }

  /** In every run, a purge takes no unexpired row, and a token still in the table after it
      gets the verdict it would have had without it. */
  lemma PurgeIsInvisible(run: seq<Timed>, j: nat, ttl: nat, now: int, days: nat, tk: Token, raw: Token, later: int)
    requires ServiceRun(run) && j <= |run|
    ensures var t := TableAt(EMPTY, run, j, ttl);
            && (forall id :: id in t.rows && t.rows[id].expiresAt > now ==> id in Purge(t, now, days).rows)
            && (Find(Purge(t, now, days), Digest(tk)).Some? ==>
                  Rotate(Purge(t, now, days), tk, raw, later, ttl).1 == Rotate(t, tk, raw, later, ttl).1)
  {
    hide *;
    EveryTableIsChains(run, j, ttl);
    var a, horizon :| Means(TableAt(EMPTY, run, j, ttl), a, horizon);
    PurgeKeepsVerdicts(TableAt(EMPTY, run, j, ttl), a, horizon, now, days, tk, raw, later, ttl);
  }

  // ----- The sessions listed for a user

  lemma UnrevokedIsUnreplaced(t: Table, a: Families, horizon: int, id: Id)
    requires Means(t, a, horizon) && id in t.rows
    ensures Find(t, t.rows[id].digest) == Some(id)
    ensures t.rows[id].revoked.None? ==> t.rows[id].replacedBy.None?
  {
    var i := RowOfToken(t, a, horizon, id);
    FindMeansPresent(t, a, horizon, t.rows[id].digest.raw);
  }

  /** In every run, a session is listed for a user exactly when the row is that user's and
      presenting its token at that moment is accepted. */
  lemma ListedIffAccepted(run: seq<Timed>, j: nat, ttl: nat, user: User, now: int, id: Id, raw: Token)
    requires ServiceRun(run) && j <= |run|
    ensures var t := TableAt(EMPTY, run, j, ttl);
            id in Sessions(t, user, now) <==>
              && id in t.rows && t.rows[id].user == user
              && Rotate(t, t.rows[id].digest.raw, raw, now, ttl).1 == Ok
  {
    hide Means, TableAt, ServiceRun, Issue, Revoke, Unrevoked;
    EveryTableIsChains(run, j, ttl);
    var t := TableAt(EMPTY, run, j, ttl);
    var a, horizon :| Means(t, a, horizon);
    if id in t.rows {
      UnrevokedIsUnreplaced(t, a, horizon, id);
    }
  }

  /** Revoke-all empties the user's list and leaves every other user's as it was. */
  lemma RevokeAllEmptiesList(t: Table, e: Timed, ttl: nat, other: User, now: int)
    requires e.event.RevokeAllOf?
    ensures var t' := Apply(t, e, ttl).0;
            && Sessions(t', e.event.user, now) == {}
            && (other != e.event.user ==> Sessions(t', other, now) == Sessions(t, other, now))
  {
  }

  /** Logout takes exactly the session of the presented token off the list. */
  lemma LogoutRemovesOne(t: Table, e: Timed, ttl: nat, user: User, now: int)
    requires e.event.LogoutWith?
    ensures Sessions(Apply(t, e, ttl).0, user, now) ==
            Sessions(t, user, now) - (match Find(t, Digest(e.event.presented)) case Some(id) => {id} case None => {})
  {
  }

  // A purge keeps exactly the rows that had not expired `days` days before.
  lemma PurgeKeepsIff(t: Table, now: int, days: nat, id: Id)
    ensures id in Purge(t, now, days).rows <==> id in t.rows && t.rows[id].expiresAt >= now - days * 86400
  {
  }

  // ----- What each event does to the rows

  /** A login adds one live row; a purge removes the rows that expired long enough ago and
      changes no other but for references to removed ones; a logout and a revoke-all only
      revoke; and a refused refresh that is not reuse changes nothing. */
  lemma EventMeans(t: Table, e: Timed, ttl: nat)
    ensures var rows := Apply(t, e, ttl).0.rows;
            match e.event
            case LoginAs(family, user, raw) =>
              rows == t.rows[t.nextId := Row(family, user, Digest(raw), None, None, e.now + ttl, None)]
            case PurgeOlder(days) =>
              forall id ::
                && (id in rows <==> id in t.rows && t.rows[id].expiresAt >= e.now - days * 86400)
                && (id in rows ==> rows[id].(parent := None, replacedBy := None) == t.rows[id].(parent := None, replacedBy := None))
            case LogoutWith(presented) =>
              && rows.Keys == t.rows.Keys
              && forall id :: id in rows ==>
                   rows[id] == if Find(t, Digest(presented)) == Some(id) && t.rows[id].revoked.None?
                               then t.rows[id].(revoked := Some(LoggedOut)) else t.rows[id]
            case RevokeAllOf(user) =>
              && rows.Keys == t.rows.Keys
              && forall id :: id in rows ==>
                   rows[id] == if t.rows[id].user == user && t.rows[id].revoked.None?
                               then t.rows[id].(revoked := Some(RevokedAll)) else t.rows[id]
            case RefreshWith(presented, raw) =>
              var outcome := Apply(t, e, ttl).1;
              && outcome == Some(Rotate(t, presented, raw, e.now, ttl).1)
              && (outcome.value.Unknown? || outcome.value.Expired? || outcome.value.Revoked? ==> rows == t.rows)
  {
  }
}
