/** The browser client's single-flight refresh (quansec-ui/src/lib/api.ts) against the
    rotating refresh cookie (quansec/protocols/auth_router.py).

    A request is sent with the cookie the browser holds at that moment, is processed
    by the server in one step, and its response arrives later. Any number of logins,
    logouts and refresh callers may overlap. There is one client, and no response is
    lost; a failure response may or may not carry the instruction to drop the cookie. */
module BrowserClient {
  import opened Options
  import opened RefreshTokens
  import opened TokenFamilies
  import opened TokenRuns

  datatype Reply =
    | Granted(access: nat, cookie: Token, csrf: Option<nat>)
    | Denied(dropsCookie: bool)

  // A refresh request under way, carrying the cookie it was sent with.
  datatype Flight = Sent(cookie: Option<Token>) | Answered(reply: Reply)

  datatype Browser = Browser(
    access: Option<nat>, csrf: Option<nat>, inFlight: Option<Flight>, cookie: Option<Token>)

  // ----- What the client does to the browser's state

  // Concurrent callers share the request under way.
  function CallRefresh(b: Browser): Browser {
    if b.inFlight.Some? then b else b.(inFlight := Some(Sent(b.cookie)))
  }

  function Deliver(b: Browser, reply: Reply): Browser {
    match reply
    case Granted(access, cookie, csrf) =>
      Browser(Some(access), if csrf.Some? then csrf else b.csrf, None, Some(cookie))
    case Denied(drops) =>
      Browser(None, b.csrf, None, if drops then None else b.cookie)
  }

  function AfterLogin(b: Browser, access: nat, csrf: Option<nat>, cookie: Token): Browser {
    b.(access := Some(access), csrf := csrf, cookie := Some(cookie))
  }

  function AfterLogout(b: Browser, dropsCookie: bool): Browser {
    b.(access := None, csrf := None, cookie := if dropsCookie then None else b.cookie)
  }

  class QuansecClient {
    var token: Option<nat>
    var csrfToken: Option<nat>
    var refreshInFlight: Option<Flight>
    var jar: Option<Token>

    function State(): Browser
      reads this
    {
      Browser(token, csrfToken, refreshInFlight, jar)
    }

    constructor ()
      ensures State() == Browser(None, None, None, None)
    {
      token, csrfToken, refreshInFlight, jar := None, None, None, None;
    }

    method Refresh() returns (sent: bool)
      modifies this`refreshInFlight
      ensures State() == CallRefresh(old(State())) && (sent <==> old(refreshInFlight).None?)
    {
      if refreshInFlight.Some? {
        return false;
      }
      refreshInFlight := Some(Sent(jar));
      return true;
    }

    method CompleteRefresh(reply: Reply) returns (ok: bool)
      modifies this
      ensures State() == Deliver(old(State()), reply) && (ok <==> reply.Granted?)
    {
      match reply {
        case Granted(access, cookie, csrf) =>
          jar := Some(cookie);
          token := Some(access);
          if csrf.Some? {
            csrfToken := csrf;
          }
          ok := true;
        case Denied(drops) =>
          if drops {
            jar := None;
          }
          token := None;
          ok := false;
      }
      refreshInFlight := None;
    }

    method CompleteLogin(access: nat, csrf: Option<nat>, cookie: Token)
      modifies this
      ensures State() == AfterLogin(old(State()), access, csrf, cookie)
    {
      jar := Some(cookie);
      token := Some(access);
      csrfToken := csrf;
    }

    method CompleteLogout(dropsCookie: bool)
      modifies this
      ensures State() == AfterLogout(old(State()), dropsCookie)
    {
      if dropsCookie {
        jar := None;
      }
      token := None;
      csrfToken := None;
    }
  }

  // ----- Client, network and server together

  // A logout request, once sent, may be served and answered at any later time, and
  // more than once: this only adds behaviours.

  datatype World = World(
    table: Table,
    browser: Browser,
    logins: set<Token>,             // sessions opened for the client, response under way
    logouts: seq<Option<Token>>,    // logout requests under way
    mine: set<Token>)               // every refresh token the client was ever handed

  datatype Action =
    | Call                                                     // refresh(), or a retry after a 401
    | ServeRefresh(rejected: bool, raw: Token, access: nat, csrf: Option<nat>, drops: bool)
    | ReceiveRefresh
    | ServeLogin(family: Family, user: User, raw: Token)
    | ReceiveLogin(raw: Token, access: nat, csrf: Option<nat>)
    | SendLogout
    | ServeLogout(i: nat)
    | ReceiveLogout(drops: bool)
    | Elsewhere(event: Event)                                  // other clients, revoke-all, purge

  datatype Move = Move(now: int, action: Action)

  predicate Enabled(w: World, a: Action) {
    match a
    case ServeRefresh(_, _, _, _, _) => w.browser.inFlight.Some? && w.browser.inFlight.value.Sent?
    case ReceiveRefresh => w.browser.inFlight.Some? && w.browser.inFlight.value.Answered?
    case ReceiveLogin(raw, _, _) => raw in w.logins
    case ServeLogout(i) => i < |w.logouts|
    case Elsewhere(event) => event.RefreshWith? ==> event.presented !in w.mine
    case _ => true
  }

  // The step of the token table behind an action, if there is one.
  function Behind(w: World, a: Action): Option<Event>
    requires Enabled(w, a)
  {
    match a
    case ServeRefresh(rejected, raw, _, _, _) =>
      var cookie := w.browser.inFlight.value.cookie;
      if rejected || cookie.None? then None else Some(RefreshWith(cookie.value, raw))
    case ServeLogin(family, user, raw) => Some(LoginAs(family, user, raw))
    case ServeLogout(i) => if w.logouts[i].Some? then Some(LogoutWith(w.logouts[i].value)) else None
    case Elsewhere(event) => Some(event)
    case _ => None
  }

  ghost function ServerOutcome(w: World, m: Move, ttl: nat): Option<Outcome>
    requires Enabled(w, m.action)
  {
    if Behind(w, m.action).Some? then Apply(w.table, Timed(m.now, Behind(w, m.action).value), ttl).1 else None
  }

  ghost function Advance(w: World, m: Move, ttl: nat): World
    requires Enabled(w, m.action)
  {
    var table := if Behind(w, m.action).Some? then Apply(w.table, Timed(m.now, Behind(w, m.action).value), ttl).0 else w.table;
    match m.action
    case Call => w.(browser := CallRefresh(w.browser))
    case ServeRefresh(_, raw, access, csrf, drops) =>
      if ServerOutcome(w, m, ttl) == Some(Ok)
      then w.(table := table, mine := w.mine + {raw},
              browser := w.browser.(inFlight := Some(Answered(Granted(access, raw, csrf)))))
      else w.(table := table, browser := w.browser.(inFlight := Some(Answered(Denied(drops)))))
    case ReceiveRefresh => w.(browser := Deliver(w.browser, w.browser.inFlight.value.reply))
    case ServeLogin(_, _, raw) => w.(table := table, logins := w.logins + {raw}, mine := w.mine + {raw})
    case ReceiveLogin(raw, access, csrf) =>
      w.(browser := AfterLogin(w.browser, access, csrf, raw), logins := w.logins - {raw})
    case SendLogout => w.(logouts := w.logouts + [w.browser.cookie])
    case ServeLogout(i) => w.(table := table)
    case ReceiveLogout(drops) => w.(browser := AfterLogout(w.browser, drops))
    case Elsewhere(_) => w.(table := table)
  }

  // ----- Runs of the world

  ghost predicate FreshEvent(e: Option<Event>, tokens: set<Token>, families: set<Family>) {
    e.Some? ==> Generated(e.value) !! tokens && Opened(e.value) !! families
  }

  function TokensWith(e: Option<Event>, tokens: set<Token>): set<Token> {
    if e.Some? then tokens + Generated(e.value) else tokens
  }

  function FamiliesWith(e: Option<Event>, families: set<Family>): set<Family> {
    if e.Some? then families + Opened(e.value) else families
  }

  ghost predicate ValidMoves(w: World, moves: seq<Move>, from: int, ttl: nat, tokens: set<Token>, families: set<Family>)
    decreases |moves|
  {
    moves != [] ==>
      && from <= moves[0].now
      && Enabled(w, moves[0].action)
      && FreshEvent(Behind(w, moves[0].action), tokens, families)
      && ValidMoves(Advance(w, moves[0], ttl), moves[1..], moves[0].now, ttl,
                    TokensWith(Behind(w, moves[0].action), tokens), FamiliesWith(Behind(w, moves[0].action), families))
  }

  // The outcomes of all refresh requests the server processes for this client.
  ghost function RefreshOutcomes(w: World, moves: seq<Move>, from: int, ttl: nat,
                                 tokens: set<Token>, families: set<Family>): seq<Outcome>
    requires ValidMoves(w, moves, from, ttl, tokens, families)
    decreases |moves|
  {
    if moves == [] then []
    else
      (if moves[0].action.ServeRefresh? && ServerOutcome(w, moves[0], ttl).Some?
       then [ServerOutcome(w, moves[0], ttl).value] else [])
      + RefreshOutcomes(Advance(w, moves[0], ttl), moves[1..], moves[0].now, ttl,
                        TokensWith(Behind(w, moves[0].action), tokens), FamiliesWith(Behind(w, moves[0].action), families))
  }

  // ----- The invariant: a cookie the client can still send has not been rotated

  // The token is the newest of its family, or its row is gone.
  ghost predicate Newest(a: Families, tk: Token) {
    tk in a.issued && a.issued[tk] in a.chains
    && (Present(a.chains[a.issued[tk]], tk) ==> AtHead(a.chains[a.issued[tk]], tk))
  }

  ghost predicate Consistent(a: Families, w: World) {
    var b := w.browser;
    && w.mine <= a.issued.Keys
    && w.logins <= w.mine
    && (forall tk :: tk in w.logins ==> Newest(a, tk))
    && (b.cookie.Some? ==> b.cookie.value in w.mine && b.cookie.value !in w.logins)
    && (b.cookie.Some? ==> Newest(a, b.cookie.value) || Replacing(b))
    && (b.inFlight.Some? ==> match b.inFlight.value
                             case Sent(Some(tk)) => tk in w.mine && tk !in w.logins && Newest(a, tk)
                             case Sent(None) => true
                             case Answered(Granted(_, tk, _)) => tk in w.mine && tk !in w.logins && Newest(a, tk)
                             case Answered(Denied(_)) => true)
  }

  // The cookie is about to be replaced by the response under way.
  ghost predicate Replacing(b: Browser) {
    b.inFlight.Some? && b.inFlight.value.Answered? && b.inFlight.value.reply.Granted?
  }

  // Only presenting a token itself can make it stop being the newest of its family.
  lemma NewestStays(a: Families, e: Timed, ttl: nat, nextId: Id, tk: Token)
    requires Newest(a, tk) && Generated(e.event) !! a.issued.Keys && Opened(e.event) !! a.chains.Keys
    requires e.event.RefreshWith? ==> e.event.presented != tk
    ensures Newest(ApplyToChains(a, e, ttl, nextId), tk)
  {
  }

  lemma OthersStayNewest(t: Table, a: Families, w: World, m: Move, ttl: nat, tk: Token)
    requires Enabled(w, m.action) && Behind(w, m.action).Some? && Newest(a, tk)
    requires FreshEvent(Behind(w, m.action), a.issued.Keys, a.chains.Keys)
    requires tk in w.mine
    requires m.action.ServeRefresh? ==> w.browser.inFlight.value.cookie != Some(tk)
    ensures Newest(ApplyToChains(a, Timed(m.now, Behind(w, m.action).value), ttl, t.nextId), tk)
  {
    NewestStays(a, Timed(m.now, Behind(w, m.action).value), ttl, t.nextId, tk);
  }

  // The families after a move.
  ghost function FamiliesAfter(a: Families, w: World, m: Move, ttl: nat): Families
    requires Enabled(w, m.action)
  {
    var e := Behind(w, m.action);
    if e.Some? then ApplyToChains(a, Timed(m.now, e.value), ttl, w.table.nextId) else a
  }

  // A refresh request served for the client is never taken for reuse.
  lemma ServedRefresh(a: Families, horizon: int, w: World, m: Move, ttl: nat)
    requires Means(w.table, a, horizon) && Consistent(a, w)
    requires Enabled(w, m.action) && m.action.ServeRefresh? && Behind(w, m.action).Some?
    requires m.action.raw !in a.issued
    ensures ServerOutcome(w, m, ttl).Some? && !ServerOutcome(w, m, ttl).value.Reused?
    ensures var a' := FamiliesAfter(a, w, m, ttl);
            if ServerOutcome(w, m, ttl).value.Ok? then
              m.action.raw in a'.issued && Newest(a', m.action.raw) && a'.issued.Keys == a.issued.Keys + {m.action.raw}
            else a' == a
  {
    var tk := w.browser.inFlight.value.cookie.value;
    assert Newest(a, tk);
    RotateFollowsVerdict(w.table, a, horizon, tk, m.action.raw, m.now, ttl);
  }

  lemma ServeRefreshConsistent(a: Families, horizon: int, w: World, m: Move, ttl: nat)
    requires Means(w.table, a, horizon) && Consistent(a, w) && Enabled(w, m.action) && m.action.ServeRefresh?
    requires FreshEvent(Behind(w, m.action), a.issued.Keys, a.chains.Keys)
    ensures Consistent(FamiliesAfter(a, w, m, ttl), Advance(w, m, ttl))
  {
    if Behind(w, m.action).Some? {
      assert m.action.raw in Generated(Behind(w, m.action).value);
      ServedRefresh(a, horizon, w, m, ttl);
      forall tk | tk in w.logins ensures Newest(FamiliesAfter(a, w, m, ttl), tk) {
        OthersStayNewest(w.table, a, w, m, ttl, tk);
      }
      if w.browser.cookie.Some? && w.browser.cookie != w.browser.inFlight.value.cookie {
        OthersStayNewest(w.table, a, w, m, ttl, w.browser.cookie.value);
      }
    }
  }

  // Server steps that present none of the client's tokens for refresh.
  lemma OtherStepConsistent(a: Families, w: World, m: Move, ttl: nat)
    requires Consistent(a, w) && Enabled(w, m.action) && !m.action.ServeRefresh? && Behind(w, m.action).Some?
    requires FreshEvent(Behind(w, m.action), a.issued.Keys, a.chains.Keys)
    ensures Consistent(FamiliesAfter(a, w, m, ttl), Advance(w, m, ttl))
  {
    var e := Timed(m.now, Behind(w, m.action).value);
    var a' := FamiliesAfter(a, w, m, ttl);
    assert a.issued.Keys <= a'.issued.Keys;
    forall tk | tk in w.mine && Newest(a, tk) ensures Newest(a', tk) {
      OthersStayNewest(w.table, a, w, m, ttl, tk);
    }
    if m.action.ServeLogin? {
      assert m.action.raw in Generated(e.event);
      assert Newest(a', m.action.raw);
    }
  }

  lemma QuietConsistent(a: Families, w: World, m: Move, ttl: nat)
    requires Consistent(a, w) && Enabled(w, m.action) && Behind(w, m.action).None? && !m.action.ServeRefresh?
    ensures Consistent(a, Advance(w, m, ttl))
  {
  }

  lemma MoveConsistent(a: Families, w: World, m: Move, from: int, ttl: nat, tokens: set<Token>, families: set<Family>)
    requires Means(w.table, a, from + ttl) && Covers(a, tokens, families) && Consistent(a, w)
    requires from <= m.now && Enabled(w, m.action) && FreshEvent(Behind(w, m.action), tokens, families)
    ensures var a' := FamiliesAfter(a, w, m, ttl);
            && Means(Advance(w, m, ttl).table, a', m.now + ttl)
            && Covers(a', TokensWith(Behind(w, m.action), tokens), FamiliesWith(Behind(w, m.action), families))
            && Consistent(a', Advance(w, m, ttl))
  {
    hide Means, Consistent, Apply, ApplyToChains;
    if Behind(w, m.action).Some? {
      StepMeans(w.table, a, Timed(m.now, Behind(w, m.action).value), from, ttl, tokens, families);
    } else {
      LaterHorizon(w.table, a, from + ttl, m.now + ttl);
    }
    if m.action.ServeRefresh? {
      ServeRefreshConsistent(a, from + ttl, w, m, ttl);
    } else if Behind(w, m.action).Some? {
      OtherStepConsistent(a, w, m, ttl);
    } else {
      QuietConsistent(a, w, m, ttl);
    }
  }

  lemma {:induction false} ConsistentRunsNeverReuse(a: Families, w: World, moves: seq<Move>, from: int, ttl: nat,
                                                    tokens: set<Token>, families: set<Family>)
    requires Means(w.table, a, from + ttl) && Covers(a, tokens, families) && Consistent(a, w)
    requires ValidMoves(w, moves, from, ttl, tokens, families)
    ensures forall o :: o in RefreshOutcomes(w, moves, from, ttl, tokens, families) ==> !o.Reused?
    decreases |moves|
  {
    if moves != [] {
      var m := moves[0];
      MoveConsistent(a, w, m, from, ttl, tokens, families);
      if m.action.ServeRefresh? && Behind(w, m.action).Some? {
        assert m.action.raw in Generated(Behind(w, m.action).value);
        ServedRefresh(a, from + ttl, w, m, ttl);
      }
      hide Means, Consistent;
      ConsistentRunsNeverReuse(FamiliesAfter(a, w, m, ttl), Advance(w, m, ttl), moves[1..], m.now, ttl,
                               TokensWith(Behind(w, m.action), tokens), FamiliesWith(Behind(w, m.action), families));
    }
  }

  const SIGNED_OUT := Browser(None, None, None, None)

  /** Starting signed out, beside any other activity on the server, the client is never
      told that its refresh token was reused: whatever the order in which refresh
      callers, retries, logins and logouts overlap. */
  lemma SingleFlightNeverReuses(t: Table, a: Families, moves: seq<Move>, from: int, ttl: nat,
                                tokens: set<Token>, families: set<Family>)
    requires Means(t, a, from + ttl) && Covers(a, tokens, families)
    requires ValidMoves(World(t, SIGNED_OUT, {}, [], {}), moves, from, ttl, tokens, families)
    ensures forall o :: o in RefreshOutcomes(World(t, SIGNED_OUT, {}, [], {}), moves, from, ttl, tokens, families) ==> !o.Reused?
  {
    ConsistentRunsNeverReuse(a, World(t, SIGNED_OUT, {}, [], {}), moves, from, ttl, tokens, families);
  }

  /** What sharing the request avoids: of two refreshes sent in parallel with the same
      cookie, the second is taken for theft, and the family has no live token left. */
  lemma ParallelRefreshIsReuse(t: Table, a: Families, horizon: int, tk: Token, first: Token, second: Token, now: int, ttl: nat)
    requires Means(t, a, horizon) && horizon <= now + ttl
    requires first !in a.issued && second !in a.issued && first != second
    requires Rotate(t, tk, first, now, ttl).1 == Ok
    ensures var (t', outcome) := Rotate(Rotate(t, tk, first, now, ttl).0, tk, second, now, ttl);
            && outcome == Reused(1)
            && tk in a.issued
            && Unrevoked(t', a.issued[tk]) == {}
  {
    hide Means;
    RotateFollowsVerdict(t, a, horizon, tk, first, now, ttl);
    RotateMeansPresent(t, a, horizon, tk, first, now, ttl);
    var a1 := PresentToken(a, tk, now, Link(t.nextId, first, now + ttl));
    var t1 := Rotate(t, tk, first, now, ttl).0;
    StillPresent(a, tk, now, Link(t.nextId, first, now + ttl));
    RotateFollowsVerdict(t1, a1, now + ttl, tk, second, now, ttl);
    RotateMeansPresent(t1, a1, now + ttl, tk, second, now, ttl);
    var a2 := PresentToken(a1, tk, now, Link(t1.nextId, second, now + ttl));
    UnrevokedIsHead(Rotate(t1, tk, second, now, ttl).0, a2, now + ttl, a.issued[tk]);
  }

  lemma StillPresent(a: Families, tk: Token, now: int, link: Link)
    requires Verdict(a, tk, now) == Ok && a.chains[a.issued[tk]].head.Live? && link.token !in a.issued
    ensures Verdict(PresentToken(a, tk, now, link), tk, now) == Reused(1)
  {
    var c := a.chains[a.issued[tk]];
    var i :| 0 <= i < |c.links| && c.links[i].token == tk;
    var c' := c.(links := c.links + [link]);
    assert c'.links[i].token == tk;
    assert Present(c', tk) && !AtHead(c', tk);
  }

  // ----- What one caller sees

  ghost function Moved(w: World, now: int, a: Action, ttl: nat): World {
    if Enabled(w, a) then Advance(w, Move(now, a), ttl) else w
  }

  /** A refresh carries the browser's cookie, presents it once however many callers join,
      and leaves the client with the new token and cookie, or with no token. */
  lemma RefreshRoundTrip(w: World, now: int, raw: Token, access: nat, csrf: Option<nat>, drops: bool, ttl: nat)
    requires w.browser.inFlight.None? && w.browser.cookie.Some?
    ensures var sent := Moved(w, now, Call, ttl);
            var served := Moved(sent, now, ServeRefresh(false, raw, access, csrf, drops), ttl);
            var done := Moved(served, now, ReceiveRefresh, ttl);
            var (table, outcome) := Rotate(w.table, w.browser.cookie.value, raw, now, ttl);
            && Moved(sent, now, Call, ttl) == sent && Moved(served, now, Call, ttl) == served
            && done.table == table
            && done.browser.inFlight.None?
            && if outcome == Ok then
                 && done.browser.access == Some(access) && done.browser.cookie == Some(raw)
                 && done.browser.csrf == (if csrf.Some? then csrf else w.browser.csrf)
               else
                 && done.browser.access.None? && done.browser.csrf == w.browser.csrf
                 && done.browser.cookie == (if drops then None else w.browser.cookie)
  {
    hide Rotate, Issue, Revoke;
  }

  /** A refresh that the server throttles or refuses for its CSRF value, or that carries no
      cookie, touches no row and signs the client out. */
  lemma RejectedRefresh(w: World, now: int, rejected: bool, raw: Token, access: nat, csrf: Option<nat>, drops: bool, ttl: nat)
    requires w.browser.inFlight.None? && (rejected || w.browser.cookie.None?)
    ensures var sent := Moved(w, now, Call, ttl);
            var done := Moved(Moved(sent, now, ServeRefresh(rejected, raw, access, csrf, drops), ttl), now, ReceiveRefresh, ttl);
            && done.table == w.table && done.browser.access.None?
            && done.browser.cookie == if drops then None else w.browser.cookie
  {
  }

  /** A login opens one session and hands the client its token and cookie. */
  lemma LoginRoundTrip(w: World, now: int, family: Family, user: User, raw: Token, access: nat, csrf: Option<nat>, ttl: nat)
    ensures var served := Moved(w, now, ServeLogin(family, user, raw), ttl);
            var done := Moved(served, now, ReceiveLogin(raw, access, csrf), ttl);
            && done.table == Issue(w.table, family, user, None, raw, now, ttl)
            && done.browser == Browser(Some(access), csrf, w.browser.inFlight, Some(raw))
  {
  }

  /** A logout revokes the session of the cookie, which is never accepted again, and
      leaves the client without token and CSRF value. */
  lemma LogoutRoundTrip(w: World, a: Families, horizon: int, now: int, drops: bool, raw: Token, later: int, ttl: nat)
    requires Means(w.table, a, horizon) && w.browser.cookie.Some?
    ensures var sent := Moved(w, now, SendLogout, ttl);
            var served := Moved(sent, now, ServeLogout(|w.logouts|), ttl);
            var done := Moved(served, now, ReceiveLogout(drops), ttl);
            && done.table == Logout(w.table, w.browser.cookie.value)
            && done.browser == Browser(None, None, w.browser.inFlight, if drops then None else w.browser.cookie)
            && Rotate(done.table, w.browser.cookie.value, raw, later, ttl).1 != Ok
  {
    var tk := w.browser.cookie.value;
    LogoutMeansKill(w.table, a, horizon, tk);
    VerdictFromRow(Logout(w.table, tk), LogoutOf(a, tk), horizon, tk, later);
    RotateFollowsVerdict(Logout(w.table, tk), LogoutOf(a, tk), horizon, tk, raw, later, ttl);
    hide Means, Rotate, Logout;
  }

  // ----- When the client holds an access token

  ghost predicate EnabledAll(w: World, moves: seq<Move>, ttl: nat)
    decreases |moves|
  {
    moves != [] ==> Enabled(w, moves[0].action) && EnabledAll(Advance(w, moves[0], ttl), moves[1..], ttl)
  }

  ghost function WorldAfter(w: World, moves: seq<Move>, ttl: nat): World
    requires EnabledAll(w, moves, ttl)
    decreases |moves|
  {
    if moves == [] then w else WorldAfter(Advance(w, moves[0], ttl), moves[1..], ttl)
  }

  // Neither a login nor a granted refresh is answered.
  ghost predicate NothingGranted(w: World, moves: seq<Move>, ttl: nat)
    requires EnabledAll(w, moves, ttl)
    decreases |moves|
  {
    moves != [] ==>
      && !moves[0].action.ReceiveLogin?
      && !(moves[0].action.ReceiveRefresh? && w.browser.inFlight.value.reply.Granted?)
      && NothingGranted(Advance(w, moves[0], ttl), moves[1..], ttl)
  }

  /** After a logout is answered, no access token is held until a login or a granted
      refresh is, whatever else happens. */
  lemma {:induction false} SignedOutUntilGranted(w: World, moves: seq<Move>, ttl: nat)
    requires moves != [] && moves[0].action.ReceiveLogout? && EnabledAll(w, moves, ttl)
    requires NothingGranted(w, moves, ttl)
    ensures WorldAfter(w, moves, ttl).browser.access.None?
  {
    StaysSignedOut(Advance(w, moves[0], ttl), moves[1..], ttl);
  }

  lemma {:induction false} StaysSignedOut(w: World, moves: seq<Move>, ttl: nat)
    requires w.browser.access.None? && EnabledAll(w, moves, ttl) && NothingGranted(w, moves, ttl)
    ensures WorldAfter(w, moves, ttl).browser.access.None?
    decreases |moves|
  {
    if moves != [] {
      StaysSignedOut(Advance(w, moves[0], ttl), moves[1..], ttl);
    }
  }

  // What happens elsewhere happens to the table, and to nothing the client holds.
  lemma ElsewhereActs(w: World, now: int, event: Event, ttl: nat)
    ensures Moved(w, now, Elsewhere(event), ttl).browser == w.browser
    ensures (event.RefreshWith? ==> event.presented !in w.mine) ==>
              Moved(w, now, Elsewhere(event), ttl).table == Apply(w.table, Timed(now, event), ttl).0
  {
  }
}
