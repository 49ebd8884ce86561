/** What the refresh-token table means: one chain per family, in the order of
    rotation, whose last link is live or dead. Every operation of RefreshTokens is
    shown to be the corresponding step on chains, and the guarantees of rotation are
    proved for every run. */
module TokenFamilies {
  import opened Options
  import opened RefreshTokens

  datatype Link = Link(id: Id, token: Token, expiry: int)

  datatype Head = Live | Dead(reason: Reason) | Gone

  datatype Chain = Chain(user: User, links: seq<Link>, head: Head)

  // All families ever opened, and the family of every token ever handed out.
  datatype Families = Families(chains: map<Family, Chain>, issued: map<Token, Family>)

  const NONE := Families(map[], map[])

  // ----- The operations on chains

  ghost predicate Present(c: Chain, tk: Token) {
    exists i :: 0 <= i < |c.links| && c.links[i].token == tk
  }

  predicate AtHead(c: Chain, tk: Token) {
    c.links != [] && c.links[|c.links| - 1].token == tk
  }

  function Login(a: Families, family: Family, user: User, link: Link): Families {
    Families(a.chains[family := Chain(user, [link], Live)], a.issued[link.token := family])
  }

  function Kill(c: Chain, reason: Reason): Chain {
    if c.head.Live? then c.(head := Dead(reason)) else c
  }

  // The verdict on a presented token.
  ghost function Verdict(a: Families, tk: Token, now: int): Outcome {
    if tk !in a.issued || a.issued[tk] !in a.chains then Unknown
    else
      var c := a.chains[a.issued[tk]];
      if !Present(c, tk) then Unknown
      else if !AtHead(c, tk) then Reused(if c.head.Live? then 1 else 0)
      else if c.head.Dead? then Revoked(c.head.reason)
      else if c.links[|c.links| - 1].expiry <= now then Expired
      else Ok
  }

  ghost function PresentToken(a: Families, tk: Token, now: int, link: Link): Families {
    match Verdict(a, tk, now)
    case Ok =>
      var c := a.chains[a.issued[tk]];
      Families(a.chains[a.issued[tk] := c.(links := c.links + [link])], a.issued[link.token := a.issued[tk]])
    case Reused(_) =>
      a.(chains := a.chains[a.issued[tk] := Kill(a.chains[a.issued[tk]], ReuseDetected)])
    case _ => a
  }

  ghost function LogoutOf(a: Families, tk: Token): Families {
    if tk in a.issued && a.issued[tk] in a.chains && AtHead(a.chains[a.issued[tk]], tk)
    then a.(chains := a.chains[a.issued[tk] := Kill(a.chains[a.issued[tk]], LoggedOut)])
    else a
  }

  function RevokeAll(a: Families, user: User): Families {
    a.(chains := map f | f in a.chains ::
                   if a.chains[f].user == user then Kill(a.chains[f], RevokedAll) else a.chains[f])
  }

  // How many links, counted from the oldest, have expired before the cutoff.
  function Stale(links: seq<Link>, cutoff: int): (n: nat)
    ensures n <= |links|
  {
    if links != [] && links[0].expiry < cutoff then 1 + Stale(links[1..], cutoff) else 0
  }

  // Purging drops a prefix of the chain.
  function PurgeChain(c: Chain, cutoff: int): Chain {
    var rest := c.links[Stale(c.links, cutoff)..];
    Chain(c.user, rest, if rest == [] then Gone else c.head)
  }

  function PurgeAll(a: Families, now: int, days: nat): Families {
    a.(chains := map f | f in a.chains :: PurgeChain(a.chains[f], now - days * DAY))
  }

  // ----- When a table means these families

  ghost predicate LinkOk(rows: map<Id, Row>, f: Family, c: Chain, i: nat)
    requires i < |c.links|
  {
    var l := c.links[i];
    && l.id in rows
    && rows[l.id] == Row(
         f, c.user, Digest(l.token),
         if i == 0 then None else Some(c.links[i - 1].id),
         if i + 1 < |c.links| then Some(c.links[i + 1].id) else None,
         l.expiry,
         if i + 1 < |c.links| then Some(Rotated) else if c.head.Dead? then Some(c.head.reason) else None)
  }

  ghost predicate Stored(rows: map<Id, Row>, f: Family, c: Chain) {
    forall i :: 0 <= i < |c.links| ==> LinkOk(rows, f, c, i)
  }

  ghost predicate Ordered(links: seq<Link>) {
    forall i, j :: 0 <= i < j < |links| ==>
      links[i].id < links[j].id && links[i].token != links[j].token && links[i].expiry <= links[j].expiry
  }

  ghost predicate Known(l: Link, f: Family, nextId: Id, issued: map<Token, Family>, horizon: int) {
    l.id < nextId && l.expiry <= horizon && l.token in issued && issued[l.token] == f
  }

  ghost predicate AllKnown(links: seq<Link>, f: Family, nextId: Id, issued: map<Token, Family>, horizon: int) {
    forall i :: 0 <= i < |links| ==> Known(links[i], f, nextId, issued, horizon)
  }

  ghost predicate ChainOk(t: Table, f: Family, c: Chain, issued: map<Token, Family>, horizon: int) {
    && (c.links == [] <==> c.head.Gone?)
    && Stored(t.rows, f, c)
    && Ordered(c.links)
    && AllKnown(c.links, f, t.nextId, issued, horizon)
  }

  ghost predicate HasId(c: Chain, id: Id) {
    exists i :: 0 <= i < |c.links| && c.links[i].id == id
  }

  // `horizon` bounds the expiry of everything issued so far.
  ghost predicate Means(t: Table, a: Families, horizon: int) {
    && (forall id :: id in t.rows ==>
          id < t.nextId && t.rows[id].family in a.chains && HasId(a.chains[t.rows[id].family], id))
    && (forall f :: f in a.chains ==> ChainOk(t, f, a.chains[f], a.issued, horizon))
    && (forall tk :: tk in a.issued ==> a.issued[tk] in a.chains)
  }

  lemma EmptyMeansNone(horizon: int)
    ensures Means(Table(map[], 0), NONE, horizon)
  {
  }

  // ----- Finding a token's row

  // A token's row, if the table has one, sits at the token's place in its chain.
  lemma RowOfToken(t: Table, a: Families, horizon: int, id: Id) returns (i: nat)
    requires Means(t, a, horizon) && id in t.rows
    ensures var row := t.rows[id];
            && row.digest.raw in a.issued && a.issued[row.digest.raw] == row.family
            && row.family in a.chains && i < |a.chains[row.family].links|
            && a.chains[row.family].links[i].id == id && a.chains[row.family].links[i].token == row.digest.raw
            && LinkOk(t.rows, row.family, a.chains[row.family], i)
  {
    var c := a.chains[t.rows[id].family];
    assert HasId(c, id);
    i :| 0 <= i < |c.links| && c.links[i].id == id;
    assert LinkOk(t.rows, t.rows[id].family, c, i);
  }

  lemma DigestsUnique(t: Table, a: Families, horizon: int, x: Id, y: Id)
    requires Means(t, a, horizon) && x in t.rows && y in t.rows && t.rows[x].digest == t.rows[y].digest
    ensures x == y
  {
    var i := RowOfToken(t, a, horizon, x);
    var j := RowOfToken(t, a, horizon, y);
  }

  lemma FindMeansPresent(t: Table, a: Families, horizon: int, tk: Token)
    requires Means(t, a, horizon)
    ensures Find(t, Digest(tk)).None? <==>
            tk !in a.issued || !Present(a.chains[a.issued[tk]], tk)
    ensures forall f, i :: f in a.chains && 0 <= i < |a.chains[f].links| && a.chains[f].links[i].token == tk ==>
              Find(t, Digest(tk)) == Some(a.chains[f].links[i].id)
  {
    if Find(t, Digest(tk)).Some? {
      var i := RowOfToken(t, a, horizon, Find(t, Digest(tk)).value);
    }
    forall f, i | f in a.chains && 0 <= i < |a.chains[f].links| && a.chains[f].links[i].token == tk
      ensures Find(t, Digest(tk)) == Some(a.chains[f].links[i].id)
    {
      assert LinkOk(t.rows, f, a.chains[f], i);
      DigestsUnique(t, a, horizon, Find(t, Digest(tk)).value, a.chains[f].links[i].id);
    }
    if tk in a.issued && Present(a.chains[a.issued[tk]], tk) {
      var c := a.chains[a.issued[tk]];
      var i :| 0 <= i < |c.links| && c.links[i].token == tk;
    }
  }

  // ----- Every operation is the step on chains

  // A chain whose rows are left alone is still stored.
  lemma UntouchedChain(t: Table, t': Table, f: Family, c: Chain,
                       issued: map<Token, Family>, issued': map<Token, Family>, horizon: int, later: int)
    requires ChainOk(t, f, c, issued, horizon) && t.nextId <= t'.nextId && horizon <= later
    requires forall tk :: tk in issued ==> tk in issued' && issued'[tk] == issued[tk]
    requires forall id :: id in t.rows && t.rows[id].family == f ==> id in t'.rows && t'.rows[id] == t.rows[id]
    ensures ChainOk(t', f, c, issued', later)
  {
    forall i | 0 <= i < |c.links| ensures LinkOk(t'.rows, f, c, i) {
      assert LinkOk(t.rows, f, c, i);
    }
    forall i | 0 <= i < |c.links| ensures Known(c.links[i], f, t'.nextId, issued', later) {
      assert Known(c.links[i], f, t.nextId, issued, horizon);
    }
  }

  lemma IssueMeansLogin(t: Table, a: Families, horizon: int, family: Family, user: User, raw: Token, now: int, ttl: nat)
    requires Means(t, a, horizon) && horizon <= now + ttl
    requires family !in a.chains && raw !in a.issued
    ensures Means(Issue(t, family, user, None, raw, now, ttl),
                  Login(a, family, user, Link(t.nextId, raw, now + ttl)), now + ttl)
  {
    var t', a' := Issue(t, family, user, None, raw, now, ttl), Login(a, family, user, Link(t.nextId, raw, now + ttl));
    forall f | f in a'.chains ensures ChainOk(t', f, a'.chains[f], a'.issued, now + ttl) {
      if f != family {
        UntouchedChain(t, t', f, a.chains[f], a.issued, a'.issued, horizon, now + ttl);
      }
    }
    forall id | id in t'.rows ensures t'.rows[id].family in a'.chains && HasId(a'.chains[t'.rows[id].family], id) {
      if id == t.nextId {
        assert a'.chains[family].links[0].id == id;
      }
    }
  }

  // Revoking the live rows of some families kills the heads of their chains.
  function KillIn(a: Families, fs: set<Family>, reason: Reason): Families {
    a.(chains := map f | f in a.chains :: if f in fs then Kill(a.chains[f], reason) else a.chains[f])
  }

  lemma RevokedChainOk(t: Table, t': Table, f: Family, c: Chain, c': Chain, issued: map<Token, Family>, horizon: int,
                       reason: Reason, killed: bool)
    requires ChainOk(t, f, c, issued, horizon)
    requires c' == (if killed then Kill(c, reason) else c) && t'.nextId == t.nextId
    requires forall id :: id in t.rows && t.rows[id].family == f ==>
               id in t'.rows && t'.rows[id] == if killed && t.rows[id].revoked.None? then t.rows[id].(revoked := Some(reason)) else t.rows[id]
    ensures ChainOk(t', f, c', issued, horizon)
  {
    forall i | 0 <= i < |c.links| ensures LinkOk(t'.rows, f, c', i) {
      assert LinkOk(t.rows, f, c, i);
    }
  }

  lemma RevokeMeansKill(t: Table, a: Families, horizon: int, ids: set<Id>, fs: set<Family>, reason: Reason)
    requires Means(t, a, horizon)
    requires forall id :: id in t.rows ==> (id in ids <==> t.rows[id].family in fs && t.rows[id].revoked.None?)
    ensures Means(Revoke(t, ids, reason), KillIn(a, fs, reason), horizon)
  {
    hide ChainOk;
    var t', a' := Revoke(t, ids, reason), KillIn(a, fs, reason);
    forall f | f in a'.chains ensures ChainOk(t', f, a'.chains[f], a'.issued, horizon) {
      RevokedChainOk(t, t', f, a.chains[f], a'.chains[f], a.issued, horizon, reason, f in fs);
    }
    forall id | id in t'.rows ensures HasId(a'.chains[t'.rows[id].family], id) {
      IdStays(a.chains[t.rows[id].family], a'.chains[t.rows[id].family], id);
    }
  }

  // A live family has exactly one unrevoked row, its head; a dead one has none.
  lemma UnrevokedIsHead(t: Table, a: Families, horizon: int, f: Family)
    requires Means(t, a, horizon) && f in a.chains
    ensures var c := a.chains[f];
            Unrevoked(t, f) == if c.head.Live? then {c.links[|c.links| - 1].id} else {}
    ensures |Unrevoked(t, f)| == if a.chains[f].head.Live? then 1 else 0
  {
    var c := a.chains[f];
    forall id | id in Unrevoked(t, f) ensures c.head.Live? && id == c.links[|c.links| - 1].id {
      var i := RowOfToken(t, a, horizon, id);
    }
    if c.head.Live? {
      assert LinkOk(t.rows, f, c, |c.links| - 1);
    }
  }

  lemma RevokeFamilyMeansKill(t: Table, a: Families, horizon: int, f: Family, reason: Reason)
    requires Means(t, a, horizon) && f in a.chains
    ensures Means(Revoke(t, Unrevoked(t, f), reason), a.(chains := a.chains[f := Kill(a.chains[f], reason)]), horizon)
  {
    RevokeMeansKill(t, a, horizon, Unrevoked(t, f), {f}, reason);
    assert KillIn(a, {f}, reason).chains == a.chains[f := Kill(a.chains[f], reason)];
  }

  lemma LogoutMeansKill(t: Table, a: Families, horizon: int, tk: Token)
    requires Means(t, a, horizon)
    ensures Means(Logout(t, tk), LogoutOf(a, tk), horizon)
  {
    hide Means;
    if tk in a.issued && a.issued[tk] in a.chains && AtHead(a.chains[a.issued[tk]], tk) {
      var f := a.issued[tk];
      HeadRow(t, a, horizon, tk);
      UnrevokedIsHead(t, a, horizon, f);
      RevokeFamilyMeansKill(t, a, horizon, f, LoggedOut);
      if !a.chains[f].head.Live? {
        assert a.chains[f := a.chains[f]] == a.chains;
      }
    } else {
      ReplacedIsRevoked(t, a, horizon, tk);
    }
  }

  // The row of a token at the head of its chain.
  lemma HeadRow(t: Table, a: Families, horizon: int, tk: Token)
    requires Means(t, a, horizon)
    requires tk in a.issued && a.issued[tk] in a.chains && AtHead(a.chains[a.issued[tk]], tk)
    ensures var c := a.chains[a.issued[tk]];
            && Find(t, Digest(tk)) == Some(c.links[|c.links| - 1].id)
            && c.links[|c.links| - 1].id in t.rows
            && (t.rows[c.links[|c.links| - 1].id].revoked.None? <==> c.head.Live?)
  {
    FindMeansPresent(t, a, horizon, tk);
    assert LinkOk(t.rows, a.issued[tk], a.chains[a.issued[tk]], |a.chains[a.issued[tk]].links| - 1);
  }

  // A token that is not at the head of its chain has no unrevoked row.
  lemma ReplacedIsRevoked(t: Table, a: Families, horizon: int, tk: Token)
    requires Means(t, a, horizon)
    requires tk in a.issued && a.issued[tk] in a.chains ==> !AtHead(a.chains[a.issued[tk]], tk)
    ensures Find(t, Digest(tk)).Some? ==> t.rows[Find(t, Digest(tk)).value].revoked.Some?
  {
    if Find(t, Digest(tk)).Some? {
      var i := RowOfToken(t, a, horizon, Find(t, Digest(tk)).value);
    }
  }

  lemma RevokeAllMeansKill(t: Table, a: Families, horizon: int, user: User)
    requires Means(t, a, horizon)
    ensures Means(Revoke(t, UnrevokedOf(t, user), RevokedAll), RevokeAll(a, user), horizon)
  {
    var fs := set f | f in a.chains && a.chains[f].user == user;
    forall id | id in t.rows
      ensures id in UnrevokedOf(t, user) <==> t.rows[id].family in fs && t.rows[id].revoked.None?
    {
      var i := RowOfToken(t, a, horizon, id);
    }
    RevokeMeansKill(t, a, horizon, UnrevokedOf(t, user), fs, RevokedAll);
    assert KillIn(a, fs, RevokedAll).chains == RevokeAll(a, user).chains;
  }

  // Rotating the head: its row is closed and linked to a successor's row.
  function Extend(t: Table, id: Id, raw: Token, now: int, ttl: nat): Table
    requires id in t.rows
  {
    var row := t.rows[id];
    var issued := Issue(t, row.family, row.user, Some(id), raw, now, ttl);
    issued.(rows := issued.rows[id := row.(replacedBy := Some(t.nextId), revoked := Some(Rotated))])
  }

  lemma ExtendedChainOk(t: Table, a: Families, horizon: int, f: Family, raw: Token, now: int, ttl: nat)
    requires Means(t, a, horizon) && horizon <= now + ttl
    requires f in a.chains && a.chains[f].head.Live? && raw !in a.issued
    ensures var c := a.chains[f];
            && c.links != []
            && c.links[|c.links| - 1].id in t.rows
            && ChainOk(Extend(t, c.links[|c.links| - 1].id, raw, now, ttl), f,
                       c.(links := c.links + [Link(t.nextId, raw, now + ttl)]), a.issued[raw := f], now + ttl)
  {
    var c := a.chains[f];
    assert ChainOk(t, f, c, a.issued, horizon);
    var last := |c.links| - 1;
    assert LinkOk(t.rows, f, c, last);
    var c' := c.(links := c.links + [Link(t.nextId, raw, now + ttl)]);
    var t' := Extend(t, c.links[last].id, raw, now, ttl);
    forall i | 0 <= i < |c'.links| ensures Known(c'.links[i], f, t'.nextId, a.issued[raw := f], now + ttl) {
      if i <= last { assert Known(c.links[i], f, t.nextId, a.issued, horizon); }
    }
    forall i | 0 <= i < |c'.links| ensures LinkOk(t'.rows, f, c', i) {
      if i <= last {
        assert LinkOk(t.rows, f, c, i);
        assert Known(c.links[i], f, t.nextId, a.issued, horizon);
        assert i < last ==> c.links[i].id < c.links[last].id;
      }
    }
    forall i, j | 0 <= i < j < |c'.links|
      ensures c'.links[i].id < c'.links[j].id && c'.links[i].token != c'.links[j].token
              && c'.links[i].expiry <= c'.links[j].expiry
    {
      assert Known(c.links[i], f, t.nextId, a.issued, horizon);
      if j <= last {
        assert c.links[i].id < c.links[j].id;
      }
    }
  }

  lemma ExtendMeans(t: Table, a: Families, horizon: int, f: Family, raw: Token, now: int, ttl: nat)
    requires Means(t, a, horizon) && horizon <= now + ttl
    requires f in a.chains && a.chains[f].head.Live? && raw !in a.issued
    ensures var c := a.chains[f];
            && c.links != []
            && c.links[|c.links| - 1].id in t.rows
            && Means(Extend(t, c.links[|c.links| - 1].id, raw, now, ttl),
                     Families(a.chains[f := c.(links := c.links + [Link(t.nextId, raw, now + ttl)])], a.issued[raw := f]),
                     now + ttl)
  {
    ExtendedChainOk(t, a, horizon, f, raw, now, ttl);
    assert ChainOk(t, f, a.chains[f], a.issued, horizon);
    hide ChainOk;
    var c := a.chains[f];
    assert LinkOk(t.rows, f, c, |c.links| - 1);
    var c' := c.(links := c.links + [Link(t.nextId, raw, now + ttl)]);
    var t' := Extend(t, c.links[|c.links| - 1].id, raw, now, ttl);
    var a' := Families(a.chains[f := c'], a.issued[raw := f]);
    forall g | g in a'.chains ensures ChainOk(t', g, a'.chains[g], a'.issued, now + ttl) {
      if g != f {
        UntouchedChain(t, t', g, a.chains[g], a.issued, a'.issued, horizon, now + ttl);
      }
    }
    forall x | x in t'.rows ensures HasId(a'.chains[t'.rows[x].family], x) {
      if x == t.nextId {
        assert c'.links[|c.links|].id == x;
      } else {
        IdStays(a.chains[t.rows[x].family], a'.chains[t.rows[x].family], x);
      }
    }
  }

  lemma IdStays(c: Chain, c': Chain, id: Id)
    requires HasId(c, id) && c.links <= c'.links
    ensures HasId(c', id)
  {
    var i :| 0 <= i < |c.links| && c.links[i].id == id;
    assert c'.links[i].id == id;
  }

  // Rotation gives the verdict of the chain and makes the step of the chain.
  lemma RotateMeansPresent(t: Table, a: Families, horizon: int, tk: Token, raw: Token, now: int, ttl: nat)
    requires Means(t, a, horizon) && horizon <= now + ttl && raw !in a.issued
    ensures var (t', outcome) := Rotate(t, tk, raw, now, ttl);
            && outcome == Verdict(a, tk, now)
            && Means(t', PresentToken(a, tk, now, Link(t.nextId, raw, now + ttl)), now + ttl)
  {
    hide Means;
    RotateFollowsVerdict(t, a, horizon, tk, raw, now, ttl);
    match Verdict(a, tk, now)
    case Reused(_) =>
      RevokeFamilyMeansKill(t, a, horizon, a.issued[tk], ReuseDetected);
      LaterHorizon(Revoke(t, Unrevoked(t, a.issued[tk]), ReuseDetected),
                   PresentToken(a, tk, now, Link(t.nextId, raw, now + ttl)), horizon, now + ttl);
    case Ok =>
      ExtendMeans(t, a, horizon, a.issued[tk], raw, now, ttl);
    case _ =>
      LaterHorizon(t, a, horizon, now + ttl);
  }

  lemma RotateFollowsVerdict(t: Table, a: Families, horizon: int, tk: Token, raw: Token, now: int, ttl: nat)
    requires Means(t, a, horizon)
    ensures var (t', outcome) := Rotate(t, tk, raw, now, ttl);
            && outcome == Verdict(a, tk, now)
            && match outcome
               case Reused(_) => t' == Revoke(t, Unrevoked(t, a.issued[tk]), ReuseDetected)
               case Ok =>
                 var c := a.chains[a.issued[tk]];
                 && c.head.Live? && c.links != [] && c.links[|c.links| - 1].id in t.rows
                 && t' == Extend(t, c.links[|c.links| - 1].id, raw, now, ttl)
               case _ => t' == t
  {
    VerdictFromRow(t, a, horizon, tk, now);
    if Verdict(a, tk, now).Reused? {
      UnrevokedIsHead(t, a, horizon, a.issued[tk]);
    }
  }

  // What the columns of a token's row say about its place in the chain.
  lemma VerdictFromRow(t: Table, a: Families, horizon: int, tk: Token, now: int)
    requires Means(t, a, horizon)
    ensures match Find(t, Digest(tk))
            case None => Verdict(a, tk, now) == Unknown
            case Some(id) =>
              && tk in a.issued && a.issued[tk] in a.chains && t.rows[id].family == a.issued[tk]
              && var row := t.rows[id];
                 var c := a.chains[a.issued[tk]];
                 if row.replacedBy.Some? then Verdict(a, tk, now) == Reused(if c.head.Live? then 1 else 0)
                 else if row.revoked.Some? then Verdict(a, tk, now) == Revoked(row.revoked.value)
                 else if row.expiresAt <= now then Verdict(a, tk, now) == Expired
                 else Verdict(a, tk, now) == Ok && c.head.Live? && id == c.links[|c.links| - 1].id
  {
    FindMeansPresent(t, a, horizon, tk);
    if Find(t, Digest(tk)).Some? {
      var i := RowOfToken(t, a, horizon, Find(t, Digest(tk)).value);
      var c := a.chains[a.issued[tk]];
      assert ChainOk(t, a.issued[tk], c, a.issued, horizon);
      assert AtHead(c, tk) <==> i == |c.links| - 1;
    }
  }

  lemma LaterHorizon(t: Table, a: Families, horizon: int, later: int)
    requires Means(t, a, horizon) && horizon <= later
    ensures Means(t, a, later)
  {
    forall f | f in a.chains ensures ChainOk(t, f, a.chains[f], a.issued, later) {
      assert ChainOk(t, f, a.chains[f], a.issued, horizon);
    }
  }

  // ----- Purging

  lemma {:induction false} StaleIsPrefix(links: seq<Link>, cutoff: int)
    requires forall i, j :: 0 <= i < j < |links| ==> links[i].expiry <= links[j].expiry
    ensures forall i :: 0 <= i < |links| ==> (links[i].expiry < cutoff <==> i < Stale(links, cutoff))
  {
    if links != [] && links[0].expiry < cutoff {
      StaleIsPrefix(links[1..], cutoff);
      assert forall i :: 0 < i < |links| ==> links[i] == links[1..][i - 1];
    }
  }

  // Deleting the rows of the first k links shifts the others down.
  lemma PurgedLinkOk(t: Table, kept: set<Id>, f: Family, c: Chain, k: nat, i: nat)
    requires k <= |c.links| && i < |c.links| - k && Stored(t.rows, f, c)
    requires forall j :: 0 <= j < |c.links| ==> (c.links[j].id in kept <==> k <= j)
    ensures LinkOk(Keep(t, kept).rows, f, Chain(c.user, c.links[k..], c.head), i)
  {
    assert LinkOk(t.rows, f, c, k + i);
    assert c.links[k + i].id in kept;
    if i == 0 && k > 0 {
      assert c.links[k - 1].id !in kept;
    } else if i > 0 {
      assert c.links[k + i - 1].id in kept;
    }
    if k + i + 1 < |c.links| {
      assert c.links[k + i + 1].id in kept;
    }
  }

  lemma PurgedChainOk(t: Table, a: Families, horizon: int, cutoff: int, f: Family)
    requires Means(t, a, horizon) && f in a.chains
    ensures ChainOk(Keep(t, Unpurged(t, cutoff)), f, PurgeChain(a.chains[f], cutoff), a.issued, horizon)
  {
    var kept := Unpurged(t, cutoff);
    var c := a.chains[f];
    assert ChainOk(t, f, c, a.issued, horizon);
    StaleIsPrefix(c.links, cutoff);
    var k := Stale(c.links, cutoff);
    forall j | 0 <= j < |c.links| ensures c.links[j].id in kept <==> k <= j {
      assert LinkOk(t.rows, f, c, j);
    }
    forall i | 0 <= i < |c.links| - k
      ensures LinkOk(Keep(t, kept).rows, f, PurgeChain(c, cutoff), i)
    {
      PurgedLinkOk(t, kept, f, c, k, i);
    }
    forall i | 0 <= i < |c.links| - k ensures Known(c.links[k..][i], f, t.nextId, a.issued, horizon) {
      assert Known(c.links[k + i], f, t.nextId, a.issued, horizon);
    }
  }

  // The rows deleted are a prefix of each family's chain, and nothing else changes.
  lemma PurgeMeansPrefix(t: Table, a: Families, horizon: int, now: int, days: nat)
    requires Means(t, a, horizon)
    ensures Means(Purge(t, now, days), PurgeAll(a, now, days), horizon)
  {
    hide ChainOk;
    var cutoff := now - days * DAY;
    var t', a' := Purge(t, now, days), PurgeAll(a, now, days);
    forall f | f in a'.chains ensures ChainOk(t', f, a'.chains[f], a'.issued, horizon) {
      PurgedChainOk(t, a, horizon, cutoff, f);
    }
    forall id | id in t'.rows ensures HasId(a'.chains[t'.rows[id].family], id) {
      KeptIdStays(t, a, horizon, cutoff, id);
    }
  }

  lemma KeptIdStays(t: Table, a: Families, horizon: int, cutoff: int, id: Id)
    requires Means(t, a, horizon) && id in t.rows && t.rows[id].expiresAt >= cutoff
    ensures t.rows[id].family in a.chains && HasId(PurgeChain(a.chains[t.rows[id].family], cutoff), id)
  {
    var i := RowOfToken(t, a, horizon, id);
    var c := a.chains[t.rows[id].family];
    assert ChainOk(t, t.rows[id].family, c, a.issued, horizon);
    StaleIsPrefix(c.links, cutoff);
    assert PurgeChain(c, cutoff).links[i - Stale(c.links, cutoff)].id == id;
  }
}
