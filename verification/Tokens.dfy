/** Refresh tokens: issue, rotation with reuse detection, revocation and purge
    (quansec/core/tokens.py).

    Each operation is one atomic step on the table. Raw tokens and family ids are
    fresh when generated, and hashing is injective: a digest is its token, wrapped. */
module RefreshTokens {
  import opened NumberTheory
  import opened Options

  type Token = nat
  type Id = nat
  type User = nat
  type Family = nat

  datatype Digest = Digest(raw: Token)

  datatype Reason = Rotated | LoggedOut | RevokedAll | ReuseDetected

  datatype Row = Row(
    family: Family, user: User, digest: Digest,
    parent: Option<Id>, replacedBy: Option<Id>,
    expiresAt: int, revoked: Option<Reason>)

  datatype Table = Table(rows: map<Id, Row>, nextId: Id)

  datatype Outcome = Ok | Unknown | Expired | Revoked(reason: Reason) | Reused(count: nat)

  const DAY := 86400

  // ----- What each operation does to the table

  ghost function Find(t: Table, d: Digest): Option<Id> {
    if id: Id :| id in t.rows && t.rows[id].digest == d then Some(id) else None
  }

  function Issue(t: Table, family: Family, user: User, parent: Option<Id>, raw: Token, now: int, ttl: nat): Table {
    Table(t.rows[t.nextId := Row(family, user, Digest(raw), parent, None, now + ttl, None)], t.nextId + 1)
  }

  function Unrevoked(t: Table, family: Family): set<Id> {
    set id | id in t.rows && t.rows[id].family == family && t.rows[id].revoked.None?
  }

  function UnrevokedOf(t: Table, user: User): set<Id> {
    set id | id in t.rows && t.rows[id].user == user && t.rows[id].revoked.None?
  }

  function Revoke(t: Table, ids: set<Id>, reason: Reason): Table {
    t.(rows := map id | id in t.rows :: if id in ids then t.rows[id].(revoked := Some(reason)) else t.rows[id])
  }

  ghost function Rotate(t: Table, presented: Token, raw: Token, now: int, ttl: nat): (Table, Outcome) {
    match Find(t, Digest(presented))
    case None => (t, Unknown)
    case Some(id) =>
      var row := t.rows[id];
      if row.replacedBy.Some? then
        (Revoke(t, Unrevoked(t, row.family), ReuseDetected), Reused(|Unrevoked(t, row.family)|))
      else if row.revoked.Some? then (t, Revoked(row.revoked.value))
      else if row.expiresAt <= now then (t, Expired)
      else
        var issued := Issue(t, row.family, row.user, Some(id), raw, now, ttl);
        (issued.(rows := issued.rows[id := row.(replacedBy := Some(t.nextId), revoked := Some(Rotated))]), Ok)
  }

  ghost function Logout(t: Table, presented: Token): Table {
    match Find(t, Digest(presented))
    case None => t
    case Some(id) => if t.rows[id].revoked.None? then Revoke(t, {id}, LoggedOut) else t
  }

  // Deleting a row sets the references to it to NULL.
  function Keep(t: Table, kept: set<Id>): Table {
    t.(rows := map id | id in t.rows && id in kept ::
                 t.rows[id].(parent := KeepReference(t.rows[id].parent, kept),
                             replacedBy := KeepReference(t.rows[id].replacedBy, kept)))
  }

  function KeepReference(r: Option<Id>, kept: set<Id>): Option<Id> {
    if r.Some? && r.value !in kept then None else r
  }

  function Unpurged(t: Table, cutoff: int): set<Id> {
    set id | id in t.rows && t.rows[id].expiresAt >= cutoff
  }

  function Purge(t: Table, now: int, days: nat): Table {
    Keep(t, Unpurged(t, now - days * DAY))
  }

  function Sessions(t: Table, user: User, now: int): set<Id> {
    set id | id in t.rows && t.rows[id].user == user && t.rows[id].revoked.None? && t.rows[id].expiresAt > now
  }

  // ----- The table as the code updates it

  class TokenStore {
    const ttl: nat
    var rows: map<Id, Row>
    var nextId: Id

    function Contents(): Table
      reads this
    {
      Table(rows, nextId)
    }

    // The UNIQUE constraint on token_hash, and ids drawn from a sequence.
    ghost predicate Valid()
      reads this
    {
      && (forall id :: id in rows ==> id < nextId)
      && (forall a, b :: a in rows && b in rows && rows[a].digest == rows[b].digest ==> a == b)
    }

    constructor (ttl: nat)
      ensures Valid() && this.ttl == ttl && Contents() == Table(map[], 0)
    {
      this.ttl, rows, nextId := ttl, map[], 0;
    }

    method Lookup(d: Digest) returns (r: Option<Id>)
      requires Valid()
      ensures r == Find(Contents(), d)
    {
      if id: Id :| id in rows && rows[id].digest == d {
        r := Some(id);
      } else {
        r := None;
      }
    }

    method IssueToken(family: Family, user: User, parent: Option<Id>, raw: Token, now: int) returns (id: Id)
      requires Valid() && Find(Contents(), Digest(raw)).None?
      modifies this
      ensures Valid() && id == old(nextId)
      ensures Contents() == Issue(old(Contents()), family, user, parent, raw, now, ttl)
    {
      id := nextId;
      rows := rows[id := Row(family, user, Digest(raw), parent, None, now + ttl, None)];
      nextId := nextId + 1;
    }

    method RevokeFamily(family: Family, reason: Reason) returns (count: nat)
      requires Valid()
      modifies this`rows
      ensures Valid() && count == |old(Unrevoked(Contents(), family))|
      ensures Contents() == Revoke(old(Contents()), old(Unrevoked(Contents(), family)), reason)
    {
      var ids := Unrevoked(Contents(), family);
      rows := map id | id in rows :: if id in ids then rows[id].(revoked := Some(reason)) else rows[id];
      count := |ids|;
    }

    method RotateToken(presented: Token, raw: Token, now: int) returns (outcome: Outcome)
      requires Valid() && Find(Contents(), Digest(raw)).None?
      modifies this
      ensures Valid()
      ensures (Contents(), outcome) == Rotate(old(Contents()), presented, raw, now, ttl)
    {
      var found := Lookup(Digest(presented));
      if found.None? {
        return Unknown;
      }
      var id := found.value;
      var row := rows[id];
      if row.replacedBy.Some? {
        var count := RevokeFamily(row.family, ReuseDetected);
        return Reused(count);
      }
      if row.revoked.Some? {
        return Revoked(row.revoked.value);
      }
      if row.expiresAt <= now {
        return Expired;
      }
      var successor := IssueToken(row.family, row.user, Some(id), raw, now);
      rows := rows[id := row.(replacedBy := Some(successor), revoked := Some(Rotated))];
      return Ok;
    }

    method RevokeToken(presented: Token) returns (revoked: bool)
      requires Valid()
      modifies this`rows
      ensures Valid() && Contents() == Logout(old(Contents()), presented)
      ensures revoked <==> Contents() != old(Contents())
    {
      var found := Lookup(Digest(presented));
      revoked := false;
      if found.Some? && rows[found.value].revoked.None? {
        ghost var before := Contents();
        rows := rows[found.value := rows[found.value].(revoked := Some(LoggedOut))];
        revoked := true;
        assert rows == Revoke(before, {found.value}, LoggedOut).rows;
        assert rows[found.value] != before.rows[found.value];
      }
    }

    method RevokeAllForUser(user: User) returns (count: nat)
      requires Valid()
      modifies this`rows
      ensures Valid() && count == |old(UnrevokedOf(Contents(), user))|
      ensures Contents() == Revoke(old(Contents()), old(UnrevokedOf(Contents(), user)), RevokedAll)
    {
      var ids := UnrevokedOf(Contents(), user);
      rows := map id | id in rows :: if id in ids then rows[id].(revoked := Some(RevokedAll)) else rows[id];
      count := |ids|;
    }

    method PurgeExpired(now: int, days: nat) returns (count: nat)
      requires Valid()
      modifies this`rows
      ensures Valid() && Contents() == Purge(old(Contents()), now, days)
      ensures count == |old(rows)| - |rows|
    {
      var kept := Unpurged(Contents(), now - days * DAY);
      var before := rows;
      rows := map id | id in rows && id in kept ::
                rows[id].(parent := KeepReference(rows[id].parent, kept),
                          replacedBy := KeepReference(rows[id].replacedBy, kept));
      assert rows.Keys == kept && kept <= before.Keys;
      SubsetSize(kept, before.Keys);
      count := |before| - |rows|;
    }

    method ListSessions(user: User, now: int) returns (ids: set<Id>)
      ensures ids == Sessions(Contents(), user, now)
    {
      ids := set id | id in rows && rows[id].user == user && rows[id].revoked.None? && rows[id].expiresAt > now;
    }
  }
}
