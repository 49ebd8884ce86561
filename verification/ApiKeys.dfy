/** API keys: minting them from a token or from another key, revoking them, and what
    a key may do (quansec/protocols/auth_api_keys.py, quansec/core/auth.py). */
module ApiKeys {
  import opened Options
  import opened Scopes

  type UserId = nat
  type KeyId = nat

  datatype User = User(role: string, portal: Option<string>)

  datatype Key = Key(owner: UserId, scopes: set<Scope>, expiresAt: Option<int>, revoked: bool, minter: Option<KeyId>)

  datatype Store = Store(users: map<UserId, User>, keys: map<KeyId, Key>, nextId: KeyId)

  const DAY := 86400
  const DEFAULT_EXPIRY_DAYS := 90

  // ----- Principals

  ghost function CurrentScopes(st: Store, user: UserId): set<Scope> {
    if user in st.users then Expand(ScopesFor(st.users[user].role, st.users[user].portal)) else {}
  }

  // The scopes of a verified access token: what it claims, cut to the current role.
  ghost function TokenScopes(st: Store, user: UserId, claims: set<Scope>): Option<set<Scope>> {
    if user in st.users then Some(Expand(claims) * CurrentScopes(st, user)) else None
  }

  // What a key carries, whether or not it is still accepted.
  ghost function Effective(st: Store, key: KeyId): set<Scope>
    requires key in st.keys
  {
    Expand(st.keys[key].scopes) * CurrentScopes(st, st.keys[key].owner)
  }

  predicate Accepted(st: Store, key: KeyId, now: int) {
    && key in st.keys && !st.keys[key].revoked && st.keys[key].owner in st.users
    && (st.keys[key].expiresAt.Some? ==> st.keys[key].expiresAt.value > now)
  }

  ghost function KeyScopes(st: Store, key: KeyId, now: int): Option<set<Scope>> {
    if Accepted(st, key, now) then Some(Effective(st, key)) else None
  }

  // ----- Minting

  datatype Request = Request(scopes: set<Scope>, days: Option<nat>, neverExpires: bool)

  datatype Minted = UnknownScope | OverReach | NothingGrantable | NeedsSystemAdmin | Created(id: KeyId)

  function ReadScopes(): set<Scope> {
    {TlsRead, SshRead, IpsecRead}
  }

  ghost function Grant(own: set<Scope>, requested: set<Scope>): set<Scope> {
    if requested != {} then Expand(requested) * own else own * ReadScopes()
  }

  // `held` are the scopes of the principal, `minter` the key it came with, if any.
  ghost function Create(st: Store, owner: UserId, held: set<Scope>, minter: Option<KeyId>, r: Request, now: int): (Store, Minted) {
    var own := Expand(held);
    if !(r.scopes <= ALL_SCOPES) then (st, UnknownScope)
    else if !(r.scopes <= own) then (st, OverReach)
    else if Grant(own, r.scopes) == {} then (st, NothingGrantable)
    else if r.neverExpires && SystemAdmin !in own then (st, NeedsSystemAdmin)
    else
      var days := if r.days.Some? && r.days.value != 0 then r.days.value else DEFAULT_EXPIRY_DAYS;
      var key := Key(owner, Grant(own, r.scopes), if r.neverExpires then None else Some(now + days * DAY), false, minter);
      (Store(st.users, st.keys[st.nextId := key], st.nextId + 1), Created(st.nextId))
  }

  // A user revokes only keys of their own; revoking twice changes nothing.
  function RevokeKey(st: Store, user: UserId, key: KeyId): (Store, bool) {
    if key in st.keys && st.keys[key].owner == user && !st.keys[key].revoked
    then (st.(keys := st.keys[key := st.keys[key].(revoked := true)]), true)
    else (st, false)
  }

  class KeyStore {
    var users: map<UserId, User>
    var keys: map<KeyId, Key>
    var nextId: KeyId

    function Contents(): Store
      reads this
    {
      Store(users, keys, nextId)
    }

    constructor (users: map<UserId, User>)
      ensures Contents() == Store(users, map[], 0)
    {
      this.users, keys, nextId := users, map[], 0;
    }

    method CreateApiKey(owner: UserId, held: seq<Scope>, minter: Option<KeyId>, requested: seq<Scope>,
                        days: Option<nat>, neverExpires: bool, now: int) returns (r: Minted)
      modifies this
      ensures (Contents(), r)
           == Create(old(Contents()), owner, Elements(held), minter, Request(Elements(requested), days, neverExpires), now)
    {
      var own := ExpandAll(held);
      var i := 0;
      while i < |requested|
        invariant 0 <= i <= |requested|
        invariant Elements(requested[..i]) <= ALL_SCOPES
      {
        if requested[i] !in ALL_SCOPES {
          assert requested[i] in Elements(requested);
          return UnknownScope;
        }
        assert Elements(requested[..i + 1]) == Elements(requested[..i]) + {requested[i]};
        i := i + 1;
      }
      assert requested[..i] == requested;
      i := 0;
      while i < |requested|
        invariant 0 <= i <= |requested|
        invariant Elements(requested[..i]) <= own
      {
        if requested[i] !in own {
          assert requested[i] in Elements(requested);
          return OverReach;
        }
        assert Elements(requested[..i + 1]) == Elements(requested[..i]) + {requested[i]};
        i := i + 1;
      }
      assert requested[..i] == requested;
      var granted;
      if requested != [] {
        assert requested[0] in Elements(requested);
        var expanded := ExpandAll(requested);
        granted := expanded * own;
      } else {
        granted := own * ReadScopes();
      }
      if granted == {} {
        return NothingGrantable;
      }
      var expiresAt;
      if neverExpires {
        if SystemAdmin !in own {
          return NeedsSystemAdmin;
        }
        expiresAt := None;
      } else {
        expiresAt := Some(now + (if days.Some? && days.value != 0 then days.value else DEFAULT_EXPIRY_DAYS) * DAY);
      }
      keys := keys[nextId := Key(owner, granted, expiresAt, false, minter)];
      r := Created(nextId);
      nextId := nextId + 1;
    }

    method RevokeApiKey(user: UserId, key: KeyId) returns (revoked: bool)
      modifies this`keys
      ensures (Contents(), revoked) == RevokeKey(old(Contents()), user, key)
    {
      revoked := key in keys && keys[key].owner == user && !keys[key].revoked;
      if revoked {
        keys := keys[key := keys[key].(revoked := true)];
      }
    }
  }

  /** A key gets exactly what was asked for, with all it implies: the intersection with
      the caller's own scopes never takes anything away silently. */
  lemma GrantIsExact(st: Store, owner: UserId, held: set<Scope>, minter: Option<KeyId>, r: Request, now: int)
    requires Create(st, owner, held, minter, r, now).1.Created? && r.scopes != {}
    ensures var key := Create(st, owner, held, minter, r, now).0.keys[st.nextId];
            key.scopes == Expand(r.scopes) && key.scopes <= Expand(held)
  {
    ExpandMonotone(r.scopes, Expand(held));
    ExpandIdempotent(held);
  }

  /** When a request is refused, and why; a refusal changes nothing. */
  lemma CreateRefuses(st: Store, owner: UserId, held: set<Scope>, minter: Option<KeyId>, r: Request, now: int)
    ensures var (st', answer) := Create(st, owner, held, minter, r, now);
            var known := forall s :: s in r.scopes ==> !s.Unlisted?;
            var within := forall s :: s in r.scopes ==> exists h :: h in held && Gives(h, s);
            var canRead := exists h, s :: h in held && s in {TlsRead, SshRead, IpsecRead} && Gives(h, s);
            && (answer == UnknownScope <==> !known)
            && (answer == OverReach <==> known && !within)
            && (answer == NothingGrantable <==> r.scopes == {} && !canRead)
            && (answer == NeedsSystemAdmin <==>
                  known && within && (r.scopes != {} || canRead) && r.neverExpires && SystemAdmin !in held)
            && (!answer.Created? ==> st' == st)
  {
    ExpandIsLeastClosed(r.scopes, Expand(held));
    SystemAdminIsGiven(held);
    ExpandMeans(held);
    ListedIff(r.scopes);
    hide Expand, Implied, Gives;
    var own := Expand(held);
    if r.scopes != {} && r.scopes <= own && r.scopes <= ALL_SCOPES {
      ExpandKeeps(r.scopes, own);
    }
    if own * ReadScopes() != {} {
      var s :| s in own * ReadScopes();
      assert s in own;
    }
    if h, s :| h in held && s in {TlsRead, SshRead, IpsecRead} && Gives(h, s) {
      assert s in own * ReadScopes();
    }
  }

  lemma ExpandMeans(held: set<Scope>)
    ensures forall s :: s in Expand(held) <==> exists h :: h in held && Gives(h, s)
  {
    forall h, s | h in held && Gives(h, s) ensures s in ALL_SCOPES {
      GivesKnown(h, s);
    }
  }

  lemma ListedIff(scopes: set<Scope>)
    ensures scopes <= ALL_SCOPES <==> forall s :: s in scopes ==> !s.Unlisted?
  {
  }

  lemma ExpandKeeps(requested: set<Scope>, own: set<Scope>)
    requires requested <= own && requested <= ALL_SCOPES && requested != {}
    ensures Expand(requested) * own != {}
  {
    var s :| s in requested;
    assert Gives(s, s);
    assert s in Expand(requested) * own;
  }

  lemma SystemAdminIsGiven(held: set<Scope>)
    ensures SystemAdmin in Expand(held) <==> SystemAdmin in held
  {
  }

  /** A created key is the owner's, new, and the only change; without requested scopes it
      reads what the caller may read. */
  lemma CreatedKey(st: Store, owner: UserId, held: set<Scope>, minter: Option<KeyId>, r: Request, now: int)
    requires Create(st, owner, held, minter, r, now).1.Created?
    ensures var (st', answer) := Create(st, owner, held, minter, r, now);
            && answer == Created(st.nextId) && st'.nextId == st.nextId + 1 && st'.users == st.users
            && st'.keys.Keys == st.keys.Keys + {st.nextId}
            && (forall k :: k in st.keys && k != st.nextId ==> st'.keys[k] == st.keys[k])
            && st'.keys[st.nextId].owner == owner && st'.keys[st.nextId].minter == minter && !st'.keys[st.nextId].revoked
            && (r.scopes == {} ==> st'.keys[st.nextId].scopes == Expand(held) * {TlsRead, SshRead, IpsecRead})
  {
    hide Expand;
  }

  /** A new key is accepted, as long as it is not revoked and its owner exists, up to its
      expiry: the requested number of days, 90 if none or zero is requested, or for ever. */
  lemma CreatedKeyLives(st: Store, owner: UserId, held: set<Scope>, minter: Option<KeyId>, r: Request, now: int, later: int)
    requires Create(st, owner, held, minter, r, now).1.Created? && owner in st.users
    ensures KeyScopes(Create(st, owner, held, minter, r, now).0, st.nextId, later).Some? <==>
            r.neverExpires || later < now + 86400 * (if r.days.Some? && r.days.value != 0 then r.days.value else 90)
  {
    hide Expand, Grant;
  }

  /** A key is accepted exactly when it exists, is not revoked and not expired, and its
      owner exists; it then carries what its scopes give, as far as its owner's role and
      portal give it now. */
  lemma AcceptedExactly(st: Store, key: KeyId, now: int)
    ensures KeyScopes(st, key, now).Some? <==>
              && key in st.keys && !st.keys[key].revoked && st.keys[key].owner in st.users
              && (st.keys[key].expiresAt.None? || now < st.keys[key].expiresAt.value)
    ensures KeyScopes(st, key, now).Some? ==>
              var user := st.users[st.keys[key].owner];
              forall t :: t in KeyScopes(st, key, now).value <==>
                && (exists s :: s in st.keys[key].scopes && Gives(s, t))
                && t in ScopesFor(user.role, user.portal)
  {
    if Accepted(st, key, now) {
      var user := st.users[st.keys[key].owner];
      ExpandMeans(st.keys[key].scopes);
      ScopesForIsClosed(user.role, user.portal);
      ExpandOfClosed(ScopesFor(user.role, user.portal));
      hide Expand, ScopesFor, Gives;
    }
  }

  // A verified token of an existing user carries what it claims, as far as the user's role
  // and portal give it now.
  lemma TokenExactly(st: Store, user: UserId, claims: set<Scope>)
    ensures TokenScopes(st, user, claims).Some? <==> user in st.users
    ensures user in st.users ==>
              forall t :: t in TokenScopes(st, user, claims).value <==>
                && (exists s :: s in claims && Gives(s, t))
                && t in ScopesFor(st.users[user].role, st.users[user].portal)
  {
    if user in st.users {
      var u := st.users[user];
      ExpandMeans(claims);
      ScopesForIsClosed(u.role, u.portal);
      ExpandOfClosed(ScopesFor(u.role, u.portal));
      hide Expand, ScopesFor, Gives;
    }
  }

  // Revoking touches that key alone, and only for its owner.
  lemma RevokeMeans(st: Store, user: UserId, key: KeyId)
    ensures var (st', revoked) := RevokeKey(st, user, key);
            && (revoked <==> key in st.keys && st.keys[key].owner == user && !st.keys[key].revoked)
            && st'.users == st.users && st'.nextId == st.nextId && st'.keys.Keys == st.keys.Keys
            && (forall k :: k in st.keys && !(revoked && k == key) ==> st'.keys[k] == st.keys[k])
            && (revoked ==> st'.keys[key] == st.keys[key].(revoked := true))
  {
  }

  // ----- Histories

  datatype Event =
    | SetUser(user: UserId, role: string, portal: Option<string>)
    | MintByToken(user: UserId, claims: set<Scope>, request: Request)
    | MintByKey(key: KeyId, request: Request)
    | Revoke(user: UserId, key: KeyId)

  ghost function Happens(st: Store, e: Event, now: int): Store {
    match e
    case SetUser(user, role, portal) => st.(users := st.users[user := User(role, portal)])
    case MintByToken(user, claims, request) =>
      (match TokenScopes(st, user, claims)
       case None => st
       case Some(held) => Create(st, user, held, None, request, now).0)
    case MintByKey(key, request) =>
      (match KeyScopes(st, key, now)
       case None => st
       case Some(held) => Create(st, st.keys[key].owner, held, Some(key), request, now).0)
    case Revoke(user, key) => RevokeKey(st, user, key).0
  }

  // A minted key belongs to the owner of its minting key and was cut to its scopes; only
  // a key with system:admin can mint one without expiry.
  ghost predicate Minting(parent: Key, child: Key) {
    && child.owner == parent.owner
    && child.scopes <= Expand(parent.scopes)
    && (child.expiresAt.None? ==> SystemAdmin in Expand(parent.scopes))
  }

  ghost predicate Sound(st: Store) {
    && (forall k :: k in st.keys ==> k < st.nextId)
    && (forall k :: k in st.keys && st.keys[k].minter.Some? ==>
          && st.keys[k].minter.value in st.keys && st.keys[k].minter.value < k
          && Minting(st.keys[st.keys[k].minter.value], st.keys[k]))
  }

  lemma KeyMintsWithin(st: Store, key: KeyId, r: Request, now: int)
    requires key in st.keys && Create(st, st.keys[key].owner, Effective(st, key), Some(key), r, now).1.Created?
    ensures Minting(st.keys[key], Create(st, st.keys[key].owner, Effective(st, key), Some(key), r, now).0.keys[st.nextId])
  {
    hide Expand;
    ExpandMonotone(Effective(st, key), Expand(st.keys[key].scopes));
    ExpandIdempotent(st.keys[key].scopes);
    hide ScopesFor;
  }

  lemma StaysSound(st: Store, e: Event, now: int)
    requires Sound(st)
    ensures Sound(Happens(st, e, now))
  {
    if e.MintByKey? && KeyScopes(st, e.key, now).Some?
       && Create(st, st.keys[e.key].owner, Effective(st, e.key), Some(e.key), e.request, now).1.Created? {
      KeyMintsWithin(st, e.key, e.request, now);
    }
    hide Expand;
  }

  ghost function After(st: Store, events: seq<(Event, int)>): Store
    decreases |events|
  {
    if events == [] then st else After(Happens(st, events[0].0, events[0].1), events[1..])
  }

  lemma {:induction false} HistoriesStaySound(st: Store, events: seq<(Event, int)>)
    requires Sound(st)
    ensures Sound(After(st, events))
    decreases |events|
  {
    hide Sound, Happens;
    if events != [] {
      StaysSound(st, events[0].0, events[0].1);
      HistoriesStaySound(Happens(st, events[0].0, events[0].1), events[1..]);
    }
  }

  // `older` minted `key`, directly or through keys minted by keys.
  ghost predicate MintedFrom(st: Store, key: KeyId, older: KeyId)
    requires key in st.keys
    decreases key
  {
    key == older ||
    match st.keys[key].minter
    case None => false
    case Some(parent) => parent < key && parent in st.keys && MintedFrom(st, parent, older)
  }

  lemma {:induction false} ChainNarrows(st: Store, key: KeyId, older: KeyId)
    requires Sound(st) && key in st.keys && MintedFrom(st, key, older)
    ensures older in st.keys && st.keys[older].owner == st.keys[key].owner
    ensures Effective(st, key) <= Effective(st, older)
    decreases key
  {
    if key != older {
      var parent := st.keys[key].minter.value;
      assert Minting(st.keys[parent], st.keys[key]);
      ChainNarrows(st, parent, older);
      ExpandMonotone(st.keys[key].scopes, Expand(st.keys[parent].scopes));
      ExpandIdempotent(st.keys[parent].scopes);
    }
  }

  /** After any history of role and portal changes, mints and revocations, and along any
      chain of keys minted by keys: a key carries no scope its owner does not hold now, and
      none that the key at the head of the chain does not carry now. */
  lemma KeysNeverExceed(users: map<UserId, User>, events: seq<(Event, int)>, key: KeyId, older: KeyId)
    requires var st := After(Store(users, map[], 0), events);
             key in st.keys && MintedFrom(st, key, older)
    ensures var st := After(Store(users, map[], 0), events);
            && Effective(st, key) <= CurrentScopes(st, st.keys[key].owner)
            && older in st.keys
            && Effective(st, key) <= Effective(st, older)
  {
    HistoriesStaySound(Store(users, map[], 0), events);
    ChainNarrows(After(Store(users, map[], 0), events), key, older);
  }

  /** What each event does: a role change takes effect at once and touches no key; a mint
      makes one key for the owner, from what its principal holds at that moment, or does
      nothing; and a revocation touches one key. */
  lemma EventMeans(st: Store, e: Event, now: int)
    ensures var st' := Happens(st, e, now);
            match e
            case SetUser(user, role, portal) =>
              && st'.keys == st.keys && st'.nextId == st.nextId
              && user in st'.users && st'.users[user] == User(role, portal)
              && forall u :: u != user ==> (u in st'.users <==> u in st.users) && (u in st.users ==> st'.users[u] == st.users[u])
            case MintByToken(user, claims, request) =>
              var held := TokenScopes(st, user, claims);
              if held.Some? then st' == Create(st, user, held.value, None, request, now).0 else st' == st
            case MintByKey(key, request) =>
              var held := KeyScopes(st, key, now);
              if held.Some? then st' == Create(st, st.keys[key].owner, held.value, Some(key), request, now).0 else st' == st
            case Revoke(user, key) => st' == RevokeKey(st, user, key).0
  {
  }

  /** A key minted with a token carries no scope that the token does not claim, nor one
      that the user's role and portal do not give at that moment. */
  lemma TokenMintsWithin(st: Store, user: UserId, claims: set<Scope>, r: Request, now: int)
    requires user in st.users
    requires Create(st, user, TokenScopes(st, user, claims).value, None, r, now).1.Created?
    ensures st.nextId in Happens(st, MintByToken(user, claims, r), now).keys
    ensures var key := Happens(st, MintByToken(user, claims, r), now).keys[st.nextId];
            && key.owner == user && key.minter == None
            && key.scopes <= Expand(claims) && key.scopes <= CurrentScopes(st, user)
  {
    var held := TokenScopes(st, user, claims).value;
    EventMeans(st, MintByToken(user, claims, r), now);
    CreatedKey(st, user, held, None, r, now);
    MintIsWithin(st, user, held, None, r, now);
    TokenIsWithin(st, user, claims);
    hide *;
  }

  lemma MintIsWithin(st: Store, owner: UserId, held: set<Scope>, minter: Option<KeyId>, r: Request, now: int)
    requires Create(st, owner, held, minter, r, now).1.Created?
    ensures Create(st, owner, held, minter, r, now).0.keys[st.nextId].scopes <= Expand(held)
  {
    hide Expand;
  }

  lemma TokenIsWithin(st: Store, user: UserId, claims: set<Scope>)
    requires user in st.users
    ensures Expand(TokenScopes(st, user, claims).value) <= Expand(claims)
    ensures Expand(TokenScopes(st, user, claims).value) <= CurrentScopes(st, user)
  {
    hide Expand, ScopesFor;
    var held := TokenScopes(st, user, claims).value;
    ExpandIdempotent(claims);
    ExpandIdempotent(ScopesFor(st.users[user].role, st.users[user].portal));
    ExpandMonotone(held, Expand(claims));
    ExpandMonotone(held, CurrentScopes(st, user));
  }

  // ----- Revocation and expiry are final

  // The same key later on: only a revocation can have happened to it.
  ghost predicate Continues(st: Store, st': Store, key: KeyId) {
    && key in st.keys && key in st'.keys
    && st'.keys[key].(revoked := false) == st.keys[key].(revoked := false)
    && (st.keys[key].revoked ==> st'.keys[key].revoked)
  }

  lemma StepContinues(st: Store, e: Event, now: int, key: KeyId)
    requires Sound(st) && key in st.keys
    ensures Continues(st, Happens(st, e, now), key)
  {
    hide Expand, ScopesFor, Effective, Grant;
  }

  lemma {:induction false} HistoryContinues(st: Store, events: seq<(Event, int)>, key: KeyId)
    requires Sound(st) && key in st.keys
    ensures Continues(st, After(st, events), key)
    decreases |events|
  {
    if events != [] {
      StepContinues(st, events[0].0, events[0].1, key);
      StaysSound(st, events[0].0, events[0].1);
      hide Sound, Happens;
      HistoryContinues(Happens(st, events[0].0, events[0].1), events[1..], key);
    }
  }

  ghost predicate Useless(st: Store, key: KeyId, now: int) {
    KeyScopes(st, key, now) == None && forall r :: Happens(st, MintByKey(key, r), now) == st
  }

  /** After a revocation the key is refused in every later history and at every instant,
      and mints nothing. */
  lemma RevokedForGood(st: Store, user: UserId, key: KeyId, events: seq<(Event, int)>, now: int)
    requires Sound(st) && RevokeKey(st, user, key).1
    ensures Useless(After(RevokeKey(st, user, key).0, events), key, now)
  {
    StaysSound(st, Revoke(user, key), now);
    RevokeMeans(st, user, key);
    var st' := RevokeKey(st, user, key).0;
    hide Sound, Effective, After;
    HistoryContinues(st', events, key);
  }

  /** From its expiry on a key is refused in every later history, and mints nothing. */
  lemma ExpiredForGood(st: Store, key: KeyId, events: seq<(Event, int)>, now: int)
    requires Sound(st) && key in st.keys && st.keys[key].expiresAt.Some? && st.keys[key].expiresAt.value <= now
    ensures Useless(After(st, events), key, now)
  {
    hide Sound, Effective, After;
    HistoryContinues(st, events, key);
  }
}
