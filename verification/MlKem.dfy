/** The key exchange object of the strongSwan ML-KEM plugin, for ML-KEM-1024
    (quansec/compiled-backup/ml_kem_source/ml_kem_ke.c).

    One object plays either role: the initiator is the side that is asked for its public
    value before it is given one. The three KEM primitives are parameters, and so is
    whether each call of them works. */
module MlKem {
  import opened Options

  type Bytes = seq<bv8>

  // The length of an ML-KEM-1024 encapsulation key and of a ciphertext: they are equal.
  const LENGTH: nat := 1568

  datatype Kem = Kem(
    keypair: nat -> (Bytes, Bytes),         // of a seed: public key and secret key
    encaps: (Bytes, nat) -> (Bytes, Bytes), // of a public key and a seed: ciphertext and secret
    decaps: (Bytes, Bytes) -> Bytes)        // of a secret key and a ciphertext: secret

  ghost predicate Correct(kem: Kem) {
    && (forall s: nat :: |kem.keypair(s).0| == LENGTH)
    && (forall key: Bytes, r: nat :: |kem.encaps(key, r).0| == LENGTH)
    && (forall s: nat, r: nat ::
          var sealed := kem.encaps(kem.keypair(s).0, r);
          kem.decaps(kem.keypair(s).1, sealed.0) == sealed.1)
  }

  // A call of a primitive works with some seed, or fails and leaves the buffers as they are.
  datatype Draw = Works(seed: nat) | Fails(first: Bytes, second: Bytes, third: Bytes)

  datatype Party = Party(
    publicKey: Option<Bytes>, secretKey: Option<Bytes>, ciphertext: Option<Bytes>,
    sharedSecret: Option<Bytes>, initiator: bool)

  const FRESH := Party(None, None, None, None, false)

  predicate Valid(p: Party) {
    p.initiator ==> p.publicKey.Some? && p.secretKey.Some?
  }

  // ----- The calls, on values

  // The object after get_public_key.
  function Publish(kem: Kem, p: Party, draw: Draw): Party {
    if p.publicKey.Some? then p
    else match draw
         case Fails(key, secret, _) => p.(publicKey := Some(key), secretKey := Some(secret))
         case Works(seed) =>
           var keys := kem.keypair(seed);
           p.(publicKey := Some(keys.0), secretKey := Some(keys.1), initiator := true)
  }

  // What it returns: None when it fails.
  function Published(kem: Kem, p: Party, draw: Draw): Option<Bytes> {
    if p.publicKey.None? && draw.Fails? then None else Publish(kem, p, draw).publicKey
  }

  predicate Accepts(p: Party, value: Bytes, draw: Draw) {
    |value| == LENGTH && draw.Works?
  }

  // The object after set_public_key.
  function Accept(kem: Kem, p: Party, value: Bytes, draw: Draw): Party
    requires Valid(p)
  {
    if |value| != LENGTH then p
    else if p.initiator then
      p.(sharedSecret := Some(if draw.Works? then kem.decaps(p.secretKey.value, value) else draw.first))
    else match draw
         case Fails(ciphertext, secret, key) =>
           p.(ciphertext := Some(ciphertext), sharedSecret := Some(secret), publicKey := Some(key))
         case Works(seed) =>
           var sealed := kem.encaps(value, seed);
           p.(ciphertext := Some(sealed.0), sharedSecret := Some(sealed.1), publicKey := Some(sealed.0))
  }

  /** A value of any length but 1568 is refused, by either role, and changes nothing. */
  lemma WrongLengthIsRefused(kem: Kem, p: Party, value: Bytes, draw: Draw)
    requires Valid(p)
    ensures |value| != 1568 ==> !Accepts(p, value, draw) && Accept(kem, p, value, draw) == p
    ensures |value| == 1568 ==> (Accepts(p, value, draw) <==> draw.Works?)
  {
  }

  /** Whatever fails, a request is answered the second time: the buffers stay, with what
      the failed primitive left in them, and an object whose key generation failed is a
      responder to the next value. */
  lemma FailuresAreForgotten(kem: Kem, p: Party, value: Bytes, failed: Draw, again: Draw)
    requires Valid(p) && failed.Fails? && |value| == 1568
    ensures p.publicKey.None? ==>
              var q := Publish(kem, p, failed);
              && Published(kem, p, failed).None? && Published(kem, q, again) == Some(failed.first)
              && q.secretKey == Some(failed.second) && q.initiator == p.initiator == false
              && (again.Works? ==> Accept(kem, q, value, again).ciphertext == Some(kem.encaps(value, again.seed).0))
    ensures p.initiator ==>
              Accept(kem, p, value, failed) == p.(sharedSecret := Some(failed.first))
    ensures !p.initiator ==>
              var q := Accept(kem, p, value, failed);
              q == p.(ciphertext := Some(failed.first), sharedSecret := Some(failed.second), publicKey := Some(failed.third))
              && Published(kem, q, again) == Some(failed.third)
  {
  }

  // A call that works stores what the primitive returned.
  lemma WorkingCalls(kem: Kem, p: Party, value: Bytes, seed: nat)
    requires Valid(p) && |value| == 1568
    ensures p.publicKey.None? ==>
              Publish(kem, p, Works(seed)) ==
                p.(publicKey := Some(kem.keypair(seed).0), secretKey := Some(kem.keypair(seed).1), initiator := true)
    ensures p.publicKey.Some? ==> Publish(kem, p, Works(seed)) == p
    ensures Published(kem, p, Works(seed)) == Publish(kem, p, Works(seed)).publicKey
    ensures p.initiator ==>
              Accept(kem, p, value, Works(seed)) == p.(sharedSecret := Some(kem.decaps(p.secretKey.value, value)))
    ensures !p.initiator ==>
              var sealed := kem.encaps(value, seed);
              Accept(kem, p, value, Works(seed)) ==
                p.(ciphertext := Some(sealed.0), sharedSecret := Some(sealed.1), publicKey := Some(sealed.0))
  {
  }

  // ----- The object

  class KeyExchange {
    const kem: Kem
    var publicKey: Option<Bytes>
    var secretKey: Option<Bytes>
    var ciphertext: Option<Bytes>
    var sharedSecret: Option<Bytes>
    var initiator: bool

    ghost function State(): Party
      reads this
    {
      Party(publicKey, secretKey, ciphertext, sharedSecret, initiator)
    }

    constructor (kem: Kem)
      ensures State() == FRESH && this.kem == kem
    {
      this.kem := kem;
      publicKey, secretKey, ciphertext, sharedSecret, initiator := None, None, None, None, false;
    }

    method GetPublicKey(draw: Draw) returns (value: Option<Bytes>)
      requires Valid(State())
      modifies this
      ensures State() == Publish(kem, old(State()), draw) && Valid(State())
      ensures value == Published(kem, old(State()), draw)
    {
      if publicKey.None? {
        match draw {
          case Fails(key, secret, _) =>
            publicKey, secretKey := Some(key), Some(secret);
            return None;
          case Works(seed) =>
            var keys := kem.keypair(seed);
            publicKey, secretKey := Some(keys.0), Some(keys.1);
            initiator := true;
        }
      }
      return publicKey;
    }

    method SetPublicKey(value: Bytes, draw: Draw) returns (ok: bool)
      requires Valid(State())
      modifies this
      ensures State() == Accept(kem, old(State()), value, draw) && Valid(State())
      ensures ok == Accepts(old(State()), value, draw)
    {
      if |value| != LENGTH { return false; }
      if initiator {
        match draw {
          case Fails(secret, _, _) =>
            sharedSecret := Some(secret);
            return false;
          case Works(_) =>
            sharedSecret := Some(kem.decaps(secretKey.value, value));
            return true;
        }
      }
      match draw {
        case Fails(text, secret, key) =>
          ciphertext, sharedSecret, publicKey := Some(text), Some(secret), Some(key);
          return false;
        case Works(seed) =>
          var sealed := kem.encaps(value, seed);
          ciphertext, sharedSecret := Some(sealed.0), Some(sealed.1);
          publicKey := ciphertext;
          return true;
      }
    }

    method GetSharedSecret() returns (secret: Option<Bytes>)
      ensures secret == sharedSecret
    {
      return sharedSecret;
    }
  }

  // ----- One object, whatever is done with it

  datatype Use = Ask(draw: Draw) | Give(value: Bytes, draw: Draw)

  function UsedOnce(kem: Kem, p: Party, use: Use): Party
    requires Valid(p)
  {
    match use
    case Ask(draw) => Publish(kem, p, draw)
    case Give(value, draw) => Accept(kem, p, value, draw)
  }

  function Used(kem: Kem, p: Party, uses: seq<Use>): (q: Party)
    requires Valid(p)
    ensures Valid(q)
    decreases |uses|
  {
    if uses == [] then p else Used(kem, UsedOnce(kem, p, uses[0]), uses[1..])
  }

  /** An initiator keeps its keys: whatever values it is given and however the primitives
      behave, it publishes the same public value for ever. */
  lemma {:induction false} InitiatorKeyIsStable(kem: Kem, p: Party, uses: seq<Use>, draw: Draw)
    requires Valid(p) && p.initiator
    ensures var q := Used(kem, p, uses);
            && q.initiator && q.publicKey == p.publicKey && q.secretKey == p.secretKey
            && Published(kem, q, draw) == p.publicKey
    decreases |uses|
  {
    if uses != [] {
      var q := UsedOnce(kem, p, uses[0]);
      InitiatorKeyIsStable(kem, q, uses[1..], draw);
    }
  }

  /** An object is an initiator if and only if the first thing that gave it a public value
      was a key generation that worked. */
  lemma {:induction false} InitiatorIff(kem: Kem, p: Party, uses: seq<Use>)
    requires Valid(p) && p.publicKey.None?
    ensures Used(kem, p, uses).initiator <==>
            exists i :: 0 <= i < |uses| && Generates(uses, i)
    decreases |uses|
  {
    if uses != [] {
      var q := UsedOnce(kem, p, uses[0]);
      var rest := uses[1..];
      if q.publicKey.None? {
        InitiatorIff(kem, q, rest);
        if i :| 0 <= i < |rest| && Generates(rest, i) {
          assert Generates(uses, i + 1);
        }
        if i :| 0 <= i < |uses| && Generates(uses, i) {
          assert Generates(rest, i - 1);
        }
      } else {
        RoleStays(kem, q, rest);
        if q.initiator {
          assert Generates(uses, 0);
        }
      }
    }
  }

  // A key generation that works, after nothing but values of the wrong length.
  ghost predicate Generates(uses: seq<Use>, i: nat)
    requires i < |uses|
  {
    uses[i].Ask? && uses[i].draw.Works? && forall k :: 0 <= k < i ==> uses[k].Give? && |uses[k].value| != LENGTH
  }

  lemma {:induction false} RoleStays(kem: Kem, p: Party, uses: seq<Use>)
    requires Valid(p) && p.publicKey.Some?
    ensures Used(kem, p, uses).initiator == p.initiator
    decreases |uses|
  {
    if uses != [] {
      var q := UsedOnce(kem, p, uses[0]);
      RoleStays(kem, q, uses[1..]);
    }
  }

  // ----- Two parties and what travels between them

  // The last value each side has published; the last one Alice accepted, unless that call
  // failed; and whether Bob's last acceptance worked.
  datatype Exchange = Exchange(
    alice: Party, bob: Party, fromAlice: Option<Bytes>, fromBob: Option<Bytes>,
    accepted: Option<Bytes>, sealed: bool)

  const START := Exchange(FRESH, FRESH, None, None, None, false)

  // A call on one side; a value is accepted from the other side's last publication, so
  // nothing happens before there is one.
  datatype Event = AlicePublishes(draw: Draw) | BobAccepts(draw: Draw) | BobPublishes(draw: Draw) | AliceAccepts(draw: Draw)

  function OnWire(published: Option<Bytes>, before: Option<Bytes>): Option<Bytes> {
    if published.Some? then published else before
  }

  function Step(kem: Kem, x: Exchange, e: Event): (y: Exchange)
    requires Valid(x.alice) && Valid(x.bob)
    ensures Valid(y.alice) && Valid(y.bob)
  {
    match e
    case AlicePublishes(draw) =>
      x.(alice := Publish(kem, x.alice, draw), fromAlice := OnWire(Published(kem, x.alice, draw), x.fromAlice))
    case BobPublishes(draw) =>
      x.(bob := Publish(kem, x.bob, draw), fromBob := OnWire(Published(kem, x.bob, draw), x.fromBob))
    case BobAccepts(draw) =>
      if x.fromAlice.None? || |x.fromAlice.value| != LENGTH then x
      else x.(bob := Accept(kem, x.bob, x.fromAlice.value, draw), sealed := draw.Works?)
    case AliceAccepts(draw) =>
      if x.fromBob.None? || |x.fromBob.value| != LENGTH then x
      else x.(alice := Accept(kem, x.alice, x.fromBob.value, draw), accepted := if draw.Works? then x.fromBob else None)
  }

  function Run(kem: Kem, events: seq<Event>): (x: Exchange)
    ensures Valid(x.alice) && Valid(x.bob)
  {
    if events == [] then START
    else Step(kem, Run(kem, events[..|events| - 1]), events[|events| - 1])
  }

  // The roles: Alice's key generation works, and Bob publishes only what he got by accepting.
  ghost predicate KeepsRoles(kem: Kem, x: Exchange, e: Event) {
    && (e.AlicePublishes? && x.alice.publicKey.None? ==> e.draw.Works?)
    && (e.BobPublishes? ==> x.bob.ciphertext.Some?)
  }

  ghost predicate RolesKept(kem: Kem, events: seq<Event>) {
    forall i :: 0 <= i < |events| ==> KeepsRoles(kem, Run(kem, events[..i]), events[i])
  }

  ghost predicate Keys(kem: Kem, seed: nat, p: Party) {
    p.initiator && p.publicKey == Some(kem.keypair(seed).0) && p.secretKey == Some(kem.keypair(seed).1)
  }

  // A responder that has sealed a secret holds it and the ciphertext it is in.
  ghost predicate Sealed(kem: Kem, seed: nat, p: Party) {
    p.ciphertext.Some? && p.publicKey == p.ciphertext
    && p.sharedSecret == Some(kem.decaps(kem.keypair(seed).1, p.ciphertext.value))
  }

  // Before Alice publishes nothing has happened; after that the exchange is about her key.
  ghost predicate Invariant(kem: Kem, seed: nat, x: Exchange) {
    x == START ||
    (&& Keys(kem, seed, x.alice) && x.fromAlice == x.alice.publicKey
     && !x.bob.initiator && (x.bob.ciphertext.Some? ==> x.bob.publicKey.Some?)
     && (x.sealed ==> Sealed(kem, seed, x.bob))
     && (x.accepted.Some? ==> x.alice.sharedSecret == Some(kem.decaps(kem.keypair(seed).1, x.accepted.value))))
  }

  lemma StepKeeps(kem: Kem, seed: nat, x: Exchange, e: Event)
    requires Correct(kem) && Valid(x.alice) && Valid(x.bob) && Invariant(kem, seed, x)
    requires KeepsRoles(kem, x, e)
    requires x == START && e.AlicePublishes? && e.draw.Works? ==> e.draw.seed == seed
    ensures Invariant(kem, seed, Step(kem, x, e))
  {
  }

  lemma RolesPrefix(kem: Kem, events: seq<Event>, n: nat)
    requires RolesKept(kem, events) && n <= |events|
    ensures RolesKept(kem, events[..n])
  {
    hide Run, KeepsRoles;
    forall i | 0 <= i < n ensures KeepsRoles(kem, Run(kem, events[..n][..i]), events[..n][i]) {
      assert events[..n][..i] == events[..i];
    }
  }

  lemma {:induction false} RunKeeps(kem: Kem, events: seq<Event>) returns (seed: nat)
    requires Correct(kem) && RolesKept(kem, events)
    ensures Invariant(kem, seed, Run(kem, events))
  {
    if events == [] {
      seed := 0;
    } else {
      var n := |events| - 1;
      RolesPrefix(kem, events, n);
      seed := RunKeeps(kem, events[..n]);
      var x := Run(kem, events[..n]);
      if x == START && events[n].AlicePublishes? && events[n].draw.Works? {
        seed := events[n].draw.seed;
      }
      hide Step;
      StepKeeps(kem, seed, x, events[n]);
    }
  }

  /** Whatever the order and number of calls, and whichever of them fail: once Alice has
      accepted the ciphertext Bob holds, by calls that worked, both hold the same secret. */
  lemma SecretsAgree(kem: Kem, events: seq<Event>)
    requires Correct(kem) && RolesKept(kem, events)
    ensures var x := Run(kem, events);
            x.sealed && x.accepted.Some? && x.accepted == x.bob.ciphertext ==>
              x.alice.sharedSecret.Some? && x.alice.sharedSecret == x.bob.sharedSecret
  {
    var seed := RunKeeps(kem, events);
  }

  // Bob accepts once at most, and that works.
  predicate AcceptsOnce(events: seq<Event>) {
    && (forall i :: 0 <= i < |events| && events[i].BobAccepts? ==> events[i].draw.Works?)
    && (forall i, j :: 0 <= i < j < |events| && events[i].BobAccepts? ==> !events[j].BobAccepts?)
  }

  // Nothing older than Bob's only ciphertext is on the way.
  lemma {:induction false} OneCiphertext(kem: Kem, events: seq<Event>)
    requires Correct(kem) && RolesKept(kem, events) && AcceptsOnce(events)
    ensures var x := Run(kem, events);
            && (x.fromBob.Some? ==> x.fromBob == x.bob.ciphertext)
            && (x.accepted.Some? ==> x.accepted == x.bob.ciphertext)
            && (x.bob.ciphertext.Some? ==> x.sealed && exists i :: 0 <= i < |events| && events[i].BobAccepts?)
  {
    if events != [] {
      var n := |events| - 1;
      RolesPrefix(kem, events, n);
      OneCiphertext(kem, events[..n]);
      var seed := RunKeeps(kem, events[..n]);
      var x := Run(kem, events[..n]);
      hide Run;
      if i :| 0 <= i < n && events[..n][i].BobAccepts? {
        assert events[i].BobAccepts?;
      }
    }
  }

  /** If the responder accepts once, the sides agree as soon as the initiator has accepted:
      its secret is then the one the responder has held since. */
  lemma SecretsAgreeAfterOneAccept(kem: Kem, events: seq<Event>)
    requires Correct(kem) && RolesKept(kem, events) && AcceptsOnce(events)
    ensures var x := Run(kem, events);
            x.accepted.Some? ==> x.alice.sharedSecret.Some? && x.alice.sharedSecret == x.bob.sharedSecret
  {
    SecretsAgree(kem, events);
    OneCiphertext(kem, events);
  }

  // ----- What the roles are for

  // A correct KEM in which a side's secret is its own key.
  function OwnKeys(): Kem {
    var fill := (n: nat) => seq(LENGTH, i => if n == 0 then 0 as bv8 else 1 as bv8);
    Kem((s: nat) => (fill(s), fill(s)), (key, r) => (fill(0), key), (secret, text) => secret)
  }

  /** If the responder is asked for its public value first, it becomes an initiator too,
      all the calls succeed, and the two secrets can differ. */
  lemma RolesMatter() returns (events: seq<Event>)
    ensures Correct(OwnKeys()) && forall i :: 0 <= i < |events| ==> events[i].draw.Works?
    ensures var x := Run(OwnKeys(), events);
            x.accepted.Some? && x.bob.sharedSecret.Some? && x.alice.sharedSecret != x.bob.sharedSecret
  {
    var kem := OwnKeys();
    var e := [AlicePublishes(Works(0)), BobPublishes(Works(1)), AliceAccepts(Works(0)), BobAccepts(Works(0))];
    events := e;
    assert e[..3] == [e[0], e[1], e[2]];
    assert e[..3][..2] == [e[0], e[1]];
    assert e[..3][..2][..1] == [e[0]];
    assert e[..3][..2][..1][..0] == [];
    var x1 := Step(kem, START, e[0]);
    var x2 := Step(kem, x1, e[1]);
    var x3 := Step(kem, x2, e[2]);
    assert Run(kem, e[..3][..2][..1]) == x1;
    assert Run(kem, e[..3][..2]) == x2;
    assert Run(kem, e[..3]) == x3;
    assert Run(kem, e) == Step(kem, x3, e[3]);
    assert kem.keypair(0).1[0] != kem.keypair(1).1[0];
  }
}
