/** Pollard rho factoring with Floyd cycle finding, the trial-division prime test
    and the key-breaking driver (quansec/protocols/ipsec/attacks.py).

    Random draws are parameters. */
module Attacks {
  import opened NumberTheory
  import opened Options

  // ----- The walk x -> x^2 + c modulo n

  function Step(n: nat, c: nat, x: nat): nat
    requires n > 0
  {
    (x * x + c) % n
  }

  // The position after k steps.
  function Walk(n: nat, c: nat, x: nat, k: nat): nat
    requires n > 0
  {
    if k == 0 then x else Step(n, c, Walk(n, c, x, k - 1))
  }

  // What the loop tests after k rounds: the tortoise has made k steps, the hare 2k.
  function Meet(n: nat, c: nat, x: nat, k: nat): (g: nat)
    requires n > 0
    ensures g > 0
  {
    Gcd(Distance(Walk(n, c, x, k), Walk(n, c, x, 2 * k)), n)
  }

  function Distance(a: nat, b: nat): nat {
    if a < b then b - a else a - b
  }

  ghost predicate IsFirstMeeting(n: nat, c: nat, x: nat, m: nat)
    requires n > 0
  {
    m >= 1 && Meet(n, c, x, m) != 1 && forall k :: 1 <= k < m ==> Meet(n, c, x, k) == 1
  }

  // ----- The walk seen modulo a divisor p of n is itself such a walk

  lemma {:induction false} WalkFrom(n: nat, c: nat, x: nat, i: nat, j: nat)
    requires n > 0
    ensures Walk(n, c, x, i + j) == Walk(n, c, Walk(n, c, x, i), j)
  {
    if j > 0 {
      WalkFrom(n, c, x, i, j - 1);
      assert Walk(n, c, x, i + j) == Step(n, c, Walk(n, c, x, i + (j - 1)));
    }
  }

  lemma {:induction false} CongruentWalks(n: nat, p: nat, c: nat, x: nat, y: nat, k: nat)
    requires n > 0 && p > 0 && Divides(p, n) && x % p == y % p
    ensures Walk(n, c, x, k) % p == Walk(n, c, y, k) % p
  {
    if k > 0 {
      CongruentWalks(n, p, c, x, y, k - 1);
      var a, b := Walk(n, c, x, k - 1), Walk(n, c, y, k - 1);
      SquareCongruent(a, b, c, p);
      ModOfMod(a * a + c, n, p);
      ModOfMod(b * b + c, n, p);
    }
  }

  // From step i on, the residues modulo p repeat with period j - i, hence with
  // every multiple of it.
  lemma {:induction false} Periodic(n: nat, p: nat, c: nat, x: nat, i: nat, j: nat, k: nat, laps: nat)
    requires n > 0 && p > 0 && Divides(p, n) && i <= j && i <= k
    requires Walk(n, c, x, i) % p == Walk(n, c, x, j) % p
    ensures 0 <= laps * (j - i)
    ensures Walk(n, c, x, k) % p == Walk(n, c, x, k + laps * (j - i)) % p
  {
    if laps > 0 {
      var back := k + (laps - 1) * (j - i);
      Periodic(n, p, c, x, i, j, k, laps - 1);
      WalkFrom(n, c, x, i, back - i);
      WalkFrom(n, c, x, j, back - i);
      CongruentWalks(n, p, c, Walk(n, c, x, i), Walk(n, c, x, j), back - i);
      assert j + (back - i) == k + laps * (j - i);
    }
  }

  // A multiple of b among a + 1, ..., a + b.
  lemma MultipleInRange(a: nat, b: nat) returns (q: nat)
    requires b > 0
    ensures a < q * b <= a + b
  {
    q := (a + b) / b;
    DivMod(a + b, b);
  }

  // The tortoise and the hare agree modulo p within p rounds: two of the first
  // p + 1 residues are equal, and the first common multiple of that period and
  // beyond the tail is a meeting point.
  lemma MeetsModulo(n: nat, p: nat, c: nat, x: nat) returns (m: nat)
    requires n > 0 && p > 0 && Divides(p, n)
    ensures 1 <= m <= p
    ensures Walk(n, c, x, m) % p == Walk(n, c, x, 2 * m) % p
  {
    var residues := seq(p + 1, k requires 0 <= k => Walk(n, c, x, k) % p);
    var i, j := Pigeonhole(residues, p);
    assert residues[i] == residues[j];
    var laps := MultipleInRange(i, j - i);
    m := laps * (j - i);
    Periodic(n, p, c, x, i, j, m, laps);
  }

  lemma AgreementMeets(n: nat, p: nat, c: nat, x: nat, m: nat)
    requires n > 0 && p >= 2 && Divides(p, n)
    requires Walk(n, c, x, m) % p == Walk(n, c, x, 2 * m) % p
    ensures Meet(n, c, x, m) >= p
  {
    var a, b := Walk(n, c, x, m), Walk(n, c, x, 2 * m);
    CongruentIffDividesDifference(a, b, p);
    CongruentIffDividesDifference(b, a, p);
    GcdIsGreatest(Distance(a, b), n, p);
  }

  lemma {:induction false} LeastMeeting(n: nat, c: nat, x: nat, m: nat) returns (first: nat)
    requires n > 0 && m >= 1 && Meet(n, c, x, m) != 1
    ensures first <= m && IsFirstMeeting(n, c, x, first)
  {
    if k :| 1 <= k < m && Meet(n, c, x, k) != 1 {
      first := LeastMeeting(n, c, x, k);
    } else {
      first := m;
    }
  }

  // The round at which the loop stops.
  ghost function FirstMeeting(n: nat, c: nat, x: nat): (m: nat)
    requires n >= 2
    ensures IsFirstMeeting(n, c, x, m)
  {
    assert exists m :: IsFirstMeeting(n, c, x, m) by {
      var at := MeetsModulo(n, n, c, x);
      AgreementMeets(n, n, c, x, at);
      var _ := LeastMeeting(n, c, x, at);
    }
    var m :| IsFirstMeeting(n, c, x, m);
    m
  }

  // The loop needs no more rounds than the smallest divisor of n, not just n.
  lemma StopsWithinAnyDivisor(n: nat, c: nat, x: nat, p: nat)
    requires n >= 2 && p >= 2 && Divides(p, n)
    ensures FirstMeeting(n, c, x) <= p
  {
    var at := MeetsModulo(n, p, c, x);
    AgreementMeets(n, p, c, x, at);
  }

  // So a composite number takes at most the square root of n rounds.
  lemma StopsWithinSquareRoot(n: nat, c: nat, x: nat)
    requires n >= 2 && !Prime(n)
    ensures FirstMeeting(n, c, x) * FirstMeeting(n, c, x) <= n
  {
    var d := CompositeHasSmallDivisor(n);
    StopsWithinAnyDivisor(n, c, x, d);
    SquareMonotone(FirstMeeting(n, c, x), d);
  }

  // ----- The factoring loop

  datatype RhoResult = Factor(d: nat) | NoFactor | EmptyRange

  // The number found for odd n: the gcd at the first meeting, unless it is n.
  ghost function RhoOutcome(n: nat, x: nat, c: nat): RhoResult
    requires n >= 2
  {
    var d := Meet(n, c, x, FirstMeeting(n, c, x));
    if d != n then Factor(d) else NoFactor
  }

  lemma MeetsAfterStart(n: nat, c: nat, x: nat)
    requires n >= 2
    ensures FirstMeeting(n, c, x) >= 1
  {
  }

  lemma LoopEnds(n: nat, c: nat, x: nat, k: nat)
    requires n >= 2 && 1 <= k <= FirstMeeting(n, c, x)
    ensures Meet(n, c, x, k) != 1 <==> k == FirstMeeting(n, c, x)
  {
  }

  lemma WalkStarts(n: nat, c: nat, x: nat)
    requires n > 0
    ensures Walk(n, c, x, 0) == x
  {
  }

  // One round: the tortoise makes one step and the hare two.
  lemma WalkSteps(n: nat, c: nat, x: nat, k: nat)
    requires n > 0
    ensures Walk(n, c, x, k + 1) == Step(n, c, Walk(n, c, x, k))
    ensures Walk(n, c, x, 2 * (k + 1)) == Step(n, c, Step(n, c, Walk(n, c, x, 2 * k)))
  {
    assert Walk(n, c, x, 2 * (k + 1)) == Step(n, c, Walk(n, c, x, 2 * k + 1));
  }

  // The generator range(2, n-1) is empty for n = 1, the only odd n below 3.
  ghost predicate ValidDraws(n: nat, x: nat, c: nat) {
    n % 2 == 1 && n >= 3 ==> 2 <= x <= n - 1 && 1 <= c <= n - 1
  }

  method PollardRho(n: nat, x0: nat, c: nat) returns (r: RhoResult, ghost rounds: nat)
    requires ValidDraws(n, x0, c)
    ensures n % 2 == 0 ==> r == Factor(2)
    ensures n == 1 ==> r == EmptyRange
    ensures n % 2 == 1 && n >= 3 ==> r == RhoOutcome(n, x0, c) && rounds == FirstMeeting(n, c, x0)
  {
    if n % 2 == 0 {
      return Factor(2), 0;
    }
    if n < 3 {
      return EmptyRange, 0;
    }
    hide Walk, Gcd, IsFirstMeeting, FirstMeeting;
    var x, y, d := x0, x0, 1;
    assert x == Walk(n, c, x0, 0) by { WalkStarts(n, c, x0); }
    ghost var last := FirstMeeting(n, c, x0);
    assert last >= 1 by { MeetsAfterStart(n, c, x0); }
    rounds := 0;
    while d == 1
      invariant 0 <= rounds <= last
      invariant x == Walk(n, c, x0, rounds) && y == Walk(n, c, x0, 2 * rounds)
      invariant if rounds == 0 then d == 1 else d == Meet(n, c, x0, rounds)
      invariant d != 1 <==> rounds == last
      decreases last - rounds
    {
      WalkSteps(n, c, x0, rounds);
      x := (x * x + c) % n;
      y := (y * y + c) % n;
      y := (y * y + c) % n;
      d := Gcd(if x < y then y - x else x - y, n);
      rounds := rounds + 1;
      assert d == Meet(n, c, x0, rounds);
      LoopEnds(n, c, x0, rounds);
    }
    r := if d != n then Factor(d) else NoFactor;
  }

  // Whatever is returned as a factor is a proper divisor, for every odd n.
  lemma FactorIsProperDivisor(n: nat, x: nat, c: nat)
    requires n >= 2 && RhoOutcome(n, x, c).Factor?
    ensures 1 < RhoOutcome(n, x, c).d < n && Divides(RhoOutcome(n, x, c).d, n)
  {
    var m := FirstMeeting(n, c, x);
    var d := Meet(n, c, x, m);
    GcdDividesBoth(Distance(Walk(n, c, x, m), Walk(n, c, x, 2 * m)), n);
    DivisorAtMost(d, n);
  }

  // The loop gives up exactly when the walk itself, and not only its residue
  // modulo some divisor, has met at the first meeting.
  lemma GivesUpIffWalkMeets(n: nat, x: nat, c: nat)
    requires n >= 2
    ensures RhoOutcome(n, x, c).NoFactor?
       <==> var m := FirstMeeting(n, c, x); Walk(n, c, x, m) == Walk(n, c, x, 2 * m)
  {
    var m := FirstMeeting(n, c, x);
    WalkStaysBelow(n, c, x, m);
    WalkStaysBelow(n, c, x, 2 * m);
    GcdOfClose(Walk(n, c, x, m), Walk(n, c, x, 2 * m), n);
  }

  lemma WalkStaysBelow(n: nat, c: nat, x: nat, k: nat)
    requires n > 0 && k >= 1
    ensures Walk(n, c, x, k) < n
  {
  }

  // Of two numbers below n, the distance shares all of n only when they are equal.
  lemma GcdOfClose(a: nat, b: nat, n: nat)
    requires a < n && b < n
    ensures Gcd(Distance(a, b), n) == n <==> a == b
  {
    var g := Gcd(Distance(a, b), n);
    GcdDividesBoth(Distance(a, b), n);
    if a == b {
      GcdIsGreatest(0, n, n);
      DivisorAtMost(g, n);
    } else if g == n {
      DivisorAtMost(n, Distance(a, b));
    }
  }

  // No prime is ever split.
  lemma PrimeNeverSplits(n: nat, x: nat, c: nat)
    requires Prime(n)
    ensures RhoOutcome(n, x, c) == NoFactor
  {
    if RhoOutcome(n, x, c).Factor? {
      FactorIsProperDivisor(n, x, c);
    }
  }

  // ----- The same loop without the names above

  // x, x^2 + c, ... modulo n.
  ghost predicate Orbit(n: nat, c: nat, x: nat, xs: seq<nat>)
    requires n > 0
  {
    xs != [] && xs[0] == x && forall i :: 0 <= i < |xs| - 1 ==> xs[i + 1] == (xs[i] * xs[i] + c) % n
  }

  ghost predicate GreatestCommonDivisor(g: nat, a: nat, b: nat) {
    g > 0 && Divides(g, a) && Divides(g, b) && forall d: nat :: d > 0 && Divides(d, a) && Divides(d, b) ==> d <= g
  }

  lemma GcdIsThatDivisor(g: nat, a: nat, b: nat)
    requires b > 0 && GreatestCommonDivisor(g, a, b)
    ensures Gcd(a, b) == g
  {
    GcdDividesBoth(a, b);
    GcdIsGreatest(a, b, g);
  }

  lemma {:induction false} OrbitIsWalk(n: nat, c: nat, x: nat, xs: seq<nat>, k: nat)
    requires n > 0 && Orbit(n, c, x, xs) && k < |xs|
    ensures Walk(n, c, x, k) == xs[k]
  {
    if k > 0 {
      OrbitIsWalk(n, c, x, xs, k - 1);
      assert xs[k - 1 + 1] == (xs[k - 1] * xs[k - 1] + c) % n;
    }
  }

  ghost predicate SharedAt(n: nat, xs: seq<nat>, k: nat, g: nat)
    requires 2 * k < |xs|
  {
    GreatestCommonDivisor(g, if xs[k] < xs[2 * k] then xs[2 * k] - xs[k] else xs[k] - xs[2 * k], n)
  }

  lemma SharedIsMeet(n: nat, c: nat, x: nat, xs: seq<nat>, k: nat, g: nat)
    requires n > 0 && Orbit(n, c, x, xs) && 2 * k < |xs| && SharedAt(n, xs, k, g)
    ensures Meet(n, c, x, k) == g
  {
    OrbitIsWalk(n, c, x, xs, k);
    OrbitIsWalk(n, c, x, xs, 2 * k);
    hide GreatestCommonDivisor, Walk, Gcd;
    GcdIsThatDivisor(g, Distance(xs[k], xs[2 * k]), n);
  }

  /** Along the sequence x, x^2 + c, ... modulo n, the answer is the greatest common
      divisor of n and the difference of members m and 2m, for the least m where that is
      not 1; and no answer if it is n. */
  lemma RhoFollowsOrbit(n: nat, x: nat, c: nat, xs: seq<nat>, m: nat, g: nat)
    requires n >= 2 && Orbit(n, c, x, xs) && m >= 1 && 2 * m < |xs|
    requires SharedAt(n, xs, m, g) && g != 1
    requires forall k :: 1 <= k < m ==> SharedAt(n, xs, k, 1)
    ensures FirstMeeting(n, c, x) == m
    ensures RhoOutcome(n, x, c) == if g != n then Factor(g) else NoFactor
  {
    hide Meet, SharedAt, Orbit;
    SharedIsMeet(n, c, x, xs, m, g);
    forall k | 1 <= k < m ensures Meet(n, c, x, k) == 1 {
      SharedIsMeet(n, c, x, xs, k, 1);
    }
  }

  // ----- The trial-division prime test

  const TRIAL_BOUND := 1000

  ghost predicate PassesTrial(n: nat) {
    n >= 2 && forall i :: 2 <= i <= Isqrt(n) && i < TRIAL_BOUND ==> !Divides(i, n)
  }

  method IsPrime(n: nat) returns (r: bool)
    ensures r <==> PassesTrial(n)
  {
    if n < 2 {
      return false;
    }
    var stop := if Isqrt(n) + 1 < TRIAL_BOUND then Isqrt(n) + 1 else TRIAL_BOUND;
    var i := 2;
    while i < stop
      invariant 2 <= i
      invariant forall k :: 2 <= k < i && k < stop ==> !Divides(k, n)
    {
      if n % i == 0 {
        assert Divides(i, n);
        return false;
      }
      i := i + 1;
    }
    return true;
  }

  // The test accepts the primes and the numbers without a divisor in 2..999.
  lemma TrialIsPrimeOrRough(n: nat)
    ensures PassesTrial(n) <==>
            n >= 2 && (Prime(n) || forall d :: 2 <= d < TRIAL_BOUND ==> !Divides(d, n))
  {
    if n >= 2 {
      RootBounds(n, Isqrt(n), 0);
      if PassesTrial(n) && !Prime(n) {
        var e := CompositeHasSmallDivisor(n);
        RootBounds(n, Isqrt(n), e);
        assert e >= TRIAL_BOUND;
        forall d | 2 <= d < TRIAL_BOUND ensures !Divides(d, n) {
          assert d <= Isqrt(n);
        }
      }
    }
  }

  // It is exactly primality below 1009 * 1009, so in particular below 1,000,000.
  lemma TrialIsExactBelow(n: nat)
    requires n < 1009 * 1009
    ensures PassesTrial(n) <==> Prime(n)
  {
    TrialIsPrimeOrRough(n);
    if PassesTrial(n) && !Prime(n) {
      var d := CompositeHasSmallDivisor(n);
      assert d < 1009 by {
        assert d >= 1009 ==> d * d >= 1009 * 1009;
      }
      var e := if d < TRIAL_BOUND then d
               else if d % 2 == 0 then 2
               else if d == 1001 then 7
               else if d == 1003 then 17
               else if d == 1005 then 3
               else 19;
      assert 2 <= e < TRIAL_BOUND && Divides(e, d);
      DividesTransitive(e, d, n);
    }
  }

  lemma {:induction false} SquareOfPrimeDivisor(p: nat, d: nat)
    requires Prime(p) && 2 <= d < p
    ensures !Divides(d, p * p)
  {
    GcdDividesBoth(d, p);
    DivisorAtMost(Gcd(d, p), d);
    if Divides(d, p * p) {
      CoprimeDivisor(d, p, p);
    }
  }

  lemma PrimeBeyondTrial()
    ensures Prime(1009)
  {
    assert forall i :: 2 <= i < 32 ==> !Divides(i, 1009);
    if !Prime(1009) {
      var d := CompositeHasSmallDivisor(1009);
      if d >= 32 {
        SquareMonotone(32, d);
      }
    }
  }

  // The bound is sharp: 1009 * 1009 is the first number the test gets wrong.
  lemma TrialFailsAt()
    ensures PassesTrial(1009 * 1009) && !Prime(1009 * 1009)
  {
    PrimeBeyondTrial();
    forall d | 2 <= d < TRIAL_BOUND ensures !Divides(d, 1009 * 1009) {
      SquareOfPrimeDivisor(1009, d);
    }
    TrialIsPrimeOrRough(1009 * 1009);
    assert Divides(1009, 1009 * 1009);
  }

  // ----- Breaking a key

  const PUBLIC_EXPONENT := 65537
  const ATTEMPTS := 20

  datatype KeyResult =
    | Broken(n: nat, p: nat, q: nat, d: nat)
    | NotBroken(n: nat)
    | NotInvertible

  // Whether one attempt on n yields a usable factor: even numbers give 2.
  ghost predicate Splits(n: nat, draw: (nat, nat)) {
    n >= 2 && if n % 2 == 0 then n != 2 else RhoOutcome(n, draw.0, draw.1).Factor?
  }

  ghost function SplitFactor(n: nat, draw: (nat, nat)): nat
    requires Splits(n, draw)
  {
    if n % 2 == 0 then 2 else RhoOutcome(n, draw.0, draw.1).d
  }

  function Phi(p: nat, q: nat): (phi: nat)
    requires p > 1 && q > 1
    ensures phi > 0
  {
    PositiveProduct(p - 1, q - 1);
    (p - 1) * (q - 1)
  }

  lemma PositiveProduct(a: nat, b: nat)
    requires a > 0 && b > 0
    ensures a * b > 0
  {
    assert a * b == (a - 1) * b + b;
  }

  ghost predicate IsPrivateExponent(d: nat, phi: nat)
    requires phi > 0
  {
    d < phi && (PUBLIC_EXPONENT * d) % phi == 1 % phi
  }

  // Multiplied with the public exponent it gives 1 modulo (p - 1)(q - 1).
  lemma PrivateExponentMeans(d: nat, p: nat, q: nat)
    requires p > 1 && q > 1 && IsPrivateExponent(d, Phi(p, q))
    ensures (p - 1) * (q - 1) > 0
    ensures d < (p - 1) * (q - 1) && (65537 * d) % ((p - 1) * (q - 1)) == 1 % ((p - 1) * (q - 1))
  {
    PositiveProduct(p - 1, q - 1);
  }

  // The totient of a proper factorization shares a divisor with the public exponent.
  ghost predicate NoInverse(n: nat, found: nat) {
    found > 1 && n / found > 1 && Gcd(PUBLIC_EXPONENT, Phi(found, n / found)) != 1
  }

  // The private key computed from a factor of n, as far as there is one.
  method PrivateKey(n: nat, found: nat) returns (r: KeyResult)
    requires 1 < found < n && Divides(found, n)
    ensures n / found > 1 && found * (n / found) == n
    ensures match r
            case Broken(n', p, q, d) =>
              n' == n && p == found && q == n / found && IsPrivateExponent(d, Phi(p, q))
            case NotInvertible => NoInverse(n, found)
            case NotBroken(_) => false
  {
    var other := n / found;
    CofactorIsProper(n, found);
    var phi := Phi(found, other);
    var inverse := ModInverse(PUBLIC_EXPONENT, phi);
    r := if inverse.None? then NotInvertible else Broken(n, found, other, inverse.value);
  }

  // The first of the attempts that splits n.
  ghost predicate IsFirstSplit(n: nat, draws: seq<(nat, nat)>, i: nat) {
    i < |draws| && Splits(n, draws[i]) && forall k :: 0 <= k < i ==> !Splits(n, draws[k])
  }

  // The factor found is that of the first of the attempts that splits n.
  ghost predicate FoundFirst(n: nat, draws: seq<(nat, nat)>, found: nat) {
    exists i: nat :: IsFirstSplit(n, draws, i) && found == SplitFactor(n, draws[i])
  }

  /** The driver on the key p * q, with the random draws of the twenty attempts.
      A key is reported broken exactly when some attempt splits it and the public
      exponent is invertible; the numbers reported are then a true private key for n. */
  method BreakClassicalKey(p: nat, q: nat, draws: seq<(nat, nat)>) returns (r: KeyResult)
    requires PassesTrial(p) && PassesTrial(q)
    requires |draws| == ATTEMPTS && forall i :: 0 <= i < ATTEMPTS ==> ValidDraws(p * q, draws[i].0, draws[i].1)
    ensures p * q >= 4
    ensures r.NotBroken? <==> forall i :: 0 <= i < 20 ==> !Splits(p * q, draws[i])
    ensures r.NotBroken? ==> r.n == p * q
    ensures r.Broken? ==> r.n == p * q && r.p * r.q == p * q && 1 < r.p && 1 < r.q && IsPrivateExponent(r.d, Phi(r.p, r.q))
    ensures r.Broken? ==> FoundFirst(p * q, draws, r.p)
    ensures r.NotInvertible? ==> exists found: nat :: FoundFirst(p * q, draws, found) && NoInverse(p * q, found)
    ensures p * q % 2 == 0 ==> !r.NotBroken? && (r.Broken? ==> r.p == 2)
  {
    var n := p * q;
    ProductAtLeast(p, q);
    hide Phi, IsPrivateExponent, NoInverse, RhoOutcome, PassesTrial;
    var found: nat := 0;
    var i := 0;
    while i < ATTEMPTS && found == 0
      invariant 0 <= i <= ATTEMPTS
      invariant found == 0 ==> forall k :: 0 <= k < i ==> !Splits(n, draws[k])
      invariant found != 0 ==> i > 0 && IsFirstSplit(n, draws, i - 1) && found == SplitFactor(n, draws[i - 1])
      invariant found != 0 ==> 1 < found < n && Divides(found, n)
    {
      var result, rounds := PollardRho(n, draws[i].0, draws[i].1);
      if n % 2 == 1 && result.Factor? {
        FactorIsProperDivisor(n, draws[i].0, draws[i].1);
      }
      if result.Factor? && result.d != n {
        found := result.d;
      }
      i := i + 1;
    }
    if found == 0 {
      assert !Splits(n, draws[0]);
      return NotBroken(n);
    }
    r := PrivateKey(n, found);
  }

  // A key made of two primes has no other proper divisors: the factors reported
  // are the two secret primes, and the totient computed from them is the key's own.
  lemma FactorsAreTheSecretPrimes(p: nat, q: nat, d: nat)
    requires Prime(p) && Prime(q) && 1 < d < p * q && Divides(d, p * q)
    ensures (d == p && p * q / d == q) || (d == q && p * q / d == p)
  {
    var g := Gcd(d, p);
    GcdDividesBoth(d, p);
    DivisorAtMost(g, p);
    CofactorIsProper(p * q, d);
    if g == 1 {
      CoprimeDivisor(d, p, q);
      DivisorAtMost(d, q);
      assert d == q;
      DivUnique(p * q, d, p, 0);
    } else {
      assert g == p;
      var e, f := d / p, p * q / d;
      DivMod(d, p);
      CancelFactor(p, e * f, q, e, f, d);
      MultipleDivides(f, e);
      DivisorAtMost(e, q);
      DivUnique(p * q, p, q, 0);
    }
  }

  lemma CancelFactor(p: nat, ef: nat, q: nat, e: nat, f: nat, d: nat)
    requires p > 0 && f > 1 && d > 0 && d == e * p && d * f == p * q && ef == e * f
    ensures e > 0 && q == f * e && e < q && (e == 1 ==> d == p)
  {
    assert p * ef == p * q;
    assert p * (ef - q) == 0;
    assert e > 0;
    assert f * e >= 2 * e;
  }

  lemma ProductAtLeast(p: nat, q: nat)
    requires p >= 2 && q >= 2
    ensures p * q >= 4
  {
    assert p * q >= 2 * q;
  }
}
