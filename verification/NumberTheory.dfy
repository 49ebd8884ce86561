/** Divisibility, greatest common divisors and modular arithmetic over the
    integers: the facts about `math.gcd` and `pow(e, -1, m)` that the factoring
    code relies on. */
module NumberTheory {
  import opened Options

  predicate Divides(d: nat, n: int)
    requires d > 0
  {
    n % d == 0
  }

  ghost predicate Prime(n: nat) {
    n >= 2 && forall d :: 2 <= d < n ==> !Divides(d, n)
  }

  // ----- Division with remainder

  lemma DivUnique(n: int, d: nat, q: int, r: nat)
    requires r < d && n == q * d + r
    ensures n / d == q && n % d == r
  {
    var k := q - n / d;
    assert k * d == n % d - r;
    assert k >= 1 ==> k * d >= d;
    assert k <= -1 ==> (-k) * d >= d;
  }

  lemma DivMod(n: int, d: nat)
    requires d > 0
    ensures n == (n / d) * d + n % d
  {
  }

  lemma AddMultiple(n: int, k: int, d: nat)
    requires d > 0
    ensures (n + k * d) % d == n % d
  {
    DivMod(n, d);
    assert n + k * d == (n / d + k) * d + n % d;
    DivUnique(n + k * d, d, n / d + k, n % d);
  }

  lemma MultipleDivides(k: int, d: nat)
    requires d > 0
    ensures Divides(d, k * d)
  {
    AddMultiple(0, k, d);
  }

  lemma CongruentIffDividesDifference(a: int, b: int, d: nat)
    requires d > 0
    ensures a % d == b % d <==> Divides(d, a - b)
  {
    DivMod(a, d);
    DivMod(b, d);
    var k := a / d - b / d;
    assert a - b == k * d + (a % d - b % d);
    if a % d == b % d {
      MultipleDivides(k, d);
    } else if Divides(d, a - b) {
      DivMod(a - b, d);
      assert a == b + ((a - b) / d) * d;
      AddMultiple(b, (a - b) / d, d);
    }
  }

  lemma DividesCombination(d: nat, a: int, b: int, x: int, y: int)
    requires d > 0 && Divides(d, a) && Divides(d, b)
    ensures Divides(d, a * x + b * y)
  {
    var i, j := a / d, b / d;
    calc {
      a * x + b * y;
      (i * d) * x + (j * d) * y;
      (i * x) * d + (j * y) * d;
      (i * x + j * y) * d;
    }
    MultipleDivides(i * x + j * y, d);
  }

  lemma DividesTransitive(d: nat, e: nat, n: int)
    requires d > 0 && e > 0 && Divides(d, e) && Divides(e, n)
    ensures Divides(d, n)
  {
    DividesCombination(d, e, e, n / e, 0);
    assert e * (n / e) + e * 0 == n;
  }

  lemma DivisorAtMost(d: nat, n: nat)
    requires d > 0 && n > 0 && Divides(d, n)
    ensures d <= n
  {
    DivMod(n, d);
    if d > n {
      DivUnique(n, d, 0, n);
    }
  }

  lemma {:induction false} SquareCongruent(a: int, b: int, c: int, d: nat)
    requires d > 0 && a % d == b % d
    ensures (a * a + c) % d == (b * b + c) % d
  {
    CongruentIffDividesDifference(a, b, d);
    DividesCombination(d, a - b, a - b, a + b, 0);
    assert (a - b) * (a + b) + (a - b) * 0 == (a * a + c) - (b * b + c);
    CongruentIffDividesDifference(a * a + c, b * b + c, d);
  }

  // Reducing modulo a multiple of d does not change the residue modulo d.
  lemma ModOfMod(a: int, n: nat, d: nat)
    requires d > 0 && n > 0 && Divides(d, n)
    ensures (a % n) % d == a % d
  {
    DivMod(a, n);
    DivMod(n, d);
    var k := (a / n) * (n / d);
    calc {
      a;
      (a / n) * n + a % n;
      (a / n) * ((n / d) * d) + a % n;
      a % n + k * d;
    }
    AddMultiple(a % n, k, d);
  }

  // ----- Greatest common divisor, by Euclid's algorithm

  function Gcd(a: nat, b: nat): (g: nat)
    ensures a > 0 || b > 0 ==> g > 0
    decreases b
  {
    if b == 0 then a else Gcd(b, a % b)
  }

  // Coefficients (x, y) with a*x + b*y == Gcd(a, b).
  function Bezout(a: nat, b: nat): (c: (int, int))
    ensures a * c.0 + b * c.1 == Gcd(a, b)
    decreases b
  {
    if b == 0 then (1, 0)
    else
      var (x, y) := Bezout(b, a % b);
      EuclidStep(a, b, a / b, a % b, x, y);
      (y, x - (a / b) * y)
  }

  lemma EuclidStep(a: int, b: int, q: int, r: int, x: int, y: int)
    requires a == q * b + r
    ensures a * y + b * (x - q * y) == b * x + r * y
  {
    calc {
      a * y + b * (x - q * y);
      (q * b + r) * y + b * x - b * (q * y);
      b * x + r * y;
    }
  }

  lemma {:induction false} GcdDividesBoth(a: nat, b: nat)
    requires a > 0 || b > 0
    ensures Divides(Gcd(a, b), a) && Divides(Gcd(a, b), b)
    decreases b
  {
    if b > 0 {
      GcdDividesBoth(b, a % b);
      DividesCombination(Gcd(a, b), b, a % b, a / b, 1);
      assert b * (a / b) + (a % b) * 1 == a;
    }
  }

  // Every common divisor divides the greatest one.
  lemma GcdIsGreatest(a: nat, b: nat, d: nat)
    requires d > 0 && (a > 0 || b > 0)
    requires Divides(d, a) && Divides(d, b)
    ensures Divides(d, Gcd(a, b)) && d <= Gcd(a, b)
  {
    var (x, y) := Bezout(a, b);
    DividesCombination(d, a, b, x, y);
    DivisorAtMost(d, Gcd(a, b));
  }

  // A divisor of p * m that is coprime to p divides m.
  lemma CoprimeDivisor(d: nat, p: nat, m: nat)
    requires d > 0 && Gcd(d, p) == 1 && Divides(d, p * m)
    ensures Divides(d, m)
  {
    var (x, y) := Bezout(d, p);
    var k := (p * m) / d;
    DivMod(p * m, d);
    Regroup(d, p, m, x, y, k);
    MultipleDivides(m * x + k * y, d);
  }

  lemma Regroup(d: int, p: int, m: int, x: int, y: int, k: int)
    requires d * x + p * y == 1 && p * m == k * d
    ensures (m * x + k * y) * d == m
  {
    calc {
      (m * x + k * y) * d;
      m * (d * x) + (k * d) * y;
      m * (d * x) + (p * m) * y;
      m * (d * x + p * y);
      m;
    }
  }

  /** `pow(e, -1, m)`: the inverse of e modulo m, where there is one. */
  function ModInverse(e: nat, m: nat): (r: Option<nat>)
    requires m > 0
    ensures r.None? <==> Gcd(e, m) != 1
    ensures r.Some? ==> r.value < m && (e * r.value) % m == 1 % m
  {
    if Gcd(e, m) != 1 then None
    else
      var (x, y) := Bezout(e, m);
      InverseFromBezout(e, m, x, y);
      Some(x % m)
  }

  lemma InverseFromBezout(e: nat, m: nat, x: int, y: int)
    requires m > 0 && e * x + m * y == 1
    ensures (e * (x % m)) % m == 1 % m
  {
    DivMod(x, m);
    var q := x / m;
    calc {
      e * (x % m);
      e * (x - q * m);
      e * x - (e * q) * m;
      1 - m * y - (e * q) * m;
      1 + (-y - e * q) * m;
    }
    AddMultiple(1, -y - e * q, m);
  }

  // ----- Square roots and smallest divisors

  lemma RootBounds(n: nat, r: nat, e: nat)
    requires r * r <= n < (r + 1) * (r + 1) && n >= 2
    ensures r < n
    ensures e * e <= n ==> e <= r
  {
    assert r >= 2 ==> r * r >= 2 * r;
    assert e >= r + 1 ==> e * e >= (r + 1) * (r + 1);
  }

  lemma SquareMonotone(a: nat, b: nat)
    requires a <= b
    ensures a * a <= b * b
  {
    assert a * a <= a * b <= b * b;
  }

  // The two parts of a proper splitting of n.
  lemma CofactorIsProper(n: nat, d: nat)
    requires 1 < d < n && Divides(d, n)
    ensures n / d > 1 && d * (n / d) == n
  {
    DivMod(n, d);
    var f := n / d;
    assert f <= 1 ==> f * d <= d;
  }

  // The integer part of the square root.
  function Isqrt(n: nat): (r: nat)
    ensures r * r <= n < (r + 1) * (r + 1)
  {
    if n == 0 then 0
    else
      var r := Isqrt(n - 1);
      if (r + 1) * (r + 1) <= n then r + 1 else r
  }

  lemma SmallerFactor(e: nat, f: nat) returns (d: nat)
    requires e > 1 && f > 1
    ensures (d == e || d == f) && d * d <= f * e && d < f * e
  {
    d := if e <= f then e else f;
    assert d * d <= f * e;
    assert d * d >= 2 * d;
  }

  // A number that is not prime has a divisor no larger than its square root.
  lemma CompositeHasSmallDivisor(n: nat) returns (d: nat)
    requires n >= 2 && !Prime(n)
    ensures 2 <= d < n && d * d <= n && Divides(d, n)
  {
    var e :| 2 <= e < n && Divides(e, n);
    var f := n / e;
    CofactorIsProper(n, e);
    MultipleDivides(e, f);
    hide Divides;
    d := SmallerFactor(e, f);
  }

  // ----- Pigeonhole

  lemma {:induction false} SubsetSize<T>(a: set<T>, b: set<T>)
    requires a <= b
    ensures |a| <= |b|
  {
    assert |b - a| == |b| - |a|;
  }

  // The numbers smaller than p.
  ghost function Below(p: nat): (s: set<nat>)
    ensures |s| == p && forall i: nat :: i in s <==> i < p
  {
    if p == 0 then {} else Below(p - 1) + {p - 1}
  }

  lemma {:induction false} DistinctFit(s: seq<nat>, pool: set<nat>)
    requires forall i :: 0 <= i < |s| ==> s[i] in pool
    requires forall i, j :: 0 <= i < j < |s| ==> s[i] != s[j]
    ensures |s| <= |pool|
  {
    if s != [] {
      DistinctFit(s[1..], pool - {s[0]});
    }
  }

  // Among more than p numbers below p, two are equal.
  lemma Pigeonhole(s: seq<nat>, p: nat) returns (i: nat, j: nat)
    requires |s| > p && forall i :: 0 <= i < |s| ==> s[i] < p
    ensures i < j < |s| && s[i] == s[j]
  {
    if forall a, b :: 0 <= a < b < |s| ==> s[a] != s[b] {
      DistinctFit(s, Below(p));
      assert false;
    }
    i, j :| 0 <= i < j < |s| && s[i] == s[j];
  }
}
