/** Sums over multiples, taken a period at a time. */
module Periodic {
  import opened JsValues

  function I64(x: int): Option<int> {
    if -I64_MAX - 1 <= x <= I64_MAX then Some(x) else None
  }

  lemma I64Fits(x: int)
    requires -I64_MAX - 1 <= x <= I64_MAX
    ensures I64(x) == Some(x)
  {
  }

  // ---------------------------------------------------------------------------
  // Greatest common divisor
  // ---------------------------------------------------------------------------

  ghost predicate Divides(d: int, n: int) {
    exists k: int :: n == d * k
  }

  ghost predicate Combines(g: int, a: int, b: int) {
    exists u: int, v: int :: g == u * a + v * b
  }

  lemma DividesBy(d: int, n: int, k: int)
    requires n == d * k
    ensures Divides(d, n)
  {
  }

  lemma CombinesBy(g: int, a: int, b: int, u: int, v: int)
    requires g == u * a + v * b
    ensures Combines(g, a, b)
  {
    var p, q := u, v;
    assert g == p * a + q * b;
  }

  /** `n == x * a + y * b`, one Euclidean step further on. */
  lemma StepBack(n: int, x: int, a: int, y: int, b: int, q: int, r: int)
    requires n == x * a + y * b && a == q * b + r
    ensures n == (x * q + y) * b + x * r
  {
    assert x * (q * b + r) == (x * q) * b + x * r;
    assert (x * q + y) * b == (x * q) * b + y * b;
  }

  /** The remainder as a combination of the original operands. */
  lemma StepForward(r: int, a: int, b: int, q: int, u: int, v: int, s: int, t: int, m: int, n: int)
    requires a == q * b + r
    requires a == u * m + v * n && b == s * m + t * n
    ensures r == (u - q * s) * m + (v - q * t) * n
  {
    assert q * (s * m + t * n) == (q * s) * m + (q * t) * n;
    assert (u - q * s) * m == u * m - (q * s) * m;
    assert (v - q * t) * n == v * n - (q * t) * n;
  }

  /** The pair (a, b) and the operands of the loop are combinations of each other. */
  ghost predicate Interchangeable(a: int, b: int, m: int, n: int) {
    && (exists x: int, y: int :: m == x * a + y * b)
    && (exists x: int, y: int :: n == x * a + y * b)
    && (exists u: int, v: int :: a == u * m + v * n)
    && (exists u: int, v: int :: b == u * m + v * n)
  }

  lemma CombinesBack(n: int, a: int, b: int, q: int, r: int)
    requires a == q * b + r
    requires exists x: int, y: int :: n == x * a + y * b
    ensures exists x: int, y: int :: n == x * b + y * r
  {
    var x: int, y: int :| n == x * a + y * b;
    StepBack(n, x, a, y, b, q, r);
    var x', y' := x * q + y, x;
    assert n == x' * b + y' * r;
  }

  lemma EuclidStep(a: int, b: int, q: int, r: int, m: int, n: int)
    requires a == q * b + r && Interchangeable(a, b, m, n)
    ensures Interchangeable(b, r, m, n)
  {
    CombinesBack(m, a, b, q, r);
    CombinesBack(n, a, b, q, r);
    var u: int, v: int :| a == u * m + v * n;
    var s: int, t: int :| b == s * m + t * n;
    StepForward(r, a, b, q, u, v, s, t, m, n);
    var u', v' := u - q * s, v - q * t;
    assert r == u' * m + v' * n;
  }

  lemma EuclidStart(m: int, n: int)
    ensures Interchangeable(m, n, m, n)
  {
    assert m == 1 * m + 0 * n;
    assert n == 0 * m + 1 * n;
  }

  lemma EuclidEnd(a: int, m: int, n: int, g: int)
    requires Interchangeable(a, 0, m, n) && (g == a || g == -a)
    ensures Divides(g, m) && Divides(g, n) && Combines(g, m, n)
  {
    var x: int, y: int :| m == x * a + y * 0;
    var z: int, w: int :| n == z * a + w * 0;
    var u: int, v: int :| a == u * m + v * n;
    if g == a {
      DividesBy(g, m, x);
      DividesBy(g, n, z);
      CombinesBy(g, m, n, u, v);
    } else {
      Negate(a, x);
      Negate(a, z);
      Negate(m, u);
      Negate(n, v);
      DividesBy(g, m, -x);
      DividesBy(g, n, -z);
      CombinesBy(g, m, n, -u, -v);
    }
  }

  lemma Negate(a: int, x: int)
    ensures -a * -x == x * a && -x * a == -(x * a)
  {
  }

  lemma TruncDivision(a: int, b: int) returns (q: int)
    requires b != 0
    ensures a == q * b + TruncMod(a, b)
    ensures -b < TruncMod(a, b) < b || b < TruncMod(a, b) < -b
  {
    var m := if b < 0 then -b else b;
    if a >= 0 {
      q := if b < 0 then -(a / m) else a / m;
      assert a == (a / m) * m + a % m;
      Negate(m, a / m);
    } else {
      q := if b < 0 then (-a) / m else -((-a) / m);
      assert -a == ((-a) / m) * m + (-a) % m;
      Negate(m, (-a) / m);
    }
  }

  /** Euclid's loop with truncating remainders: a common divisor that is a
      combination of the operands, hence the greatest one. */
  method Gcd(first: int, second: int) returns (g: int)
    ensures g >= 0 && Divides(g, first) && Divides(g, second) && Combines(g, first, second)
  {
    var a, b := first, second;
    EuclidStart(first, second);
    while b != 0
      invariant Interchangeable(a, b, first, second)
      decreases if b < 0 then -b else b
    {
      ghost var q := TruncDivision(a, b);
      var r := TruncMod(a, b);
      EuclidStep(a, b, q, r, first, second);
      a, b := b, r;
    }
    g := if a < 0 then -a else a;
    EuclidEnd(a, first, second, g);
  }

  /** `i` is a multiple of both `a` and `c` exactly when it is one of `a * c / g`. */
  lemma CommonMultiples(a: int, c: int, g: int, i: int)
    requires a > 0 && c > 0 && g > 0
    requires Divides(g, a) && Divides(g, c) && Combines(g, a, c)
    ensures (a * c) / g > 0
    ensures i % a == 0 && i % c == 0 <==> i % ((a * c) / g) == 0
  {
    var a1: int :| a == g * a1;
    var c1: int :| c == g * c1;
    var l := a * c1;
    assert a * (g * c1) == l * g && l == c * a1;
    PositiveFactor(g, c1);
    ProductAtLeast(a, c1);
    QuotientOf(a * c, g, l);
    if i % l == 0 {
      MultipleOfMultiple(i, l, a, c1);
      MultipleOfMultiple(i, l, c, a1);
    }
    if i % a == 0 && i % c == 0 {
      LeastCommon(a, c, g, l, i);
    }
  }

  /** With g == u * a + v * c, a common multiple times g is a multiple of a * c. */
  lemma LeastCommon(a: int, c: int, g: int, l: int, i: int)
    requires a > 0 && c > 0 && g > 0 && l > 0 && a * c == l * g && Combines(g, a, c)
    requires i % a == 0 && i % c == 0
    ensures i % l == 0
  {
    var u: int, v: int :| g == u * a + v * c;
    var x, y := i / a, i / c;
    assert i == a * x && i == c * y;
    var z := u * y + v * x;
    CrossProduct(a, c, u, v, x, y, i);
    assert (l * g) * z == (l * z) * g;
    CancelFactor(i, l * z, g);
    ExactMultiple(l, z);
  }

  lemma CrossProduct(a: int, c: int, u: int, v: int, x: int, y: int, i: int)
    requires i == a * x && i == c * y
    ensures i * (u * a + v * c) == (a * c) * (u * y + v * x)
  {
    assert i * (u * a + v * c) == (u * a) * i + (v * c) * i;
    assert (u * a) * (c * y) == (a * c) * (u * y);
    assert (v * c) * (a * x) == (a * c) * (v * x);
    assert (a * c) * (u * y + v * x) == (a * c) * (u * y) + (a * c) * (v * x);
  }

  lemma SignOfProduct(g: int, k: int)
    ensures g > 0 && k <= 0 ==> g * k <= 0
  {
  }

  lemma PositiveFactor(g: int, k: int)
    requires g > 0 && g * k > 0
    ensures k > 0
  {
    SignOfProduct(g, k);
  }

  lemma QuotientOf(n: int, g: int, q: int)
    requires g > 0 && n == q * g
    ensures n / g == q
  {
    var d := n / g - q;
    assert n == (n / g) * g + n % g;
    assert d * g == (n / g) * g - q * g;
    assert d * g == -(n % g);
    SmallMultiple(d, g);
  }

  lemma SmallMultiple(d: int, g: int)
    requires g > 0 && -g < d * g < g
    ensures d == 0
  {
    SignOfProduct(g, 1 - d);
    SignOfProduct(g, d + 1);
    assert g * (1 - d) == g - d * g && g * (d + 1) == d * g + g;
  }

  lemma ExactMultiple(l: int, z: int)
    requires l > 0
    ensures (l * z) % l == 0
  {
    QuotientOf(l * z, l, z);
    assert l * z == ((l * z) / l) * l + (l * z) % l;
  }

  lemma MultipleOfMultiple(i: int, l: int, d: int, k: int)
    requires l > 0 && d > 0 && l == d * k && i % l == 0
    ensures i % d == 0
  {
    var q := i / l;
    assert i == l * q;
    assert (d * k) * q == d * (k * q);
    ExactMultiple(d, k * q);
  }

  lemma CancelFactor(a: int, b: int, g: int)
    requires g > 0 && a * g == b * g
    ensures a == b
  {
    assert (a - b) * g == 0;
    SmallMultiple(a - b, g);
  }

  // ---------------------------------------------------------------------------
  // Sums over the multiples of a number
  // ---------------------------------------------------------------------------

  /** The sum of `i % m` over the multiples `i` of `d` in `1..n`. */
  function MultSum(n: int, d: int, m: int): int
    requires d > 0 && m > 0
    decreases n
  {
    if n <= 0 then 0 else MultSum(n - 1, d, m) + if n % d == 0 then n % m else 0
  }

  /** The same sum over the first `k` multiples. */
  function Tally(d: int, m: int, k: nat): int
    requires d > 0 && m > 0
  {
    if k == 0 then 0 else Tally(d, m, k - 1) + (d * k) % m
  }

  lemma {:induction false} MultSumIsTally(n: nat, d: int, m: int)
    requires d > 0 && m > 0
    ensures n / d >= 0 && MultSum(n, d, m) == Tally(d, m, n / d)
  {
    if n > 0 {
      MultSumIsTally(n - 1, d, m);
      var q, r := n / d, n % d;
      assert n == q * d + r;
      if r == 0 {
        ProductPositive(q, d);
        assert n - 1 == (q - 1) * d + (d - 1);
        DivisionIs(n - 1, d, q - 1, d - 1);
        assert d * q == n;
      } else {
        DivisionIs(n - 1, d, q, r - 1);
      }
    } else {
      DivisionIs(0, d, 0, 0);
    }
  }

  lemma ProductPositive(q: int, d: int)
    requires d > 0 && q * d > 0
    ensures q > 0
  {
    SignOfProduct(d, q);
  }

  lemma DivisionIs(n: int, d: int, q: int, r: int)
    requires d > 0 && n == q * d + r && 0 <= r < d
    ensures n / d == q && n % d == r
  {
    var e := n / d - q;
    assert n == (n / d) * d + n % d;
    assert e * d == (n / d) * d - q * d;
    SmallMultiple(e, d);
  }

  /** Whole periods do not change the remainder. */
  lemma SameResidue(x: int, y: int, m: int, k: int)
    requires m > 0 && x == y + k * m
    ensures x % m == y % m
  {
    var q, r := y / m, y % m;
    assert y == q * m + r;
    assert x == (q + k) * m + r;
    DivisionIs(x, m, q + k, r);
  }

  lemma {:induction false} TallyShift(d: int, m: int, p: nat, k: nat)
    requires d > 0 && m > 0 && Divides(m, d * p)
    ensures Tally(d, m, p + k) == Tally(d, m, p) + Tally(d, m, k)
  {
    if k > 0 {
      TallyShift(d, m, p, k - 1);
      var c: int :| d * p == m * c;
      assert d * (p + k) == d * k + c * m;
      SameResidue(d * (p + k), d * k, m, c);
    }
  }

  lemma {:induction false} TallyPeriods(d: int, m: int, p: nat, q: nat, r: nat)
    requires d > 0 && m > 0 && Divides(m, d * p)
    ensures Tally(d, m, q * p + r) == q * Tally(d, m, p) + Tally(d, m, r)
  {
    if q > 0 {
      TallyPeriods(d, m, p, q - 1, r);
      assert q * p + r == p + ((q - 1) * p + r);
      assert (q - 1) * p + r >= 0;
      TallyShift(d, m, p, (q - 1) * p + r);
      assert q * Tally(d, m, p) == (q - 1) * Tally(d, m, p) + Tally(d, m, p);
    }
  }

  lemma {:induction false} TallyBound(d: int, m: int, k: nat)
    requires d > 0 && m > 0
    ensures 0 <= Tally(d, m, k) <= k * (m - 1)
  {
    if k > 0 {
      TallyBound(d, m, k - 1);
      assert k * (m - 1) == (k - 1) * (m - 1) + (m - 1);
    }
  }

  /** Multiples of `d` repeat modulo `m` after `m / g` of them. */
  lemma PeriodDivides(d: int, m: int, g: int)
    requires d > 0 && m > 0 && g >= 0 && Divides(g, d) && Divides(g, m)
    ensures g > 0 && 0 < m / g <= m && Divides(m, d * (m / g))
  {
    var d1: int :| d == g * d1;
    var m1: int :| m == g * m1;
    assert g != 0;
    PositiveFactor(g, m1);
    assert m == m1 * g;
    QuotientOf(m, g, m1);
    ProductAtLeast(m1, g);
    assert (g * d1) * m1 == (g * m1) * d1;
    DividesBy(m, d * m1, d1);
  }

  lemma ProductFits(a: int, b: int)
    requires 0 <= a <= INT32_MAX && 0 <= b <= INT32_MAX
    ensures 0 <= a * b <= 0x3fff_ffff_0000_0001
  {
    assert a * b <= INT32_MAX * b;
    assert INT32_MAX * b <= INT32_MAX * INT32_MAX;
  }

  /** Adds the residues of the first `n` multiples. */
  method AddResidues(start: int, divisor: int, modulus: int, n: int) returns (r: Option<int>)
    requires 0 < divisor <= INT32_MAX && 0 < modulus <= INT32_MAX && 0 <= n <= INT32_MAX
    requires 0 <= start && start + Tally(divisor, modulus, n) <= I64_MAX
    ensures r == Some(start + Tally(divisor, modulus, n))
  {
    var total := start;
    for j := 1 to n + 1
      invariant total == start + Tally(divisor, modulus, j - 1)
    {
      TallyBound(divisor, modulus, j);
      TallyIncreases(divisor, modulus, j, n);
      ProductFits(divisor, j);
      var product := I64(divisor * j);
      if product.None? { return None; }
      var next := I64(total + product.value % modulus);
      if next.None? { return None; }
      total := next.value;
    }
    r := Some(total);
  }

  /** One pass over a period, one over the rest, in checked 64-bit arithmetic
      that never overflows for a 31-bit limit and modulus. */
  method SumMultiplesMod(limit: int, divisor: int, modulus: int) returns (r: Option<int>)
    requires limit <= INT32_MAX && divisor > 0 && 0 < modulus <= INT32_MAX
    ensures r == Some(MultSum(limit, divisor, modulus))
  {
    hide Divides, MultSum, Tally, I64;
    if limit <= 0 {
      MultSumEmpty(limit, divisor, modulus);
      return Some(0);
    }
    MultSumIsTally(limit, divisor, modulus);
    var count := limit / divisor;
    if count == 0 {
      TallyEmpty(divisor, modulus);
      return Some(0);
    }
    CountBounds(limit, divisor);
    var g := Gcd(divisor, modulus);
    PeriodDivides(divisor, modulus, g);
    var period := modulus / g;
    TallyFits(divisor, modulus, period);
    var periodSum := AddResidues(0, divisor, modulus, period);
    if periodSum.None? { return None; }
    WholePeriods(divisor, modulus, period, count);
    var fullPeriods, rest := count / period, count % period;
    I64Fits(fullPeriods * periodSum.value);
    var whole := I64(fullPeriods * periodSum.value);
    if whole.None? { return None; }
    r := AddResidues(whole.value, divisor, modulus, rest);
  }

  lemma WholePeriods(d: int, m: int, p: nat, count: nat)
    requires d > 0 && 0 < m <= INT32_MAX && p > 0 && count <= INT32_MAX && Divides(m, d * p)
    ensures
      var q, r := count / p, count % p;
      && q >= 0 && 0 <= r <= INT32_MAX
      && 0 <= q * Tally(d, m, p) <= I64_MAX
      && q * Tally(d, m, p) + Tally(d, m, r) == Tally(d, m, count) <= I64_MAX
  {
    hide Divides, Tally;
    var q, r := count / p, count % p;
    assert count == q * p + r;
    DivideShrinks(count, p);
    TallyPeriods(d, m, p, q, r);
    TallyFits(d, m, count);
    RestFits(count, p, r);
    TallyFits(d, m, r);
    TallyBound(d, m, p);
    NonNegativeProduct(q, Tally(d, m, p));
  }

  lemma RestFits(count: nat, p: nat, r: nat)
    requires p > 0 && r == count % p
    ensures r <= count
  {
    assert count == (count / p) * p + r;
    DivideShrinks(count, p);
    NonNegativeProduct(count / p, p);
  }

  lemma NonNegativeProduct(a: int, b: int)
    requires a >= 0 && b >= 0
    ensures a * b >= 0
  {
  }

  lemma MultSumEmpty(n: int, d: int, m: int)
    requires d > 0 && m > 0 && n <= 0
    ensures MultSum(n, d, m) == 0
  {
  }

  lemma TallyEmpty(d: int, m: int)
    requires d > 0 && m > 0
    ensures Tally(d, m, 0) == 0
  {
  }

  lemma TallyFits(d: int, m: int, k: nat)
    requires d > 0 && 0 < m <= INT32_MAX && k <= INT32_MAX
    ensures 0 <= Tally(d, m, k) <= 0x3fff_ffff_0000_0001
  {
    TallyBound(d, m, k);
    ProductFits(k, m - 1);
  }

  lemma {:induction false} TallyIncreases(d: int, m: int, j: nat, k: nat)
    requires d > 0 && m > 0 && j <= k
    ensures Tally(d, m, j) <= Tally(d, m, k)
    decreases k
  {
    if j < k {
      TallyIncreases(d, m, j, k - 1);
    }
  }

  lemma CountBounds(limit: int, divisor: int)
    requires 0 < limit && divisor > 0 && limit / divisor != 0
    ensures 0 < limit / divisor <= limit && divisor <= limit
  {
    DivideShrinks(limit, divisor);
    assert limit == (limit / divisor) * divisor + limit % divisor;
    ProductAtLeast(divisor, limit / divisor);
  }
}
