/** The finitely many rounds that decide whether a whole counted loop is safe.

    Products are linear in the round, counts and partial sums quadratic, so their
    extremes are at the first round, the last round, and the round where the
    increments change sign. */
module CountedLoopTurns {
  import opened JsValues
  import opened CountedLoop

  // ---------------------------------------------------------------------------
  // Parabolas
  // ---------------------------------------------------------------------------

  /** The sequence that starts at `f` with increments `a`, `a + s`, `a + 2s`, ... */
  function Parabola(f: int, a: int, s: int, k: nat): int {
    f + a * k + s * (k * (k - 1) / 2)
  }

  lemma HalfIsTriangle(k: nat)
    ensures k * (k - 1) / 2 == Triangle(k)
  {
    TriangleHalves(k);
  }

  lemma ParabolaStarts(f: int, a: int, s: int)
    ensures Parabola(f, a, s, 0) == f
  {
  }

  lemma ParabolaStep(f: int, a: int, s: int, k: nat)
    ensures Parabola(f, a, s, k + 1) == Parabola(f, a, s, k) + (a + s * k)
  {
    HalfIsTriangle(k);
    HalfIsTriangle(k + 1);
    Distribute(a, k, 1);
    Distribute(s, Triangle(k), k);
  }

  /** The first of the `n` increments that no longer has the sign of `a`. */
  function Turn(a: int, s: int, n: nat): (t: nat)
    ensures t <= n
  {
    if a < 0 < s then Least((-a + s - 1) / s, n)
    else if s < 0 < a then Least((a - s - 1) / -s, n)
    else 0
  }

  function Least(x: int, n: nat): (r: nat)
    ensures r <= n && (0 <= x <= n ==> r == x) && (x > n ==> r == n)
  {
    if x < 0 then 0 else if x < n then x else n
  }

  /** Increments `j` to `k - 1` do not lower the sequence. */
  ghost predicate Rising(a: int, s: int, j: nat, k: nat) {
    forall i: nat :: j <= i < k ==> a + s * i >= 0
  }

  ghost predicate Falling(a: int, s: int, j: nat, k: nat) {
    forall i: nat :: j <= i < k ==> a + s * i <= 0
  }

  lemma {:induction false} RisesTo(f: int, a: int, s: int, j: nat, k: nat)
    requires j <= k && Rising(a, s, j, k)
    ensures Parabola(f, a, s, j) <= Parabola(f, a, s, k)
    decreases k
  {
    hide Parabola;
    if j < k {
      RisesTo(f, a, s, j, k - 1);
      ParabolaStep(f, a, s, k - 1);
    }
  }

  lemma {:induction false} FallsTo(f: int, a: int, s: int, j: nat, k: nat)
    requires j <= k && Falling(a, s, j, k)
    ensures Parabola(f, a, s, j) >= Parabola(f, a, s, k)
    decreases k
  {
    hide Parabola;
    if j < k {
      FallsTo(f, a, s, j, k - 1);
      ParabolaStep(f, a, s, k - 1);
    }
  }

  lemma UpFrom(d: nat, s: nat, i: nat)
    requires s >= 1
    ensures i < (d + s - 1) / s ==> s * i < d
    ensures i >= (d + s - 1) / s ==> s * i >= d
  {
    CeilingBounds(d, s);
    var t := (d + s - 1) / s;
    if i >= t {
      MulMonotone(t, s, i, s);
    } else {
      assert i * s < d;
    }
  }

  lemma NegatedProduct(s: int, i: nat)
    ensures (-s) * i == -(s * i)
  {
  }

  /** One change of direction at most, and `Turn` is where it is. */
  lemma OneTurn(a: int, s: int, n: nat)
    ensures
      var t := Turn(a, s, n);
      (Falling(a, s, 0, t) && Rising(a, s, t, n)) || (Rising(a, s, 0, t) && Falling(a, s, t, n))
  {
    if a < 0 < s {
      forall i: nat
        ensures i < (-a + s - 1) / s ==> a + s * i < 0
        ensures i >= (-a + s - 1) / s ==> a + s * i >= 0
      {
        UpFrom(-a, s, i);
      }
    } else if s < 0 < a {
      forall i: nat
        ensures i < (a - s - 1) / -s ==> a + s * i > 0
        ensures i >= (a - s - 1) / -s ==> a + s * i <= 0
      {
        UpFrom(a, -s, i);
        NegatedProduct(s, i);
      }
    } else {
      forall i: nat
        ensures s >= 0 ==> s * i >= 0
        ensures s <= 0 ==> s * i <= 0
      {
      }
    }
  }

  /** Three values bound all of them. */
  lemma ParabolaBounded(f: int, a: int, s: int, n: nat, k: nat)
    requires k <= n
    ensures
      var t := Turn(a, s, n);
      IsSafe(f) && IsSafe(Parabola(f, a, s, t)) && IsSafe(Parabola(f, a, s, n)) ==> IsSafe(Parabola(f, a, s, k))
  {
    hide Parabola, Turn;
    var t := Turn(a, s, n);
    ParabolaStarts(f, a, s);
    OneTurn(a, s, n);
    if Falling(a, s, 0, t) && Rising(a, s, t, n) {
      if k <= t {
        FallsTo(f, a, s, 0, k);
        FallsTo(f, a, s, k, t);
      } else {
        RisesTo(f, a, s, t, k);
        RisesTo(f, a, s, k, n);
      }
    } else {
      if k <= t {
        RisesTo(f, a, s, 0, k);
        RisesTo(f, a, s, k, t);
      } else {
        FallsTo(f, a, s, t, k);
        FallsTo(f, a, s, k, n);
      }
    }
  }

  // ---------------------------------------------------------------------------
  // The loop's own sequences, in closed form
  // ---------------------------------------------------------------------------

  /** What the first round adds. */
  function First(l: Counted): int {
    Delta(l.update, l.iInit)
  }

  /** How much more each round adds than the one before. */
  function Slope(l: Counted): int {
    match l.update
    case ConstStep(_) => 0
    case Induction => l.step
    case Affine(mul, _) => l.step * mul
  }

  function CountAfter(l: Counted, k: nat): int {
    Parabola(l.countInit, First(l), Slope(l), k)
  }

  function ProductIn(l: Counted, k: nat): int
    requires l.update.Affine?
  {
    (l.iInit + k * l.step) * l.update.mul
  }

  /** The count with the product added and the constant still to come. */
  function PartialIn(l: Counted, k: nat): int
    requires l.update.Affine?
  {
    CountAfter(l, k) + ProductIn(l, k)
  }

  lemma DeltaIsLinear(l: Counted, k: nat)
    ensures Delta(l.update, InductionAt(l, k)) == First(l) + Slope(l) * k
  {
    match l.update
    case ConstStep(_) =>
    case Induction =>
    case Affine(mul, add) =>
      assert (l.iInit + k * l.step) * mul == l.iInit * mul + (l.step * mul) * k;
  }

  lemma {:induction false} CountIsParabola(l: Counted, k: nat)
    ensures CountAt(l, k) == CountAfter(l, k)
  {
    hide First, Slope, Delta, InductionAt, Parabola;
    if k > 0 {
      CountIsParabola(l, k - 1);
      DeltaIsLinear(l, k - 1);
      ParabolaStep(l.countInit, First(l), Slope(l), k - 1);
    } else {
      ParabolaStarts(l.countInit, First(l), Slope(l));
    }
  }

  lemma ProductIsLine(l: Counted, k: nat)
    requires l.update.Affine?
    ensures ProductIn(l, k) == Parabola(l.iInit * l.update.mul, Slope(l), 0, k)
  {
    assert (l.iInit + k * l.step) * l.update.mul == l.iInit * l.update.mul + (l.step * l.update.mul) * k;
  }

  lemma PartialIsParabola(l: Counted, k: nat)
    requires l.update.Affine?
    ensures PartialIn(l, k) == Parabola(l.countInit + l.iInit * l.update.mul, First(l) + Slope(l), Slope(l), k)
  {
    ProductIsLine(l, k);
    var a, s := First(l), Slope(l);
    assert (a + s) * k == a * k + s * k;
  }

  // ---------------------------------------------------------------------------
  // The rounds that decide
  // ---------------------------------------------------------------------------

  predicate CountsSafe(l: Counted, n: nat) {
    IsSafe(CountAfter(l, n)) && IsSafe(CountAfter(l, Turn(First(l), Slope(l), n)))
  }

  predicate ProductsSafe(l: Counted, n: nat)
    requires l.update.Affine? && n > 0
  {
    IsSafe(ProductIn(l, 0)) && IsSafe(ProductIn(l, n - 1))
  }

  predicate PartialsSafe(l: Counted, n: nat)
    requires l.update.Affine? && n > 0
  {
    && IsSafe(PartialIn(l, 0)) && IsSafe(PartialIn(l, n - 1))
    && IsSafe(PartialIn(l, Turn(First(l) + Slope(l), Slope(l), n - 1)))
  }

  /** At most seven numbers, each in closed form. */
  predicate TurnsSafe(l: Counted, n: nat) {
    n == 0 || (CountsSafe(l, n) && (l.update.Affine? ==> ProductsSafe(l, n) && PartialsSafe(l, n)))
  }

  lemma CountsDecide(l: Counted, n: nat)
    ensures CountsSafe(l, n) <==> forall k: nat :: k <= n ==> IsSafe(CountAt(l, k))
  {
    hide Parabola, Turn, First, Slope, CountAt;
    CountIsParabola(l, n);
    CountIsParabola(l, Turn(First(l), Slope(l), n));
    forall k: nat | k <= n && CountsSafe(l, n)
      ensures IsSafe(CountAt(l, k))
    {
      CountIsParabola(l, k);
      ParabolaBounded(l.countInit, First(l), Slope(l), n, k);
    }
  }

  lemma ProductsDecide(l: Counted, n: nat)
    requires l.update.Affine? && n > 0
    ensures ProductsSafe(l, n) <==> forall k: nat :: k < n ==> IsSafe(ProductIn(l, k))
  {
    hide Parabola, Slope;
    forall k: nat | k < n && ProductsSafe(l, n)
      ensures IsSafe(ProductIn(l, k))
    {
      ProductBetween(l, n - 1, k);
    }
  }

  lemma ProductBetween(l: Counted, n: nat, k: nat)
    requires l.update.Affine? && k <= n
    ensures IsSafe(ProductIn(l, 0)) && IsSafe(ProductIn(l, n)) ==> IsSafe(ProductIn(l, k))
  {
    hide ProductIn;
    ProductIsLine(l, 0);
    ProductIsLine(l, k);
    ProductIsLine(l, n);
    LineBetween(l.iInit * l.update.mul, Slope(l), k, n);
  }

  lemma PartialsDecide(l: Counted, n: nat)
    requires l.update.Affine? && n > 0
    ensures PartialsSafe(l, n) <==> forall k: nat :: k < n ==> IsSafe(PartialIn(l, k))
  {
    hide Parabola, Turn, First, Slope, PartialIn;
    var f, a, s := l.countInit + l.iInit * l.update.mul, First(l) + Slope(l), Slope(l);
    PartialIsParabola(l, 0);
    ParabolaStarts(f, a, s);
    PartialIsParabola(l, n - 1);
    PartialIsParabola(l, Turn(a, s, n - 1));
    forall k: nat | k < n && PartialsSafe(l, n)
      ensures IsSafe(PartialIn(l, k))
    {
      PartialIsParabola(l, k);
      ParabolaBounded(f, a, s, n - 1, k);
    }
  }

  lemma RoundIs(l: Counted, k: nat)
    ensures SafeRound(l, k) <==>
      IsSafe(CountAt(l, k + 1)) && (l.update.Affine? ==> IsSafe(ProductIn(l, k)) && IsSafe(PartialIn(l, k)))
  {
    hide CountAfter, CountAt;
    CountIsParabola(l, k);
  }

  lemma StartIsSafe(l: Counted)
    ensures IsSafe(CountAt(l, 0))
  {
  }

  lemma RoundsMakeTurns(l: Counted, n: nat)
    requires SafeFrom(l, 0, n) && n > 0
    ensures TurnsSafe(l, n)
  {
    hide CountsSafe, ProductsSafe, PartialsSafe, CountAt, ProductIn, PartialIn, SafeRound;
    forall k: nat | k <= n
      ensures IsSafe(CountAt(l, k))
    {
      if k > 0 {
        RoundIs(l, k - 1);
        assert SafeRound(l, k - 1);
      } else {
        StartIsSafe(l);
      }
    }
    CountsDecide(l, n);
    if l.update.Affine? {
      forall k: nat | k < n
        ensures IsSafe(ProductIn(l, k)) && IsSafe(PartialIn(l, k))
      {
        RoundIs(l, k);
        assert SafeRound(l, k);
      }
      ProductsDecide(l, n);
      PartialsDecide(l, n);
    }
  }

  lemma TurnsMakeRounds(l: Counted, n: nat)
    requires TurnsSafe(l, n) && n > 0
    ensures SafeFrom(l, 0, n)
  {
    hide CountsSafe, ProductsSafe, PartialsSafe, CountAt, ProductIn, PartialIn, SafeRound;
    CountsDecide(l, n);
    if l.update.Affine? {
      ProductsDecide(l, n);
      PartialsDecide(l, n);
    }
    forall k: nat | k < n
      ensures SafeRound(l, k)
    {
      RoundIs(l, k);
    }
  }

  /** Every round of the loop is safe exactly when those few rounds are. */
  lemma SafeAtTurns(l: Counted, n: nat)
    ensures SafeFrom(l, 0, n) <==> TurnsSafe(l, n)
  {
    hide SafeRound, CountsSafe, ProductsSafe, PartialsSafe;
    if n > 0 {
      if SafeFrom(l, 0, n) {
        RoundsMakeTurns(l, n);
      }
      if TurnsSafe(l, n) {
        TurnsMakeRounds(l, n);
      }
    }
  }
}
