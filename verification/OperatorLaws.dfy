/** What each operator of the interpreters computes, said without its formula. */
module OperatorLaws {
  import opened JsValues

  // ---------------------------------------------------------------------------
  // 32-bit words of numbers
  // ---------------------------------------------------------------------------

  /** `x` is the number modulo 2^32; NaN counts as 0. */
  predicate Wraps(v: Value, x: int) {
    IsNumber(v) && ((if v.NaN? then 0 else Number(v)) - x) % TWO32 == 0
  }

  /** The int32 and the uint32 that a number converts to. */
  predicate Signed(v: Value, x: int) {
    Wraps(v, x) && -TWO31 <= x < TWO31
  }

  predicate Unsigned(v: Value, u: int) {
    Wraps(v, u) && 0 <= u < TWO32
  }

  /** The shift distance: the low five bits. */
  ghost predicate Distance(v: Value, s: int) {
    0 <= s < 32 && exists u: int :: Unsigned(v, u) && (u - s) % 32 == 0
  }

  lemma {:induction false} MultipleOf(x: int, m: int)
    requires m > 0 && x % m == 0
    ensures exists k: int :: x == k * m
  {
    assert x == (x / m) * m;
  }

  lemma SameRemainder(x: int, y: int)
    requires (x - y) % TWO32 == 0
    ensures x % TWO32 == y % TWO32
  {
    MultipleOf(x - y, TWO32);
    var k: int :| x - y == k * TWO32;
    AddMultiple(y, k);
  }

  lemma UnsignedIs(v: Value, u: int)
    requires Unsigned(v, u)
    ensures u == ToUint32(v)
  {
    SameRemainder(if v.NaN? then 0 else Number(v), u);
  }

  lemma SignedIs(v: Value, x: int)
    requires Signed(v, x)
    ensures x == ToInt32(v)
  {
    SameRemainder(if v.NaN? then 0 else Number(v), x);
  }

  lemma DistanceIs(v: Value, s: int)
    requires Distance(v, s)
    ensures s == ToUint32(v) % 32
  {
    hide Unsigned, ToUint32;
    var u: int :| Unsigned(v, u) && (u - s) % 32 == 0;
    UnsignedIs(v, u);
    LowFive(u, s);
  }

  lemma LowFive(u: int, s: int)
    requires (u - s) % 32 == 0 && 0 <= s < 32
    ensures u % 32 == s
  {
  }

  /** Every number has its two words and a shift distance. */
  lemma WordsExist(v: Value) returns (x: int, u: int, s: nat)
    requires IsNumber(v)
    ensures Signed(v, x) && Unsigned(v, u) && Distance(v, s)
  {
    var n := if v.NaN? then 0 else Number(v);
    u, x := ToUint32(v), ToInt32(v);
    s := u % 32;
    WrapsBack(n);
    WordOf(n);
    assert Unsigned(v, u) && (u - s) % 32 == 0;
  }

  lemma WordOf(n: int)
    ensures (n - n % TWO32) % TWO32 == 0 && S32(n % TWO32) == S32(n) && (n - S32(n)) % TWO32 == 0
  {
    var k := n / TWO32;
    assert n == k * TWO32 + n % TWO32;
    AddMultiple(0, k);
    AddMultiple(0, k + 1);
    assert n - S32(n) == k * TWO32 || n - S32(n) == (k + 1) * TWO32;
  }

  // ---------------------------------------------------------------------------
  // Sums, differences, products
  // ---------------------------------------------------------------------------

  predicate IsResult(op: BinOp, x: int, y: int, n: int)
    requires op.Add? || op.Sub? || op.Mul?
  {
    (op.Add? ==> n == x + y) && (op.Sub? ==> n + y == x) && (op.Mul? ==> n == x * y)
  }

  /** Exact on exact numbers, an int32 when both operands are and it fits, NaN
      when an operand is; anything that is not a number sends the run away. */
  lemma ArithmeticLaw(op: BinOp, a: Value, b: Value, n: int)
    requires op.Add? || op.Sub? || op.Mul?
    requires IsExact(a) && IsExact(b) ==> IsResult(op, Number(a), Number(b), n)
    ensures IsExact(a) && IsExact(b) && IsSafe(n) ==>
      Alu(op, a, b) == Val(if a.Int? && b.Int? && -TWO31 <= n < TWO31 then Int(n) else Float(n))
    ensures IsExact(a) && IsExact(b) && !IsSafe(n) ==> Alu(op, a, b) == Inexact
    ensures IsNumber(a) && IsNumber(b) && (a.NaN? || b.NaN?) ==> Alu(op, a, b) == Val(NaN)
    ensures !IsNumber(a) || !IsNumber(b) ==> Alu(op, a, b) == TypeMiss
  {
  }

  /** Quotient and remainder: smaller than the divisor, with the sign of the dividend. */
  predicate Remains(x: int, y: int, q: int, r: int) {
    && x == q * y + r
    && (if y < 0 then y < r < -y else -y < r < y)
    && (x >= 0 ==> r >= 0) && (x <= 0 ==> r <= 0)
  }

  lemma TruncModRemains(x: int, y: int) returns (q: int)
    requires y != 0
    ensures Remains(x, y, q, TruncMod(x, y))
  {
    var m := if y < 0 then -y else y;
    var p := (if x >= 0 then x else -x) / m;
    assert (if x >= 0 then x else -x) == p * m + (if x >= 0 then x else -x) % m;
    q := if (x >= 0) == (y > 0) then p else -p;
    assert q * y == if x >= 0 then p * m else -(p * m) by { Signs(p, m, x >= 0, y > 0); }
  }

  lemma Signs(p: int, m: int, up: bool, pos: bool)
    ensures (if up == pos then p else -p) * (if pos then m else -m) == if up then p * m else -(p * m)
  {
  }

  /** `%`: NaN for a zero divisor, a NaN operand, or the one int32 quotient that
      is not an int32; otherwise the remainder, int32 when both operands are. */
  lemma RemainderLaw(a: Value, b: Value) returns (q: int)
    ensures IsExact(a) && IsExact(b) && Number(b) != 0 && !(a == Int(-TWO31) && b == Int(-1)) ==>
      && Alu(Mod, a, b).Val? && IsExact(Alu(Mod, a, b).v)
      && Remains(Number(a), Number(b), q, Number(Alu(Mod, a, b).v))
      && (Alu(Mod, a, b).v.Int? <==> a.Int? && b.Int?)
    ensures IsNumber(a) && IsNumber(b) && (a.NaN? || b.NaN? || Number(b) == 0) ==> Alu(Mod, a, b) == Val(NaN)
    ensures a == Int(-TWO31) && b == Int(-1) ==> Alu(Mod, a, b) == Val(NaN)
    ensures !IsNumber(a) || !IsNumber(b) ==> Alu(Mod, a, b) == TypeMiss
  {
    hide TruncMod;
    q := 0;
    if IsExact(a) && IsExact(b) && Number(b) != 0 {
      q := TruncModRemains(Number(a), Number(b));
    }
  }

  // ---------------------------------------------------------------------------
  // Shifts
  // ---------------------------------------------------------------------------

  /** `<<` multiplies modulo 2^32. */
  lemma ShiftLeftLaw(a: Value, b: Value, x: int, s: nat)
    requires Signed(a, x) && Distance(b, s)
    ensures Alu(Shl, a, b).Val? && Alu(Shl, a, b).v.Int? && (Alu(Shl, a, b).v.i - x * Pow2(s)) % TWO32 == 0
  {
    hide ToUint32, ToInt32, Signed, Distance;
    SignedIs(a, x);
    DistanceIs(b, s);
    SignedIsNumber(a, x);
    DistanceIsNumber(b, s);
    WrapsBack(x * Pow2(s));
  }

  lemma SignedIsNumber(a: Value, x: int)
    requires Signed(a, x)
    ensures IsNumber(a)
  {
  }

  lemma UnsignedIsNumber(a: Value, x: int)
    requires Unsigned(a, x)
    ensures IsNumber(a)
  {
  }

  lemma DistanceIsNumber(b: Value, s: int)
    requires Distance(b, s)
    ensures IsNumber(b)
  {
  }

  lemma WrapsBack(n: int)
    ensures (S32(n) - n) % TWO32 == 0
  {
    var k := n / TWO32;
    assert n == k * TWO32 + n % TWO32;
    AddMultiple(0, -k);
    AddMultiple(0, -k - 1);
    assert S32(n) - n == (-k) * TWO32 || S32(n) - n == (-k - 1) * TWO32;
  }

  /** `>>` divides and rounds down, keeping the sign. */
  lemma ShiftRightSignedLaw(a: Value, b: Value, x: int, s: nat)
    requires Signed(a, x) && Distance(b, s)
    ensures Alu(Sar, a, b).Val? && Alu(Sar, a, b).v.Int?
    ensures Alu(Sar, a, b).v.i * Pow2(s) <= x < (Alu(Sar, a, b).v.i + 1) * Pow2(s)
  {
    hide ToUint32, ToInt32, Signed, Distance;
    SignedIs(a, x);
    DistanceIs(b, s);
    SignedIsNumber(a, x);
    DistanceIsNumber(b, s);
    Floors(x, Pow2(s));
  }

  lemma Floors(x: int, p: nat)
    requires p >= 1
    ensures (x / p) * p <= x < (x / p + 1) * p
  {
    assert x == (x / p) * p + x % p;
    assert (x / p + 1) * p == (x / p) * p + p;
  }

  /** `>>>` divides the unsigned word; the result is a number below 2^32. */
  lemma ShiftRightUnsignedLaw(a: Value, b: Value, u: int, s: nat)
    requires Unsigned(a, u) && Distance(b, s)
    ensures Alu(Shr, a, b).Val? && IsExact(Alu(Shr, a, b).v)
    ensures Number(Alu(Shr, a, b).v) * Pow2(s) <= u < (Number(Alu(Shr, a, b).v) + 1) * Pow2(s)
    ensures Alu(Shr, a, b).v.Int? <==> Number(Alu(Shr, a, b).v) < TWO31
  {
    hide ToUint32, Unsigned, Distance;
    UnsignedIs(a, u);
    DistanceIs(b, s);
    UnsignedIsNumber(a, u);
    DistanceIsNumber(b, s);
    Floors(u, Pow2(s));
  }

  // ---------------------------------------------------------------------------
  // Bit by bit
  // ---------------------------------------------------------------------------

  predicate BitSet(x: nat, k: nat) {
    (x / Pow2(k)) % 2 == 1
  }

  predicate Combines(op: BinOp, p: bool, q: bool)
    requires op.And? || op.Xor? || op.Or?
  {
    (op.And? && p && q) || (op.Or? && (p || q)) || (op.Xor? && p != q)
  }

  lemma HalfBit(x: nat, k: nat)
    requires k > 0
    ensures BitSet(x, k) == BitSet(x / 2, k - 1)
  {
    DivideTwice(x, Pow2(k - 1));
  }

  lemma DivideTwice(x: nat, p: nat)
    requires p >= 1
    ensures x / (2 * p) == (x / 2) / p
  {
    var q := (x / 2) / p;
    assert x / 2 == q * p + (x / 2) % p && x == 2 * (x / 2) + x % 2;
    var r := 2 * ((x / 2) % p) + x % 2;
    assert x == q * (2 * p) + r && 0 <= r < 2 * p;
    QuotientIs(x, 2 * p, q, r);
  }

  lemma QuotientIs(x: nat, m: nat, q: nat, r: nat)
    requires x == q * m + r && r < m
    ensures x / m == q
  {
    var d := x / m - q;
    assert x == (x / m) * m + x % m;
    assert d * m == (x / m) * m - q * m;
    ScaledAway(d, m);
  }

  lemma ScaledAway(d: int, m: int)
    requires m >= 1
    ensures d >= 1 ==> d * m >= m
    ensures d <= -1 ==> d * m <= 0 - m
  {
    if d >= 1 {
      ProductAtLeast(m, d);
    } else if d <= -1 {
      ProductAtLeast(m, -d);
    }
  }

  lemma {:induction false} BitwiseBits(op: BinOp, x: nat, y: nat, width: nat, k: nat)
    requires (op.And? || op.Xor? || op.Or?) && k < width
    ensures BitSet(Bitwise(op, x, y, width), k) == Combines(op, BitSet(x, k), BitSet(y, k))
    decreases width
  {
    var b, rest := Bit(op, x % 2, y % 2), Bitwise(op, x / 2, y / 2, width - 1);
    assert Bitwise(op, x, y, width) == b + 2 * rest;
    if k == 0 {
      assert (b + 2 * rest) / Pow2(0) == b + 2 * rest && (b + 2 * rest) % 2 == b;
    } else {
      HalfBit(x, k);
      HalfBit(y, k);
      HalfBit(b + 2 * rest, k);
      assert (b + 2 * rest) / 2 == rest;
      BitwiseBits(op, x / 2, y / 2, width - 1, k - 1);
    }
  }

  /** `&`, `|` and `^`: an int32 whose every bit is that of the operands' words, combined. */
  lemma BitwiseLaw(op: BinOp, a: Value, b: Value, x: int, y: int, r: int, k: nat)
    requires (op.And? || op.Xor? || op.Or?) && k < 32
    requires Unsigned(a, x) && Unsigned(b, y)
    requires Alu(op, a, b).Val? && Unsigned(Alu(op, a, b).v, r)
    ensures Alu(op, a, b).v.Int?
    ensures BitSet(r, k) == Combines(op, BitSet(x, k), BitSet(y, k))
  {
    hide ToUint32, Unsigned, BitSet, Combines, Bitwise;
    UnsignedIs(a, x);
    UnsignedIs(b, y);
    UnsignedIs(Alu(op, a, b).v, r);
    UnsignedIsNumber(a, x);
    UnsignedIsNumber(b, y);
    Pow2Word();
    var w := JsValues.Word(op, x, y);
    WordBack(w);
    BitwiseBits(op, x, y, WORD, k);
  }

  lemma WordBack(w: uint32)
    ensures ToUint32(Int(S32(w))) == w
  {
  }

  /** Shifts and bitwise operators take numbers only, and on them always have a result. */
  lemma BitOperandsLaw(op: BinOp, a: Value, b: Value)
    requires op.Shl? || op.Sar? || op.Shr? || op.And? || op.Xor? || op.Or?
    ensures IsNumber(a) && IsNumber(b) ==> Alu(op, a, b).Val? && IsExact(Alu(op, a, b).v)
    ensures !IsNumber(a) || !IsNumber(b) ==> Alu(op, a, b) == TypeMiss
  {
    hide ToUint32, ToInt32, JsValues.Word, Pow2, ShiftRight, FloorShift, S32;
  }

  // ---------------------------------------------------------------------------
  // Comparisons
  // ---------------------------------------------------------------------------

  predicate SameKind(a: Value, b: Value) {
    || (a.Bool? && b.Bool?) || (a.Null? && b.Null?) || (a.Undef? && b.Undef?)
    || (a.Uninit? && b.Uninit?) || (a.Ref? && b.Ref?) || (IsNumber(a) && IsNumber(b))
  }

  /** `===`: equal numbers across int32 and float64, NaN equal to nothing, equal
      booleans, null and undefined each with itself, and nothing across kinds. */
  lemma StrictEqLaw(a: Value, b: Value)
    ensures IsExact(a) && IsExact(b) ==> Alu(StrictEq, a, b) == Val(Bool(Number(a) == Number(b)))
    ensures IsNumber(a) && IsNumber(b) && (a.NaN? || b.NaN?) ==> Alu(StrictEq, a, b) == Val(Bool(false))
    ensures a.Bool? && b.Bool? ==> Alu(StrictEq, a, b) == Val(Bool(a.b == b.b))
    ensures (a.Null? && b.Null?) || (a.Undef? && b.Undef?) || (a.Uninit? && b.Uninit?) ==> Alu(StrictEq, a, b) == Val(Bool(true))
    ensures !SameKind(a, b) ==> Alu(StrictEq, a, b) == Val(Bool(false))
  {
  }

  /** The order comparisons handle two int32 operands and nothing else. */
  lemma CompareLaw(a: Value, b: Value, op: BinOp)
    ensures a.Int? && b.Int? ==> Alu(Lt, a, b) == Val(Bool(a.i < b.i)) && Alu(Gte, a, b) == Val(Bool(!(a.i < b.i)))
    ensures a.Int? && b.Int? ==> Alu(Gt, a, b) == Val(Bool(b.i < a.i)) && Alu(Lte, a, b) == Val(Bool(!(b.i < a.i)))
    ensures (op.Lt? || op.Lte? || op.Gt? || op.Gte?) && !(a.Int? && b.Int?) ==> Alu(op, a, b) == TypeMiss
  {
  }

  lemma ShiftExamples()
    ensures Alu(Sar, Int(-8), Int(1)) == Val(Int(-4))
    ensures Alu(Shr, Int(-8), Int(1)) == Val(Int(0x7fff_fffc))
  {
    hide Pow2;
    assert Pow2(1) == 2 by { Two(); }
    assert ToInt32(Int(-8)) == -8 && ToUint32(Int(-8)) == 0xffff_fff8 && ToUint32(Int(1)) % 32 == 1;
  }

  lemma Two()
    ensures Pow2(1) == 2
  {
  }
}
