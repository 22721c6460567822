/** JS values and the arithmetic both interpreters share.

    A `JSValue` is a payload plus a tag. Numbers are int32 (`Int`), integral
    float64 values small enough to be exact (`Float`), or `NaN`. An operation
    whose float64 result need not be exact has no result here (`Inexact`). */
module JsValues {
  const TWO16: int := 0x1_0000
  const TWO31: int := 0x8000_0000
  const TWO32: int := 0x1_0000_0000
  const INT32_MAX: int := 0x7fff_ffff
  const MAX_SAFE_INTEGER: int := 9_007_199_254_740_991
  const I64_MAX: int := 0x7fff_ffff_ffff_ffff

  type byte = x: int | 0 <= x < 0x100
  type uint16 = x: int | 0 <= x < 0x1_0000
  type uint32 = x: int | 0 <= x < 0x1_0000_0000
  type int32 = x: int | -0x8000_0000 <= x < 0x8000_0000
  type safeint = x: int | -9_007_199_254_740_991 <= x <= 9_007_199_254_740_991

  datatype Option<+T> = None | Some(value: T) {
    predicate IsFailure() {
      None?
    }

    function PropagateFailure<U>(): Option<U>
      requires None?
    {
      None
    }

    function Extract(): T
      requires Some?
    {
      value
    }
  }

  datatype Value =
    | Int(i: int32)
    | Float(n: safeint)
    | NaN
    | Bool(b: bool)
    | Null
    | Undef
    | Uninit
    | Ref(id: nat)

  datatype BinOp =
    | Add | Sub | Mul | Mod
    | Shl | Sar | Shr | And | Xor | Or
    | StrictEq
    | Lt | Lte | Gt | Gte

  /** `TypeMiss`: the operand tags are not handled, the run aborts.
      `Inexact`: the float64 result may be rounded, the run leaves the model. */
  datatype AluResult = Val(v: Value) | TypeMiss | Inexact

  predicate IsInt32(x: int) {
    -TWO31 <= x < TWO31
  }

  predicate IsSafe(x: int) {
    -MAX_SAFE_INTEGER <= x <= MAX_SAFE_INTEGER
  }

  predicate IsNumber(v: Value) {
    v.Int? || v.Float? || v.NaN?
  }

  predicate IsExact(v: Value) {
    v.Int? || v.Float?
  }

  function Number(v: Value): safeint
    requires IsExact(v)
  {
    if v.Int? then v.i else v.n
  }

  /** Equal as JS values: the int32 and float64 forms of one number are the same. */
  predicate SameValue(a: Value, b: Value) {
    a == b || (IsExact(a) && IsExact(b) && Number(a) == Number(b))
  }

  // ---------------------------------------------------------------------------
  // 32-bit words
  // ---------------------------------------------------------------------------

  function U32(x: int): uint32 {
    x % TWO32
  }

  function S32(x: int): int32 {
    var u := x % TWO32;
    if u < TWO31 then u else u - TWO32
  }

  lemma S32OfInt32(x: int32)
    ensures S32(x) == x
    ensures S32(U32(x)) == x
  {
  }

  lemma WrapCongruence(x: int, y: int)
    requires exists k: int :: x == y + k * TWO32
    ensures U32(x) == U32(y) && S32(x) == S32(y)
  {
    var k: int :| x == y + k * TWO32;
    AddMultiple(y, k);
  }

  lemma {:induction false} AddMultiple(y: int, k: int)
    ensures (y + k * TWO32) % TWO32 == y % TWO32
    decreases if k < 0 then -k else k
  {
    if k > 0 {
      AddMultiple(y, k - 1);
      assert y + k * TWO32 == (y + (k - 1) * TWO32) + TWO32;
    } else if k < 0 {
      AddMultiple(y, k + 1);
      assert y + k * TWO32 == (y + (k + 1) * TWO32) - TWO32;
    }
  }

  function Pow2(n: nat): (p: nat)
    ensures p >= 1
  {
    if n == 0 then 1 else 2 * Pow2(n - 1)
  }

  function Bit(op: BinOp, a: nat, b: nat): (r: nat)
    requires op.And? || op.Xor? || op.Or?
    requires a < 2 && b < 2
    ensures r < 2
  {
    if op.And? then a * b
    else if op.Xor? then (if a == b then 0 else 1)
    else if a + b > 0 then 1 else 0
  }

  /** The bitwise operator on the low `width` bits of two words. */
  function Bitwise(op: BinOp, x: nat, y: nat, width: nat): (r: nat)
    requires op.And? || op.Xor? || op.Or?
    ensures r < Pow2(width)
    decreases width
  {
    if width == 0 then 0 else Bit(op, x % 2, y % 2) + 2 * Bitwise(op, x / 2, y / 2, width - 1)
  }

  const WORD: nat := 32

  lemma Pow2Word()
    ensures Pow2(WORD) == TWO32
    ensures Pow2(31) == TWO31
  {
    assert Pow2(8) == 256;
    assert Pow2(16) == 65536;
    assert Pow2(24) == 16777216;
  }

  function Word(op: BinOp, x: uint32, y: uint32): (r: uint32)
    requires op.And? || op.Xor? || op.Or?
  {
    Pow2Word();
    Bitwise(op, x, y, WORD)
  }

  lemma {:induction false} BitwiseAndZero(x: nat, width: nat)
    ensures Bitwise(And, x, 0, width) == 0
  {
    if width > 0 {
      BitwiseAndZero(x / 2, width - 1);
    }
  }

  lemma {:induction false} BitwiseOrZero(x: nat, width: nat)
    requires x < Pow2(width)
    ensures Bitwise(Or, x, 0, width) == x
  {
    if width > 0 {
      BitwiseOrZero(x / 2, width - 1);
    }
  }

  lemma AndOdd(x: nat, y: nat, width: nat)
    ensures Bitwise(And, x, 2 * y + 1, width + 1) == x % 2 + 2 * Bitwise(And, x / 2, y, width)
  {
    assert (2 * y + 1) % 2 == 1 && (2 * y + 1) / 2 == y;
  }

  lemma AndLowBits(x: nat, width: nat)
    ensures Bitwise(And, x, 15, width + 4) == x % 16
  {
    var x1 := x / 2;
    var x2 := x1 / 2;
    var x3 := x2 / 2;
    AndOdd(x, 7, width + 3);
    AndOdd(x1, 3, width + 2);
    AndOdd(x2, 1, width + 1);
    AndOdd(x3, 0, width);
    BitwiseAndZero(x3 / 2, width);
  }

  lemma AndFifteen(x: uint32)
    ensures Word(And, x, 15) == x % 16
  {
    AndLowBits(x, WORD - 4);
  }

  lemma OrZero(x: uint32)
    ensures Word(Or, x, 0) == x
  {
    Pow2Word();
    BitwiseOrZero(x, WORD);
  }

  // ---------------------------------------------------------------------------
  // Arithmetic of the interpreters
  // ---------------------------------------------------------------------------

  /** Remainder with the sign of the dividend, as Rust and C compute it. */
  function TruncMod(a: int, b: int): (r: int)
    requires b != 0
    ensures a >= 0 && b > 0 ==> r == a % b
    ensures a >= 0 ==> 0 <= r <= a
    ensures a <= 0 ==> a <= r <= 0
  {
    var m := if b < 0 then -b else b;
    if a >= 0 then a % m else -((-a) % m)
  }

  function Exact(op: BinOp, a: int, b: int): int
    requires op.Add? || op.Sub? || op.Mul?
  {
    if op.Add? then a + b else if op.Sub? then a - b else a * b
  }

  function AsFloat(n: int): AluResult {
    if IsSafe(n) then Val(Float(n)) else Inexact
  }

  function Arith(op: BinOp, a: Value, b: Value): AluResult
    requires op.Add? || op.Sub? || op.Mul?
  {
    if a.Int? && b.Int? then
      var n := Exact(op, a.i, b.i);
      if IsInt32(n) then Val(Int(n)) else AsFloat(n)
    else if IsNumber(a) && IsNumber(b) then
      if a.NaN? || b.NaN? then Val(NaN) else AsFloat(Exact(op, Number(a), Number(b)))
    else
      TypeMiss
  }

  function Remainder(a: Value, b: Value): AluResult {
    if a.Int? && b.Int? then
      if b.i != 0 && !(a.i == -TWO31 && b.i == -1) then Val(Int(TruncMod(a.i, b.i))) else Val(NaN)
    else if IsNumber(a) && IsNumber(b) then
      if a.NaN? || b.NaN? || Number(b) == 0 then Val(NaN) else Val(Float(TruncMod(Number(a), Number(b))))
    else
      TypeMiss
  }

  function ToUint32(v: Value): uint32
    requires IsNumber(v)
  {
    if v.NaN? then 0 else Number(v) % TWO32
  }

  function ToInt32(v: Value): int32
    requires IsNumber(v)
  {
    S32(ToUint32(v))
  }

  function ShiftRight(u: uint32, s: nat): (r: uint32)
    ensures r <= u
  {
    DivideShrinks(u, Pow2(s));
    u / Pow2(s)
  }

  lemma ProductAtLeast(q: nat, p: nat)
    requires p >= 1
    ensures q * p >= q
  {
  }

  lemma DivideShrinks(a: nat, p: nat)
    requires p >= 1
    ensures 0 <= a / p <= a
  {
    ProductAtLeast(a / p, p);
  }

  function UnsignedValue(u: uint32): Value {
    if u < TWO31 then Int(u) else Float(u)
  }

  function FloorShift(x: int32, s: nat): int32 {
    FloorShiftRange(x, Pow2(s));
    x / Pow2(s)
  }

  lemma FloorShiftRange(x: int32, p: nat)
    requires p >= 1
    ensures IsInt32(x / p)
  {
    var q := x / p;
    assert x == q * p + x % p && 0 <= x % p < p;
    if x >= 0 {
      DivideShrinks(x, p);
    } else {
      assert q < 0;
      ProductAtLeast(-(q + 1), p);
      assert -(q + 1) * p == -(q * p) - p;
    }
  }

  function BitOps(op: BinOp, a: Value, b: Value): AluResult
    requires op.Shl? || op.Sar? || op.Shr? || op.And? || op.Xor? || op.Or?
  {
    if IsNumber(a) && IsNumber(b) then
      var s := ToUint32(b) % 32;
      if op.Shl? then Val(Int(S32(ToInt32(a) * Pow2(s))))
      else if op.Sar? then Val(Int(FloorShift(ToInt32(a), s)))
      else if op.Shr? then Val(UnsignedValue(ShiftRight(ToUint32(a), s)))
      else Val(Int(S32(Word(op, ToUint32(a), ToUint32(b)))))
    else
      TypeMiss
  }

  function StrictEquals(a: Value, b: Value): AluResult {
    if IsNumber(a) && IsNumber(b) then
      Val(Bool(!a.NaN? && !b.NaN? && Number(a) == Number(b)))
    else if a.Ref? && b.Ref? then
      Inexact  // only the low halves of the two addresses are compared
    else
      Val(Bool(a == b))
  }

  predicate Holds(op: BinOp, a: int, b: int)
    requires op.Lt? || op.Lte? || op.Gt? || op.Gte?
  {
    if op.Lt? then a < b else if op.Lte? then a <= b else if op.Gt? then a > b else a >= b
  }

  function Compare(op: BinOp, a: Value, b: Value): AluResult
    requires op.Lt? || op.Lte? || op.Gt? || op.Gte?
  {
    if a.Int? && b.Int? then Val(Bool(Holds(op, a.i, b.i))) else TypeMiss
  }

  function Alu(op: BinOp, a: Value, b: Value): AluResult {
    match op
    case Add | Sub | Mul => Arith(op, a, b)
    case Mod => Remainder(a, b)
    case Shl | Sar | Shr | And | Xor | Or => BitOps(op, a, b)
    case StrictEq => StrictEquals(a, b)
    case Lt | Lte | Gt | Gte => Compare(op, a, b)
  }

  /** On numbers the sum is exact, whatever the tags of the operands. */
  lemma AddIsExact(a: Value, b: Value)
    requires IsExact(a) && IsExact(b)
    ensures Alu(Add, a, b) == Alu(Add, b, a)
    ensures Alu(Add, a, b).Val? <==> IsSafe(Number(a) + Number(b))
    ensures Alu(Add, a, b).Val? ==> IsExact(Alu(Add, a, b).v) && Number(Alu(Add, a, b).v) == Number(a) + Number(b)
    ensures !Alu(Add, a, b).Val? ==> Alu(Add, a, b).Inexact?
  {
  }

  /** The number a folded loop returns: int32 when it fits, float64 up to 2^53 - 1. */
  function JsNumber(value: int): Option<Value> {
    if IsInt32(value) then Some(Int(value))
    else if IsSafe(value) then Some(Float(value))
    else None
  }
}
