/** The machine code itself: instruction bytes, and displacements patched in later. */
module NativeBytes {
  import opened JsValues
  import opened NativeCode
  import opened Baseline
  import Periodic

  // ---------------------------------------------------------------------------
  // Little-endian words
  // ---------------------------------------------------------------------------

  /** The low 32 bits in two's complement: the cast to `i32` and its bytes. */
  function Le32(x: int): (r: seq<byte>)
    ensures |r| == 4
  {
    var u: int := U32(x);
    [u % 0x100, u / 0x100 % 0x100, u / TWO16 % 0x100, u / 0x100_0000]
  }

  function ReadLe32(buf: seq<byte>, at: nat): int32
    requires at + 4 <= |buf|
  {
    S32(buf[at] as int + 0x100 * buf[at + 1] as int + TWO16 * buf[at + 2] as int + 0x100_0000 * buf[at + 3] as int)
  }

  /** The four bytes add up to the word. */
  lemma Le32Words(x: int)
    ensures Le32(x)[0] as int + 0x100 * Le32(x)[1] as int + TWO16 * Le32(x)[2] as int + 0x100_0000 * Le32(x)[3] as int == U32(x)
  {
    var u: int := U32(x);
    var b1, b2 := u / 0x100, u / TWO16;
    assert b1 == 0x100 * (b1 / 0x100) + b1 % 0x100 && b1 / 0x100 == b2;
    assert b2 == 0x100 * (b2 / 0x100) + b2 % 0x100 && b2 / 0x100 == u / 0x100_0000;
  }

  /** And no other four bytes do. */
  lemma Le32Bytes(x: int, b0: byte, b1: byte, b2: byte, b3: byte)
    requires U32(x) == b0 as int + 0x100 * b1 as int + TWO16 * b2 as int + 0x100_0000 * b3 as int
    ensures Le32(x) == [b0, b1, b2, b3]
  {
    var u: int := U32(x);
    assert u / 0x100 == b1 as int + 0x100 * b2 as int + TWO16 * b3 as int;
    assert u / TWO16 == b2 as int + 0x100 * b3 as int;
  }

  lemma Le32RoundTrip(x: int32)
    ensures ReadLe32(Le32(x), 0) == x
  {
    hide Le32;
    Le32Words(x);
  }

  // ---------------------------------------------------------------------------
  // Float64 bits
  // ---------------------------------------------------------------------------

  const TWO52: int := 4_503_599_627_370_496

  /** The binary exponent of a positive integer. */
  function Exponent(n: nat): (e: nat)
    requires n >= 1
    ensures Pow2(e) <= n < Pow2(e + 1)
  {
    if n == 1 then 0 else Exponent(n / 2) + 1
  }

  lemma {:induction false} Pow2Grows(a: nat, b: nat)
    requires a <= b
    ensures Pow2(a) <= Pow2(b)
    decreases b
  {
    if a < b {
      Pow2Grows(a, b - 1);
    }
  }

  lemma {:induction false} Pow2Sum(a: nat, b: nat)
    ensures Pow2(a + b) == Pow2(a) * Pow2(b)
    decreases a
  {
    if a > 0 {
      Pow2Sum(a - 1, b);
      assert Pow2(a + b) == 2 * Pow2(a - 1 + b);
    }
  }

  lemma Pow2Safe()
    ensures Pow2(52) == TWO52 && Pow2(53) == MAX_SAFE_INTEGER + 1
  {
    Pow2Word();
    assert Pow2(10) == 1024;
    Pow2Sum(10, 10);
    Pow2Sum(32, 20);
  }

  lemma ExponentBelow53(n: nat)
    requires 1 <= n <= MAX_SAFE_INTEGER
    ensures Exponent(n) <= 52
  {
    Pow2Safe();
    if Exponent(n) > 52 {
      Pow2Grows(53, Exponent(n));
      assert false;
    }
  }

  /** Significand of a non-zero safe integer, scaled to 53 bits. */
  function Significand(n: nat): (m: nat)
    requires 1 <= n <= MAX_SAFE_INTEGER
    ensures TWO52 <= m < 2 * TWO52
  {
    ExponentBelow53(n);
    SignificandRange(n);
    n * Pow2(52 - Exponent(n))
  }

  lemma SignificandRange(n: nat)
    requires 1 <= n <= MAX_SAFE_INTEGER && Exponent(n) <= 52
    ensures TWO52 <= n * Pow2(52 - Exponent(n)) < 2 * TWO52
  {
    var e := Exponent(n);
    Pow2Safe();
    Pow2Sum(e, 52 - e);
    ScaleUp(Pow2(e), n, Pow2(e + 1), Pow2(52 - e));
  }

  lemma ScaleUp(a: nat, n: nat, b: nat, p: nat)
    requires a <= n < b && p >= 1 && b == 2 * a
    ensures a * p <= n * p < 2 * (a * p)
  {
  }

  /** `f64::to_bits` of an exact integer: sign, biased exponent, fraction. */
  function DoubleBits(n: safeint): (bits: nat)
  {
    if n == 0 then 0 else
    var m := if n < 0 then -n else n;
    (if n < 0 then 0x8000_0000_0000_0000 else 0) + (1023 + Exponent(m)) * TWO52 + (Significand(m) - TWO52)
  }

  /** The integer an IEEE 754 binary64 pattern stands for (exponents 0 to 52). */
  function FromBits(bits: nat): int {
    if bits == 0 then 0 else
    var negative := bits >= 0x8000_0000_0000_0000;
    var rest: int := if negative then bits - 0x8000_0000_0000_0000 else bits;
    var e, m := rest / TWO52 - 1023, rest % TWO52 + TWO52;
    var magnitude := if 0 <= e <= 52 then m / Pow2(52 - e) else 0;
    if negative then -magnitude else magnitude
  }

  lemma DoubleBitsRoundTrip(n: safeint)
    ensures FromBits(DoubleBits(n)) == n
  {
    if n != 0 {
      var m: nat := if n < 0 then -n else n;
      var e := Exponent(m);
      ExponentBelow53(m);
      var rest := (1023 + e) * TWO52 + (Significand(m) - TWO52);
      assert rest / TWO52 == 1023 + e && rest % TWO52 == Significand(m) - TWO52;
      assert rest < 0x8000_0000_0000_0000;
      Periodic.QuotientOf(Significand(m), Pow2(52 - e), m);
    }
  }

  function Le64(bits: nat): (r: seq<byte>)
    ensures |r| == 8
  {
    Le32(bits) + Le32(bits / TWO32)
  }

  // ---------------------------------------------------------------------------
  // Instruction bytes
  // ---------------------------------------------------------------------------

  /** Register slots and locals are 16 bytes: the payload, then the tag. */
  function Disp(slot: nat): seq<byte> {
    Le32(16 * slot)
  }

  function TagDisp(slot: nat): seq<byte> {
    Le32(16 * slot + 8)
  }

  /** A short jump over the ten bytes that load the note and jump to the bailout block. */
  function Guard(opposite: byte, note: uint32): seq<byte> {
    [opposite, 10, 0xb8] + Le32(note) + [0xe9]
  }

  function SetByte(op: BinOp): byte {
    if op.Lt? then 0x9c else if op.Lte? then 0x9e else if op.Gt? then 0x9f else 0x9d
  }

  function EncodeSlot(op: NOp): (r: seq<byte>)
    requires op.StoreImm? || op.StoreTag? || op.LoadRax? || op.LoadRdx? || op.LoadRcx? || op.StoreRax? || op.StoreRdx? || op.CmpTag?
          || op.LoadLocalRax? || op.LoadLocalRdx? || op.StoreLocalRax? || op.StoreLocalRdx?
    ensures |r| == Length(op)
  {
    match op
    case StoreImm(slot, imm) => [0x48, 0xc7, 0x86] + Disp(slot) + Le32(imm)
    case StoreTag(slot, tag) => [0x48, 0xc7, 0x86] + TagDisp(slot) + Le32(tag)
    case LoadRax(slot) => [0x48, 0x8b, 0x86] + Disp(slot)
    case LoadRdx(slot) => [0x48, 0x8b, 0x96] + TagDisp(slot)
    case LoadRcx(slot) => [0x48, 0x8b, 0x8e] + Disp(slot)
    case StoreRax(slot) => [0x48, 0x89, 0x86] + Disp(slot)
    case StoreRdx(slot) => [0x48, 0x89, 0x96] + TagDisp(slot)
    case CmpTag(slot, tag) => [0x48, 0x83, 0xbe] + TagDisp(slot) + [tag % 0x100]
    case LoadLocalRax(loc) => [0x49, 0x8b, 0x80] + Disp(loc)
    case LoadLocalRdx(loc) => [0x49, 0x8b, 0x90] + TagDisp(loc)
    case StoreLocalRax(loc) => [0x49, 0x89, 0x80] + Disp(loc)
    case StoreLocalRdx(loc) => [0x49, 0x89, 0x90] + TagDisp(loc)
  }

  function EncodeMove(op: NOp): (r: seq<byte>)
    requires op.MovR10Ecx? || op.MovR10Eax? || op.MovR11Ecx? || op.MovR11Eax? || op.XorR10R11? || op.AddEaxR10? || op.XorEaxR10?
          || op.XorEaxR11?
    ensures |r| == Length(op)
  {
    if op.MovR10Ecx? then [0x41, 0x89, 0xca]
    else if op.MovR10Eax? then [0x41, 0x89, 0xc2]
    else if op.MovR11Ecx? then [0x41, 0x89, 0xcb]
    else if op.MovR11Eax? then [0x41, 0x89, 0xc3]
    else if op.XorR10R11? then [0x45, 0x31, 0xda]
    else if op.AddEaxR10? then [0x44, 0x01, 0xd0]
    else if op.XorEaxR10? then [0x44, 0x31, 0xd0]
    else [0x44, 0x31, 0xd8]
  }

  function ImmediateHead(op: NOp): (r: seq<byte>)
    requires op.CmpEcx? || op.AndR10? || op.MovEax? || op.MovEcx? || op.MovEdx?
    ensures |r| + 4 == Length(op)
  {
    if op.CmpEcx? then [0x81, 0xf9]
    else if op.AndR10? then [0x41, 0x81, 0xe2]
    else if op.MovEax? then [0xb8]
    else if op.MovEcx? then [0xb9]
    else [0xba]
  }

  function EncodeImmediate(op: NOp): (r: seq<byte>)
    requires op.CmpEcx? || op.AndR10? || op.ShlR10? || op.ShrR11? || op.MovRdx? || op.MovEax? || op.MovEcx? || op.MovEdx? || op.MovRaxDouble?
    ensures |r| == Length(op)
  {
    if op.ShlR10? then [0x41, 0xc1, 0xe2, op.count % 0x100]
    else if op.ShrR11? then [0x41, 0xc1, 0xeb, op.count % 0x100]
    else if op.MovRdx? then [0x48, 0xc7, 0xc2] + Le32(op.tag)
    else if op.MovRaxDouble? then [0x48, 0xb8] + Le64(DoubleBits(op.n))
    else ImmediateHead(op) + Le32(op.imm)
  }

  /** The bytes of a jump before its displacement. */
  function JumpHead(op: NOp): (r: seq<byte>)
    requires IsJumpOp(op)
    ensures 1 <= |r| == Length(op) - 4
  {
    match op
    case GuardEqual(note, _) => Guard(0x74, note)
    case GuardNoOverflow(note, _) => Guard(0x71, note)
    case Jmp(_) => [0xe9]
    case JmpIf(equal, _) => [0x0f, if equal then 0x84 else 0x85]
    case Jge(_) => [0x0f, 0x8d]
  }

  lemma HeadIgnoresDisplacement(op: NOp, rel: int)
    requires IsJumpOp(op)
    ensures IsJumpOp(Fix(op, rel)) && Fix(op, rel).rel == rel && JumpHead(Fix(op, rel)) == JumpHead(op)
  {
  }

  function Encode(op: NOp): (r: seq<byte>)
    ensures |r| == Length(op)
  {
    if IsJumpOp(op) then JumpHead(op) + Le32(op.rel) else
    match op
    case StoreImm(_, _) => EncodeSlot(op)
    case StoreTag(_, _) => EncodeSlot(op)
    case LoadRax(_) => EncodeSlot(op)
    case LoadRdx(_) => EncodeSlot(op)
    case LoadRcx(_) => EncodeSlot(op)
    case StoreRax(_) => EncodeSlot(op)
    case StoreRdx(_) => EncodeSlot(op)
    case CmpTag(_, _) => EncodeSlot(op)
    case LoadLocalRax(_) => EncodeSlot(op)
    case LoadLocalRdx(_) => EncodeSlot(op)
    case StoreLocalRax(_) => EncodeSlot(op)
    case StoreLocalRdx(_) => EncodeSlot(op)
    case MovR10Ecx | MovR10Eax | MovR11Ecx | MovR11Eax => EncodeMove(op)
    case XorR10R11 | AddEaxR10 | XorEaxR10 | XorEaxR11 => EncodeMove(op)
    case CmpEcx(_) => EncodeImmediate(op)
    case AndR10(_) => EncodeImmediate(op)
    case ShlR10(_) => EncodeImmediate(op)
    case ShrR11(_) => EncodeImmediate(op)
    case MovRdx(_) => EncodeImmediate(op)
    case MovEax(_) => EncodeImmediate(op)
    case MovEcx(_) => EncodeImmediate(op)
    case MovEdx(_) => EncodeImmediate(op)
    case MovRaxDouble(_) => EncodeImmediate(op)
    case MovR8Rdx => [0x49, 0x89, 0xd0]
    case MovR9Rcx => [0x49, 0x89, 0xc9]
    case AddEaxEcx => [0x01, 0xc8]
    case CmpEaxEcx => [0x39, 0xc8]
    case SetCc(cmp) => [0x0f, SetByte(cmp), 0xc0]
    case MovzxEaxAl => [0x0f, 0xb6, 0xc0]
    case CmpRaxZero => [0x48, 0x83, 0xf8, 0]
    case MovRaxZero => [0x48, 0xc7, 0xc0, 0, 0, 0, 0]
    case IncEcx => [0xff, 0xc1]
    case Ret => [0xc3]
  }

  function EncodeAll(ops: seq<NOp>): (r: seq<byte>)
    ensures |r| == Off(ops, |ops|)
  {
    hide Encode, Length;
    if ops == [] then [] else
    var n := |ops| - 1;
    OffPrefix(ops, n, n);
    EncodeAll(ops[..n]) + Encode(ops[n])
  }

  lemma {:induction false} OffPrefix(ops: seq<NOp>, n: nat, k: nat)
    requires k <= n <= |ops|
    ensures Off(ops[..n], k) == Off(ops, k)
    decreases k
  {
    if k > 0 {
      OffPrefix(ops, n, k - 1);
    }
  }

  lemma EncodeNone(ops: seq<NOp>)
    requires ops == []
    ensures EncodeAll(ops) == []
  {
  }

  lemma EncodeLast(ops: seq<NOp>, op: NOp)
    ensures EncodeAll(ops + [op]) == EncodeAll(ops) + Encode(op)
  {
    hide Encode, Length, Off;
    assert (ops + [op])[..|ops|] == ops;
  }

  lemma {:induction false} EncodeConcat(a: seq<NOp>, b: seq<NOp>)
    ensures EncodeAll(a + b) == EncodeAll(a) + EncodeAll(b)
    decreases |b|
  {
    hide Encode, EncodeAll, Length, Off;
    if b == [] {
      assert a + b == a;
      EncodeNone(b);
    } else {
      var n := |b| - 1;
      EncodeConcat(a, b[..n]);
      EncodeLast(b[..n], b[n]);
      EncodeLast(a + b[..n], b[n]);
      assert b[..n] + [b[n]] == b;
      assert a + b[..n] + [b[n]] == a + b;
    }
  }

  lemma EncodeOne(op: NOp)
    ensures EncodeAll([op]) == Encode(op)
  {
    assert [op][..0] == [];
  }

  // ---------------------------------------------------------------------------
  // Patching
  // ---------------------------------------------------------------------------

  /** Four byte stores at `at`. */
  function Patch(buf: seq<byte>, at: nat, rel: int): seq<byte>
    requires at + 4 <= |buf|
  {
    var d := Le32(rel);
    buf[at := d[0]][at + 1 := d[1]][at + 2 := d[2]][at + 3 := d[3]]
  }

  /** The displacement of instruction `k` occupies its last four bytes. */
  function Window(ops: seq<NOp>, k: nat): int
    requires k < |ops|
  {
    Off(ops, k + 1) - 4
  }

  lemma WindowInside(ops: seq<NOp>, k: nat)
    requires k < |ops| && IsJumpOp(ops[k])
    ensures Off(ops, k) < Window(ops, k) && Window(ops, k) + 4 <= |EncodeAll(ops)|
  {
    hide EncodeAll;
    if k + 1 < |ops| {
      OffIncreases(ops, k + 1, |ops|);
    }
  }

  lemma WindowsAreDisjoint(ops: seq<NOp>, j: nat, k: nat)
    requires j < k < |ops| && IsJumpOp(ops[j]) && IsJumpOp(ops[k])
    ensures Window(ops, j) + 4 <= Off(ops, k) < Window(ops, k)
  {
    OffIncreases(ops, j, k);
  }

  lemma EncodeSplit(ops: seq<NOp>, k: nat)
    requires k < |ops|
    ensures EncodeAll(ops) == EncodeAll(ops[..k]) + Encode(ops[k]) + EncodeAll(ops[k + 1..])
    ensures |EncodeAll(ops[..k])| == Off(ops, k) && Off(ops, k + 1) == Off(ops, k) + |Encode(ops[k])|
  {
    hide EncodeAll, Encode, Length;
    var a, b := ops[..k], ops[k + 1..];
    assert ops == (a + [ops[k]]) + b;
    EncodeConcat(a + [ops[k]], b);
    EncodeConcat(a, [ops[k]]);
    EncodeOne(ops[k]);
    OffPrefix(ops, k, k);
  }

  /** Overwriting the window turns the code into the code with that displacement:
      no other instruction changes. */
  lemma PatchEncodes(ops: seq<NOp>, k: nat, rel: int)
    requires k < |ops| && IsJumpOp(ops[k])
    ensures 0 <= Window(ops, k) && Window(ops, k) + 4 <= |EncodeAll(ops)|
    ensures Patch(EncodeAll(ops), Window(ops, k), rel) == EncodeAll(ops[k := Fix(ops[k], rel)])
  {
    hide EncodeAll, EncodeSlot, EncodeMove, EncodeImmediate, JumpHead, Le32, Length, Off, Patch;
    WindowInside(ops, k);
    var fixed := ops[k := Fix(ops[k], rel)];
    EncodeSplit(ops, k);
    EncodeSplit(fixed, k);
    assert fixed[..k] == ops[..k] && fixed[k + 1..] == ops[k + 1..];
    HeadIgnoresDisplacement(ops[k], rel);
    PatchTail(EncodeAll(ops[..k]), JumpHead(ops[k]), ops[k].rel, EncodeAll(ops[k + 1..]), rel);
  }

  lemma PatchTail(a: seq<byte>, head: seq<byte>, rel0: int, b: seq<byte>, rel: int)
    ensures Patch(a + (head + Le32(rel0)) + b, |a| + |head|, rel) == a + (head + Le32(rel)) + b
  {
    hide Le32;
  }

  lemma ReadTail(a: seq<byte>, head: seq<byte>, rel: int, b: seq<byte>)
    requires IsInt32(rel)
    ensures ReadLe32(a + (head + Le32(rel)) + b, |a| + |head|) == rel
  {
    hide Le32;
    Le32RoundTrip(rel);
    var d, all, at := Le32(rel), a + (head + Le32(rel)) + b, |a| + |head|;
    assert forall j :: 0 <= j < 4 ==> all[at + j] == d[j];
  }

  /** The patched displacement, read back from the buffer. */
  lemma WindowHoldsDisplacement(ops: seq<NOp>, k: nat)
    requires k < |ops| && IsJumpOp(ops[k]) && IsInt32(ops[k].rel)
    ensures 0 <= Window(ops, k) && Window(ops, k) + 4 <= |EncodeAll(ops)|
    ensures ReadLe32(EncodeAll(ops), Window(ops, k)) == ops[k].rel
  {
    hide EncodeAll, EncodeSlot, EncodeMove, EncodeImmediate, JumpHead, Le32, Length, Off, ReadLe32;
    WindowInside(ops, k);
    EncodeSplit(ops, k);
    assert Encode(ops[k]) == JumpHead(ops[k]) + Le32(ops[k].rel);
    ReadTail(EncodeAll(ops[..k]), JumpHead(ops[k]), ops[k].rel, EncodeAll(ops[k + 1..]));
  }

  /** The short jump of a guard lands just past its bailout path. */
  lemma GuardSkipsItsPath(ops: seq<NOp>, k: nat)
    requires k < |ops| && (ops[k].GuardEqual? || ops[k].GuardNoOverflow?)
    ensures Off(ops, k) + 1 < |EncodeAll(ops)|
    ensures Off(ops, k) + 2 + EncodeAll(ops)[Off(ops, k) + 1] as int == Off(ops, k + 1)
  {
    hide EncodeAll, EncodeSlot, EncodeMove, EncodeImmediate, Off;
    EncodeSplit(ops, k);
  }
}
