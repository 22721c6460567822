/** The x86-64 instructions behind the bytes: a decoder for the encodings used,
    written from the general rules for prefixes, opcodes and ModRM bytes (Intel 64
    and IA-32 Architectures Software Developer's Manual, volume 2, chapter 2). */
module X86 {
  import opened JsValues
  import opened NativeCode
  import opened Baseline
  import opened NativeBytes
  import opened RegisterCode
  import opened CodeGen
  import opened NativeCompiler
  import HashLoop

  // ---------------------------------------------------------------------------
  // Instructions
  // ---------------------------------------------------------------------------

  const RAX := 0
  const RCX := 1
  const RDX := 2
  const RSI := 6
  const R8 := 8
  const R9 := 9
  const R10 := 10
  const R11 := 11

  datatype Place = Register(r: nat) | Memory(base: nat, disp: int)

  datatype Mnemonic = MOV | ADD | AND | XOR | CMP

  datatype Condition = EQUAL | NOT_EQUAL | NO_OVERFLOW | LESS | GREATER_EQUAL | LESS_EQUAL | GREATER

  /** `wide` is a 64-bit operation; `Leaves` is `ret`. */
  datatype Instr =
    | Between(m: Mnemonic, wide: bool, dst: Place, src: Place)
    | Immediate(m: Mnemonic, wide: bool, dst: Place, imm: int)
    | LoadWide(r: nat, lo: uint32, hi: uint32)
    | ShiftLeft(dst: Place, count: nat)
    | ShiftRight(dst: Place, count: nat)
    | Increment(dst: Place)
    | SetIf(cond: Condition, dst: Place)
    | ZeroExtendByte(dst: Place, src: Place)
    | Jump(rel: int)
    | JumpIf(cond: Condition, rel: int)
    | Leaves

  // ---------------------------------------------------------------------------
  // The decoder
  // ---------------------------------------------------------------------------

  datatype Prefix = Prefix(wide: bool, reg: nat, base: nat, size: nat)

  /** A REX prefix gives the operand size and the high bits of the registers. */
  function PrefixAt(buf: seq<byte>, at: nat): Prefix {
    if at < |buf| && buf[at] / 16 == 4 then Prefix((buf[at] / 8) % 2 == 1, (buf[at] / 4) % 2, buf[at] % 2, 1)
    else Prefix(false, 0, 0, 0)
  }

  /** The two operands a ModRM byte names, and its size with any displacement. */
  datatype Operands = Operands(reg: nat, digit: nat, rm: Place, size: nat)

  function OperandsAt(buf: seq<byte>, at: nat, p: Prefix): Option<Operands> {
    if at >= |buf| then None else
    var mode, reg, rm := buf[at] / 64, (buf[at] / 8) % 8, buf[at] % 8;
    if mode == 3 then Some(Operands(reg + 8 * p.reg, reg, Register(rm + 8 * p.base), 1))
    else if mode == 2 && rm != 4 && at + 5 <= |buf| then
      Some(Operands(reg + 8 * p.reg, reg, Memory(rm + 8 * p.base, ReadLe32(buf, at + 1)), 5))
    else None
  }

  datatype Found = Found(inst: Instr, size: nat)

  function ConditionOf(code: nat): Option<Condition> {
    match code
    case 1 => Some(NO_OVERFLOW)
    case 4 => Some(EQUAL)
    case 5 => Some(NOT_EQUAL)
    case 12 => Some(LESS)
    case 13 => Some(GREATER_EQUAL)
    case 14 => Some(LESS_EQUAL)
    case 15 => Some(GREATER)
    case _ => None
  }

  /** Register to register or memory, and memory to register. */
  function TwoOperands(opcode: byte, p: Prefix, o: Operands, start: nat): Option<Found> {
    var r := Register(o.reg);
    if opcode == 0x01 then Some(Found(Between(ADD, p.wide, o.rm, r), start + o.size))
    else if opcode == 0x31 then Some(Found(Between(XOR, p.wide, o.rm, r), start + o.size))
    else if opcode == 0x39 then Some(Found(Between(CMP, p.wide, o.rm, r), start + o.size))
    else if opcode == 0x89 then Some(Found(Between(MOV, p.wide, o.rm, r), start + o.size))
    else if opcode == 0x8b then Some(Found(Between(MOV, p.wide, r, o.rm), start + o.size))
    else None
  }

  function Signed8(b: byte): int {
    if b < 0x80 then b else b - 0x100
  }

  /** The ModRM digit selects the operation; an immediate follows. */
  function WithImmediate(buf: seq<byte>, opcode: byte, p: Prefix, o: Operands, at: nat, start: nat): Option<Found> {
    if (opcode == 0x81 || opcode == 0xc7) && at + 4 <= |buf| then
      var imm := ReadLe32(buf, at);
      if opcode == 0x81 && o.digit == 4 then Some(Found(Immediate(AND, p.wide, o.rm, imm), start + o.size + 4))
      else if opcode == 0x81 && o.digit == 7 then Some(Found(Immediate(CMP, p.wide, o.rm, imm), start + o.size + 4))
      else if opcode == 0xc7 && o.digit == 0 then Some(Found(Immediate(MOV, p.wide, o.rm, imm), start + o.size + 4))
      else None
    else if (opcode == 0x83 || opcode == 0xc1) && at + 1 <= |buf| then
      if opcode == 0x83 && o.digit == 7 then Some(Found(Immediate(CMP, p.wide, o.rm, Signed8(buf[at])), start + o.size + 1))
      else if opcode == 0xc1 && o.digit == 4 then Some(Found(Instr.ShiftLeft(o.rm, buf[at]), start + o.size + 1))
      else if opcode == 0xc1 && o.digit == 5 then Some(Found(Instr.ShiftRight(o.rm, buf[at]), start + o.size + 1))
      else None
    else if opcode == 0xff && o.digit == 0 then Some(Found(Increment(o.rm), start + o.size))
    else None
  }

  /** Opcodes without a ModRM byte. */
  function NoOperands(buf: seq<byte>, at: nat, p: Prefix): Option<Found>
    requires at < |buf|
  {
    var opcode := buf[at];
    if opcode == 0xc3 then Some(Found(Leaves, p.size + 1))
    else if opcode == 0xe9 && at + 5 <= |buf| then Some(Found(Jump(ReadLe32(buf, at + 1)), p.size + 5))
    else if opcode / 16 == 7 && at + 2 <= |buf| && ConditionOf(opcode % 16).Some? then
      Some(Found(Instr.JumpIf(ConditionOf(opcode % 16).value, Signed8(buf[at + 1])), p.size + 2))
    else if 0xb8 <= opcode < 0xc0 && p.wide && at + 9 <= |buf| then
      Some(Found(LoadWide(opcode - 0xb8 + 8 * p.base, U32(ReadLe32(buf, at + 1)), U32(ReadLe32(buf, at + 5))), p.size + 9))
    else if 0xb8 <= opcode < 0xc0 && !p.wide && at + 5 <= |buf| then
      Some(Found(Immediate(MOV, false, Register(opcode - 0xb8 + 8 * p.base), ReadLe32(buf, at + 1)), p.size + 5))
    else None
  }

  /** Two-byte opcodes, after 0x0f. */
  function TwoByte(buf: seq<byte>, at: nat, p: Prefix): Option<Found>
    requires at < |buf|
  {
    var opcode := buf[at];
    if opcode / 16 == 8 && at + 5 <= |buf| && ConditionOf(opcode % 16).Some? then
      Some(Found(Instr.JumpIf(ConditionOf(opcode % 16).value, ReadLe32(buf, at + 1)), p.size + 6))
    else
      var o :- OperandsAt(buf, at + 1, p);
      if opcode / 16 == 9 && ConditionOf(opcode % 16).Some? then
        Some(Found(SetIf(ConditionOf(opcode % 16).value, o.rm), p.size + 2 + o.size))
      else if opcode == 0xb6 then Some(Found(ZeroExtendByte(Register(o.reg), o.rm), p.size + 2 + o.size))
      else None
  }

  predicate HasModRm(opcode: byte) {
    opcode in {0x01, 0x31, 0x39, 0x89, 0x8b, 0x81, 0x83, 0xc1, 0xc7, 0xff}
  }

  /** The instruction that starts at byte `at`. */
  function DecodeAt(buf: seq<byte>, at: nat): Option<Found> {
    var p := PrefixAt(buf, at);
    var k := at + p.size;
    if k >= |buf| then None
    else if buf[k] == 0x0f then (if k + 1 < |buf| then TwoByte(buf, k + 1, p) else None)
    else if HasModRm(buf[k]) then
      var o :- OperandsAt(buf, k + 1, p);
      if TwoOperands(buf[k], p, o, p.size + 1).Some? then TwoOperands(buf[k], p, o, p.size + 1)
      else WithImmediate(buf, buf[k], p, o, k + 1 + o.size, p.size + 1)
    else NoOperands(buf, k, p)
  }

  /** The bytes from `at` are these instructions, one after the other. */
  ghost predicate Spells(buf: seq<byte>, at: nat, code: seq<Instr>, end: nat)
    decreases code
  {
    if code == [] then at == end else
    DecodeAt(buf, at).Some? && DecodeAt(buf, at).value.inst == code[0] && Spells(buf, at + DecodeAt(buf, at).value.size, code[1..], end)
  }

  // ---------------------------------------------------------------------------
  // What each native instruction is meant to be
  // ---------------------------------------------------------------------------

  /** Register slots are at rsi, locals at r8: 16 bytes each, payload then tag. */
  function Payload(slot: nat): Place {
    Memory(RSI, 16 * slot)
  }

  function Tag(slot: nat): Place {
    Memory(RSI, 16 * slot + 8)
  }

  function LocalPayload(loc: nat): Place {
    Memory(R8, 16 * loc)
  }

  function LocalTag(loc: nat): Place {
    Memory(R8, 16 * loc + 8)
  }

  function Comparison(op: BinOp): Condition {
    if op.Lt? then LESS else if op.Lte? then LESS_EQUAL else if op.Gt? then GREATER else GREATER_EQUAL
  }

  function Meant(op: NOp): (code: seq<Instr>)
    ensures code != []
  {
    match op
    case MovR8Rdx => [Between(MOV, true, Register(R8), Register(RDX))]
    case MovR9Rcx => [Between(MOV, true, Register(R9), Register(RCX))]
    case StoreImm(slot, imm) => [Immediate(MOV, true, Payload(slot), imm)]
    case StoreTag(slot, tag) => [Immediate(MOV, true, Tag(slot), tag)]
    case LoadRax(slot) => [Between(MOV, true, Register(RAX), Payload(slot))]
    case LoadRdx(slot) => [Between(MOV, true, Register(RDX), Tag(slot))]
    case LoadRcx(slot) => [Between(MOV, true, Register(RCX), Payload(slot))]
    case StoreRax(slot) => [Between(MOV, true, Payload(slot), Register(RAX))]
    case StoreRdx(slot) => [Between(MOV, true, Tag(slot), Register(RDX))]
    case LoadLocalRax(loc) => [Between(MOV, true, Register(RAX), LocalPayload(loc))]
    case LoadLocalRdx(loc) => [Between(MOV, true, Register(RDX), LocalTag(loc))]
    case StoreLocalRax(loc) => [Between(MOV, true, LocalPayload(loc), Register(RAX))]
    case StoreLocalRdx(loc) => [Between(MOV, true, LocalTag(loc), Register(RDX))]
    case CmpTag(slot, tag) => [Immediate(CMP, true, Tag(slot), tag)]
    case GuardEqual(note, rel) => [Instr.JumpIf(EQUAL, 10), Immediate(MOV, false, Register(RAX), S32(note)), Jump(rel)]
    case GuardNoOverflow(note, rel) => [Instr.JumpIf(NO_OVERFLOW, 10), Immediate(MOV, false, Register(RAX), S32(note)), Jump(rel)]
    case AddEaxEcx => [Between(ADD, false, Register(RAX), Register(RCX))]
    case CmpEaxEcx => [Between(CMP, false, Register(RAX), Register(RCX))]
    case SetCc(cmp) => [SetIf(Comparison(cmp), Register(RAX))]
    case MovzxEaxAl => [ZeroExtendByte(Register(RAX), Register(RAX))]
    case CmpRaxZero => [Immediate(CMP, true, Register(RAX), 0)]
    case Jmp(rel) => [Jump(rel)]
    case JmpIf(equal, rel) => [Instr.JumpIf(if equal then EQUAL else NOT_EQUAL, rel)]
    case Jge(rel) => [Instr.JumpIf(GREATER_EQUAL, rel)]
    case Ret => [Leaves]
    case MovRaxZero => [Immediate(MOV, true, Register(RAX), 0)]
    case MovRdx(tag) => [Immediate(MOV, true, Register(RDX), tag)]
    case MovEax(imm) => [Immediate(MOV, false, Register(RAX), imm)]
    case MovEcx(imm) => [Immediate(MOV, false, Register(RCX), imm)]
    case MovEdx(imm) => [Immediate(MOV, false, Register(RDX), imm)]
    case MovRaxDouble(n) => [LoadWide(RAX, U32(DoubleBits(n)), U32(DoubleBits(n) / TWO32))]
    case CmpEcx(imm) => [Immediate(CMP, false, Register(RCX), imm)]
    case MovR10Ecx => [Between(MOV, false, Register(R10), Register(RCX))]
    case MovR10Eax => [Between(MOV, false, Register(R10), Register(RAX))]
    case MovR11Ecx => [Between(MOV, false, Register(R11), Register(RCX))]
    case MovR11Eax => [Between(MOV, false, Register(R11), Register(RAX))]
    case AndR10(imm) => [Immediate(AND, false, Register(R10), imm)]
    case ShlR10(count) => [Instr.ShiftLeft(Register(R10), count)]
    case ShrR11(count) => [Instr.ShiftRight(Register(R11), count)]
    case XorR10R11 => [Between(XOR, false, Register(R10), Register(R11))]
    case AddEaxR10 => [Between(ADD, false, Register(RAX), Register(R10))]
    case XorEaxR10 => [Between(XOR, false, Register(RAX), Register(R10))]
    case XorEaxR11 => [Between(XOR, false, Register(RAX), Register(R11))]
    case IncEcx => [Increment(Register(RCX))]
  }

  /** Operands that fit their fields. */
  predicate Fits(op: NOp) {
    match op
    case StoreImm(slot, _) => slot < TWO16
    case StoreTag(slot, _) => slot < TWO16
    case LoadRax(slot) => slot < TWO16
    case LoadRdx(slot) => slot < TWO16
    case LoadRcx(slot) => slot < TWO16
    case StoreRax(slot) => slot < TWO16
    case StoreRdx(slot) => slot < TWO16
    case LoadLocalRax(loc) => loc < TWO16
    case LoadLocalRdx(loc) => loc < TWO16
    case StoreLocalRax(loc) => loc < TWO16
    case StoreLocalRdx(loc) => loc < TWO16
    case CmpTag(slot, tag) => slot < TWO16 && 0 <= tag < 0x80
    case GuardEqual(_, rel) => IsInt32(rel)
    case GuardNoOverflow(_, rel) => IsInt32(rel)
    case Jmp(rel) => IsInt32(rel)
    case JmpIf(_, rel) => IsInt32(rel)
    case Jge(rel) => IsInt32(rel)
    case SetCc(cmp) => cmp.Lt? || cmp.Lte? || cmp.Gt? || cmp.Gte?
    case ShlR10(count) => count < 32
    case ShrR11(count) => count < 32
    case _ => true
  }

  // ---------------------------------------------------------------------------
  // The bytes are those instructions
  // ---------------------------------------------------------------------------

  /** `w` stands at byte `at`. */
  predicate At(buf: seq<byte>, at: nat, w: seq<byte>) {
    at + |w| <= |buf| && buf[at..at + |w|] == w
  }

  lemma AtByte(buf: seq<byte>, at: nat, w: seq<byte>)
    requires At(buf, at, w)
    ensures forall d :: 0 <= d < |w| ==> buf[at + d] == w[d]
  {
    forall d | 0 <= d < |w|
      ensures buf[at + d] == w[d]
    {
      assert buf[at..at + |w|][d] == buf[at + d];
    }
  }

  lemma AtParts(buf: seq<byte>, at: nat, a: seq<byte>, b: seq<byte>)
    requires At(buf, at, a + b)
    ensures At(buf, at, a) && At(buf, at + |a|, b)
  {
    assert buf[at..at + |a|] == (a + b)[..|a|];
    assert buf[at + |a|..at + |a| + |b|] == (a + b)[|a|..];
  }

  lemma ReadsWord(buf: seq<byte>, at: nat, x: int)
    requires At(buf, at, Le32(x))
    ensures ReadLe32(buf, at) == S32(x)
  {
    hide Le32;
    AtByte(buf, at, Le32(x));
    Le32Words(x);
  }

  /** Opcode and ModRM after a REX prefix, a displacement. */
  lemma MemoryDecodes(buf: seq<byte>, at: nat, rex: byte, opcode: byte, modrm: byte, disp: int, wide: bool, reg: nat, base: nat)
    requires At(buf, at, [rex, opcode, modrm] + Le32(disp)) && IsInt32(disp) && (opcode == 0x89 || opcode == 0x8b)
    requires rex / 16 == 4 && (rex / 8) % 2 == (if wide then 1 else 0) && modrm / 64 == 2 && modrm % 8 != 4
    requires reg == (modrm / 8) % 8 + 8 * ((rex / 4) % 2) && base == modrm % 8 + 8 * (rex % 2)
    ensures opcode == 0x8b ==> DecodeAt(buf, at) == Some(Found(Between(MOV, wide, Register(reg), Memory(base, disp)), 7))
    ensures opcode == 0x89 ==> DecodeAt(buf, at) == Some(Found(Between(MOV, wide, Memory(base, disp), Register(reg)), 7))
  {
    hide Le32, ReadLe32;
    AtByte(buf, at, [rex, opcode, modrm] + Le32(disp));
    AtParts(buf, at, [rex, opcode, modrm], Le32(disp));
    ReadsWord(buf, at + 3, disp);
    S32OfInt32(disp);
  }

  lemma MemoryImmediate(buf: seq<byte>, at: nat, disp: int, imm: int)
    requires At(buf, at, [0x48, 0xc7, 0x86] + Le32(disp) + Le32(imm)) && IsInt32(disp) && IsInt32(imm)
    ensures DecodeAt(buf, at) == Some(Found(Immediate(MOV, true, Memory(RSI, disp), imm), 11))
  {
    hide Le32, ReadLe32;
    AtByte(buf, at, [0x48, 0xc7, 0x86] + Le32(disp) + Le32(imm));
    AtParts(buf, at, [0x48, 0xc7, 0x86] + Le32(disp), Le32(imm));
    AtParts(buf, at, [0x48, 0xc7, 0x86], Le32(disp));
    ReadsWord(buf, at + 3, disp);
    ReadsWord(buf, at + 7, imm);
    S32OfInt32(disp);
    S32OfInt32(imm);
  }

  lemma MemoryCompare(buf: seq<byte>, at: nat, disp: int, imm: byte)
    requires At(buf, at, [0x48, 0x83, 0xbe] + Le32(disp) + [imm]) && IsInt32(disp) && imm < 0x80
    ensures DecodeAt(buf, at) == Some(Found(Immediate(CMP, true, Memory(RSI, disp), imm), 8))
  {
    hide Le32, ReadLe32;
    AtByte(buf, at, [0x48, 0x83, 0xbe] + Le32(disp) + [imm]);
    AtParts(buf, at, [0x48, 0x83, 0xbe] + Le32(disp), [imm]);
    AtParts(buf, at, [0x48, 0x83, 0xbe], Le32(disp));
    ReadsWord(buf, at + 3, disp);
    S32OfInt32(disp);
  }

  predicate IsSlotOp(op: NOp) {
    op.StoreImm? || op.StoreTag? || op.LoadRax? || op.LoadRdx? || op.LoadRcx? || op.StoreRax? || op.StoreRdx? || op.CmpTag?
    || op.LoadLocalRax? || op.LoadLocalRdx? || op.StoreLocalRax? || op.StoreLocalRdx?
  }

  lemma One(buf: seq<byte>, at: nat, inst: Instr, size: nat)
    requires DecodeAt(buf, at) == Some(Found(inst, size))
    ensures Spells(buf, at, [inst], at + size)
  {
    hide DecodeAt;
  }

  lemma RegisterDecodes(buf: seq<byte>, at: nat, op: NOp)
    requires (op.StoreImm? || op.StoreTag? || op.CmpTag?) && Fits(op) && At(buf, at, EncodeSlot(op))
    ensures Spells(buf, at, Meant(op), at + Length(op))
  {
    hide Le32, DecodeAt, Spells;
    match op
    case StoreImm(slot, imm) =>
      MemoryImmediate(buf, at, 16 * slot, imm);
      One(buf, at, Meant(op)[0], 11);
    case StoreTag(slot, tag) =>
      MemoryImmediate(buf, at, 16 * slot + 8, tag);
      One(buf, at, Meant(op)[0], 11);
    case CmpTag(slot, tag) =>
      MemoryCompare(buf, at, 16 * slot + 8, tag % 0x100);
      One(buf, at, Meant(op)[0], 8);
  }

  lemma SlotMoveDecodes(buf: seq<byte>, at: nat, op: NOp)
    requires (op.LoadRax? || op.LoadRdx? || op.LoadRcx? || op.StoreRax? || op.StoreRdx?) && Fits(op) && At(buf, at, EncodeSlot(op))
    ensures Spells(buf, at, Meant(op), at + Length(op))
  {
    hide Le32, DecodeAt, Spells;
    match op {
      case LoadRax(slot) => MemoryDecodes(buf, at, 0x48, 0x8b, 0x86, 16 * slot, true, RAX, RSI);
      case LoadRdx(slot) => MemoryDecodes(buf, at, 0x48, 0x8b, 0x96, 16 * slot + 8, true, RDX, RSI);
      case LoadRcx(slot) => MemoryDecodes(buf, at, 0x48, 0x8b, 0x8e, 16 * slot, true, RCX, RSI);
      case StoreRax(slot) => MemoryDecodes(buf, at, 0x48, 0x89, 0x86, 16 * slot, true, RAX, RSI);
      case StoreRdx(slot) => MemoryDecodes(buf, at, 0x48, 0x89, 0x96, 16 * slot + 8, true, RDX, RSI);
    }
    One(buf, at, Meant(op)[0], 7);
  }

  lemma LocalMoveDecodes(buf: seq<byte>, at: nat, op: NOp)
    requires (op.LoadLocalRax? || op.LoadLocalRdx? || op.StoreLocalRax? || op.StoreLocalRdx?) && Fits(op) && At(buf, at, EncodeSlot(op))
    ensures Spells(buf, at, Meant(op), at + Length(op))
  {
    hide Le32, DecodeAt, Spells;
    match op {
      case LoadLocalRax(loc) => MemoryDecodes(buf, at, 0x49, 0x8b, 0x80, 16 * loc, true, RAX, R8);
      case LoadLocalRdx(loc) => MemoryDecodes(buf, at, 0x49, 0x8b, 0x90, 16 * loc + 8, true, RDX, R8);
      case StoreLocalRax(loc) => MemoryDecodes(buf, at, 0x49, 0x89, 0x80, 16 * loc, true, RAX, R8);
      case StoreLocalRdx(loc) => MemoryDecodes(buf, at, 0x49, 0x89, 0x90, 16 * loc + 8, true, RDX, R8);
    }
    One(buf, at, Meant(op)[0], 7);
  }

  /** Register to register, with a REX prefix. */
  lemma RegistersDecode(buf: seq<byte>, at: nat, rex: byte, opcode: byte, modrm: byte, m: Mnemonic, wide: bool, dst: nat, src: nat)
    requires At(buf, at, [rex, opcode, modrm]) && modrm / 64 == 3
    requires rex / 16 == 4 && (rex / 8) % 2 == (if wide then 1 else 0)
    requires src == (modrm / 8) % 8 + 8 * ((rex / 4) % 2) && dst == modrm % 8 + 8 * (rex % 2)
    requires (opcode == 0x01 && m == ADD) || (opcode == 0x31 && m == XOR) || (opcode == 0x39 && m == CMP) || (opcode == 0x89 && m == MOV)
    ensures DecodeAt(buf, at) == Some(Found(Between(m, wide, Register(dst), Register(src)), 3))
  {
    hide NoOperands, TwoByte, WithImmediate, PrefixAt, OperandsAt;
    var w := [rex, opcode, modrm];
    AtByte(buf, at, w);
    assert buf[at + 0] == w[0] && buf[at + 1] == w[1] && buf[at + 2] == w[2];
    var p, o := Prefix(wide, (rex / 4) % 2, rex % 2, 1), Operands(src, (modrm / 8) % 8, Register(dst), 1);
    PrefixIs(buf, at, p);
    OperandsAre(buf, at + 2, p, o);
  }

  lemma PrefixIs(buf: seq<byte>, at: nat, p: Prefix)
    requires at < |buf| && buf[at] / 16 == 4
    requires p == Prefix((buf[at] / 8) % 2 == 1, (buf[at] / 4) % 2, buf[at] % 2, 1)
    ensures PrefixAt(buf, at) == p
  {
  }

  lemma OperandsAre(buf: seq<byte>, at: nat, p: Prefix, o: Operands)
    requires at < |buf| && buf[at] / 64 == 3
    requires o == Operands((buf[at] / 8) % 8 + 8 * p.reg, (buf[at] / 8) % 8, Register(buf[at] % 8 + 8 * p.base), 1)
    ensures OperandsAt(buf, at, p) == Some(o)
  {
  }

  lemma PrologueDecodes(buf: seq<byte>, at: nat, op: NOp)
    requires (op.MovR8Rdx? || op.MovR9Rcx?) && At(buf, at, Encode(op))
    ensures Spells(buf, at, Meant(op), at + Length(op))
  {
    hide DecodeAt, Spells;
    if op.MovR8Rdx? {
      RegistersDecode(buf, at, 0x49, 0x89, 0xd0, MOV, true, R8, RDX);
    } else {
      RegistersDecode(buf, at, 0x49, 0x89, 0xc9, MOV, true, R9, RCX);
    }
    One(buf, at, Meant(op)[0], 3);
  }

  lemma CopyDecodes(buf: seq<byte>, at: nat, op: NOp)
    requires (op.MovR10Ecx? || op.MovR10Eax? || op.MovR11Ecx? || op.MovR11Eax?) && At(buf, at, EncodeMove(op))
    ensures Spells(buf, at, Meant(op), at + Length(op))
  {
    hide DecodeAt, Spells;
    if op.MovR10Ecx? {
      RegistersDecode(buf, at, 0x41, 0x89, 0xca, MOV, false, R10, RCX);
    } else if op.MovR10Eax? {
      RegistersDecode(buf, at, 0x41, 0x89, 0xc2, MOV, false, R10, RAX);
    } else if op.MovR11Ecx? {
      RegistersDecode(buf, at, 0x41, 0x89, 0xcb, MOV, false, R11, RCX);
    } else {
      RegistersDecode(buf, at, 0x41, 0x89, 0xc3, MOV, false, R11, RAX);
    }
    One(buf, at, Meant(op)[0], 3);
  }

  lemma CombineDecodes(buf: seq<byte>, at: nat, op: NOp)
    requires (op.XorR10R11? || op.AddEaxR10? || op.XorEaxR10? || op.XorEaxR11?) && At(buf, at, EncodeMove(op))
    ensures Spells(buf, at, Meant(op), at + Length(op))
  {
    hide DecodeAt, Spells;
    if op.XorR10R11? {
      RegistersDecode(buf, at, 0x45, 0x31, 0xda, XOR, false, R10, R11);
    } else if op.AddEaxR10? {
      RegistersDecode(buf, at, 0x44, 0x01, 0xd0, ADD, false, RAX, R10);
    } else if op.XorEaxR10? {
      RegistersDecode(buf, at, 0x44, 0x31, 0xd0, XOR, false, RAX, R10);
    } else {
      RegistersDecode(buf, at, 0x44, 0x31, 0xd8, XOR, false, RAX, R11);
    }
    One(buf, at, Meant(op)[0], 3);
  }

  /** Two registers, no prefix. */
  lemma PairDecodes(buf: seq<byte>, at: nat, op: NOp)
    requires (op.AddEaxEcx? || op.CmpEaxEcx?) && At(buf, at, Encode(op))
    ensures Spells(buf, at, Meant(op), at + Length(op))
  {
    hide Spells;
    AtByte(buf, at, Encode(op));
    var p := PrefixAt(buf, at);
    assert p == Prefix(false, 0, 0, 0);
    assert OperandsAt(buf, at + 1, p) == Some(Operands(1, 1, Register(RAX), 1));
    One(buf, at, Meant(op)[0], 2);
  }

  lemma SetByteDecodes(buf: seq<byte>, at: nat, second: byte, cond: Condition)
    requires At(buf, at, [0x0f, second, 0xc0]) && second / 16 == 9 && ConditionOf(second % 16) == Some(cond)
    ensures DecodeAt(buf, at) == Some(Found(SetIf(cond, Register(RAX)), 3))
  {
    AtByte(buf, at, [0x0f, second, 0xc0]);
    var p := PrefixAt(buf, at);
    assert p == Prefix(false, 0, 0, 0);
    assert OperandsAt(buf, at + 2, p) == Some(Operands(0, 0, Register(RAX), 1));
  }

  lemma WidenDecodes(buf: seq<byte>, at: nat)
    requires At(buf, at, [0x0f, 0xb6, 0xc0])
    ensures DecodeAt(buf, at) == Some(Found(ZeroExtendByte(Register(RAX), Register(RAX)), 3))
  {
    AtByte(buf, at, [0x0f, 0xb6, 0xc0]);
    var p := PrefixAt(buf, at);
    assert p == Prefix(false, 0, 0, 0);
    assert OperandsAt(buf, at + 2, p) == Some(Operands(0, 0, Register(RAX), 1));
  }

  lemma FlagDecodes(buf: seq<byte>, at: nat, op: NOp)
    requires (op.SetCc? || op.MovzxEaxAl?) && Fits(op) && At(buf, at, Encode(op))
    ensures Spells(buf, at, Meant(op), at + Length(op))
  {
    hide Spells, DecodeAt;
    if op.SetCc? {
      SetByteDecodes(buf, at, SetByte(op.op), Comparison(op.op));
    } else {
      WidenDecodes(buf, at);
    }
    One(buf, at, Meant(op)[0], 3);
  }

  lemma CompareZero(buf: seq<byte>, at: nat)
    requires At(buf, at, [0x48, 0x83, 0xf8, 0])
    ensures DecodeAt(buf, at) == Some(Found(Immediate(CMP, true, Register(RAX), 0), 4))
  {
    AtByte(buf, at, [0x48, 0x83, 0xf8, 0]);
    var p := PrefixAt(buf, at);
    assert p == Prefix(true, 0, 0, 1);
    assert OperandsAt(buf, at + 2, p) == Some(Operands(7, 7, Register(RAX), 1));
  }

  lemma AddOne(buf: seq<byte>, at: nat)
    requires At(buf, at, [0xff, 0xc1])
    ensures DecodeAt(buf, at) == Some(Found(Increment(Register(RCX)), 2))
  {
    AtByte(buf, at, [0xff, 0xc1]);
    var p := PrefixAt(buf, at);
    assert p == Prefix(false, 0, 0, 0);
    assert OperandsAt(buf, at + 1, p) == Some(Operands(0, 0, Register(RCX), 1));
  }

  lemma NearReturn(buf: seq<byte>, at: nat)
    requires At(buf, at, [0xc3])
    ensures DecodeAt(buf, at) == Some(Found(Leaves, 1))
  {
    AtByte(buf, at, [0xc3]);
  }

  lemma SmallDecodes(buf: seq<byte>, at: nat, op: NOp)
    requires (op.CmpRaxZero? || op.IncEcx? || op.Ret?) && At(buf, at, Encode(op))
    ensures Spells(buf, at, Meant(op), at + Length(op))
  {
    hide Spells, DecodeAt;
    if op.CmpRaxZero? {
      CompareZero(buf, at);
    } else if op.IncEcx? {
      AddOne(buf, at);
    } else {
      NearReturn(buf, at);
    }
    One(buf, at, Meant(op)[0], Length(op));
  }

  lemma ShiftByByte(buf: seq<byte>, at: nat, modrm: byte, count: byte, r: nat)
    requires At(buf, at, [0x41, 0xc1, modrm, count]) && modrm / 64 == 3 && r == modrm % 8 + 8
    ensures (modrm / 8) % 8 == 4 ==> DecodeAt(buf, at) == Some(Found(Instr.ShiftLeft(Register(r), count), 4))
    ensures (modrm / 8) % 8 == 5 ==> DecodeAt(buf, at) == Some(Found(Instr.ShiftRight(Register(r), count), 4))
  {
    AtByte(buf, at, [0x41, 0xc1, modrm, count]);
  }

  lemma ShiftDecodes(buf: seq<byte>, at: nat, op: NOp)
    requires (op.ShlR10? || op.ShrR11?) && Fits(op) && At(buf, at, EncodeImmediate(op))
    ensures Spells(buf, at, Meant(op), at + Length(op))
  {
    hide DecodeAt, Spells;
    assert op.count % 0x100 == op.count;
    ShiftByByte(buf, at, if op.ShlR10? then 0xe2 else 0xeb, op.count, if op.ShlR10? then R10 else R11);
    One(buf, at, Meant(op)[0], 4);
  }

  /** `mov` to a 64-bit register of a sign-extended word. */
  lemma WideImmediate(buf: seq<byte>, at: nat, modrm: byte, imm: int, r: nat)
    requires At(buf, at, [0x48, 0xc7, modrm] + Le32(imm)) && IsInt32(imm) && modrm == 0xc0 + r && r < 8
    ensures DecodeAt(buf, at) == Some(Found(Immediate(MOV, true, Register(r), imm), 7))
  {
    hide Le32, ReadLe32;
    AtByte(buf, at, [0x48, 0xc7, modrm] + Le32(imm));
    AtParts(buf, at, [0x48, 0xc7, modrm], Le32(imm));
    ReadsWord(buf, at + 3, imm);
    S32OfInt32(imm);
  }

  /** `mov` to a 32-bit register. */
  lemma NarrowImmediate(buf: seq<byte>, at: nat, opcode: byte, imm: int, r: nat)
    requires At(buf, at, [opcode] + Le32(imm)) && opcode == 0xb8 + r && r < 8
    ensures DecodeAt(buf, at) == Some(Found(Immediate(MOV, false, Register(r), S32(imm)), 5))
  {
    hide Le32, ReadLe32, S32;
    AtByte(buf, at, [opcode] + Le32(imm));
    AtParts(buf, at, [opcode], Le32(imm));
    ReadsWord(buf, at + 1, imm);
  }

  lemma CompareImmediate(buf: seq<byte>, at: nat, imm: int)
    requires At(buf, at, [0x81, 0xf9] + Le32(imm)) && IsInt32(imm)
    ensures DecodeAt(buf, at) == Some(Found(Immediate(CMP, false, Register(RCX), imm), 6))
  {
    hide Le32, ReadLe32;
    AtByte(buf, at, [0x81, 0xf9] + Le32(imm));
    AtParts(buf, at, [0x81, 0xf9], Le32(imm));
    ReadsWord(buf, at + 2, imm);
    S32OfInt32(imm);
  }

  lemma MaskImmediate(buf: seq<byte>, at: nat, imm: int)
    requires At(buf, at, [0x41, 0x81, 0xe2] + Le32(imm)) && IsInt32(imm)
    ensures DecodeAt(buf, at) == Some(Found(Immediate(AND, false, Register(R10), imm), 7))
  {
    hide Le32, ReadLe32;
    AtByte(buf, at, [0x41, 0x81, 0xe2] + Le32(imm));
    AtParts(buf, at, [0x41, 0x81, 0xe2], Le32(imm));
    ReadsWord(buf, at + 3, imm);
    S32OfInt32(imm);
  }

  lemma DoubleImmediate(buf: seq<byte>, at: nat, bits: nat)
    requires At(buf, at, [0x48, 0xb8] + Le64(bits))
    ensures DecodeAt(buf, at) == Some(Found(LoadWide(RAX, U32(bits), U32(bits / TWO32)), 10))
  {
    hide Le32, ReadLe32;
    AtByte(buf, at, [0x48, 0xb8] + Le64(bits));
    AtParts(buf, at, [0x48, 0xb8], Le64(bits));
    AtParts(buf, at + 2, Le32(bits), Le32(bits / TWO32));
    ReadsWord(buf, at + 2, bits);
    ReadsWord(buf, at + 6, bits / TWO32);
    Unsigned(bits);
    Unsigned(bits / TWO32);
  }

  lemma Unsigned(x: int)
    ensures U32(S32(x)) == U32(x)
  {
  }

  lemma ZeroDecodes(buf: seq<byte>, at: nat)
    requires At(buf, at, Encode(MovRaxZero))
    ensures Spells(buf, at, Meant(MovRaxZero), at + 7)
  {
    hide DecodeAt, Spells;
    assert Encode(MovRaxZero) == [0x48, 0xc7, 0xc0] + Le32(0);
    WideImmediate(buf, at, 0xc0, 0, RAX);
    One(buf, at, Meant(MovRaxZero)[0], 7);
  }

  lemma ImmediateDecodes(buf: seq<byte>, at: nat, op: NOp)
    requires op.CmpEcx? || op.AndR10? || op.MovRdx? || op.MovEax? || op.MovEcx? || op.MovEdx? || op.MovRaxDouble?
    requires At(buf, at, EncodeImmediate(op))
    ensures Spells(buf, at, Meant(op), at + Length(op))
  {
    hide Le32, Le64, DecodeAt, Spells, DoubleBits;
    match op {
      case CmpEcx(imm) => CompareImmediate(buf, at, imm);
      case AndR10(imm) => MaskImmediate(buf, at, imm);
      case MovRdx(tag) => WideImmediate(buf, at, 0xc2, tag, RDX);
      case MovEax(imm) => S32OfInt32(imm); NarrowImmediate(buf, at, 0xb8, imm, RAX);
      case MovEcx(imm) => S32OfInt32(imm); NarrowImmediate(buf, at, 0xb9, imm, RCX);
      case MovEdx(imm) => S32OfInt32(imm); NarrowImmediate(buf, at, 0xba, imm, RDX);
      case MovRaxDouble(n) => DoubleImmediate(buf, at, DoubleBits(n));
    }
    One(buf, at, Meant(op)[0], Length(op));
  }

  lemma NearJump(buf: seq<byte>, at: nat, rel: int)
    requires At(buf, at, [0xe9] + Le32(rel)) && IsInt32(rel)
    ensures DecodeAt(buf, at) == Some(Found(Jump(rel), 5))
  {
    hide Le32, ReadLe32;
    AtByte(buf, at, [0xe9] + Le32(rel));
    AtParts(buf, at, [0xe9], Le32(rel));
    ReadsWord(buf, at + 1, rel);
    S32OfInt32(rel);
  }

  lemma NearBranch(buf: seq<byte>, at: nat, second: byte, rel: int, cond: Condition)
    requires At(buf, at, [0x0f, second] + Le32(rel)) && IsInt32(rel)
    requires (second == 0x84 && cond == EQUAL) || (second == 0x85 && cond == NOT_EQUAL) || (second == 0x8d && cond == GREATER_EQUAL)
    ensures DecodeAt(buf, at) == Some(Found(Instr.JumpIf(cond, rel), 6))
  {
    hide Le32, ReadLe32;
    AtByte(buf, at, [0x0f, second] + Le32(rel));
    AtParts(buf, at, [0x0f, second], Le32(rel));
    ReadsWord(buf, at + 2, rel);
    S32OfInt32(rel);
  }

  lemma ShortBranch(buf: seq<byte>, at: nat, opcode: byte, cond: Condition)
    requires At(buf, at, [opcode, 10]) && ((opcode == 0x74 && cond == EQUAL) || (opcode == 0x71 && cond == NO_OVERFLOW))
    ensures DecodeAt(buf, at) == Some(Found(Instr.JumpIf(cond, 10), 2))
  {
    AtByte(buf, at, [opcode, 10]);
  }

  lemma Cons(buf: seq<byte>, at: nat, inst: Instr, size: nat, rest: seq<Instr>, end: nat)
    requires DecodeAt(buf, at) == Some(Found(inst, size)) && Spells(buf, at + size, rest, end)
    ensures Spells(buf, at, [inst] + rest, end)
  {
    hide DecodeAt;
    var all := [inst] + rest;
    assert all[1..] == rest && all[0] == inst && all != [];
  }

  lemma GuardDecodes(buf: seq<byte>, at: nat, opcode: byte, note: uint32, rel: int, cond: Condition)
    requires At(buf, at, Guard(opcode, note) + Le32(rel)) && IsInt32(rel)
    requires (opcode == 0x74 && cond == EQUAL) || (opcode == 0x71 && cond == NO_OVERFLOW)
    ensures Spells(buf, at, [Instr.JumpIf(cond, 10), Immediate(MOV, false, Register(RAX), S32(note)), Jump(rel)], at + 12)
  {
    hide Le32, DecodeAt, Spells, S32;
    var w := Guard(opcode, note) + Le32(rel);
    assert w == [opcode, 10] + (([0xb8] + Le32(note)) + ([0xe9] + Le32(rel)));
    AtParts(buf, at, [opcode, 10], ([0xb8] + Le32(note)) + ([0xe9] + Le32(rel)));
    AtParts(buf, at + 2, [0xb8] + Le32(note), [0xe9] + Le32(rel));
    ShortBranch(buf, at, opcode, cond);
    NarrowImmediate(buf, at + 2, 0xb8, note, RAX);
    NearJump(buf, at + 7, rel);
    One(buf, at + 7, Jump(rel), 5);
    Cons(buf, at + 2, Immediate(MOV, false, Register(RAX), S32(note)), 5, [Jump(rel)], at + 12);
    assert [Immediate(MOV, false, Register(RAX), S32(note))] + [Jump(rel)] == [Immediate(MOV, false, Register(RAX), S32(note)), Jump(rel)];
    Cons(buf, at, Instr.JumpIf(cond, 10), 2, [Immediate(MOV, false, Register(RAX), S32(note)), Jump(rel)], at + 12);
    assert [Instr.JumpIf(cond, 10)] + [Immediate(MOV, false, Register(RAX), S32(note)), Jump(rel)]
        == [Instr.JumpIf(cond, 10), Immediate(MOV, false, Register(RAX), S32(note)), Jump(rel)];
  }

  lemma JumpDecodes(buf: seq<byte>, at: nat, op: NOp)
    requires IsJumpOp(op) && Fits(op) && At(buf, at, JumpHead(op) + Le32(op.rel))
    ensures Spells(buf, at, Meant(op), at + Length(op))
  {
    hide Le32, DecodeAt, Spells, Guard;
    match op
    case GuardEqual(note, rel) => GuardDecodes(buf, at, 0x74, note, rel, EQUAL);
    case GuardNoOverflow(note, rel) => GuardDecodes(buf, at, 0x71, note, rel, NO_OVERFLOW);
    case Jmp(rel) => NearJump(buf, at, rel); One(buf, at, Meant(op)[0], 5);
    case JmpIf(equal, rel) => NearBranch(buf, at, if equal then 0x84 else 0x85, rel, if equal then EQUAL else NOT_EQUAL); One(buf, at, Meant(op)[0], 6);
    case Jge(rel) => NearBranch(buf, at, 0x8d, rel, GREATER_EQUAL); One(buf, at, Meant(op)[0], 6);
  }

  predicate IsMemoryMove(op: NOp) {
    op.LoadRax? || op.LoadRdx? || op.LoadRcx? || op.StoreRax? || op.StoreRdx?
  }

  predicate IsLocalMove(op: NOp) {
    op.LoadLocalRax? || op.LoadLocalRdx? || op.StoreLocalRax? || op.StoreLocalRdx?
  }

  /** The bytes of a native instruction decode to what it is meant to be. */
  lemma OpDecodes(buf: seq<byte>, at: nat, op: NOp)
    requires Fits(op) && At(buf, at, Encode(op))
    ensures Spells(buf, at, Meant(op), at + Length(op))
  {
    hide Spells, Meant, EncodeSlot, EncodeMove, EncodeImmediate, JumpHead, Le32, At, Fits, Length;
    if IsJumpOp(op) {
      JumpDecodes(buf, at, op);
    } else if op.StoreImm? || op.StoreTag? || op.CmpTag? {
      RegisterDecodes(buf, at, op);
    } else if IsMemoryMove(op) {
      SlotMoveDecodes(buf, at, op);
    } else if IsLocalMove(op) {
      LocalMoveDecodes(buf, at, op);
    } else if op.MovR8Rdx? || op.MovR9Rcx? {
      PrologueDecodes(buf, at, op);
    } else if op.MovR10Ecx? || op.MovR10Eax? || op.MovR11Ecx? || op.MovR11Eax? {
      CopyDecodes(buf, at, op);
    } else if op.XorR10R11? || op.AddEaxR10? || op.XorEaxR10? || op.XorEaxR11? {
      CombineDecodes(buf, at, op);
    } else if op.AddEaxEcx? || op.CmpEaxEcx? {
      PairDecodes(buf, at, op);
    } else if op.SetCc? || op.MovzxEaxAl? {
      FlagDecodes(buf, at, op);
    } else if op.CmpRaxZero? || op.IncEcx? || op.Ret? {
      SmallDecodes(buf, at, op);
    } else if op.ShlR10? || op.ShrR11? {
      ShiftDecodes(buf, at, op);
    } else if op.MovRaxZero? {
      ZeroDecodes(buf, at);
      assert Length(op) == 7 by { ZeroLength(); }
    } else {
      ImmediateDecodes(buf, at, op);
    }
  }

  lemma ZeroLength()
    ensures Length(MovRaxZero) == 7
  {
  }

  // ---------------------------------------------------------------------------
  // Whole buffers
  // ---------------------------------------------------------------------------

  function MeantAll(ops: seq<NOp>): seq<Instr> {
    if ops == [] then [] else MeantAll(ops[..|ops| - 1]) + Meant(ops[|ops| - 1])
  }

  lemma {:induction false} SpellsConcat(buf: seq<byte>, at: nat, a: seq<Instr>, mid: nat, b: seq<Instr>, end: nat)
    requires Spells(buf, at, a, mid) && Spells(buf, mid, b, end)
    ensures Spells(buf, at, a + b, end)
    decreases |a|
  {
    hide DecodeAt;
    if a == [] {
      assert a + b == b;
    } else {
      SpellsConcat(buf, at + DecodeAt(buf, at).value.size, a[1..], mid, b, end);
      assert (a + b)[1..] == a[1..] + b && (a + b)[0] == a[0];
    }
  }

  lemma {:induction false} PrefixSpells(ops: seq<NOp>, n: nat, buf: seq<byte>)
    requires n <= |ops| && (forall k :: 0 <= k < |ops| ==> Fits(ops[k])) && buf == EncodeAll(ops)
    ensures Spells(buf, 0, MeantAll(ops[..n]), Off(ops, n))
    decreases n
  {
    hide Spells, Meant, Encode, EncodeAll, Length, Fits, At;
    if n == 0 {
      assert Spells(buf, 0, [], 0) by { Nothing(buf); }
    } else {
      PrefixSpells(ops, n - 1, buf);
      OpStandsAt(ops, n - 1);
      OpDecodes(buf, Off(ops, n - 1), ops[n - 1]);
      SpellsConcat(buf, 0, MeantAll(ops[..n - 1]), Off(ops, n - 1), Meant(ops[n - 1]), Off(ops, n));
      assert ops[..n][..n - 1] == ops[..n - 1];
    }
  }

  lemma Nothing(buf: seq<byte>)
    ensures Spells(buf, 0, [], 0)
  {
  }

  lemma OpStandsAt(ops: seq<NOp>, k: nat)
    requires k < |ops|
    ensures At(EncodeAll(ops), Off(ops, k), Encode(ops[k]))
  {
    hide EncodeAll, Encode, Length;
    EncodeSplit(ops, k);
    var a, e, b := EncodeAll(ops[..k]), Encode(ops[k]), EncodeAll(ops[k + 1..]);
    assert (a + e + b)[|a|..|a| + |e|] == e;
  }

  /** Disassembled from its first byte, emitted code is the instructions meant, and nothing is left over. */
  lemma CodeSpells(ops: seq<NOp>)
    requires forall k :: 0 <= k < |ops| ==> Fits(ops[k])
    ensures Spells(EncodeAll(ops), 0, MeantAll(ops), |EncodeAll(ops)|)
  {
    hide Spells, MeantAll, EncodeAll, Fits;
    PrefixSpells(ops, |ops|, EncodeAll(ops));
    assert ops[..|ops|] == ops;
  }

  // ---------------------------------------------------------------------------
  // The code of each back end
  // ---------------------------------------------------------------------------

  lemma TemplateFits(inst: RegInstruction, i: nat, d: nat, rel: int)
    requires Supported(inst.op) && d < |Template(inst, i)| && IsInt32(rel)
    ensures Fits(Fix(Template(inst, i)[d], rel))
  {
    hide RegI32;
  }

  lemma {:induction false} LayoutFits(code: seq<RegInstruction>, n: nat, k: nat, rel: int)
    requires n <= |code| && AllSupported(code, n) && k < |Layout(code, n)| && IsInt32(rel)
    ensures Fits(Fix(Layout(code, n)[k], rel))
    decreases n
  {
    hide Template, Fits;
    if n == 0 {
      assert Fits(MovR8Rdx) && Fits(MovR9Rcx) by { PrologueFits(); }
    } else {
      var m := |Layout(code, n - 1)|;
      if k < m {
        LayoutFits(code, n - 1, k, rel);
      } else {
        TemplateFits(code[n - 1], n - 1, k - m, rel);
      }
    }
  }

  lemma PrologueFits()
    ensures Fits(MovR8Rdx) && Fits(MovR9Rcx) && Fits(MovRdx(TAG_UNINITIALIZED)) && Fits(Ret)
  {
  }

  /** Template code, patched, disassembles to the templates with their displacements. */
  lemma TemplatesSpell(code: seq<RegInstruction>)
    requires |code| <= MOST_INSTRUCTIONS && AllSupported(code, |code|)
    ensures Spells(EncodeAll(Assemble(code)), 0, MeantAll(Assemble(code)), |EncodeAll(Assemble(code))|)
  {
    hide Template, Layout, Displacement, Fits, Spells, MeantAll, EncodeAll, Fix, TargetOf;
    var ops := Assemble(code);
    forall k | 0 <= k < |ops|
      ensures Fits(ops[k])
    {
      var target := TargetOf(code, k);
      AssembledDisplacement(code, k, target);
      DisplacementFits(code, k, target);
      var rel := Displacement(Unpatched(code), k, target);
      if k < |Layout(code, |code|)| {
        LayoutFits(code, |code|, k, rel);
      } else {
        PrologueFits();
        BailoutFixed(rel);
      }
    }
    CodeSpells(ops);
  }

  lemma BailoutFixed(rel: int)
    ensures Fix(MovRdx(TAG_UNINITIALIZED), rel) == MovRdx(TAG_UNINITIALIZED) && Fix(Ret, rel) == Ret
  {
  }

  /** So does the code that returns a number, and the hash loop. */
  lemma NumbersSpell(v: Value)
    requires IsExact(v)
    ensures Spells(EncodeAll(NumberCode(v)), 0, MeantAll(NumberCode(v)), |EncodeAll(NumberCode(v))|)
  {
    hide Spells, MeantAll, EncodeAll;
    CodeSpells(NumberCode(v));
  }

  lemma HashesSpell(l: HashLoop.Hash)
    requires HashLoop.HashGuards(l)
    ensures Spells(EncodeAll(HashLoop.HashCode(l)), 0, MeantAll(HashLoop.HashCode(l)), |EncodeAll(HashLoop.HashCode(l))|)
  {
    hide Spells, MeantAll, EncodeAll;
    CodeSpells(HashLoop.HashCode(l));
  }
}
