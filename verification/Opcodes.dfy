/** Every encoding of a stack instruction that the translator accepts, as an
    instruction set reference lists them: bytes, operands taken and left. */
module Opcodes {
  import opened JsValues
  import opened StackMachine
  import opened Translator
  import NativeBytes

  type int8 = x: int | -0x80 <= x < 0x80
  type int16 = x: int | -0x8000 <= x < 0x8000
  type upTo3 = x: int | 0 <= x < 4
  type upTo7 = x: int | 0 <= x < 8

  /** One way of writing an instruction. A jump says how far it goes, counted
      from the byte after its opcode. */
  datatype Form =
    | PushInt32(val: int32) | PushInt16(short: int16) | PushInt8(small: int8) | PushMinus1 | PushDigit(digit: upTo7)
    | PushConst32(idx: uint32) | PushConst8(idx8: byte)
    | UndefinedValue | NullValue | FalseValue | TrueValue
    | DropTop | DupTop
    | GetLoc16(get: uint16) | GetLoc8(get8: byte) | GetLocN(getN: upTo3) | GetLocPair
    | PutLoc16(put: uint16) | PutLoc8(put8: byte) | PutLocN(putN: upTo3)
    | SetLoc16(set_: uint16) | SetLoc8(set8: byte) | SetLocN(setN: upTo3)
    | AddLoc8(sum: byte) | IncLoc(inc: byte) | DecLoc(dec: byte)
    | Multiply | Modulo | Plus | Minus | ShiftL | ShiftR | ShiftRU | BitAnd | BitXor | BitOr
    | Less | LessEq | Greater | GreaterEq | StrictlyEqual
    | ReturnTop | ReturnNothing
    | Goto32(rel: int32) | Goto16(rel16: int16) | Goto8(rel8: int8)
    | IfFalse32(ifRel: int32) | IfFalse8(ifRel8: int8)
    | IfTrue32(unlessRel: int32) | IfTrue8(unlessRel8: int8)

  function Byte(x: int): byte {
    x % 0x100
  }

  function Le16(x: int): (w: seq<byte>)
    ensures |w| == 2
  {
    [x % 0x100, (x / 0x100) % 0x100]
  }

  /** Opcode and operand bytes, little-endian, in two's complement. */
  function Written(f: Form): (w: seq<byte>)
    ensures 1 <= |w| <= 5
  {
    match f
    case PushInt32(val) => [1] + NativeBytes.Le32(val)
    case PushConst32(idx) => [2] + NativeBytes.Le32(idx)
    case UndefinedValue => [6]
    case NullValue => [7]
    case FalseValue => [9]
    case TrueValue => [10]
    case DropTop => [14]
    case DupTop => [17]
    case ReturnTop => [40]
    case ReturnNothing => [41]
    case GetLoc16(x) => [87] + Le16(x)
    case PutLoc16(x) => [88] + Le16(x)
    case SetLoc16(x) => [89] + Le16(x)
    case IfFalse32(rel) => [104] + NativeBytes.Le32(rel)
    case IfTrue32(rel) => [105] + NativeBytes.Le32(rel)
    case Goto32(rel) => [106] + NativeBytes.Le32(rel)
    case DecLoc(x) => [145, x]
    case IncLoc(x) => [146, x]
    case AddLoc8(x) => [147, x]
    case Multiply => [153]
    case Modulo => [155]
    case Plus => [156]
    case Minus => [157]
    case ShiftL => [158]
    case ShiftR => [159]
    case ShiftRU => [160]
    case BitAnd => [161]
    case BitXor => [162]
    case BitOr => [163]
    case Less => [165]
    case LessEq => [166]
    case Greater => [167]
    case GreaterEq => [168]
    case StrictlyEqual => [173]
    case PushMinus1 => [185]
    case PushDigit(n) => [186 + n]
    case PushInt8(v) => [194, Byte(v)]
    case PushInt16(v) => [195] + Le16(v)
    case PushConst8(idx) => [196, idx]
    case GetLoc8(x) => [199, x]
    case PutLoc8(x) => [200, x]
    case SetLoc8(x) => [201, x]
    case GetLocPair => [202]
    case GetLocN(n) => [203 + n]
    case PutLocN(n) => [207 + n]
    case SetLocN(n) => [211 + n]
    case IfFalse8(rel) => [240, Byte(rel)]
    case IfTrue8(rel) => [241, Byte(rel)]
    case Goto8(rel) => [242, Byte(rel)]
    case Goto16(rel) => [243] + Le16(rel)
  }

  /** The instruction a form stands for at byte `pc`. */
  function Meant(f: Form, pc: nat): StackOp {
    match f
    case PushInt32(val) => PushInt(val)
    case PushInt16(v) => PushInt(v)
    case PushInt8(v) => PushInt(v)
    case PushMinus1 => PushInt(-1)
    case PushDigit(n) => PushInt(n)
    case PushConst32(idx) => PushCpool(idx)
    case PushConst8(idx) => PushCpool(idx)
    case UndefinedValue => PushLiteral(LitUndefined)
    case NullValue => PushLiteral(LitNull)
    case FalseValue => PushLiteral(LitFalse)
    case TrueValue => PushLiteral(LitTrue)
    case DropTop => StackOp.Drop
    case DupTop => StackOp.Dup
    case GetLoc16(x) => GetLoc(x)
    case GetLoc8(x) => GetLoc(x)
    case GetLocN(n) => GetLoc(n)
    case GetLocPair => GetLoc0Loc1
    case PutLoc16(x) => PutLoc(x)
    case PutLoc8(x) => PutLoc(x)
    case PutLocN(n) => PutLoc(n)
    case SetLoc16(x) => SetLocal(x)
    case SetLoc8(x) => SetLocal(x)
    case SetLocN(n) => SetLocal(n)
    case AddLoc8(x) => AddLoc(x)
    case IncLoc(x) => BumpLoc(x, 1)
    case DecLoc(x) => BumpLoc(x, -1)
    case Multiply => Operate(Mul)
    case Modulo => Operate(Mod)
    case Plus => Operate(Add)
    case Minus => Operate(Sub)
    case ShiftL => Operate(Shl)
    case ShiftR => Operate(Sar)
    case ShiftRU => Operate(Shr)
    case BitAnd => Operate(And)
    case BitXor => Operate(Xor)
    case BitOr => Operate(Or)
    case Less => Operate(Lt)
    case LessEq => Operate(Lte)
    case Greater => Operate(Gt)
    case GreaterEq => Operate(Gte)
    case StrictlyEqual => Operate(StrictEq)
    case ReturnTop => StackOp.Ret
    case ReturnNothing => RetUndef
    case Goto32(rel) => Goto(pc + 1 + rel)
    case Goto16(rel) => Goto(pc + 1 + rel)
    case Goto8(rel) => Goto(pc + 1 + rel)
    case IfFalse32(rel) => Branch(false, pc + 1 + rel)
    case IfFalse8(rel) => Branch(false, pc + 1 + rel)
    case IfTrue32(rel) => Branch(true, pc + 1 + rel)
    case IfTrue8(rel) => Branch(true, pc + 1 + rel)
  }

  predicate StandsAt(buf: seq<byte>, pc: nat, f: Form) {
    pc + |Written(f)| <= |buf| && buf[pc..pc + |Written(f)|] == Written(f)
  }

  // ---------------------------------------------------------------------------
  // Operands there and back
  // ---------------------------------------------------------------------------

  lemma ReadsLe32(buf: seq<byte>, at: nat, x: int)
    requires at + 4 <= |buf| && buf[at..at + 4] == NativeBytes.Le32(x)
    ensures IsInt32(x) ==> ReadI32(buf, at) == x
    ensures 0 <= x < TWO32 ==> ReadU32(buf, at) == x
  {
    var w := NativeBytes.Le32(x);
    assert forall d :: 0 <= d < 4 ==> buf[at + d] == w[d];
    NativeBytes.Le32Words(x);
  }

  lemma WritesLe32(buf: seq<byte>, at: nat)
    requires at + 4 <= |buf|
    ensures NativeBytes.Le32(ReadU32(buf, at)) == buf[at..at + 4] == NativeBytes.Le32(ReadI32(buf, at))
  {
    hide NativeBytes.Le32;
    var u := ReadU32(buf, at);
    NativeBytes.Le32Bytes(u, buf[at], buf[at + 1], buf[at + 2], buf[at + 3]);
    assert U32(S32(u)) == u;
    NativeBytes.Le32Bytes(S32(u), buf[at], buf[at + 1], buf[at + 2], buf[at + 3]);
  }

  lemma ReadsLe16(buf: seq<byte>, at: nat, x: int)
    requires at + 2 <= |buf| && buf[at..at + 2] == Le16(x)
    ensures 0 <= x < 0x1_0000 ==> ReadU16(buf, at) == x
    ensures -0x8000 <= x < 0x8000 ==> ReadI16(buf, at) == x
  {
    var w := Le16(x);
    assert buf[at] == w[0] && buf[at + 1] == w[1];
  }

  lemma WritesLe16(buf: seq<byte>, at: nat)
    requires at + 2 <= |buf|
    ensures Le16(ReadU16(buf, at)) == buf[at..at + 2] == Le16(ReadI16(buf, at))
  {
    hide Le16;
    var b0, b1: int := buf[at], buf[at + 1];
    Le16Bytes(b0 + 0x100 * b1, b0, b1);
    Le16Bytes(ReadI16(buf, at), b0, b1);
  }

  lemma Le16Bytes(x: int, b0: byte, b1: byte)
    requires x == b0 as int + 0x100 * b1 as int || x == b0 as int + 0x100 * b1 as int - 0x1_0000
    ensures Le16(x) == [b0, b1]
  {
    var q := if x == b0 as int + 0x100 * b1 as int then b1 as int else b1 as int - 0x100;
    assert x == b0 as int + 0x100 * q;
  }

  lemma SignedByte(buf: seq<byte>, at: nat, x: int)
    requires at < |buf|
    ensures -0x80 <= x < 0x80 && buf[at] == Byte(x) ==> ReadI8(buf, at) == x
    ensures -0x80 <= ReadI8(buf, at) < 0x80 && Byte(ReadI8(buf, at)) == buf[at]
  {
  }

  // ---------------------------------------------------------------------------
  // Writing and decoding are inverse
  // ---------------------------------------------------------------------------

  predicate HasOperand32(f: Form) {
    f.PushInt32? || f.PushConst32? || f.Goto32? || f.IfFalse32? || f.IfTrue32?
  }

  predicate HasOperand16(f: Form) {
    f.PushInt16? || f.GetLoc16? || f.PutLoc16? || f.SetLoc16? || f.Goto16?
  }

  lemma FirstByte(buf: seq<byte>, pc: nat, f: Form)
    requires StandsAt(buf, pc, f)
    ensures pc < |buf| && buf[pc] == Written(f)[0]
    ensures |Written(f)| == 2 ==> buf[pc + 1] == Written(f)[1]
    ensures |Written(f)| > 1 ==> buf[pc + 1..pc + |Written(f)|] == Written(f)[1..]
  {
    hide Written;
    var w := Written(f);
    assert forall d :: 0 <= d < |w| ==> buf[pc + d] == w[d];
  }

  lemma LongDecodes(buf: seq<byte>, pc: nat, f: Form)
    requires StandsAt(buf, pc, f) && HasOperand32(f)
    ensures Decode(buf, pc) == Instruction(Meant(f, pc), |Written(f)|)
  {
    hide NativeBytes.Le32, ReadI32, ReadU32;
    FirstByte(buf, pc, f);
    assert Written(f)[1..] == NativeBytes.Le32(Operand32(f));
    ReadsLe32(buf, pc + 1, Operand32(f));
  }

  function Operand32(f: Form): int
    requires HasOperand32(f)
  {
    match f
    case PushInt32(val) => val
    case PushConst32(idx) => idx
    case Goto32(rel) => rel
    case IfFalse32(rel) => rel
    case IfTrue32(rel) => rel
  }

  lemma WordOpcode(buf: seq<byte>, pc: nat)
    requires pc + 3 <= |buf|
    ensures buf[pc] == 87 ==> Decode(buf, pc) == Instruction(GetLoc(ReadU16(buf, pc + 1)), 3)
    ensures buf[pc] == 88 ==> Decode(buf, pc) == Instruction(PutLoc(ReadU16(buf, pc + 1)), 3)
    ensures buf[pc] == 89 ==> Decode(buf, pc) == Instruction(SetLocal(ReadU16(buf, pc + 1)), 3)
    ensures buf[pc] == 195 ==> Decode(buf, pc) == Instruction(PushInt(ReadI16(buf, pc + 1)), 3)
    ensures buf[pc] == 243 ==> Decode(buf, pc) == Instruction(Goto(pc + 1 + ReadI16(buf, pc + 1)), 3)
  {
    hide ReadI16, ReadU16;
  }

  lemma WordForm(f: Form, pc: nat)
    requires HasOperand16(f)
    ensures |Written(f)| == 3 && Written(f)[1..] == Le16(Operand16(f))
    ensures
      var b, x := Written(f)[0], Operand16(f);
      || (b == 87 && 0 <= x < 0x1_0000 && Meant(f, pc) == GetLoc(x))
      || (b == 88 && 0 <= x < 0x1_0000 && Meant(f, pc) == PutLoc(x))
      || (b == 89 && 0 <= x < 0x1_0000 && Meant(f, pc) == SetLocal(x))
      || (b == 195 && -0x8000 <= x < 0x8000 && Meant(f, pc) == PushInt(x))
      || (b == 243 && -0x8000 <= x < 0x8000 && Meant(f, pc) == Goto(pc + 1 + x))
  {
    hide Le16;
  }

  lemma WordDecodes(buf: seq<byte>, pc: nat, f: Form)
    requires StandsAt(buf, pc, f) && HasOperand16(f)
    ensures Decode(buf, pc) == Instruction(Meant(f, pc), |Written(f)|)
  {
    hide Le16, ReadI16, ReadU16, Decode, Written, Meant;
    FirstByte(buf, pc, f);
    WordForm(f, pc);
    WordOpcode(buf, pc);
    ReadsLe16(buf, pc + 1, Operand16(f));
  }

  function Operand16(f: Form): int
    requires HasOperand16(f)
  {
    match f
    case PushInt16(v) => v
    case GetLoc16(x) => x
    case PutLoc16(x) => x
    case SetLoc16(x) => x
    case Goto16(rel) => rel
  }

  predicate HasSignedByte(f: Form) {
    f.PushInt8? || f.IfFalse8? || f.IfTrue8? || f.Goto8?
  }

  lemma SignedOpcode(buf: seq<byte>, pc: nat)
    requires pc + 2 <= |buf|
    ensures buf[pc] == 194 ==> Decode(buf, pc) == Instruction(PushInt(ReadI8(buf, pc + 1)), 2)
    ensures buf[pc] == 240 ==> Decode(buf, pc) == Instruction(Branch(false, pc + 1 + ReadI8(buf, pc + 1)), 2)
    ensures buf[pc] == 241 ==> Decode(buf, pc) == Instruction(Branch(true, pc + 1 + ReadI8(buf, pc + 1)), 2)
    ensures buf[pc] == 242 ==> Decode(buf, pc) == Instruction(Goto(pc + 1 + ReadI8(buf, pc + 1)), 2)
  {
    hide ReadI8;
  }

  lemma SignedDecodes(buf: seq<byte>, pc: nat, f: Form)
    requires StandsAt(buf, pc, f) && HasSignedByte(f)
    ensures Decode(buf, pc) == Instruction(Meant(f, pc), |Written(f)|)
  {
    hide ReadI8, Byte, Decode;
    FirstByte(buf, pc, f);
    SignedOpcode(buf, pc);
    SignedByte(buf, pc + 1, if f.PushInt8? then f.small else if f.IfFalse8? then f.ifRel8 else if f.IfTrue8? then f.unlessRel8 else f.rel8);
  }

  lemma ByteDecodes(buf: seq<byte>, pc: nat, f: Form)
    requires StandsAt(buf, pc, f) && |Written(f)| == 2 && !HasSignedByte(f)
    ensures Decode(buf, pc) == Instruction(Meant(f, pc), 2)
  {
    FirstByte(buf, pc, f);
  }

  predicate IsOperator(f: Form) {
    || f.Multiply? || f.Modulo? || f.Plus? || f.Minus? || f.ShiftL? || f.ShiftR? || f.ShiftRU?
    || f.BitAnd? || f.BitXor? || f.BitOr? || f.Less? || f.LessEq? || f.Greater? || f.GreaterEq? || f.StrictlyEqual?
  }

  lemma OperatorByte(f: Form)
    requires IsOperator(f)
    ensures |Written(f)| == 1 && OperandSize(Written(f)[0]).None? && DecodePlain(Written(f)[0]) == Some(Meant(f, 0))
  {
  }

  lemma PlainByte(f: Form)
    requires |Written(f)| == 1 && !IsOperator(f)
    ensures OperandSize(Written(f)[0]).None? && DecodePlain(Written(f)[0]) == Some(Meant(f, 0))
  {
  }

  lemma NoTarget(f: Form, pc: nat)
    requires |Written(f)| == 1
    ensures Meant(f, pc) == Meant(f, 0)
  {
  }

  lemma PlainDecodes(buf: seq<byte>, pc: nat, f: Form)
    requires StandsAt(buf, pc, f) && |Written(f)| == 1
    ensures Decode(buf, pc) == Instruction(Meant(f, pc), 1)
  {
    hide Written, Meant, DecodePlain, OperandSize;
    FirstByte(buf, pc, f);
    NoTarget(f, pc);
    if IsOperator(f) {
      OperatorByte(f);
    } else {
      PlainByte(f);
    }
  }

  lemma Lengths(f: Form)
    ensures HasOperand32(f) || HasOperand16(f) || |Written(f)| == 1 || |Written(f)| == 2
  {
  }

  /** Bytes written for a form, in any of the encodings, decode to its instruction. */
  lemma WrittenDecodes(buf: seq<byte>, pc: nat, f: Form)
    requires StandsAt(buf, pc, f)
    ensures pc < |buf| && Decode(buf, pc) == Instruction(Meant(f, pc), |Written(f)|)
  {
    hide Written, Decode, Meant;
    Lengths(f);
    FirstByte(buf, pc, f);
    if HasOperand32(f) {
      LongDecodes(buf, pc, f);
    } else if HasOperand16(f) {
      WordDecodes(buf, pc, f);
    } else if HasSignedByte(f) {
      SignedDecodes(buf, pc, f);
    } else if |Written(f)| == 2 {
      ByteDecodes(buf, pc, f);
    } else {
      PlainDecodes(buf, pc, f);
    }
  }

  const LONG: set<byte> := {1, 2, 104, 105, 106}
  const MIDDLE: set<byte> := {87, 88, 89, 195, 243}
  const SHORT: set<byte> := {145, 146, 147, 194, 196, 199, 200, 201, 240, 241, 242}

  lemma LongForm(buf: seq<byte>, pc: nat) returns (f: Form)
    requires pc + 5 <= |buf| && buf[pc] in LONG
    ensures StandsAt(buf, pc, f)
  {
    hide NativeBytes.Le32, ReadI32, ReadU32;
    WritesLe32(buf, pc + 1);
    var v, u := ReadI32(buf, pc + 1), ReadU32(buf, pc + 1);
    f := if buf[pc] == 1 then PushInt32(v) else if buf[pc] == 2 then PushConst32(u)
         else if buf[pc] == 104 then IfFalse32(v) else if buf[pc] == 105 then IfTrue32(v) else Goto32(v);
    assert buf[pc..pc + 5] == [buf[pc]] + buf[pc + 1..pc + 5];
  }

  lemma MiddleForm(buf: seq<byte>, pc: nat) returns (f: Form)
    requires pc + 3 <= |buf| && buf[pc] in MIDDLE
    ensures StandsAt(buf, pc, f)
  {
    hide Le16, ReadI16, ReadU16;
    WritesLe16(buf, pc + 1);
    SignedWord(buf, pc + 1);
    var v, u := ReadI16(buf, pc + 1), ReadU16(buf, pc + 1);
    f := if buf[pc] == 87 then GetLoc16(u) else if buf[pc] == 88 then PutLoc16(u) else if buf[pc] == 89 then SetLoc16(u)
         else if buf[pc] == 195 then PushInt16(v) else Goto16(v);
    assert buf[pc..pc + 3] == [buf[pc]] + buf[pc + 1..pc + 3];
  }

  lemma SignedWord(buf: seq<byte>, at: nat)
    requires at + 2 <= |buf|
    ensures -0x8000 <= ReadI16(buf, at) < 0x8000
  {
  }

  lemma ShortForm(buf: seq<byte>, pc: nat) returns (f: Form)
    requires pc + 2 <= |buf| && buf[pc] in SHORT
    ensures StandsAt(buf, pc, f)
  {
    hide ReadI8, Byte;
    SignedByte(buf, pc + 1, 0);
    var v, x := ReadI8(buf, pc + 1), buf[pc + 1];
    f := if buf[pc] == 145 then DecLoc(x) else if buf[pc] == 146 then IncLoc(x) else if buf[pc] == 147 then AddLoc8(x)
         else if buf[pc] == 194 then PushInt8(v) else if buf[pc] == 196 then PushConst8(x)
         else if buf[pc] == 199 then GetLoc8(x) else if buf[pc] == 200 then PutLoc8(x) else if buf[pc] == 201 then SetLoc8(x)
         else if buf[pc] == 240 then IfFalse8(v) else if buf[pc] == 241 then IfTrue8(v) else Goto8(v);
    assert buf[pc..pc + 2] == [buf[pc], buf[pc + 1]];
  }

  const PLAIN: set<byte> := {6, 7, 9, 10, 14, 17, 40, 41, 153, 155, 156, 157, 158, 159, 160, 161, 162, 163, 165, 166, 167, 168, 173, 185, 202}

  lemma PlainForm(buf: seq<byte>, pc: nat) returns (f: Form)
    requires pc < |buf| && (buf[pc] in PLAIN || 186 <= buf[pc] <= 193 || 203 <= buf[pc] <= 214)
    ensures StandsAt(buf, pc, f)
  {
    var b := buf[pc];
    f := if b == 6 then UndefinedValue else if b == 7 then NullValue else if b == 9 then FalseValue else if b == 10 then TrueValue
         else if b == 14 then DropTop else if b == 17 then DupTop else if b == 40 then ReturnTop else if b == 41 then ReturnNothing
         else if b == 153 then Multiply else if b == 155 then Modulo else if b == 156 then Plus else if b == 157 then Minus
         else if b == 158 then ShiftL else if b == 159 then ShiftR else if b == 160 then ShiftRU
         else if b == 161 then BitAnd else if b == 162 then BitXor else if b == 163 then BitOr
         else if b == 165 then Less else if b == 166 then LessEq else if b == 167 then Greater else if b == 168 then GreaterEq
         else if b == 173 then StrictlyEqual else if b == 185 then PushMinus1 else if b == 202 then GetLocPair
         else if b <= 193 then PushDigit(b - 186)
         else if b <= 206 then GetLocN(b - 203) else if b <= 210 then PutLocN(b - 207) else SetLocN(b - 211);
    assert buf[pc..pc + 1] == [b];
  }

  predicate Known(b: byte) {
    b in LONG || b in MIDDLE || b in SHORT || b in PLAIN || 186 <= b <= 193 || 203 <= b <= 214
  }

  function SizeOf(b: byte): nat {
    if b in LONG then 5 else if b in MIDDLE then 3 else if b in SHORT then 2 else 1
  }

  /** Whatever decodes was written; what does not decode is cut short, or starts
      with none of the opcodes. */
  lemma DecodedWasWritten(buf: seq<byte>, pc: nat) returns (f: Form)
    requires pc < |buf|
    ensures Decode(buf, pc).Instruction? ==> StandsAt(buf, pc, f)
    ensures Decode(buf, pc).Instruction? <==> Known(buf[pc]) && pc + SizeOf(buf[pc]) <= |buf|
    ensures Decode(buf, pc).MissingOperand? <==> Known(buf[pc]) && pc + SizeOf(buf[pc]) > |buf|
    ensures Decode(buf, pc).Unsupported? <==> !Known(buf[pc])
  {
    hide StandsAt;
    f := DropTop;
    DecodesSized(buf, pc);
    if Known(buf[pc]) && pc + SizeOf(buf[pc]) <= |buf| {
      if buf[pc] in LONG {
        f := LongForm(buf, pc);
      } else if buf[pc] in MIDDLE {
        f := MiddleForm(buf, pc);
      } else if buf[pc] in SHORT {
        f := ShortForm(buf, pc);
      } else {
        f := PlainForm(buf, pc);
      }
    }
  }

  lemma DecodesSized(buf: seq<byte>, pc: nat)
    requires pc < |buf|
    ensures Decode(buf, pc).Instruction? <==> Known(buf[pc]) && pc + SizeOf(buf[pc]) <= |buf|
    ensures Decode(buf, pc).MissingOperand? <==> Known(buf[pc]) && pc + SizeOf(buf[pc]) > |buf|
  {
    hide DecodeOperand;
  }

  // ---------------------------------------------------------------------------
  // Operands taken and left
  // ---------------------------------------------------------------------------

  function Taken(f: Form): nat {
    match f
    case DropTop | DupTop | PutLoc16(_) | PutLoc8(_) | PutLocN(_) | SetLoc16(_) | SetLoc8(_) | SetLocN(_) => 1
    case AddLoc8(_) | ReturnTop | IfFalse32(_) | IfFalse8(_) | IfTrue32(_) | IfTrue8(_) => 1
    case Multiply | Modulo | Plus | Minus | ShiftL | ShiftR | ShiftRU | BitAnd | BitXor | BitOr => 2
    case Less | LessEq | Greater | GreaterEq | StrictlyEqual => 2
    case _ => 0
  }

  function Left(f: Form): nat {
    match f
    case PushInt32(_) | PushInt16(_) | PushInt8(_) | PushMinus1 | PushDigit(_) | PushConst32(_) | PushConst8(_) => 1
    case UndefinedValue | NullValue | FalseValue | TrueValue => 1
    case GetLoc16(_) | GetLoc8(_) | GetLocN(_) | SetLoc16(_) | SetLoc8(_) | SetLocN(_) => 1
    case DupTop | GetLocPair => 2
    case Multiply | Modulo | Plus | Minus | ShiftL | ShiftR | ShiftRU | BitAnd | BitXor | BitOr => 1
    case Less | LessEq | Greater | GreaterEq | StrictlyEqual => 1
    case _ => 0
  }

  /** The height the translator asks for and the one it goes on with. */
  lemma Effects(f: Form, pc: nat, h: nat)
    ensures Need(Meant(f, pc)) == Taken(f)
    ensures h >= Taken(f) ==> HeightAfter(Meant(f, pc), h) == h - Taken(f) + Left(f)
  {
  }
}
