/** QuickJS stack bytecode: its decoding, and the machine that gives it meaning. */
module StackMachine {
  import opened JsValues
  import opened Machines

  datatype StackOp =
    | PushInt(val: int32)
    | PushCpool(idx: nat)
    | PushLiteral(lit: Literal)
    | Drop
    | Dup
    | GetLoc(idx: nat)
    | GetLoc0Loc1
    | PutLoc(idx: nat)
    | SetLocal(idx: nat)
    | AddLoc(idx: nat)
    | BumpLoc(idx: nat, delta: int32)
    | Operate(op: BinOp)
    | Ret
    | RetUndef
    | Goto(target: int)
    | Branch(onTrue: bool, target: int)

  datatype Literal = LitUndefined | LitNull | LitFalse | LitTrue

  datatype Decoded = Instruction(op: StackOp, size: nat) | MissingOperand | Unsupported

  function LiteralValue(lit: Literal): Value {
    match lit
    case LitUndefined => Undef
    case LitNull => Null
    case LitFalse => Bool(false)
    case LitTrue => Bool(true)
  }

  // ---------------------------------------------------------------------------
  // Little-endian operands
  // ---------------------------------------------------------------------------

  function ReadU16(buf: seq<byte>, offset: nat): uint16
    requires offset + 2 <= |buf|
  {
    buf[offset] as int + 0x100 * buf[offset + 1] as int
  }

  function ReadI8(buf: seq<byte>, offset: nat): int32
    requires offset < |buf|
  {
    if buf[offset] < 0x80 then buf[offset] else buf[offset] as int - 0x100
  }

  function ReadI16(buf: seq<byte>, offset: nat): int32
    requires offset + 2 <= |buf|
  {
    var u := ReadU16(buf, offset);
    if u < 0x8000 then u else u - 0x1_0000
  }

  function ReadU32(buf: seq<byte>, offset: nat): uint32
    requires offset + 4 <= |buf|
  {
    ReadU16(buf, offset) + 0x1_0000 * ReadU16(buf, offset + 2)
  }

  function ReadI32(buf: seq<byte>, offset: nat): int32
    requires offset + 4 <= |buf|
  {
    S32(ReadU32(buf, offset))
  }

  // ---------------------------------------------------------------------------
  // Decoding
  // ---------------------------------------------------------------------------

  function ArithmeticOp(opcode: byte): (r: Option<BinOp>)
  {
    if opcode == 153 then Some(Mul)
    else if opcode == 155 then Some(Mod)
    else if opcode == 156 then Some(Add)
    else if opcode == 157 then Some(Sub)
    else if opcode == 158 then Some(Shl)
    else if opcode == 159 then Some(Sar)
    else if opcode == 160 then Some(Shr)
    else if opcode == 161 then Some(And)
    else if opcode == 162 then Some(Xor)
    else if opcode == 163 then Some(Or)
    else if opcode == 165 then Some(Lt)
    else if opcode == 166 then Some(Lte)
    else if opcode == 167 then Some(Gt)
    else if opcode == 168 then Some(Gte)
    else if opcode == 173 then Some(StrictEq)
    else None
  }

  /** Opcodes without operand bytes. */
  function DecodePlain(opcode: byte): Option<StackOp> {
    if opcode == 185 then Some(PushInt(-1))
    else if 186 <= opcode <= 193 then Some(PushInt(opcode - 186))
    else if opcode == 6 then Some(PushLiteral(LitUndefined))
    else if opcode == 7 then Some(PushLiteral(LitNull))
    else if opcode == 9 then Some(PushLiteral(LitFalse))
    else if opcode == 10 then Some(PushLiteral(LitTrue))
    else if opcode == 14 then Some(Drop)
    else if opcode == 17 then Some(Dup)
    else if opcode == 202 then Some(GetLoc0Loc1)
    else if 203 <= opcode <= 206 then Some(GetLoc(opcode - 203))
    else if 207 <= opcode <= 210 then Some(PutLoc(opcode - 207))
    else if 211 <= opcode <= 214 then Some(SetLocal(opcode - 211))
    else if opcode == 40 then Some(Ret)
    else if opcode == 41 then Some(RetUndef)
    else match ArithmeticOp(opcode)
      case Some(op) => Some(Operate(op))
      case None => None
  }

  /** Operand bytes after the opcode; `None` for opcodes that take none. */
  function OperandSize(opcode: byte): Option<nat> {
    if opcode in {1, 2, 104, 105, 106} then Some(4)
    else if opcode in {195, 87, 88, 89, 243} then Some(2)
    else if opcode in {194, 196, 199, 200, 201, 147, 146, 145, 242, 240, 241} then Some(1)
    else None
  }

  /** Jump offsets count from the byte after the opcode. */
  function DecodeOperand(buf: seq<byte>, pc: nat, size: nat): StackOp
    requires pc < |buf| && OperandSize(buf[pc]) == Some(size) && pc + 1 + size <= |buf|
  {
    var opcode := buf[pc];
    if opcode == 1 then PushInt(ReadI32(buf, pc + 1))
    else if opcode == 2 then PushCpool(ReadU32(buf, pc + 1))
    else if opcode == 104 then Branch(false, pc + 1 + ReadI32(buf, pc + 1))
    else if opcode == 105 then Branch(true, pc + 1 + ReadI32(buf, pc + 1))
    else if opcode == 106 then Goto(pc + 1 + ReadI32(buf, pc + 1))
    else if opcode == 195 then PushInt(ReadI16(buf, pc + 1))
    else if opcode == 87 then GetLoc(ReadU16(buf, pc + 1))
    else if opcode == 88 then PutLoc(ReadU16(buf, pc + 1))
    else if opcode == 89 then SetLocal(ReadU16(buf, pc + 1))
    else if opcode == 243 then Goto(pc + 1 + ReadI16(buf, pc + 1))
    else if opcode == 194 then PushInt(ReadI8(buf, pc + 1))
    else if opcode == 196 then PushCpool(buf[pc + 1])
    else if opcode == 199 then GetLoc(buf[pc + 1])
    else if opcode == 200 then PutLoc(buf[pc + 1])
    else if opcode == 201 then SetLocal(buf[pc + 1])
    else if opcode == 147 then AddLoc(buf[pc + 1])
    else if opcode == 146 then BumpLoc(buf[pc + 1], 1)
    else if opcode == 145 then BumpLoc(buf[pc + 1], -1)
    else if opcode == 242 then Goto(pc + 1 + ReadI8(buf, pc + 1))
    else if opcode == 240 then Branch(false, pc + 1 + ReadI8(buf, pc + 1))
    else Branch(true, pc + 1 + ReadI8(buf, pc + 1))
  }

  function Decode(buf: seq<byte>, pc: nat): (r: Decoded)
    requires pc < |buf|
    ensures r.Instruction? ==> 1 <= r.size && pc + r.size <= |buf|
  {
    match OperandSize(buf[pc])
    case Some(n) =>
      if pc + 1 + n <= |buf| then Instruction(DecodeOperand(buf, pc, n), 1 + n) else MissingOperand
    case None =>
      match DecodePlain(buf[pc])
      case Some(op) => Instruction(op, 1)
      case None => Unsupported
  }

  /** The instruction that would start at each byte. */
  type Listing = seq<Decoded>

  function List(buf: seq<byte>): (prog: Listing)
    ensures |prog| == |buf|
    ensures forall pc :: 0 <= pc < |buf| ==> prog[pc] == Decode(buf, pc)
  {
    seq(|buf|, pc requires 0 <= pc < |buf| => Decode(buf, pc))
  }

  // ---------------------------------------------------------------------------
  // The machine
  // ---------------------------------------------------------------------------

  datatype StackState = StackState(pc: nat, stack: seq<Value>, locals: seq<Value>)

  /** Operands an instruction takes from the stack. */
  function Need(op: StackOp): nat {
    match op
    case Drop | Dup | PutLoc(_) | SetLocal(_) | AddLoc(_) | Ret | Branch(_, _) => 1
    case Operate(_) => 2
    case _ => 0
  }

  function Push(s: StackState, pc: nat, v: Value): StackState {
    StackState(pc, s.stack + [v], s.locals)
  }

  /** `locals[idx] := a + b`, the sum being the only thing that can fail. */
  function AddInto(s: StackState, pc: nat, stack: seq<Value>, idx: nat, b: Value): Progress<StackState> {
    if idx >= |s.locals| then Halt(Outside, s.locals) else
    match Alu(Add, s.locals[idx], b)
    case Val(v) => Next(StackState(pc, stack, s.locals[idx := v]))
    case TypeMiss => Halt(Aborted, s.locals)
    case Inexact => Halt(Outside, s.locals)
  }

  /** A jump before the first or past the last byte ends the run. */
  function JumpTo(s: StackState, end: nat, stack: seq<Value>, target: int): Progress<StackState> {
    Next(StackState(if 0 <= target <= end then target else end, stack, s.locals))
  }

  function Execute(end: nat, cpool: seq<Value>, s: StackState, op: StackOp, next: nat): Progress<StackState>
    requires Need(op) <= |s.stack|
  {
    var h := |s.stack|;
    match op
    case PushInt(val) => Next(Push(s, next, Int(val)))
    case PushCpool(idx) => if idx < |cpool| then Next(Push(s, next, cpool[idx])) else Halt(Outside, s.locals)
    case PushLiteral(lit) => Next(Push(s, next, LiteralValue(lit)))
    case Drop => Next(StackState(next, s.stack[..h - 1], s.locals))
    case Dup => Next(Push(s, next, s.stack[h - 1]))
    case GetLoc(idx) => if idx < |s.locals| then Next(Push(s, next, s.locals[idx])) else Halt(Outside, s.locals)
    case GetLoc0Loc1 =>
      if 1 < |s.locals| then Next(StackState(next, s.stack + [s.locals[0], s.locals[1]], s.locals))
      else Halt(Outside, s.locals)
    case PutLoc(idx) =>
      if idx < |s.locals| then Next(StackState(next, s.stack[..h - 1], s.locals[idx := s.stack[h - 1]]))
      else Halt(Outside, s.locals)
    case SetLocal(idx) =>
      if idx < |s.locals| then Next(StackState(next, s.stack, s.locals[idx := s.stack[h - 1]]))
      else Halt(Outside, s.locals)
    case AddLoc(idx) => AddInto(s, next, s.stack[..h - 1], idx, s.stack[h - 1])
    case BumpLoc(idx, delta) => AddInto(s, next, s.stack, idx, Int(delta))
    case Operate(op) =>
      (match Alu(op, s.stack[h - 2], s.stack[h - 1])
       case Val(v) => Next(StackState(next, s.stack[..h - 2] + [v], s.locals))
       case TypeMiss => Halt(Aborted, s.locals)
       case Inexact => Halt(Outside, s.locals))
    case Ret => Halt(Returned(s.stack[h - 1]), s.locals)
    case RetUndef => Halt(Returned(Undef), s.locals)
    case Goto(target) => JumpTo(s, end, s.stack, target)
    case Branch(onTrue, target) =>
      var cond := s.stack[h - 1];
      if !cond.Bool? then Halt(Aborted, s.locals)
      else if cond.b == onTrue then JumpTo(s, end, s.stack[..h - 1], target)
      else Next(StackState(next, s.stack[..h - 1], s.locals))
  }

  function StackStep(prog: Listing, cpool: seq<Value>, s: StackState): Progress<StackState> {
    if s.pc >= |prog| then Halt(Aborted, s.locals) else
    match prog[s.pc]
    case Instruction(op, size) =>
      if Need(op) <= |s.stack| then Execute(|prog|, cpool, s, op, s.pc + size) else Halt(Aborted, s.locals)
    case MissingOperand => Halt(Aborted, s.locals)
    case Unsupported => Halt(Aborted, s.locals)
  }

  function Stack(prog: Listing, cpool: seq<Value>): Machine<StackState> {
    (s: StackState) => StackStep(prog, cpool, s)
  }

  function StackStart(locals: seq<Value>): StackState {
    StackState(0, [], locals)
  }
}
