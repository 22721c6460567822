/** The register machine that runs translated code. */
module RegisterVm {
  import opened JsValues
  import opened Machines
  import opened RegisterCode

  const REGISTERS: nat := 256

  type Registers = r: seq<Value> | |r| == REGISTERS witness seq(REGISTERS, _ => Undef)

  datatype VmState = VmState(pc: nat, regs: Registers, locals: seq<Value>)

  function FreshRegisters(): (r: Registers)
    ensures forall i :: 0 <= i < REGISTERS ==> r[i] == Undef
  {
    seq(REGISTERS, _ => Undef)
  }

  function VmStart(locals: seq<Value>): VmState {
    VmState(0, FreshRegisters(), locals)
  }

  function Put(s: VmState, dst: byte, v: Value): VmState {
    s.(pc := s.pc + 1, regs := s.regs[dst := v])
  }

  function PutResult(s: VmState, dst: byte, r: AluResult): Progress<VmState> {
    match r
    case Val(v) => Next(Put(s, dst, v))
    case TypeMiss => Halt(Aborted, s.locals)
    case Inexact => Halt(Outside, s.locals)
  }

  /** Taken when the condition equals `onTrue`. */
  function BranchOn(s: VmState, cond: Value, onTrue: bool, target: nat): Progress<VmState> {
    if cond.Bool? then Next(s.(pc := if cond.b == onTrue then target else s.pc + 1))
    else Halt(Aborted, s.locals)
  }

  function VmStep(code: seq<RegInstruction>, cpool: seq<Value>, s: VmState): Progress<VmState> {
    if s.pc >= |code| then Halt(Aborted, s.locals) else
    var inst := code[s.pc];
    match inst.op
    case PushI32 => Next(Put(s, inst.dst, Int(RegI32(inst))))
    case PushConst =>
      if inst.src1 < |cpool| then Next(Put(s, inst.dst, cpool[inst.src1])) else Halt(Outside, s.locals)
    case Undefined => Next(Put(s, inst.dst, Undef))
    case PushNull => Next(Put(s, inst.dst, Null))
    case PushFalse => Next(Put(s, inst.dst, Bool(false)))
    case PushTrue => Next(Put(s, inst.dst, Bool(true)))
    case Drop => Next(s.(pc := s.pc + 1))
    case Mov =>
      if inst.src1 < REGISTERS then Next(Put(s, inst.dst, s.regs[inst.src1])) else Halt(Outside, s.locals)
    case LoadLoc =>
      if inst.src1 < |s.locals| then Next(Put(s, inst.dst, s.locals[inst.src1])) else Halt(Outside, s.locals)
    case StoreLoc | SetLoc =>
      if inst.src1 < REGISTERS && inst.dst < |s.locals| then
        Next(s.(pc := s.pc + 1, locals := s.locals[inst.dst := s.regs[inst.src1]]))
      else
        Halt(Outside, s.locals)
    case Binary(op) =>
      if inst.src1 < REGISTERS && inst.src2 < REGISTERS then
        PutResult(s, inst.dst, Alu(op, s.regs[inst.src1], s.regs[inst.src2]))
      else
        Halt(Outside, s.locals)
    case Return => Halt(Returned(s.regs[inst.dst]), s.locals)
    case ReturnUndef => Halt(Returned(Undef), s.locals)
    case Jmp => Next(s.(pc := inst.src1))
    case IfFalse => BranchOn(s, s.regs[inst.dst], false, inst.src1)
    case IfTrue => BranchOn(s, s.regs[inst.dst], true, inst.src1)
  }

  function Vm(code: seq<RegInstruction>, cpool: seq<Value>): Machine<VmState> {
    (s: VmState) => VmStep(code, cpool, s)
  }

  // ---------------------------------------------------------------------------
  // The interpreter loop
  // ---------------------------------------------------------------------------

  /** The interpreter loop over its register file and the caller's locals.
      `fuel` bounds the number of instructions; `None` means it ran out. */
  method RunRegisterVm(code: seq<RegInstruction>, varBuf: array<Value>, cpool: seq<Value>, fuel: nat)
    returns (r: Option<Exit>)
    modifies varBuf
    ensures r.Some? ==> Run(Vm(code, cpool), VmStart(old(varBuf[..])), fuel) == Halt(r.value, varBuf[..])
    ensures r.None? ==> exists s :: Run(Vm(code, cpool), VmStart(old(varBuf[..])), fuel) == Next(s) && s.locals == varBuf[..]
  {
    hide Alu, RegI32;
    var regs := new Value[256](_ => Undef);
    var pc: nat := 0;
    var left := fuel;
    ghost var start := VmStart(varBuf[..]);
    assert regs[..] == start.regs;
    while left > 0
      invariant regs.Length == REGISTERS && regs != varBuf
      invariant fresh(regs)
      invariant Run(Vm(code, cpool), start, fuel) == Run(Vm(code, cpool), VmState(pc, regs[..], varBuf[..]), left)
    {
      if pc >= |code| {
        return Some(Aborted);
      }
      ghost var before := VmState(pc, regs[..], varBuf[..]);
      var inst := code[pc];
      pc := pc + 1;
      left := left - 1;
      match inst.op {
        case PushI32 => regs[inst.dst] := Int(RegI32(inst));
        case PushConst =>
          if inst.src1 >= |cpool| { return Some(Outside); }
          regs[inst.dst] := cpool[inst.src1];
        case Undefined => regs[inst.dst] := Undef;
        case PushNull => regs[inst.dst] := Null;
        case PushFalse => regs[inst.dst] := Bool(false);
        case PushTrue => regs[inst.dst] := Bool(true);
        case Drop =>
        case Mov =>
          if inst.src1 >= regs.Length { return Some(Outside); }
          regs[inst.dst] := regs[inst.src1];
        case LoadLoc =>
          if inst.src1 >= varBuf.Length { return Some(Outside); }
          regs[inst.dst] := varBuf[inst.src1];
        case StoreLoc | SetLoc =>
          if inst.src1 >= regs.Length || inst.dst >= varBuf.Length { return Some(Outside); }
          varBuf[inst.dst] := regs[inst.src1];
        case Binary(op) =>
          if inst.src1 >= regs.Length || inst.src2 >= regs.Length { return Some(Outside); }
          match Alu(op, regs[inst.src1], regs[inst.src2]) {
            case Val(v) => regs[inst.dst] := v;
            case TypeMiss => return Some(Aborted);
            case Inexact => return Some(Outside);
          }
        case Return => return Some(Returned(regs[inst.dst]));
        case ReturnUndef => return Some(Returned(Undef));
        case Jmp => pc := inst.src1;
        case IfFalse =>
          if !regs[inst.dst].Bool? { return Some(Aborted); }
          if !regs[inst.dst].b { pc := inst.src1; }
        case IfTrue =>
          if !regs[inst.dst].Bool? { return Some(Aborted); }
          if regs[inst.dst].b { pc := inst.src1; }
      }
      assert VmStep(code, cpool, before) == Next(VmState(pc, regs[..], varBuf[..]));
    }
    r := None;
  }
}
