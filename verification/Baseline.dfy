/** Template code generation: every register instruction becomes a fixed
    instruction sequence that checks tags and overflow and bails out. */
module Baseline {
  import opened JsValues
  import opened Machines
  import opened RegisterCode
  import opened RegisterVm
  import opened NativeCode

  // ---------------------------------------------------------------------------
  // The machine native code implements
  // ---------------------------------------------------------------------------

  const BAIL: Exit := Returned(Uninit)

  /** The register machine with int32-only arithmetic: everything else bails. */
  function JitStep(code: seq<RegInstruction>, s: VmState): Progress<VmState> {
    if s.pc >= |code| then Halt(BAIL, s.locals) else
    var inst := code[s.pc];
    match inst.op
    case PushI32 => Next(Put(s, inst.dst, Int(RegI32(inst))))
    case Mov =>
      if inst.src1 < REGISTERS then Next(Put(s, inst.dst, s.regs[inst.src1])) else Halt(Outside, s.locals)
    case LoadLoc =>
      if inst.src1 < |s.locals| then Next(Put(s, inst.dst, s.locals[inst.src1])) else Halt(Outside, s.locals)
    case StoreLoc | SetLoc =>
      if inst.src1 < REGISTERS && inst.dst < |s.locals| then
        Next(s.(pc := s.pc + 1, locals := s.locals[inst.dst := s.regs[inst.src1]]))
      else
        Halt(Outside, s.locals)
    case Binary(op) =>
      if inst.src1 >= REGISTERS then Halt(Outside, s.locals)
      else if !s.regs[inst.src1].Int? then Halt(BAIL, s.locals)
      else if inst.src2 >= REGISTERS then Halt(Outside, s.locals)
      else if !s.regs[inst.src2].Int? then Halt(BAIL, s.locals)
      else IntResult(s, inst.dst, op, s.regs[inst.src1].i, s.regs[inst.src2].i)
    case Return => Halt(Returned(s.regs[inst.dst]), s.locals)
    case ReturnUndef => Halt(Returned(Undef), s.locals)
    case Jmp => Next(s.(pc := inst.src1))
    case IfFalse => IntBranch(s, s.regs[inst.dst], false, inst.src1)
    case IfTrue => IntBranch(s, s.regs[inst.dst], true, inst.src1)
    case _ => Halt(BAIL, s.locals)
  }

  function IntResult(s: VmState, dst: byte, op: BinOp, a: int32, b: int32): Progress<VmState> {
    if op.Add? && IsInt32(a + b) then Next(Put(s, dst, Int(a + b)))
    else if op.Lt? || op.Lte? || op.Gt? || op.Gte? then Next(Put(s, dst, Bool(Holds(op, a, b))))
    else Halt(BAIL, s.locals)
  }

  function IntBranch(s: VmState, cond: Value, onTrue: bool, target: nat): Progress<VmState> {
    if cond.Bool? then Next(s.(pc := if cond.b == onTrue then target else s.pc + 1))
    else Halt(BAIL, s.locals)
  }

  function Jit(code: seq<RegInstruction>): Machine<VmState> {
    (s: VmState) => JitStep(code, s)
  }

  /** Instruction by instruction: unless it bails, it does what the register
      machine does. */
  lemma JitStepAgrees(code: seq<RegInstruction>, cpool: seq<Value>, s: VmState)
    ensures JitStep(code, s).Next? ==> VmStep(code, cpool, s) == JitStep(code, s)
    ensures JitStep(code, s).Halt? && JitStep(code, s).exit != BAIL && JitStep(code, s).exit != Outside
      ==> VmStep(code, cpool, s) == JitStep(code, s)
  {
    hide RegI32;
    if s.pc < |code| && code[s.pc].op.Binary? {
      var inst := code[s.pc];
      if inst.src1 < REGISTERS && inst.src2 < REGISTERS && s.regs[inst.src1].Int? && s.regs[inst.src2].Int? {
        IntAlu(inst.op.op, s.regs[inst.src1].i, s.regs[inst.src2].i);
      }
    }
  }

  lemma IntAlu(op: BinOp, a: int32, b: int32)
    ensures op.Add? && IsInt32(a + b) ==> Alu(op, Int(a), Int(b)) == Val(Int(a + b))
    ensures op.Lt? || op.Lte? || op.Gt? || op.Gte? ==> Alu(op, Int(a), Int(b)) == Val(Bool(Holds(op, a, b)))
  {
  }

  /** A run that returns a value returns what the register machine returns,
      and leaves the same locals. */
  lemma {:induction false} JitRefinesVm(code: seq<RegInstruction>, cpool: seq<Value>, s: VmState, n: nat)
    requires Run(Jit(code), s, n).Halt? && Run(Jit(code), s, n).exit != BAIL && Run(Jit(code), s, n).exit != Outside
    ensures Run(Vm(code, cpool), s, n) == Run(Jit(code), s, n)
    decreases n
  {
    hide VmStep, JitStep;
    if n > 0 {
      JitStepAgrees(code, cpool, s);
      if JitStep(code, s).Next? {
        JitRefinesVm(code, cpool, JitStep(code, s).s, n - 1);
      }
    }
  }

  // ---------------------------------------------------------------------------
  // Templates
  // ---------------------------------------------------------------------------

  predicate IsCompare(op: BinOp) {
    op.Lt? || op.Lte? || op.Gt? || op.Gte?
  }

  predicate Supported(op: RegOp) {
    match op
    case PushI32 | Mov | LoadLoc | StoreLoc | SetLoc | Return | ReturnUndef | Jmp | IfFalse | IfTrue => true
    case Binary(op) => op.Add? || IsCompare(op)
    case _ => false
  }

  function Note(i: nat, k: nat): uint32 {
    U32(4 * i + k)
  }

  /** The instructions for `inst`, the `i`-th of the program, before patching. */
  function Template(inst: RegInstruction, i: nat): (t: seq<NOp>)
    requires Supported(inst.op)
    ensures 1 <= |t| <= 11
  {
    var d, a, b := inst.dst, inst.src1, inst.src2;
    match inst.op
    case PushI32 => [StoreImm(d, RegI32(inst)), StoreTag(d, TAG_INT)]
    case LoadLoc => [LoadLocalRax(a), LoadLocalRdx(a), StoreRax(d), StoreRdx(d)]
    case StoreLoc | SetLoc => [LoadRax(a), LoadRdx(a), StoreLocalRax(d), StoreLocalRdx(d)]
    case Mov => [LoadRax(a), LoadRdx(a), StoreRax(d), StoreRdx(d)]
    case Binary(op) =>
      var operands := [CmpTag(a, TAG_INT), GuardEqual(Note(i, 0), 0), CmpTag(b, TAG_INT), GuardEqual(Note(i, 1), 0),
                       LoadRax(a), LoadRcx(b)];
      if op.Add? then operands + [AddEaxEcx, GuardNoOverflow(Note(i, 2), 0), StoreRax(d), StoreTag(d, TAG_INT)]
      else operands + [CmpEaxEcx, SetCc(op), MovzxEaxAl, StoreRax(d), StoreTag(d, TAG_BOOL)]
    case Jmp => [NOp.Jmp(0)]
    case IfFalse => [CmpTag(d, TAG_BOOL), GuardEqual(Note(i, 0), 0), LoadRax(d), CmpRaxZero, JmpIf(true, 0)]
    case IfTrue => [CmpTag(d, TAG_BOOL), GuardEqual(Note(i, 0), 0), LoadRax(d), CmpRaxZero, JmpIf(false, 0)]
    case Return => [LoadRax(d), LoadRdx(d), Ret]
    case ReturnUndef => [MovRaxZero, MovRdx(TAG_UNDEFINED), Ret]
  }

  predicate IsJumpOp(op: NOp) {
    op.GuardEqual? || op.GuardNoOverflow? || op.Jmp? || op.JmpIf? || op.Jge?
  }

  /** The same instruction with its displacement filled in. */
  function Fix(op: NOp, rel: int): (r: NOp)
    ensures Length(r) == Length(op)
    ensures !IsJumpOp(op) ==> r == op
  {
    match op
    case GuardEqual(note, _) => GuardEqual(note, rel)
    case GuardNoOverflow(note, _) => GuardNoOverflow(note, rel)
    case Jmp(_) => NOp.Jmp(rel)
    case JmpIf(equal, _) => JmpIf(equal, rel)
    case Jge(_) => Jge(rel)
    case _ => op
  }

  /** Where a jump of instruction `i` goes: guards to the bailout block, jumps
      to their target or, past the program, to the bailout block too. */
  function Target(code: seq<RegInstruction>, starts: seq<nat>, i: nat, op: NOp): nat
    requires i < |code| && |starts| == |code| + 1
  {
    if op.GuardEqual? || op.GuardNoOverflow? || code[i].src1 >= |code| then starts[|code|]
    else starts[code[i].src1]
  }

  predicate Placed(code: seq<RegInstruction>, ops: seq<NOp>, starts: seq<nat>, i: nat, d: nat)
    requires i < |code| && |starts| == |code| + 1 && Supported(code[i].op) && d < |Template(code[i], i)|
  {
    var op, k := Template(code[i], i)[d], starts[i] + d;
    && k < |ops| && Target(code, starts, i, op) <= |ops|
    && ops[k] == Fix(op, Displacement(ops, k, Target(code, starts, i, op)))
  }

  /** Instruction `i` of the program stands at its start, fully resolved. */
  ghost predicate Laid(code: seq<RegInstruction>, ops: seq<NOp>, starts: seq<nat>, i: nat)
    requires i < |code| && |starts| == |code| + 1
  {
    Started(code, starts, i) && forall d: nat :: d < |Template(code[i], i)| ==> Placed(code, ops, starts, i, d)
  }

  predicate Started(code: seq<RegInstruction>, starts: seq<nat>, i: nat)
    requires i < |code| && |starts| == |code| + 1
  {
    Supported(code[i].op) && starts[i + 1] == starts[i] + |Template(code[i], i)|
  }

  /** The program laid out: prologue, templates with resolved jumps, bailout block. */
  ghost predicate Assembled(code: seq<RegInstruction>, ops: seq<NOp>, starts: seq<nat>) {
    && |starts| == |code| + 1 && starts[0] == 2 && |ops| == starts[|code|] + 2
    && ops[0] == MovR8Rdx && ops[1] == MovR9Rcx
    && ops[starts[|code|]] == MovRdx(TAG_UNINITIALIZED) && ops[starts[|code|] + 1] == Ret
    && forall i :: 0 <= i < |code| ==> Laid(code, ops, starts, i)
  }

  lemma {:induction false} StartsIncrease(code: seq<RegInstruction>, ops: seq<NOp>, starts: seq<nat>, i: nat, j: nat)
    requires Assembled(code, ops, starts) && i <= j <= |code|
    ensures starts[i] <= starts[j]
    decreases j
  {
    hide Template;
    if i < j {
      StartsIncrease(code, ops, starts, i, j - 1);
      assert Laid(code, ops, starts, j - 1);
    }
  }

  // ---------------------------------------------------------------------------
  // Native code in step with the machine it implements
  // ---------------------------------------------------------------------------

  /** Registers and locals hold the same values; r8 is set up. */
  ghost predicate Holding(m: VmState, c: Cpu) {
    c.varBuf && c.regs == EncAll(m.regs) && c.locals == EncAll(m.locals)
  }

  ghost predicate Synced(code: seq<RegInstruction>, ops: seq<NOp>, starts: seq<nat>, m: VmState, s: NState)
    requires |starts| == |code| + 1
  {
    Holding(m, s.cpu) && s.ip == if m.pc < |code| then starts[m.pc] else starts[|code|]
  }

  lemma EncTag(v: Value)
    ensures Enc(v).tag == TAG_INT <==> v.Int?
    ensures Enc(v).tag == TAG_BOOL <==> v.Bool?
  {
  }

  /** The `d`-th instruction of template `i`, with its displacement. */
  lemma OpAt(code: seq<RegInstruction>, ops: seq<NOp>, starts: seq<nat>, i: nat, d: nat)
    requires Assembled(code, ops, starts) && i < |code| && Supported(code[i].op) && d < |Template(code[i], i)|
    ensures
      var op, k := Template(code[i], i)[d], starts[i] + d;
      && k < |ops| && Target(code, starts, i, op) <= |ops|
      && ops[k] == Fix(op, Displacement(ops, k, Target(code, starts, i, op)))
  {
    hide Template, Fix, Target, Displacement;
    assert Laid(code, ops, starts, i) && Placed(code, ops, starts, i, d);
  }

  /** The bailout block returns `JS_UNINITIALIZED`. */
  lemma RunBailout(code: seq<RegInstruction>, ops: seq<NOp>, starts: seq<nat>, m: VmState, c: Cpu)
    requires Assembled(code, ops, starts) && c.locals == EncAll(m.locals)
    ensures Run(Native(ops), NState(starts[|code|], c), 2) == Halt(BAIL, m.locals)
  {
    hide Native, NativeStep, Laid;
    var s, d := NState(starts[|code|], c), c.(rdx := TAG_UNINITIALIZED);
    assert Exec(ops[s.ip], c) == Some(d);
    StraightStep(ops, s, d);
    RunOne(Native(ops), s);
    RunThen(Native(ops), s, 1, NState(s.ip + 1, d));
    RetStep(ops, NState(s.ip + 1, d));
    DecEncAll(m.locals);
  }
}
