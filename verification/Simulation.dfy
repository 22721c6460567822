/** Translated code runs in step with the bytecode it came from. */
module Simulation {
  import opened JsValues
  import opened Machines
  import opened RegisterCode
  import opened RegisterVm
  import opened StackMachine
  import opened Translator

  // ---------------------------------------------------------------------------
  // What the translator assumes of its input without checking it
  // ---------------------------------------------------------------------------

  const MAX_HEIGHT: nat := 254

  /** Operands that survive the narrowing to 8 and 16 bits. */
  predicate OpFits(op: StackOp) {
    match op
    case PutLoc(idx) => idx < 0x100
    case SetLocal(idx) => idx < 0x100
    case AddLoc(idx) => idx < 0x100
    case BumpLoc(idx, _) => idx < 0x100
    case GetLoc(idx) => idx < TWO16
    case PushCpool(idx) => idx < TWO16
    case _ => true
  }

  predicate SlotFits(prog: Listing, a: Slot) {
    a.height <= MAX_HEIGHT && (HasOp(prog, a.pc) ==> OpFits(OpAt(prog, a.pc)))
  }

  ghost predicate Fits(prog: Listing, slots: seq<Slot>, code: seq<RegInstruction>) {
    |code| < TWO16 && forall k :: 0 <= k < |slots| ==> SlotFits(prog, slots[k])
  }

  /** The tracked height at a jump target is the height the jump leaves. */
  ghost predicate HeightConsistent(prog: Listing, slots: seq<Slot>) {
    forall j, k :: 0 <= j < |slots| - 1 && 0 <= k < |slots| - 1 && JumpSlot(prog, slots, j)
                && slots[k].pc == JumpTarget(OpAt(prog, slots[j].pc)).value
      ==> slots[k].height == slots[j + 1].height
  }

  // ---------------------------------------------------------------------------
  // One stack instruction
  // ---------------------------------------------------------------------------

  predicate Agree(stack: seq<Value>, regs: Registers) {
    |stack| <= REGISTERS && forall r :: 0 <= r < |stack| ==> regs[r] == stack[r]
  }

  /** The register machine stands after the instruction, in step with the stack machine. */
  ghost predicate InStep(r: Progress<VmState>, t: Progress<StackState>, at: nat) {
    match t
    case Next(s) => r.Next? && r.s.pc == at && r.s.locals == s.locals && Agree(s.stack, r.s.regs)
    case Halt(exit, locals) => r == Halt(exit, locals)
  }

  ghost predicate Ready(code: seq<RegInstruction>, s: StackState, m: VmState, op: StackOp, to: uint16) {
    && Need(op) <= |s.stack| <= MAX_HEIGHT
    && OpFits(op)
    && m.pc + Width(op) <= |code|
    && code[m.pc..m.pc + Width(op)] == Emit(op, |s.stack|, to)
    && m.locals == s.locals
    && Agree(s.stack, m.regs)
  }

  /** Nothing is lost to the 8 and 16 bit fields when the operands fit. */
  lemma EmitsPlain(op: StackOp, h: nat, to: uint16)
    requires Need(op) <= h <= MAX_HEIGHT && OpFits(op)
    ensures Emit(op, h, to) ==
      match op
      case PushInt(val) => [PushI32At(h, val)]
      case PushCpool(idx) => [RegInstruction(PushConst, h, idx, 0)]
      case PushLiteral(lit) => [RegInstruction(LiteralOp(lit), h, 0, 0)]
      case Drop => [RegInstruction(RegOp.Drop, h - 1, 0, 0)]
      case Dup => [RegInstruction(Mov, h, h - 1, 0)]
      case GetLoc(idx) => [RegInstruction(LoadLoc, h, idx, 0)]
      case GetLoc0Loc1 => [RegInstruction(LoadLoc, h, 0, 0), RegInstruction(LoadLoc, h + 1, 1, 0)]
      case PutLoc(idx) => [RegInstruction(StoreLoc, idx, h - 1, 0)]
      case SetLocal(idx) => [RegInstruction(SetLoc, idx, h - 1, 0)]
      case AddLoc(idx) =>
        [RegInstruction(LoadLoc, h, idx, 0), RegInstruction(Binary(Add), h, h, h - 1), RegInstruction(StoreLoc, idx, h, 0)]
      case BumpLoc(idx, delta) =>
        [PushI32At(h, delta), RegInstruction(LoadLoc, h + 1, idx, 0),
         RegInstruction(Binary(Add), h + 1, h + 1, h), RegInstruction(StoreLoc, idx, h + 1, 0)]
      case Operate(op) => [RegInstruction(Binary(op), h - 2, h - 2, h - 1)]
      case Ret => [RegInstruction(Return, h - 1, 0, 0)]
      case RetUndef => [RegInstruction(ReturnUndef, 0, 0, 0)]
      case Goto(_) => [RegInstruction(Jmp, 0, to, 0)]
      case Branch(onTrue, _) => [RegInstruction(if onTrue then IfTrue else IfFalse, h - 1, to, 0)]
  {
    hide PushI32At;
  }

  lemma EmittedAt(code: seq<RegInstruction>, s: StackState, m: VmState, op: StackOp, to: uint16)
    requires Ready(code, s, m, op, to)
    ensures forall d: nat :: d < Width(op) ==> code[m.pc + d] == Emit(op, |s.stack|, to)[d]
  {
    hide Emit;
    forall d: nat | d < Width(op)
      ensures code[m.pc + d] == Emit(op, |s.stack|, to)[d]
    {
      assert code[m.pc..m.pc + Width(op)][d] == code[m.pc + d];
    }
  }

  lemma PutInStep(m: VmState, s: StackState, v: Value, next: nat)
    requires m.locals == s.locals && Agree(s.stack, m.regs) && |s.stack| <= MAX_HEIGHT
    ensures InStep(Next(Put(m, |s.stack|, v)), Next(Push(s, next, v)), m.pc + 1)
  {
  }

  lemma PushInStep(code: seq<RegInstruction>, cpool: seq<Value>, end: nat, s: StackState, m: VmState, op: StackOp, next: nat)
    requires Ready(code, s, m, op, 0)
    requires op.PushInt? || op.PushCpool? || op.PushLiteral?
    ensures InStep(Run(Vm(code, cpool), m, 1), Execute(end, cpool, s, op, next), m.pc + 1)
  {
    hide Alu, Emit, PushI32At, RegI32;
    var h := |s.stack|;
    RunOne(Vm(code, cpool), m);
    EmittedAt(code, s, m, op, 0);
    EmitsPlain(op, h, 0);
    match op
    case PushInt(val) =>
      assert code[m.pc + 0] == PushI32At(h, val);
      PushStep(code, cpool, m, h, val);
      PutInStep(m, s, Int(val), next);
    case PushCpool(idx) =>
      assert code[m.pc + 0] == RegInstruction(PushConst, h, idx, 0);
      if idx < |cpool| {
        PutInStep(m, s, cpool[idx], next);
      }
    case PushLiteral(lit) =>
      assert code[m.pc + 0] == RegInstruction(LiteralOp(lit), h, 0, 0);
      PutInStep(m, s, LiteralValue(lit), next);
  }

  lemma CopyInStep(code: seq<RegInstruction>, cpool: seq<Value>, end: nat, s: StackState, m: VmState, op: StackOp, next: nat)
    requires Ready(code, s, m, op, 0)
    requires op.Dup? || op.GetLoc?
    ensures InStep(Run(Vm(code, cpool), m, 1), Execute(end, cpool, s, op, next), m.pc + 1)
  {
    hide Alu, Emit, PushI32At, RegI32;
    var h := |s.stack|;
    RunOne(Vm(code, cpool), m);
    EmittedAt(code, s, m, op, 0);
    EmitsPlain(op, h, 0);
    match op
    case Dup =>
      assert code[m.pc + 0] == RegInstruction(Mov, h, h - 1, 0);
      PutInStep(m, s, s.stack[h - 1], next);
    case GetLoc(idx) =>
      assert code[m.pc + 0] == RegInstruction(LoadLoc, h, idx, 0);
      if idx < |s.locals| {
        PutInStep(m, s, s.locals[idx], next);
      }
  }

  lemma StoreInStep(code: seq<RegInstruction>, cpool: seq<Value>, end: nat, s: StackState, m: VmState, op: StackOp, next: nat)
    requires Ready(code, s, m, op, 0)
    requires op.PutLoc? || op.SetLocal?
    ensures InStep(Run(Vm(code, cpool), m, 1), Execute(end, cpool, s, op, next), m.pc + 1)
  {
    hide Alu, Emit, PushI32At, RegI32, Run, Vm;
    var h := |s.stack|;
    RunOne(Vm(code, cpool), m);
    EmittedAt(code, s, m, op, 0);
    EmitsPlain(op, h, 0);
    assert code[m.pc + 0] == Emit(op, h, 0)[0];
    StoreStep(code, cpool, m, op.idx, h - 1);
  }

  lemma PopInStep(code: seq<RegInstruction>, cpool: seq<Value>, end: nat, s: StackState, m: VmState, op: StackOp, next: nat)
    requires Ready(code, s, m, op, 0)
    requires op.Drop? || op.Ret? || op.RetUndef?
    ensures InStep(Run(Vm(code, cpool), m, 1), Execute(end, cpool, s, op, next), m.pc + 1)
  {
    hide Alu, Emit, PushI32At, RegI32;
    RunOne(Vm(code, cpool), m);
    EmittedAt(code, s, m, op, 0);
    EmitsPlain(op, |s.stack|, 0);
    assert code[m.pc + 0] == Emit(op, |s.stack|, 0)[0];
  }

  lemma OperateInStep(code: seq<RegInstruction>, cpool: seq<Value>, end: nat, s: StackState, m: VmState, op: BinOp, next: nat)
    requires Ready(code, s, m, Operate(op), 0)
    ensures InStep(Run(Vm(code, cpool), m, 1), Execute(end, cpool, s, Operate(op), next), m.pc + 1)
  {
    hide Alu, Emit, PushI32At;
    var h := |s.stack|;
    EmittedAt(code, s, m, Operate(op), 0);
    EmitsPlain(Operate(op), h, 0);
    assert code[m.pc + 0] == RegInstruction(Binary(op), h - 2, h - 2, h - 1);
    BinaryStep(code, cpool, m, op, h - 2, h - 2, h - 1, Alu(op, s.stack[h - 2], s.stack[h - 1]));
  }

  lemma BinaryStep(code: seq<RegInstruction>, cpool: seq<Value>, m: VmState, op: BinOp, dst: byte, a: byte, b: byte, result: AluResult)
    requires m.pc < |code| && code[m.pc] == RegInstruction(Binary(op), dst, a, b)
    requires result == Alu(op, m.regs[a], m.regs[b])
    ensures Run(Vm(code, cpool), m, 1) == PutResult(m, dst, result)
    ensures Vm(code, cpool)(m) == PutResult(m, dst, result)
  {
    hide Alu;
    RunOne(Vm(code, cpool), m);
  }

  lemma LoadStep(code: seq<RegInstruction>, cpool: seq<Value>, m: VmState, dst: byte, idx: uint16)
    requires m.pc < |code| && code[m.pc] == RegInstruction(LoadLoc, dst, idx, 0)
    ensures Vm(code, cpool)(m) == if idx < |m.locals| then Next(Put(m, dst, m.locals[idx])) else Halt(Outside, m.locals)
  {
  }

  lemma StoreStep(code: seq<RegInstruction>, cpool: seq<Value>, m: VmState, idx: byte, src: byte)
    requires m.pc < |code|
    requires code[m.pc] == RegInstruction(StoreLoc, idx, src, 0) || code[m.pc] == RegInstruction(SetLoc, idx, src, 0)
    ensures idx < |m.locals| ==> Vm(code, cpool)(m) == Next(VmState(m.pc + 1, m.regs, m.locals[idx := m.regs[src]]))
    ensures idx >= |m.locals| ==> Vm(code, cpool)(m) == Halt(Outside, m.locals)
  {
  }

  lemma PairInStep(code: seq<RegInstruction>, cpool: seq<Value>, end: nat, s: StackState, m: VmState, next: nat)
    requires Ready(code, s, m, GetLoc0Loc1, 0)
    ensures InStep(Run(Vm(code, cpool), m, 2), Execute(end, cpool, s, GetLoc0Loc1, next), m.pc + 2)
  {
    hide Alu, Emit, PushI32At, RegI32;
    var step := Vm(code, cpool);
    var h := |s.stack|;
    EmittedAt(code, s, m, GetLoc0Loc1, 0);
    EmitsPlain(GetLoc0Loc1, h, 0);
    assert code[m.pc + 0] == RegInstruction(LoadLoc, h, 0, 0);
    assert code[m.pc + 1] == RegInstruction(LoadLoc, h + 1, 1, 0);
    LoadStep(code, cpool, m, h, 0);
    RunOne(step, m);
    if 0 < |s.locals| {
      var m1 := Put(m, h, s.locals[0]);
      LoadStep(code, cpool, m1, h + 1, 1);
      RunThen(step, m, 1, m1);
    } else {
      RunAdd(step, m, 1, 1);
    }
  }

  /** `locals[idx] := locals[idx] + b` through the scratch register `t`. */
  lemma AddStoreInStep(code: seq<RegInstruction>, cpool: seq<Value>, s: StackState, m: VmState, m0: VmState, n: nat,
                       idx: byte, t: byte, b: byte, stack: seq<Value>, next: nat)
    requires Run(Vm(code, cpool), m, n) == Next(m0)
    requires m0.pc + 3 <= |code|
    requires code[m0.pc] == RegInstruction(LoadLoc, t, idx, 0)
    requires code[m0.pc + 1] == RegInstruction(Binary(Add), t, t, b)
    requires code[m0.pc + 2] == RegInstruction(StoreLoc, idx, t, 0)
    requires b < t && m0.locals == s.locals
    requires Agree(stack, m0.regs) && |stack| <= t
    ensures InStep(Run(Vm(code, cpool), m, n + 3), AddInto(s, next, stack, idx, m0.regs[b]), m0.pc + 3)
  {
    hide Alu;
    var step := Vm(code, cpool);
    LoadStep(code, cpool, m0, t, idx);
    RunThen(step, m, n, m0);
    if idx < |s.locals| {
      var m1 := Put(m0, t, s.locals[idx]);
      var sum := Alu(Add, s.locals[idx], m0.regs[b]);
      BinaryStep(code, cpool, m1, Add, t, t, b, sum);
      RunThen(step, m, n + 1, m1);
      if sum.Val? {
        var m2 := Put(m1, t, sum.v);
        StoreStep(code, cpool, m2, idx, t);
        RunThen(step, m, n + 2, m2);
      } else {
        RunAdd(step, m, n + 2, 1);
      }
    } else {
      RunAdd(step, m, n + 1, 2);
    }
  }

  lemma AddLocInStep(code: seq<RegInstruction>, cpool: seq<Value>, end: nat, s: StackState, m: VmState, idx: nat, next: nat)
    requires Ready(code, s, m, AddLoc(idx), 0)
    ensures InStep(Run(Vm(code, cpool), m, 3), Execute(end, cpool, s, AddLoc(idx), next), m.pc + 3)
  {
    hide Alu, Emit, PushI32At, VmStep, BranchOn;
    var h := |s.stack|;
    EmittedAt(code, s, m, AddLoc(idx), 0);
    EmitsPlain(AddLoc(idx), h, 0);
    assert code[m.pc + 0] == RegInstruction(LoadLoc, h, idx, 0);
    assert code[m.pc + 1] == RegInstruction(Binary(Add), h, h, h - 1);
    assert code[m.pc + 2] == RegInstruction(StoreLoc, idx, h, 0);
    AddStoreInStep(code, cpool, s, m, m, 0, idx, h, h - 1, s.stack[..h - 1], next);
  }

  lemma BumpInStep(code: seq<RegInstruction>, cpool: seq<Value>, end: nat, s: StackState, m: VmState, idx: nat, delta: int32, next: nat)
    requires Ready(code, s, m, BumpLoc(idx, delta), 0)
    ensures InStep(Run(Vm(code, cpool), m, 4), Execute(end, cpool, s, BumpLoc(idx, delta), next), m.pc + 4)
  {
    hide Alu, Emit, PushI32At, VmStep, BranchOn;
    var h := |s.stack|;
    EmittedAt(code, s, m, BumpLoc(idx, delta), 0);
    EmitsPlain(BumpLoc(idx, delta), h, 0);
    assert code[m.pc + 0] == PushI32At(h, delta);
    assert code[m.pc + 1] == RegInstruction(LoadLoc, h + 1, idx, 0);
    assert code[m.pc + 2] == RegInstruction(Binary(Add), h + 1, h + 1, h);
    assert code[m.pc + 3] == RegInstruction(StoreLoc, idx, h + 1, 0);
    var m1 := Put(m, h, Int(delta));
    PushStep(code, cpool, m, h, delta);
    AddStoreInStep(code, cpool, s, m, m1, 1, idx, h + 1, h, s.stack, next);
  }

  lemma PushStep(code: seq<RegInstruction>, cpool: seq<Value>, m: VmState, dst: byte, val: int32)
    requires m.pc < |code| && code[m.pc] == PushI32At(dst, val)
    ensures Run(Vm(code, cpool), m, 1) == Next(Put(m, dst, Int(val)))
  {
    PushI32RoundTrip(dst, val);
    RunOne(Vm(code, cpool), m);
  }

  lemma StraightInStep(code: seq<RegInstruction>, cpool: seq<Value>, end: nat, s: StackState, m: VmState, op: StackOp, next: nat)
    requires Ready(code, s, m, op, 0)
    requires JumpTarget(op).None?
    ensures InStep(Run(Vm(code, cpool), m, Width(op)), Execute(end, cpool, s, op, next), m.pc + Width(op))
  {
    hide Alu;
    match op
    case GetLoc0Loc1 => PairInStep(code, cpool, end, s, m, next);
    case AddLoc(idx) => AddLocInStep(code, cpool, end, s, m, idx, next);
    case BumpLoc(idx, delta) => BumpInStep(code, cpool, end, s, m, idx, delta, next);
    case Operate(bin) => OperateInStep(code, cpool, end, s, m, bin, next);
    case PushInt(_) | PushCpool(_) | PushLiteral(_) => PushInStep(code, cpool, end, s, m, op, next);
    case Dup | GetLoc(_) => CopyInStep(code, cpool, end, s, m, op, next);
    case PutLoc(_) | SetLocal(_) => StoreInStep(code, cpool, end, s, m, op, next);
    case Drop | Ret | RetUndef => PopInStep(code, cpool, end, s, m, op, next);
    case Goto(_) | Branch(_, _) =>
  }

  /** A jump goes to the resolved instruction or falls through. */
  lemma JumpInStep(code: seq<RegInstruction>, cpool: seq<Value>, end: nat, s: StackState, m: VmState, op: StackOp, to: uint16, next: nat)
    requires Ready(code, s, m, op, to)
    requires JumpTarget(op).Some?
    ensures
      var r, t := Run(Vm(code, cpool), m, 1), Execute(end, cpool, s, op, next);
      var target := if 0 <= JumpTarget(op).value <= end then JumpTarget(op).value else end;
      || (InStep(r, t, m.pc + 1) && (t.Next? ==> t.s.pc == next))
      || (InStep(r, t, to) && t.Next? && t.s.pc == target)
  {
    hide Alu, Emit, PushI32At, RegI32;
    RunOne(Vm(code, cpool), m);
    EmittedAt(code, s, m, op, to);
    EmitsPlain(op, |s.stack|, to);
    assert code[m.pc + 0] == Emit(op, |s.stack|, to)[0];
  }

  lemma HeightFollows(end: nat, cpool: seq<Value>, s: StackState, op: StackOp, next: nat)
    requires Need(op) <= |s.stack|
    ensures
      var t := Execute(end, cpool, s, op, next);
      t.Next? ==> |t.s.stack| == HeightAfter(op, |s.stack|) && (JumpTarget(op).None? ==> t.s.pc == next)
  {
    hide Alu;
  }

  // ---------------------------------------------------------------------------
  // Whole runs
  // ---------------------------------------------------------------------------

  /** Stack slot r is register r below the height, locals are the same, and
      both stand at slot `k`. Nothing is asked of the stack at the end. */
  ghost predicate Matches(prog: Listing, slots: seq<Slot>, k: nat, s: StackState, m: VmState) {
    && k < |slots|
    && s.pc == slots[k].pc && m.pc == slots[k].idx
    && s.locals == m.locals
    && (k < |slots| - 1 ==> |s.stack| == slots[k].height && Agree(s.stack, m.regs))
  }

  ghost predicate Accepted(prog: Listing, slots: seq<Slot>, code: seq<RegInstruction>) {
    IsTranslation(prog, slots, code) && Fits(prog, slots, code) && HeightConsistent(prog, slots)
  }

  lemma StepMatches(prog: Listing, slots: seq<Slot>, code: seq<RegInstruction>, cpool: seq<Value>, k: nat, s: StackState, m: VmState)
    returns (n: nat, k': nat)
    requires Accepted(prog, slots, code)
    requires Matches(prog, slots, k, s, m)
    ensures n >= 1
    ensures
      match StackStep(prog, cpool, s)
      case Next(t) =>
        var r := Run(Vm(code, cpool), m, n);
        r.Next? && Matches(prog, slots, k', t, r.s)
      case Halt(exit, locals) => Run(Vm(code, cpool), m, n) == Halt(exit, locals)
  {
    hide Alu, Emit;
    n, k' := 1, 0;
    var step := Vm(code, cpool);
    if k == |slots| - 1 {
      RunOne(step, m);
    } else {
      assert Linked(prog, slots, k) && Placed(prog, slots, code, k) && Resolved(prog, slots, code, k);
      assert SlotFits(prog, slots[k]);
      var op := OpAt(prog, slots[k].pc);
      var next := slots[k + 1].pc;
      n := Width(op);
      HeightFollows(|prog|, cpool, s, op, next);
      assert StackStep(prog, cpool, s) == Execute(|prog|, cpool, s, op, next);
      if JumpTarget(op).None? {
        StraightInStep(code, cpool, |prog|, s, m, op, next);
        k' := k + 1;
      } else {
        var to := code[m.pc].src1;
        JumpInStep(code, cpool, |prog|, s, m, op, to, next);
        var t := Execute(|prog|, cpool, s, op, next);
        if t.Next? {
          k' := WhereJumped(prog, slots, code, k, t.s.pc, Run(step, m, 1).s.pc);
        }
      }
    }
  }

  /** The slot reached by a jump or by falling through it. */
  lemma WhereJumped(prog: Listing, slots: seq<Slot>, code: seq<RegInstruction>, k: nat, pc: nat, inst: nat) returns (k': nat)
    requires Accepted(prog, slots, code)
    requires k < |slots| - 1 && Linked(prog, slots, k) && JumpSlot(prog, slots, k) && slots[k].idx < |code|
    requires
      var target := JumpTarget(OpAt(prog, slots[k].pc)).value;
      || (pc == slots[k + 1].pc && inst == slots[k].idx + 1)
      || (pc == (if 0 <= target <= |prog| then target else |prog|) && inst == code[slots[k].idx].src1)
    ensures k' < |slots| && slots[k'].pc == pc && slots[k'].idx == inst
    ensures k' < |slots| - 1 ==> slots[k'].height == slots[k + 1].height
  {
    hide Emit, Placed;
    var last := |slots| - 1;
    if pc == slots[k + 1].pc && inst == slots[k].idx + 1 {
      k' := k + 1;
    } else {
      assert Resolved(prog, slots, code, k);
      var target := JumpTarget(OpAt(prog, slots[k].pc)).value;
      if 0 <= target <= |prog| {
        k' :| 0 <= k' < |slots| && slots[k'].pc == target && code[slots[k].idx].src1 == U16(slots[k'].idx);
        if k' < last {
          ChainIncreases(prog, slots, k', last);
        }
      } else {
        k' := last;
      }
    }
  }

  /** After any number of stack instructions the register machine has run at
      least as many and matches, or has halted in the same way. */
  lemma {:induction false} RunMatches(prog: Listing, slots: seq<Slot>, code: seq<RegInstruction>, cpool: seq<Value>, k: nat,
                                      s: StackState, m: VmState, steps: nat)
    returns (n: nat, k': nat)
    requires Accepted(prog, slots, code)
    requires Matches(prog, slots, k, s, m)
    ensures n >= steps
    ensures
      match Run(Stack(prog, cpool), s, steps)
      case Next(t) =>
        var r := Run(Vm(code, cpool), m, n);
        r.Next? && Matches(prog, slots, k', t, r.s)
      case Halt(exit, locals) => Run(Vm(code, cpool), m, n) == Halt(exit, locals)
    decreases steps
  {
    hide Accepted, Matches, StackStep, VmStep;
    if steps == 0 {
      n, k' := 0, k;
    } else {
      var a, k1 := StepMatches(prog, slots, code, cpool, k, s, m);
      match StackStep(prog, cpool, s)
      case Next(t) =>
        var m1 := Run(Vm(code, cpool), m, a).s;
        var b, k2 := RunMatches(prog, slots, code, cpool, k1, t, m1, steps - 1);
        RunAdd(Vm(code, cpool), m, a, b);
        n, k' := a + b, k2;
      case Halt(_, _) =>
        RunAdd(Vm(code, cpool), m, a, steps);
        n, k' := a + steps, k;
    }
  }

  lemma StartMatches(prog: Listing, slots: seq<Slot>, code: seq<RegInstruction>, locals: seq<Value>)
    requires IsTranslation(prog, slots, code)
    ensures Matches(prog, slots, 0, StackStart(locals), VmStart(locals))
  {
  }

  /** The two machines end in the same way, with the same locals, or both run on. */
  lemma TranslationPreservesMeaning(prog: Listing, slots: seq<Slot>, code: seq<RegInstruction>, cpool: seq<Value>,
                                    locals: seq<Value>, exit: Exit, final: seq<Value>)
    requires Accepted(prog, slots, code)
    ensures Halts(Stack(prog, cpool), StackStart(locals), exit, final)
       <==> Halts(Vm(code, cpool), VmStart(locals), exit, final)
  {
    var s, m := StackStart(locals), VmStart(locals);
    StartMatches(prog, slots, code, locals);
    if Halts(Stack(prog, cpool), s, exit, final) {
      var a: nat :| Run(Stack(prog, cpool), s, a) == Halt(exit, final);
      var n, _ := RunMatches(prog, slots, code, cpool, 0, s, m, a);
    }
    if Halts(Vm(code, cpool), m, exit, final) {
      var b: nat :| Run(Vm(code, cpool), m, b) == Halt(exit, final);
      var n, _ := RunMatches(prog, slots, code, cpool, 0, s, m, b);
      RunAdd(Vm(code, cpool), m, b, n - b);
    }
  }
}
