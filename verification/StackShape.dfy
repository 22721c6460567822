/** Translated code still evaluates expressions the way a stack would. Each
    instruction works at a known height, so straight-line code can be read back
    as expressions over the locals. */
module StackShape {
  import opened JsValues
  import opened Machines
  import opened RegisterCode
  import opened RegisterVm
  import opened StackMachine
  import opened Translator
  import opened Simulation

  // ---------------------------------------------------------------------------
  // The shape
  // ---------------------------------------------------------------------------

  /** The sum left by `add_loc` and `inc_loc`: operands swapped, result on top. */
  predicate SwappedAdd(code: seq<RegInstruction>, hs: seq<nat>, j: nat)
    requires j < |code| && j + 1 < |hs|
  {
    var inst := code[j];
    && inst.op == Binary(Add) && j >= 1 && code[j - 1].op.LoadLoc? && hs[j] >= 2
    && inst.dst == hs[j] - 1 && inst.src1 == hs[j] - 1 && inst.src2 == hs[j] - 2
    && hs[j + 1] == hs[j]
  }

  predicate PlainBinary(code: seq<RegInstruction>, hs: seq<nat>, j: nat)
    requires j < |code| && j + 1 < |hs|
  {
    var inst := code[j];
    && hs[j] >= 2
    && inst.dst == hs[j] - 2 && inst.src1 == hs[j] - 2 && inst.src2 == hs[j] - 1
    && hs[j + 1] == hs[j] - 1
  }

  /** Instruction `j` works on registers at height `hs[j]`. */
  predicate Shaped(code: seq<RegInstruction>, hs: seq<nat>, j: nat)
    requires j < |code| && j + 1 < |hs|
  {
    var inst, h := code[j], hs[j];
    match inst.op
    case PushI32 | PushConst | Undefined | PushNull | PushFalse | PushTrue | LoadLoc => inst.dst == h && hs[j + 1] == h + 1
    case Mov => h >= 1 && inst.dst == h && inst.src1 == h - 1 && hs[j + 1] == h + 1
    case StoreLoc => h >= 1 && inst.src1 == h - 1
    case SetLoc => h >= 1 && inst.src1 == h - 1 && hs[j + 1] == h
    case Binary(_) => PlainBinary(code, hs, j) || SwappedAdd(code, hs, j)
    case Return | IfFalse | IfTrue => h >= 1 && inst.dst == h - 1
    case Drop | Jmp | ReturnUndef => true
  }

  predicate StackShaped(code: seq<RegInstruction>, hs: seq<nat>) {
    && |hs| == |code| + 1
    && (forall j :: 0 <= j < |hs| ==> hs[j] <= REGISTERS)
    && (forall j :: 0 <= j < |code| ==> Shaped(code, hs, j))
  }

  /** Heights after each instruction emitted for `op` at height `h`. */
  function Heights(op: StackOp, h: nat): (hs: seq<nat>)
    requires Need(op) <= h
    ensures |hs| == Width(op) && hs[|hs| - 1] == HeightAfter(op, h)
    ensures forall d :: 0 <= d < |hs| ==> hs[d] <= h + 2
  {
    match op
    case GetLoc0Loc1 => [h + 1, h + 2]
    case AddLoc(_) => [h + 1, h + 1, h - 1]
    case BumpLoc(_, _) => [h + 1, h + 2, h + 2, h]
    case _ => [HeightAfter(op, h)]
  }

  lemma SlotShaped(code: seq<RegInstruction>, hs: seq<nat>, op: StackOp, to: uint16, at: nat)
    requires at < |hs| && hs[at] <= MAX_HEIGHT && Need(op) <= hs[at] && OpFits(op)
    requires at + Width(op) <= |code| && code[at..at + Width(op)] == Emit(op, hs[at], to)
    requires at + Width(op) < |hs| && hs[at + 1..at + 1 + Width(op)] == Heights(op, hs[at])
    ensures forall j :: at <= j < at + Width(op) ==> Shaped(code, hs, j)
  {
    hide Emit, PushI32At;
    var h := hs[at];
    EmitsPlain(op, h, to);
    forall d: nat | d < Width(op)
      ensures code[at + d] == Emit(op, h, to)[d] && hs[at + 1 + d] == Heights(op, h)[d]
    {
      assert code[at..at + Width(op)][d] == code[at + d];
      assert hs[at + 1..at + 1 + Width(op)][d] == hs[at + 1 + d];
    }
    forall j | at <= j < at + Width(op)
      ensures Shaped(code, hs, j)
    {
      var d := j - at;
      assert code[at + d] == Emit(op, h, to)[d];
      assert hs[at + 1 + d] == Heights(op, h)[d];
      if d > 0 {
        assert code[at + (d - 1)] == Emit(op, h, to)[d - 1];
        assert hs[at + 1 + (d - 1)] == Heights(op, h)[d - 1];
      }
      if op.PushInt? {
        PushForm(h, op.val);
      } else if op.BumpLoc? {
        PushForm(h, op.delta);
      }
    }
  }

  lemma {:induction false} PrefixShaped(prog: Listing, slots: seq<Slot>, code: seq<RegInstruction>, k: nat) returns (hs: seq<nat>)
    requires IsTranslation(prog, slots, code) && Fits(prog, slots, code) && k < |slots|
    ensures slots[k].idx <= |code| && |hs| == slots[k].idx + 1 && hs[slots[k].idx] == slots[k].height
    ensures forall j :: 0 <= j < |hs| ==> hs[j] <= REGISTERS
    ensures forall j :: 0 <= j < slots[k].idx ==> Shaped(code, hs, j)
  {
    hide Emit, Shaped, Resolved;
    assert SlotFits(prog, slots[k]);
    if k < |slots| - 1 {
      ChainIncreases(prog, slots, k, |slots| - 1);
    }
    if k == 0 {
      hs := [0];
    } else {
      var before := PrefixShaped(prog, slots, code, k - 1);
      assert Linked(prog, slots, k - 1) && Placed(prog, slots, code, k - 1);
      assert SlotFits(prog, slots[k - 1]);
      var a := slots[k - 1];
      var op := OpAt(prog, a.pc);
      hs := before + Heights(op, a.height);
      assert hs[a.idx + 1..a.idx + 1 + Width(op)] == Heights(op, a.height);
      SlotShaped(code, hs, op, if JumpTarget(op).Some? then code[a.idx].src1 else 0, a.idx);
      forall j | 0 <= j < slots[k].idx
        ensures Shaped(code, hs, j)
      {
        if j < a.idx {
          assert Shaped(code, before, j);
          ShapedStays(code, before, hs, j);
        }
      }
    }
  }

  lemma ShapedStays(code: seq<RegInstruction>, before: seq<nat>, hs: seq<nat>, j: nat)
    requires before <= hs && j < |code| && j + 1 < |before| && Shaped(code, before, j)
    ensures Shaped(code, hs, j)
  {
    assert hs[j] == before[j] && hs[j + 1] == before[j + 1];
  }

  /** Every register a translated instruction names is its stack slot. */
  lemma TranslationIsShaped(prog: Listing, slots: seq<Slot>, code: seq<RegInstruction>) returns (hs: seq<nat>)
    requires IsTranslation(prog, slots, code) && Fits(prog, slots, code)
    ensures StackShaped(code, hs)
  {
    hs := PrefixShaped(prog, slots, code, |slots| - 1);
  }

  // ---------------------------------------------------------------------------
  // Expressions
  // ---------------------------------------------------------------------------

  datatype Expr =
    | Const(val: int32)
    | Local(x: nat)
    | Bin(op: BinOp, l: Expr, r: Expr)
    | Tee(x: nat, e: Expr)

  function Size(e: Expr): (n: nat)
    ensures n >= 1
  {
    match e
    case Const(_) => 1
    case Local(_) => 1
    case Bin(_, l, r) => Size(l) + Size(r) + 1
    case Tee(_, e) => Size(e) + 1
  }

  /** Code from `j` on computes `e`. */
  predicate Codes(code: seq<RegInstruction>, j: nat, e: Expr)
    decreases e
  {
    && j + Size(e) <= |code|
    && match e
       case Const(val) => code[j].op.PushI32? && RegI32(code[j]) == val
       case Local(x) => code[j].op.LoadLoc? && code[j].src1 == x
       case Bin(op, l, r) =>
         Codes(code, j, l) && Codes(code, j + Size(l), r) && code[j + Size(l) + Size(r)].op == Binary(op)
       case Tee(x, e) => Codes(code, j, e) && code[j + Size(e)].op.SetLoc? && code[j + Size(e)].dst == x
  }

  lemma CodesParts(code: seq<RegInstruction>, j: nat, e: Expr)
    requires Codes(code, j, e)
    ensures j + Size(e) <= |code|
    ensures
      match e
      case Const(val) => Size(e) == 1 && code[j].op.PushI32? && RegI32(code[j]) == val
      case Local(x) => Size(e) == 1 && code[j].op.LoadLoc? && code[j].src1 == x
      case Bin(op, l, r) =>
        && Size(e) == Size(l) + Size(r) + 1
        && Codes(code, j, l) && Codes(code, j + Size(l), r) && code[j + Size(l) + Size(r)].op == Binary(op)
      case Tee(x, e1) =>
        && Size(e) == Size(e1) + 1
        && Codes(code, j, e1) && code[j + Size(e1)].op.SetLoc? && code[j + Size(e1)].dst == x
  {
  }

  lemma BuildLeaf(code: seq<RegInstruction>, j: nat)
    requires j < |code|
    ensures code[j].op.PushI32? ==> Codes(code, j, Const(RegI32(code[j])))
    ensures code[j].op.LoadLoc? ==> Codes(code, j, Local(code[j].src1))
  {
  }

  lemma BuildBin(code: seq<RegInstruction>, j: nat, op: BinOp, l: Expr, r: Expr)
    requires Codes(code, j, l) && Codes(code, j + Size(l), r)
    requires j + Size(l) + Size(r) < |code| && code[j + Size(l) + Size(r)].op == Binary(op)
    ensures Codes(code, j, Bin(op, l, r)) && Size(Bin(op, l, r)) == Size(l) + Size(r) + 1
  {
  }

  lemma BuildTee(code: seq<RegInstruction>, j: nat, x: nat, e: Expr)
    requires Codes(code, j, e)
    requires j + Size(e) < |code| && code[j + Size(e)].op.SetLoc? && code[j + Size(e)].dst == x
    ensures Codes(code, j, Tee(x, e)) && Size(Tee(x, e)) == Size(e) + 1
  {
  }

  predicate LocalsIn(e: Expr, n: nat) {
    match e
    case Const(_) => true
    case Local(x) => x < n
    case Bin(_, l, r) => LocalsIn(l, n) && LocalsIn(r, n)
    case Tee(x, e) => x < n && LocalsIn(e, n)
  }

  /** No sum whose second operand is a local, so no sum can be swapped. */
  predicate NoSwap(e: Expr) {
    match e
    case Const(_) => true
    case Local(_) => true
    case Bin(op, l, r) => NoSwap(l) && NoSwap(r) && !(op.Add? && r.Local?)
    case Tee(_, e) => NoSwap(e)
  }

  datatype Evaluation = Evaluation(result: AluResult, locals: seq<Value>)

  lemma LeafSizes()
    ensures forall c: int32 :: Size(Const(c)) == 1 && NoSwap(Const(c))
    ensures forall x: nat :: Size(Local(x)) == 1 && NoSwap(Local(x))
  {
  }

  function Apply(op: BinOp, a: Value, b: Evaluation): Evaluation {
    if b.result.Val? then Evaluation(Alu(op, a, b.result.v), b.locals) else b
  }

  /** The value is also stored in local `x`. */
  function Keep(x: nat, a: Evaluation): (r: Evaluation)
    requires x < |a.locals|
    ensures |r.locals| == |a.locals|
  {
    if a.result.Val? then a.(locals := a.locals[x := a.result.v]) else a
  }

  function Eval(e: Expr, locals: seq<Value>): (r: Evaluation)
    requires LocalsIn(e, |locals|)
    ensures |r.locals| == |locals|
  {
    match e
    case Const(val) => Evaluation(Val(Int(val)), locals)
    case Local(x) => Evaluation(Val(locals[x]), locals)
    case Bin(op, l, r) =>
      var a := Eval(l, locals);
      if a.result.Val? then Apply(op, a.result.v, Eval(r, a.locals)) else a
    case Tee(x, e) => Keep(x, Eval(e, locals))
  }

  lemma EvalLeaf(e: Expr, locals: seq<Value>)
    requires LocalsIn(e, |locals|)
    ensures e.Const? ==> Eval(e, locals) == Evaluation(Val(Int(e.val)), locals)
    ensures e.Local? ==> Eval(e, locals) == Evaluation(Val(locals[e.x]), locals)
  {
  }

  lemma EvalBin(op: BinOp, l: Expr, r: Expr, locals: seq<Value>, a: Value, b: Value)
    requires LocalsIn(l, |locals|) && LocalsIn(r, |locals|)
    requires Eval(l, locals) == Evaluation(Val(a), locals) && Eval(r, locals) == Evaluation(Val(b), locals)
    ensures LocalsIn(Bin(op, l, r), |locals|)
    ensures Eval(Bin(op, l, r), locals) == Evaluation(Alu(op, a, b), locals)
  {
    hide Alu;
  }

  lemma EvalBinThrough(op: BinOp, l: Expr, r: Expr, locals: seq<Value>, a: Value, after: seq<Value>, b: Value)
    requires LocalsIn(l, |locals|) && LocalsIn(r, |locals|) && |after| == |locals|
    requires Eval(l, locals) == Evaluation(Val(a), after) && Eval(r, after) == Evaluation(Val(b), after)
    ensures LocalsIn(Bin(op, l, r), |locals|)
    ensures Eval(Bin(op, l, r), locals) == Evaluation(Alu(op, a, b), after)
  {
    hide Alu;
  }

  lemma EvalTee(t: Expr, locals: seq<Value>, a: Value)
    requires t.Tee? && LocalsIn(t, |locals|)
    requires Eval(t.e, locals) == Evaluation(Val(a), locals)
    ensures Eval(t, locals) == Evaluation(Val(a), locals[t.x := a])
  {
    hide Alu, Apply, LocalsIn;
  }

  lemma EvalBinFails(op: BinOp, l: Expr, r: Expr, locals: seq<Value>)
    requires LocalsIn(l, |locals|) && LocalsIn(r, |locals|)
    requires !Eval(l, locals).result.Val?
    ensures LocalsIn(Bin(op, l, r), |locals|)
    ensures Eval(Bin(op, l, r), locals) == Eval(l, locals)
  {
    hide Alu;
  }

  lemma EvalRightFails(op: BinOp, l: Expr, r: Expr, locals: seq<Value>, a: Value)
    requires LocalsIn(l, |locals|) && LocalsIn(r, |locals|)
    requires Eval(l, locals) == Evaluation(Val(a), locals) && !Eval(r, locals).result.Val?
    ensures LocalsIn(Bin(op, l, r), |locals|)
    ensures Eval(Bin(op, l, r), locals) == Eval(r, locals)
  {
    hide Alu;
  }

  /** The value is in register `h`. */
  predicate Leaves(r: Progress<VmState>, e: Evaluation, at: nat, h: nat) {
    match e.result
    case Val(v) => h < REGISTERS && r.Next? && r.s.pc == at && r.s.locals == e.locals && r.s.regs[h] == v
    case TypeMiss => r == Halt(Aborted, e.locals)
    case Inexact => r == Halt(Outside, e.locals)
  }

  /** Moreover every register below `h` is untouched. */
  predicate Delivers(r: Progress<VmState>, s: VmState, e: Evaluation, at: nat, h: nat) {
    Leaves(r, e, at, h) && (r.Next? ==> h <= REGISTERS && forall i :: 0 <= i < h ==> r.s.regs[i] == s.regs[i])
  }

  lemma {:induction false} RunExpr(code: seq<RegInstruction>, cpool: seq<Value>, hs: seq<nat>, e: Expr, s: VmState)
    requires StackShaped(code, hs)
    requires Codes(code, s.pc, e) && NoSwap(e) && LocalsIn(e, |s.locals|)
    ensures Delivers(Run(Vm(code, cpool), s, Size(e)), s, Eval(e, s.locals), s.pc + Size(e), hs[s.pc])
    ensures s.pc + Size(e) <= |code| && hs[s.pc + Size(e)] == hs[s.pc] + 1
    decreases e
  {
    hide Alu, RegI32, VmStep, Run, Vm, Codes, Size, Apply, Shaped;
    var j, step := s.pc, Vm(code, cpool);
    CodesParts(code, j, e);
    match e
    case Const(_) => RunLeaf(code, cpool, hs, e, s);
    case Local(_) => RunLeaf(code, cpool, hs, e, s);
    case Bin(op, l, r) =>
      RunExpr(code, cpool, hs, l, s);
      if Eval(l, s.locals).result.Val? {
        var s1 := Run(step, s, Size(l)).s;
        RunExpr(code, cpool, hs, r, s1);
        LastOp(code, s1.pc, r);
        PlainAt(code, hs, j + Size(l) + Size(r));
        BinDelivers(code, cpool, op, s, Size(l), s1.regs[hs[j]], s1, Size(r), Eval(r, s1.locals), hs[j]);
      } else {
        RunAdd(step, s, Size(l), Size(r) + 1);
      }
      EndHeight(code, hs, j, e);
    case Tee(x, e1) =>
      RunExpr(code, cpool, hs, e1, s);
      TeeAt(code, hs, j + Size(e1));
      if Eval(e1, s.locals).result.Val? {
        var s1 := Run(step, s, Size(e1)).s;
        RunThen(step, s, Size(e1), s1);
        TeeStep(code, cpool, s1);
      } else {
        RunAdd(step, s, Size(e1), 1);
      }
  }

  lemma RunLeaf(code: seq<RegInstruction>, cpool: seq<Value>, hs: seq<nat>, e: Expr, s: VmState)
    requires StackShaped(code, hs)
    requires e.Const? || e.Local?
    requires Codes(code, s.pc, e) && LocalsIn(e, |s.locals|)
    ensures Delivers(Run(Vm(code, cpool), s, 1), s, Eval(e, s.locals), s.pc + 1, hs[s.pc])
    ensures hs[s.pc + 1] == hs[s.pc] + 1
  {
    hide Alu, RegI32, VmStep, Run, Vm;
    assert Shaped(code, hs, s.pc);
    LeafStep(code, cpool, s);
  }

  /** Where the previous instruction is no load, or no sum stands here. */
  lemma PlainAt(code: seq<RegInstruction>, hs: seq<nat>, j: nat)
    requires StackShaped(code, hs) && 0 < j < |code| && code[j].op.Binary?
    requires code[j].op.op.Add? ==> !code[j - 1].op.LoadLoc?
    ensures PlainBinary(code, hs, j)
  {
    assert Shaped(code, hs, j);
  }

  lemma TeeAt(code: seq<RegInstruction>, hs: seq<nat>, j: nat)
    requires StackShaped(code, hs) && j < |code| && code[j].op.SetLoc?
    ensures hs[j] >= 1 && code[j].src1 == hs[j] - 1 && hs[j + 1] == hs[j]
  {
    assert Shaped(code, hs, j);
  }

  lemma LeafStep(code: seq<RegInstruction>, cpool: seq<Value>, s: VmState)
    requires s.pc < |code|
    ensures code[s.pc].op.PushI32? ==> Run(Vm(code, cpool), s, 1) == Next(Put(s, code[s.pc].dst, Int(RegI32(code[s.pc]))))
    ensures code[s.pc].op.LoadLoc? && code[s.pc].src1 < |s.locals| ==>
      Run(Vm(code, cpool), s, 1) == Next(Put(s, code[s.pc].dst, s.locals[code[s.pc].src1]))
  {
    hide Alu, RegI32;
    RunOne(Vm(code, cpool), s);
  }

  lemma TeeStep(code: seq<RegInstruction>, cpool: seq<Value>, s: VmState)
    requires s.pc < |code| && code[s.pc].op.SetLoc? && code[s.pc].src1 < REGISTERS && code[s.pc].dst < |s.locals|
    ensures Vm(code, cpool)(s) == Next(s.(pc := s.pc + 1, locals := s.locals[code[s.pc].dst := s.regs[code[s.pc].src1]]))
  {
    hide Alu, RegI32;
  }

  /** Both operands are in place; the instruction after them combines them. */
  lemma BinDelivers(code: seq<RegInstruction>, cpool: seq<Value>, op: BinOp, s: VmState, nl: nat, a: Value, s1: VmState,
                    nr: nat, b: Evaluation, h: nat)
    requires Run(Vm(code, cpool), s, nl) == Next(s1)
    requires h + 2 <= REGISTERS && s1.regs[h] == a && forall i :: 0 <= i < h ==> s1.regs[i] == s.regs[i]
    requires Delivers(Run(Vm(code, cpool), s1, nr), s1, b, s1.pc + nr, h + 1)
    requires s1.pc + nr < |code|
    requires
      var inst := code[s1.pc + nr];
      inst.op == Binary(op) && inst.dst == h && inst.src1 == h && inst.src2 == h + 1
    ensures Delivers(Run(Vm(code, cpool), s, nl + nr + 1), s, Apply(op, a, b), s1.pc + nr + 1, h)
  {
    hide Alu, RegI32, VmStep, Run, Vm;
    var step := Vm(code, cpool);
    RunBoth(step, s, nl, s1, nr);
    if b.result.Val? {
      var s2 := Run(step, s1, nr).s;
      RunThen(step, s, nl + nr, s2);
      FinishBinary(code, cpool, s2, op, h, a, b.result.v);
      var r := Alu(op, a, b.result.v);
      assert Run(step, s, nl + nr + 1) == PutResult(s2, h, r);
    } else {
      RunAdd(step, s, nl + nr, 1);
    }
  }

  lemma FinishBinary(code: seq<RegInstruction>, cpool: seq<Value>, s: VmState, op: BinOp, h: nat, a: Value, b: Value)
    requires s.pc < |code| && h + 1 < REGISTERS
    requires code[s.pc].op == Binary(op) && code[s.pc].dst == h && code[s.pc].src1 == h && code[s.pc].src2 == h + 1
    requires s.regs[h] == a && s.regs[h + 1] == b
    ensures Vm(code, cpool)(s) == PutResult(s, h, Alu(op, a, b))
  {
    hide Alu, RegI32;
  }

  /** The last instruction of a non-local operand is not a load. */
  lemma LastOp(code: seq<RegInstruction>, j: nat, e: Expr)
    requires Codes(code, j, e)
    ensures !e.Local? ==> !code[j + Size(e) - 1].op.LoadLoc?
  {
  }

  lemma {:induction false} EndHeight(code: seq<RegInstruction>, hs: seq<nat>, j: nat, e: Expr)
    requires StackShaped(code, hs) && Codes(code, j, e) && NoSwap(e)
    ensures j + Size(e) <= |code| && hs[j + Size(e)] == hs[j] + 1
    decreases e
  {
    hide RegI32, Codes, Size;
    CodesParts(code, j, e);
    match e
    case Const(_) => assert Shaped(code, hs, j);
    case Local(_) => assert Shaped(code, hs, j);
    case Bin(op, l, r) =>
      EndHeight(code, hs, j, l);
      EndHeight(code, hs, j + Size(l), r);
      LastOp(code, j + Size(l), r);
      assert Shaped(code, hs, j + Size(l) + Size(r));
    case Tee(_, e1) =>
      EndHeight(code, hs, j, e1);
      assert Shaped(code, hs, j + Size(e1));
  }

  // ---------------------------------------------------------------------------
  // Statements
  // ---------------------------------------------------------------------------

  predicate Assignable(e: Expr) {
    NoSwap(e) || (e.Bin? && e.op.Add? && e.r.Local? && NoSwap(e.l))
  }

  /** The locals hold the new value and control is at `at`, or the run failed. */
  predicate Stores(r: Progress<VmState>, x: nat, e: Evaluation, at: nat)
    requires x < |e.locals|
  {
    match e.result
    case Val(v) => r.Next? && r.s.pc == at && r.s.locals == e.locals[x := v]
    case TypeMiss => r == Halt(Aborted, e.locals)
    case Inexact => r == Halt(Outside, e.locals)
  }

  lemma EvalSum(l: Expr, x: nat, locals: seq<Value>)
    requires LocalsIn(l, |locals|) && x < |locals|
    ensures
      var a, e := Eval(l, locals), Eval(Bin(Add, l, Local(x)), locals);
      && (!a.result.Val? ==> e == a)
      && (a.result.Val? ==> e == Evaluation(Alu(Add, a.result.v, a.locals[x]), a.locals))
  {
    hide Alu;
  }

  lemma AddCommutes(a: Value, b: Value)
    ensures Alu(Add, a, b) == Alu(Add, b, a)
  {
  }

  lemma StoreAt(code: seq<RegInstruction>, hs: seq<nat>, j: nat)
    requires StackShaped(code, hs) && j < |code| && code[j].op.StoreLoc?
    ensures hs[j] >= 1 && code[j].src1 == hs[j] - 1
  {
    assert Shaped(code, hs, j);
  }

  /** `x := e`. */
  lemma RunAssign(code: seq<RegInstruction>, cpool: seq<Value>, hs: seq<nat>, x: nat, e: Expr, s: VmState)
    requires StackShaped(code, hs)
    requires Codes(code, s.pc, e) && Assignable(e) && LocalsIn(e, |s.locals|) && x < |s.locals|
    requires s.pc + Size(e) < |code| && code[s.pc + Size(e)].op.StoreLoc? && code[s.pc + Size(e)].dst == x
    ensures Stores(Run(Vm(code, cpool), s, Size(e) + 1), x, Eval(e, s.locals), s.pc + Size(e) + 1)
  {
    hide Alu, RegI32, VmStep, Run, Vm, Eval, Codes, Size, Shaped, Leaves, Stores, Assignable, LocalsIn;
    StoreAt(code, hs, s.pc + Size(e));
    LeavesOnTop(code, cpool, hs, e, s);
    StoreAfter(code, cpool, x, Eval(e, s.locals), s, Size(e), hs[s.pc + Size(e)] - 1);
  }

  lemma LeavesOnTop(code: seq<RegInstruction>, cpool: seq<Value>, hs: seq<nat>, e: Expr, s: VmState)
    requires StackShaped(code, hs)
    requires Codes(code, s.pc, e) && Assignable(e) && LocalsIn(e, |s.locals|)
    requires s.pc + Size(e) < |hs| && hs[s.pc + Size(e)] >= 1
    ensures Leaves(Run(Vm(code, cpool), s, Size(e)), Eval(e, s.locals), s.pc + Size(e), hs[s.pc + Size(e)] - 1)
  {
    hide Alu, RegI32, VmStep, Run, Vm, Eval, Codes, Size, Shaped, Leaves;
    if NoSwap(e) {
      RunExpr(code, cpool, hs, e, s);
    } else {
      assert e == Bin(Add, e.l, Local(e.r.x));
      CodesParts(code, s.pc, e);
      CodesParts(code, s.pc + Size(e.l), e.r);
      RunSum(code, cpool, hs, e.l, e.r.x, s);
    }
  }

  lemma StoreAfter(code: seq<RegInstruction>, cpool: seq<Value>, x: nat, e: Evaluation, s: VmState, n: nat, h: nat)
    requires |e.locals| == |s.locals| && x < |s.locals|
    requires Leaves(Run(Vm(code, cpool), s, n), e, s.pc + n, h)
    requires s.pc + n < |code| && code[s.pc + n].op.StoreLoc? && code[s.pc + n].dst == x && code[s.pc + n].src1 == h
    ensures Stores(Run(Vm(code, cpool), s, n + 1), x, e, s.pc + n + 1)
  {
    hide Alu, RegI32;
    var step := Vm(code, cpool);
    if e.result.Val? {
      RunThen(step, s, n, Run(step, s, n).s);
    } else {
      RunAdd(step, s, n, 1);
    }
  }

  lemma HeightsCover(code: seq<RegInstruction>, hs: seq<nat>)
    requires StackShaped(code, hs)
    ensures |hs| == |code| + 1 && forall j :: 0 <= j < |hs| ==> hs[j] <= REGISTERS
  {
  }

  /** `l + x` leaves its value on top, whichever way the operands stand. */
  lemma RunSum(code: seq<RegInstruction>, cpool: seq<Value>, hs: seq<nat>, l: Expr, x: nat, s: VmState)
    requires StackShaped(code, hs)
    requires Codes(code, s.pc, Bin(Add, l, Local(x))) && NoSwap(l) && LocalsIn(l, |s.locals|) && x < |s.locals|
    ensures
      var n := Size(l) + 2;
      hs[s.pc + n] >= 1 &&
      Leaves(Run(Vm(code, cpool), s, n), Eval(Bin(Add, l, Local(x)), s.locals), s.pc + n, hs[s.pc + n] - 1)
  {
    hide Alu, RegI32, VmStep, Run, Vm, Codes, Size, NoSwap, Eval, LocalsIn, Shaped, StackShaped;
    HeightsCover(code, hs);
    EvalSum(l, x, s.locals);
    CodesParts(code, s.pc, Bin(Add, l, Local(x)));
    CodesParts(code, s.pc + Size(l), Local(x));
    var step, j, h := Vm(code, cpool), s.pc, hs[s.pc];
    RunExpr(code, cpool, hs, l, s);
    EndHeight(code, hs, j, l);
    var k := j + Size(l);
    SumOperands(code, hs, k);
    if Eval(l, s.locals).result.Val? {
      var a, s1 := Eval(l, s.locals).result.v, Run(step, s, Size(l)).s;
      var b := s1.locals[x];
      var s2 := Put(s1, h + 1, b);
      LeafStep(code, cpool, s1);
      RunBoth(step, s, Size(l), s1, 1);
      RunThen(step, s, Size(l) + 1, s2);
      AddCommutes(a, b);
      if code[k + 1].dst == h {
        FinishBinary(code, cpool, s2, Add, h, a, b);
      } else {
        FinishSwapped(code, cpool, s2, h, a, b);
      }
    } else {
      RunAdd(step, s, Size(l), 2);
    }
  }

  /** A load and the sum after it, in either form. */
  lemma SumOperands(code: seq<RegInstruction>, hs: seq<nat>, k: nat)
    requires StackShaped(code, hs) && k + 1 < |code| && hs[k] >= 1
    requires code[k].op.LoadLoc? && code[k + 1].op == Binary(Add)
    ensures
      var h, add := hs[k] - 1, code[k + 1];
      && code[k].dst == h + 1
      && (|| (add.dst == h && add.src1 == h && add.src2 == h + 1 && hs[k + 2] == h + 1)
          || (add.dst == h + 1 && add.src1 == h + 1 && add.src2 == h && hs[k + 2] == h + 2))
  {
    assert Shaped(code, hs, k) && Shaped(code, hs, k + 1);
  }

  lemma FinishSwapped(code: seq<RegInstruction>, cpool: seq<Value>, s: VmState, h: nat, a: Value, b: Value)
    requires s.pc < |code| && h + 1 < REGISTERS
    requires code[s.pc].op == Binary(Add) && code[s.pc].dst == h + 1 && code[s.pc].src1 == h + 1 && code[s.pc].src2 == h
    requires s.regs[h] == a && s.regs[h + 1] == b
    ensures Vm(code, cpool)(s) == PutResult(s, h + 1, Alu(Add, b, a))
  {
    hide Alu, RegI32;
  }

  /** `if (e) ... ` : the branch register holds the condition. */
  lemma RunBranch(code: seq<RegInstruction>, cpool: seq<Value>, hs: seq<nat>, e: Expr, s: VmState, cond: bool)
    requires StackShaped(code, hs)
    requires Codes(code, s.pc, e) && NoSwap(e) && LocalsIn(e, |s.locals|)
    requires s.pc + Size(e) < |code| && code[s.pc + Size(e)].op.IfFalse?
    requires Eval(e, s.locals) == Evaluation(Val(Bool(cond)), s.locals)
    ensures
      var r := Run(Vm(code, cpool), s, Size(e) + 1);
      r.Next? && r.s.locals == s.locals && r.s.pc == if cond then s.pc + Size(e) + 1 else code[s.pc + Size(e)].src1
  {
    hide Alu, RegI32, Codes, Eval;
    var n := Size(e);
    RunExpr(code, cpool, hs, e, s);
    assert Shaped(code, hs, s.pc + n);
    RunThen(Vm(code, cpool), s, n, Run(Vm(code, cpool), s, n).s);
  }

  lemma RunReturn(code: seq<RegInstruction>, cpool: seq<Value>, hs: seq<nat>, x: nat, s: VmState)
    requires StackShaped(code, hs)
    requires Codes(code, s.pc, Local(x)) && x < |s.locals|
    requires s.pc + 1 < |code| && code[s.pc + 1].op.Return?
    ensures Run(Vm(code, cpool), s, 2) == Halt(Returned(s.locals[x]), s.locals)
  {
    hide Alu, RegI32, Codes;
    RunExpr(code, cpool, hs, Local(x), s);
    assert Shaped(code, hs, s.pc + 1);
    RunThen(Vm(code, cpool), s, 1, Run(Vm(code, cpool), s, 1).s);
  }

  lemma RunJump(code: seq<RegInstruction>, cpool: seq<Value>, s: VmState, n: nat, t: VmState)
    requires Run(Vm(code, cpool), s, n) == Next(t)
    requires t.pc < |code| && code[t.pc].op.Jmp?
    ensures Run(Vm(code, cpool), s, n + 1) == Next(t.(pc := code[t.pc].src1))
  {
    hide Alu, RegI32;
    RunThen(Vm(code, cpool), s, n, t);
  }

  /** Local indices fit the 8-bit field that stores use. */
  predicate NarrowLoads(code: seq<RegInstruction>) {
    forall j :: 0 <= j < |code| && code[j].op.LoadLoc? ==> code[j].src1 < 0x100
  }

  predicate StoresIn(code: seq<RegInstruction>, n: nat) {
    forall j :: 0 <= j < |code| && (code[j].op.StoreLoc? || code[j].op.SetLoc?) ==> code[j].dst < n
  }

  lemma Narrow(x: uint16)
    ensures x < 0x100 ==> U8(x) == x
  {
  }

  /** `x := e` stands at `at`. */
  predicate AssignAt(code: seq<RegInstruction>, at: nat, x: nat, e: Expr) {
    && Codes(code, at, e) && Assignable(e)
    && at + Size(e) < |code| && code[at + Size(e)].op.StoreLoc? && code[at + Size(e)].dst == x
  }
}
