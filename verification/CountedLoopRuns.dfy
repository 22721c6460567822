/** The folded number is what the register machine returns. */
module CountedLoopRuns {
  import opened JsValues
  import opened Machines
  import opened RegisterCode
  import opened RegisterVm
  import opened Translator
  import opened StackShape
  import opened CountedLoop
  import opened CountedLoopTurns

  // ---------------------------------------------------------------------------
  // Reading the recognized loop back as statements
  // ---------------------------------------------------------------------------

  ghost predicate LoopLaidOut(code: seq<RegInstruction>, l: Counted) {
    && l.body == l.start + 4 && l.body <= l.inc && l.inc + 4 == l.backedge < l.exit && l.exit + 1 < |code|
    && code[l.backedge].op.Jmp? && code[l.backedge].src1 == l.start
    && IsComparison(l.cmp) && l.countLoc != l.iLoc
    && Codes(code, l.start, Bin(l.cmp, Local(l.iLoc), Const(l.limit)))
    && code[l.start + 3].op.IfFalse? && code[l.start + 3].src1 == l.exit
    && Codes(code, l.exit, Local(l.countLoc)) && code[l.exit + 1].op.Return?
  }

  ghost predicate InitsLaidOut(code: seq<RegInstruction>, l: Counted) {
    l.start <= |code| &&
    ScanInits(code, 0, l.start, l.iLoc, Inits(None, 0, None)) == Some(Inits(Some(l.countLoc), l.countInit, Some(l.iInit)))
  }

  lemma {:induction false} ScanKeepsApart(code: seq<RegInstruction>, idx: nat, start: nat, iLoc: byte, acc: Inits)
    requires start <= |code| && acc.countLoc != Some(iLoc)
    ensures ScanInits(code, idx, start, iLoc, acc).Some? ==>
      ScanInits(code, idx, start, iLoc, acc).value.countLoc != Some(iLoc)
    decreases start - idx
  {
    hide RegI32;
    if idx + 1 < start && AddInit(acc, code[idx], code[idx + 1], iLoc).Some? {
      ScanKeepsApart(code, idx + 2, start, iLoc, AddInit(acc, code[idx], code[idx + 1], iLoc).value);
    }
  }

  lemma RecognizedLayout(code: seq<RegInstruction>, l: Counted)
    requires Recognize(code) == Some(l) && NarrowLoads(code)
    ensures LoopLaidOut(code, l) && InitsLaidOut(code, l)
    ensures (ShortUpdate(code, l.body, l.countLoc, l.iLoc) == Some(l.update) && l.inc == l.body + 4)
         || (l.body + 8 <= |code| && LongUpdate(code, l.body, l.countLoc, l.iLoc) == Some(l.update) && l.inc == l.body + 8)
    ensures StepOf(code, l.inc, l.iLoc) == Some(l.step)
  {
    hide RegI32, ShortUpdate, LongUpdate, StepOf, ScanInits, Codes;
    var backedge := FirstLoopJump(code, 0).value;
    var start: nat := code[backedge].src1;
    var iLoc := U8(code[start].src1);
    ScanKeepsApart(code, 0, start, iLoc, Inits(None, 0, None));
    var inits := ScanInits(code, 0, start, iLoc, Inits(None, 0, None)).value;
    assert RecognizeBody(code, start, backedge, inits) == Some(l);
    Narrow(code[start].src1);
    Narrow(code[l.exit].src1);
    BuildLeaf(code, start);
    BuildLeaf(code, start + 1);
    BuildBin(code, start, l.cmp, Local(l.iLoc), Const(l.limit));
    BuildLeaf(code, l.exit);
  }

  /** The accumulator update as an expression. */
  predicate BodyForm(l: Counted, e: Expr) {
    match l.update
    case ConstStep(c) =>
      e == Bin(Add, Local(l.countLoc), Const(c)) || e == Bin(Add, Const(c), Local(l.countLoc))
    case Induction => e == Bin(Add, Local(l.iLoc), Local(l.countLoc))
    case Affine(mul, add) =>
      e == Bin(Add, Bin(Add, Local(l.countLoc), Bin(Mul, Local(l.iLoc), Const(mul))), Const(add))
  }

  predicate IncForm(l: Counted, e: Expr) {
    e == Bin(Add, Const(l.step), Local(l.iLoc)) || e == Bin(Add, Local(l.iLoc), Const(l.step))
  }

  lemma ShortBody(code: seq<RegInstruction>, l: Counted) returns (e: Expr)
    requires NarrowLoads(code) && l.body + 4 <= |code|
    requires ShortUpdate(code, l.body, l.countLoc, l.iLoc) == Some(l.update)
    ensures BodyForm(l, e) && AssignAt(code, l.body, l.countLoc, e) && Size(e) == 3
  {
    hide RegI32, Codes;
    var a, b := code[l.body], code[l.body + 1];
    Narrow(a.src1);
    Narrow(b.src1);
    BuildLeaf(code, l.body);
    BuildLeaf(code, l.body + 1);
    var left, right;
    if LoadsLocal(a, l.countLoc) && b.op.PushI32? && code[l.body + 2].dst == a.dst {
      left, right := Local(l.countLoc), Const(RegI32(b));
    } else if a.op.PushI32? {
      left, right := Const(RegI32(a)), Local(l.countLoc);
    } else {
      left, right := Local(l.iLoc), Local(l.countLoc);
    }
    e := Bin(Add, left, right);
    assert Size(left) == 1 && Size(right) == 1 && NoSwap(left) && NoSwap(right);
    BuildBin(code, l.body, Add, left, right);
    assert Assignable(e);
  }

  lemma BinForm(op: BinOp, left: Expr, right: Expr)
    requires NoSwap(left) && NoSwap(right) && !(op.Add? && right.Local?)
    ensures NoSwap(Bin(op, left, right)) && Size(Bin(op, left, right)) == Size(left) + Size(right) + 1
  {
  }

  lemma LongBody(code: seq<RegInstruction>, l: Counted) returns (e: Expr)
    requires NarrowLoads(code) && l.body + 8 <= |code|
    requires LongUpdate(code, l.body, l.countLoc, l.iLoc) == Some(l.update)
    ensures BodyForm(l, e) && AssignAt(code, l.body, l.countLoc, e) && Size(e) == 7
  {
    hide RegI32, Codes;
    var product := Bin(Mul, Local(l.iLoc), Const(l.update.mul));
    var sum := Bin(Add, Local(l.countLoc), product);
    e := Bin(Add, sum, Const(l.update.add));
    Narrow(code[l.body].src1);
    Narrow(code[l.body + 1].src1);
    BuildLeaf(code, l.body);
    BuildLeaf(code, l.body + 1);
    BuildLeaf(code, l.body + 2);
    BuildLeaf(code, l.body + 5);
    BuildBin(code, l.body + 1, Mul, Local(l.iLoc), Const(l.update.mul));
    BuildBin(code, l.body, Add, Local(l.countLoc), product);
    BuildBin(code, l.body, Add, sum, Const(l.update.add));
    BinForm(Mul, Local(l.iLoc), Const(l.update.mul));
    BinForm(Add, Local(l.countLoc), product);
    BinForm(Add, sum, Const(l.update.add));
  }

  lemma IncBody(code: seq<RegInstruction>, l: Counted) returns (e: Expr)
    requires NarrowLoads(code) && l.inc + 4 <= |code|
    requires StepOf(code, l.inc, l.iLoc) == Some(l.step)
    ensures IncForm(l, e) && AssignAt(code, l.inc, l.iLoc, e) && Size(e) == 3
  {
    hide RegI32, Codes;
    Narrow(code[l.inc].src1);
    Narrow(code[l.inc + 1].src1);
    BuildLeaf(code, l.inc);
    BuildLeaf(code, l.inc + 1);
    var left, right := Local(l.iLoc), Const(l.step);
    if code[l.inc].op.PushI32? {
      left, right := right, left;
    }
    e := Bin(Add, left, right);
    assert Size(left) == 1 && Size(right) == 1 && NoSwap(left) && NoSwap(right);
    BuildBin(code, l.inc, Add, left, right);
    assert Assignable(e);
  }

  // ---------------------------------------------------------------------------
  // One round
  // ---------------------------------------------------------------------------

  /** At the loop head with `k` rounds done. */
  predicate AtHead(l: Counted, k: nat, s: VmState) {
    && s.pc == l.start
    && l.iLoc < |s.locals| && l.countLoc < |s.locals|
    && s.locals[l.iLoc].Int? && s.locals[l.iLoc].i == InductionAt(l, k)
    && IsExact(s.locals[l.countLoc]) && Number(s.locals[l.countLoc]) == CountAt(l, k)
  }

  lemma BodyEval(l: Counted, e: Expr, k: nat, locals: seq<Value>)
    requires BodyForm(l, e)
    requires AtHead(l, k, VmState(l.start, FreshRegisters(), locals))
    ensures LocalsIn(e, |locals|) && Eval(e, locals).locals == locals
    ensures SafeRound(l, k) ==>
      var r := Eval(e, locals).result;
      r.Val? && IsExact(r.v) && Number(r.v) == CountAt(l, k + 1)
    ensures !SafeRound(l, k) ==> Eval(e, locals).result == Inexact
  {
    hide Alu, Eval;
    var i, c := locals[l.iLoc], locals[l.countLoc];
    EvalLeaf(Local(l.iLoc), locals);
    EvalLeaf(Local(l.countLoc), locals);
    match l.update
    case ConstStep(step) =>
      EvalLeaf(Const(step), locals);
      AddIsExact(c, Int(step));
      if e.l.Local? {
        EvalBin(Add, e.l, e.r, locals, c, Int(step));
      } else {
        EvalBin(Add, e.l, e.r, locals, Int(step), c);
      }
    case Induction =>
      AddIsExact(i, c);
      EvalBin(Add, e.l, e.r, locals, i, c);
    case Affine(mul, add) =>
      AffineEval(l, e, k, locals, mul, add);
  }

  lemma AffineEval(l: Counted, e: Expr, k: nat, locals: seq<Value>, mul: int32, add: int32)
    requires l.update == Affine(mul, add) && BodyForm(l, e)
    requires AtHead(l, k, VmState(l.start, FreshRegisters(), locals))
    ensures LocalsIn(e, |locals|) && Eval(e, locals).locals == locals
    ensures SafeRound(l, k) ==>
      var r := Eval(e, locals).result;
      r.Val? && IsExact(r.v) && Number(r.v) == CountAt(l, k + 1)
    ensures !SafeRound(l, k) ==> Eval(e, locals).result == Inexact
  {
    hide Alu, Eval;
    var i, c := locals[l.iLoc], locals[l.countLoc];
    EvalLeaf(Local(l.iLoc), locals);
    EvalLeaf(Local(l.countLoc), locals);
    EvalLeaf(Const(mul), locals);
    EvalLeaf(Const(add), locals);
    var product := Bin(Mul, Local(l.iLoc), Const(mul));
    var sum := Bin(Add, Local(l.countLoc), product);
    MulIsExact(i, mul);
    EvalBin(Mul, Local(l.iLoc), Const(mul), locals, i, Int(mul));
    if Alu(Mul, i, Int(mul)).Val? {
      var p := Alu(Mul, i, Int(mul)).v;
      AddIsExact(c, p);
      EvalBin(Add, Local(l.countLoc), product, locals, c, p);
      if Alu(Add, c, p).Val? {
        var q := Alu(Add, c, p).v;
        AddIsExact(q, Int(add));
        EvalBin(Add, sum, Const(add), locals, q, Int(add));
      } else {
        EvalBinFails(Add, sum, Const(add), locals);
      }
    } else {
      EvalRightFails(Add, Local(l.countLoc), product, locals, c);
      EvalBinFails(Add, sum, Const(add), locals);
    }
  }

  lemma MulIsExact(a: Value, mul: int32)
    requires a.Int?
    ensures Alu(Mul, a, Int(mul)).Val? <==> IsSafe(a.i * mul)
    ensures Alu(Mul, a, Int(mul)).Val? ==>
      IsExact(Alu(Mul, a, Int(mul)).v) && Number(Alu(Mul, a, Int(mul)).v) == a.i * mul
    ensures !Alu(Mul, a, Int(mul)).Val? ==> Alu(Mul, a, Int(mul)).Inexact?
  {
  }

  /** While the comparison holds a round leads to the next head, unless an
      intermediate needs rounding. */
  lemma OneRound(code: seq<RegInstruction>, cpool: seq<Value>, hs: seq<nat>, l: Counted, body: Expr, inc: Expr, k: nat, s: VmState)
    returns (n: nat)
    requires StackShaped(code, hs) && LoopLaidOut(code, l)
    requires BodyForm(l, body) && AssignAt(code, l.body, l.countLoc, body) && l.body + Size(body) + 1 == l.inc
    requires IncForm(l, inc) && AssignAt(code, l.inc, l.iLoc, inc) && Size(inc) == 3
    requires AtHead(l, k, s)
    requires Holds(l.cmp, InductionAt(l, k), l.limit) && IsInt32(InductionAt(l, k + 1))
    ensures
      var r := Run(Vm(code, cpool), s, n);
      if SafeRound(l, k) then r.Next? && AtHead(l, k + 1, r.s) && |r.s.locals| == |s.locals|
      else r.Halt? && r.exit == Outside
  {
    hide Alu, RegI32, VmStep, Run, Vm, Codes, StackShaped;
    var step := Vm(code, cpool);
    var cond := Bin(l.cmp, Local(l.iLoc), Const(l.limit));
    CondEval(l, k, s.locals);
    RunBranch(code, cpool, hs, cond, s, true);
    var s1 := Run(step, s, 4).s;
    BodyEval(l, body, k, s1.locals);
    RunAssign(code, cpool, hs, l.countLoc, body, s1);
    RunBoth(step, s, 4, s1, Size(body) + 1);
    n := 4 + (Size(body) + 1);
    if SafeRound(l, k) {
      var s2 := Run(step, s1, Size(body) + 1).s;
      IncEval(l, inc, k, s2.locals);
      RunAssign(code, cpool, hs, l.iLoc, inc, s2);
      RunBoth(step, s, n, s2, 4);
      var s3 := Run(step, s2, 4).s;
      n := n + 4;
      RunJump(code, cpool, s, n, s3);
      n := n + 1;
    }
  }

  lemma CondEval(l: Counted, k: nat, locals: seq<Value>)
    requires IsComparison(l.cmp)
    requires AtHead(l, k, VmState(l.start, FreshRegisters(), locals))
    ensures
      var cond := Bin(l.cmp, Local(l.iLoc), Const(l.limit));
      && Size(cond) == 3 && NoSwap(cond) && LocalsIn(cond, |locals|)
      && Eval(cond, locals) == Evaluation(Val(Bool(Holds(l.cmp, InductionAt(l, k), l.limit))), locals)
  {
  }

  lemma IncEval(l: Counted, e: Expr, k: nat, locals: seq<Value>)
    requires IncForm(l, e) && l.iLoc < |locals|
    requires locals[l.iLoc].Int? && locals[l.iLoc].i == InductionAt(l, k) && IsInt32(InductionAt(l, k + 1))
    ensures LocalsIn(e, |locals|) && Eval(e, locals) == Evaluation(Val(Int(InductionAt(l, k + 1))), locals)
  {
    assert InductionAt(l, k + 1) == InductionAt(l, k) + l.step;
  }

  // ---------------------------------------------------------------------------
  // Before and after the loop
  // ---------------------------------------------------------------------------

  /** The locals hold what the scan has recorded. */
  predicate Initialized(acc: Inits, iLoc: byte, locals: seq<Value>) {
    && (acc.iInit.Some? ==> iLoc < |locals| && locals[iLoc] == Int(acc.iInit.value))
    && (acc.countLoc.Some? ==>
          acc.countLoc.value != iLoc && acc.countLoc.value < |locals| && locals[acc.countLoc.value] == Int(acc.countInit))
  }

  lemma {:induction false} RunInits(code: seq<RegInstruction>, cpool: seq<Value>, hs: seq<nat>, start: nat, iLoc: byte,
                                    idx: nat, acc: Inits, s: VmState) returns (t: VmState)
    requires StackShaped(code, hs) && StoresIn(code, |s.locals|)
    requires idx <= start <= |code| && s.pc == idx && Initialized(acc, iLoc, s.locals)
    requires ScanInits(code, idx, start, iLoc, acc).Some?
    ensures Run(Vm(code, cpool), s, start - idx) == Next(t)
    ensures t.pc == start && |t.locals| == |s.locals|
    ensures Initialized(ScanInits(code, idx, start, iLoc, acc).value, iLoc, t.locals)
    decreases start - idx
  {
    hide Alu, RegI32, VmStep, Vm;
    var step := Vm(code, cpool);
    if idx + 1 < start {
      var push, store := code[idx], code[idx + 1];
      var next := AddInit(acc, push, store, iLoc).value;
      var e := Const(RegI32(push));
      assert Codes(code, idx, e);
      RunAssign(code, cpool, hs, store.dst, e, s);
      var s1 := Run(step, s, 2).s;
      assert Initialized(next, iLoc, s1.locals);
      t := RunInits(code, cpool, hs, start, iLoc, idx + 2, next, s1);
      RunBoth(step, s, 2, s1, start - (idx + 2));
    } else {
      t := s;
    }
  }

  lemma RunExit(code: seq<RegInstruction>, cpool: seq<Value>, hs: seq<nat>, l: Counted, k: nat, s: VmState)
    requires StackShaped(code, hs) && LoopLaidOut(code, l)
    requires AtHead(l, k, s) && !Holds(l.cmp, InductionAt(l, k), l.limit)
    ensures Run(Vm(code, cpool), s, 6) == Halt(Returned(s.locals[l.countLoc]), s.locals)
  {
    hide Alu, RegI32, VmStep, Run, Vm, Codes, StackShaped;
    var step := Vm(code, cpool);
    var cond := Bin(l.cmp, Local(l.iLoc), Const(l.limit));
    CondEval(l, k, s.locals);
    RunBranch(code, cpool, hs, cond, s, false);
    var s1 := Run(step, s, 4).s;
    RunReturn(code, cpool, hs, l.countLoc, s1);
    RunBoth(step, s, 4, s1, 2);
  }

  // ---------------------------------------------------------------------------
  // The whole loop
  // ---------------------------------------------------------------------------

  lemma {:induction false} RunRounds(code: seq<RegInstruction>, cpool: seq<Value>, hs: seq<nat>, l: Counted, body: Expr, inc: Expr,
                                     k: nat, n: nat, s: VmState)
    returns (m: nat)
    requires StackShaped(code, hs) && LoopLaidOut(code, l)
    requires BodyForm(l, body) && AssignAt(code, l.body, l.countLoc, body) && l.body + Size(body) + 1 == l.inc
    requires IncForm(l, inc) && AssignAt(code, l.inc, l.iLoc, inc) && Size(inc) == 3
    requires AtHead(l, k, s) && k <= n
    requires LeastFailing(l.iInit, l.limit, l.step, l.cmp, n) && IsInt32(InductionAt(l, n))
    ensures
      var r := Run(Vm(code, cpool), s, m);
      r.Halt? &&
      if SafeFrom(l, k, n) then r.exit.Returned? && IsExact(r.exit.v) && Number(r.exit.v) == CountAt(l, n)
      else r.exit == Outside
    decreases n - k
  {
    hide Alu, VmStep, Run, Vm, StackShaped, LoopLaidOut, AssignAt, Codes;
    var step := Vm(code, cpool);
    if k == n {
      RunExit(code, cpool, hs, l, k, s);
      m := 6;
    } else {
      CounterStaysInt32(l, k + 1, n);
      var a := OneRound(code, cpool, hs, l, body, inc, k, s);
      m := a;
      if SafeRound(l, k) {
        var s1 := Run(step, s, a).s;
        var b := RunRounds(code, cpool, hs, l, body, inc, k + 1, n, s1);
        RunBoth(step, s, a, s1, b);
        m := a + b;
      }
    }
  }

  /** The fold is exact: from any locals the machine returns the folded number,
      precisely when the intermediates of the first, the last and the turning
      rounds need no float64 rounding. */
  lemma CountedFoldIsExact(code: seq<RegInstruction>, cpool: seq<Value>, hs: seq<nat>, locals: seq<Value>) returns (exit: Exit, final: seq<Value>)
    requires StackShaped(code, hs) && NarrowLoads(code) && StoresIn(code, |locals|)
    requires FoldCounted(code).Some?
    ensures Halts(Vm(code, cpool), VmStart(locals), exit, final)
    ensures
      var l := Recognize(code).value;
      var n := Iterations(l.iInit, l.limit, l.step, l.cmp).value;
      if TurnsSafe(l, n) then exit.Returned? && SameValue(exit.v, FoldCounted(code).value)
      else exit == Outside
  {
    hide Alu, VmStep, Vm, StackShaped, TurnsSafe, SafeFrom;
    var l := Recognize(code).value;
    RecognizedLayout(code, l);
    IterationsIsLeast(l.iInit, l.limit, l.step, l.cmp);
    var n := Iterations(l.iInit, l.limit, l.step, l.cmp).value;
    ArithmeticNeverFails(l, n);
    SafeAtTurns(l, n);
    var body, inc := LoopBodies(code, l);
    var s := RunInits(code, cpool, hs, l.start, l.iLoc, 0, Inits(None, 0, None), VmStart(locals));
    assert AtHead(l, 0, s);
    var m := RunRounds(code, cpool, hs, l, body, inc, 0, n, s);
    RunBoth(Vm(code, cpool), VmStart(locals), l.start, s, m);
    var r := Run(Vm(code, cpool), s, m);
    exit, final := r.exit, r.locals;
  }

  lemma LoopBodies(code: seq<RegInstruction>, l: Counted) returns (body: Expr, inc: Expr)
    requires Recognize(code) == Some(l) && NarrowLoads(code)
    ensures BodyForm(l, body) && AssignAt(code, l.body, l.countLoc, body) && l.body + Size(body) + 1 == l.inc
    ensures IncForm(l, inc) && AssignAt(code, l.inc, l.iLoc, inc) && Size(inc) == 3
  {
    hide ShortUpdate, LongUpdate, StepOf, BodyForm, AssignAt, IncForm;
    RecognizedLayout(code, l);
    inc := IncBody(code, l);
    if l.inc == l.body + 4 && ShortUpdate(code, l.body, l.countLoc, l.iLoc) == Some(l.update) {
      body := ShortBody(code, l);
    } else {
      body := LongBody(code, l);
    }
  }
}
