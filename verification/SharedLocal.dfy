/** A branchy loop with its counter in a local of choice. With one local for sum
    and counter the recognizer should not have folded it; nor, with two, when the
    counter has to pass the int32 range to end the loop. */
module SharedLocal {
  import opened JsValues
  import opened Machines
  import opened RegisterCode
  import opened RegisterVm
  import opened StackMachine
  import opened Translator
  import opened StackShape
  import opened CountedLoop
  import opened BranchyLoop
  import opened BranchyLoopRuns
  import opened BranchyProgram
  import opened Assembly
  import opened NativeCompiler
  import opened Dispatch
  import opened WrittenCalls

  /** `s = 0; for (i = 1; i <= limit; i++) if (i % 2 === 0) s += i % 1;
      else if (i % 2 === 0) s -= i % 1; else s += (i & 15) - i % 1; return s`,
      with `s` in local 0 and `i` in the given local. */
  function Loop(i: byte, limit: int32): Branchy {
    Branchy(0, 0, i, 1, limit, 2, 1, 2, 1, 15, 1)
  }

  lemma ProgramFold(i: byte)
    ensures FoldBranchy(Program(Loop(i, 1))) == Some(Int(1))
  {
    hide Program, HeadShape, FirstShape, SecondShape, ElseShape, TailShape, RegI32;
    ProgramShape(Loop(i, 1));
    var l := Loop(i, 1);
    assert Term(l, 1) == 1 && SumAt(l, 0) == 0;
  }

  /** With a counter of its own the fold is right. */
  lemma SeparateLocalsFold(cpool: seq<Value>, locals: seq<Value>) returns (v: Value, final: seq<Value>)
    requires |locals| >= 2
    ensures FoldBranchy(Program(Loop(1, 1))) == Some(Int(1))
    ensures Halts(Vm(Program(Loop(1, 1)), cpool), VmStart(locals), Returned(v), final) && SameValue(v, Int(1))
  {
    hide Program, StackShaped, Vm, BranchyShape;
    ProgramFold(1);
    ProgramShape(Loop(1, 1));
    var hs := ProgramShaped(Loop(1, 1), 2);
    SmallSums();
    var exit, end := BranchyFoldIsExact(Program(Loop(1, 1)), cpool, hs, locals);
    v, final := exit.v, end;
  }

  lemma SmallSums()
    ensures SafeSums(Loop(1, 1), 1, 1)
  {
    var l := Loop(1, 1);
    assert Term(l, 1) == 1 && SumAt(l, 0) == 0;
  }

  /** The else branch doubles the counter. */
  lemma DoublingEval(locals: seq<Value>)
    requires |locals| >= 1 && locals[0] == Int(1)
    ensures LocalsIn(ElseExpr(Loop(0, 1)), |locals|)
    ensures Eval(ElseExpr(Loop(0, 1)), locals) == Evaluation(Val(Int(2)), locals)
  {
    hide Eval;
    var l := Loop(0, 1);
    MaskEval(l, locals, 1);
    ResidueEval(l, l.modE, locals, 1);
    EvalBin(Sub, MaskExpr(l), Residue(l, l.modE), locals, Int(1), Int(0));
    EvalLeaf(Local(0), locals);
    EvalBin(Add, Local(0), Bin(Sub, MaskExpr(l), Residue(l, l.modE)), locals, Int(1), Int(1));
  }

  /** The recognizer folds this loop to 1; the machine returns 3. */
  lemma FoldAcceptsASharedLocal(cpool: seq<Value>, locals: seq<Value>) returns (final: seq<Value>)
    requires |locals| >= 1
    ensures FoldBranchy(Program(Loop(0, 1))) == Some(Int(1))
    ensures Halts(Vm(Program(Loop(0, 1)), cpool), VmStart(locals), Returned(Int(3)), final)
  {
    hide Program, StackShaped, VmStep, Vm, Run, Codes, Eval, LocalsIn, AssignAt, BranchyShape, RegI32, Alu;
    ProgramFold(0);
    ProgramShape(Loop(0, 1));
    var hs := ProgramShaped(Loop(0, 1), 1);
    var code, l := Program(Loop(0, 1)), Loop(0, 1);
    LaidOut(code, l);
    var step, s0 := Vm(code, cpool), VmStart(locals);
    var s4 := SharedStart(code, cpool, hs, l, s0);
    var s44 := SharedRound(code, cpool, hs, l, s4);
    RunBoth(step, s0, 4, s4, 26);
    var n := RunInc(code, cpool, hs, l, 2, s44);
    RunBoth(step, s0, 30, s44, n);
    var s := Run(step, s44, n).s;
    Sizes(l, 0);
    HeadEval(l, 3, s.locals);
    RunBranch(code, cpool, hs, ExitCond(l), s, false);
    RunBoth(step, s0, 30 + n, s, 4);
    var t := Run(step, s, 4).s;
    RunReturn(code, cpool, hs, 0, t);
    RunBoth(step, s0, 34 + n, t, 2);
    final := t.locals;
  }

  lemma SharedStart(code: seq<RegInstruction>, cpool: seq<Value>, hs: seq<nat>, l: Branchy, s0: VmState) returns (s4: VmState)
    requires StackShaped(code, hs) && l == Loop(0, 1) && BranchyLaidOut(code, l) && |s0.locals| >= 1 && s0.pc == 0
    ensures Run(Vm(code, cpool), s0, 4) == Next(s4) && s4.pc == 4 && |s4.locals| == |s0.locals| && s4.locals[0] == Int(1)
  {
    hide StackShaped, VmStep, Vm, Run, Codes, Eval, LocalsIn, Alu;
    ConstEval(0, s0.locals);
    RunAssign(code, cpool, hs, 0, Const(0), s0);
    var s2 := Run(Vm(code, cpool), s0, 2).s;
    ConstEval(1, s2.locals);
    RunAssign(code, cpool, hs, 0, Const(1), s2);
    RunBoth(Vm(code, cpool), s0, 2, s2, 2);
    s4 := Run(Vm(code, cpool), s2, 2).s;
  }

  lemma SharedRound(code: seq<RegInstruction>, cpool: seq<Value>, hs: seq<nat>, l: Branchy, s: VmState) returns (t: VmState)
    requires StackShaped(code, hs) && l == Loop(0, 1) && BranchyLaidOut(code, l)
    requires |s.locals| >= 1 && s.pc == 4 && s.locals[0] == Int(1)
    ensures Run(Vm(code, cpool), s, 26) == Next(t) && t.pc == 44 && |t.locals| == |s.locals| && t.locals[0] == Int(2)
  {
    hide StackShaped, VmStep, Vm, Run, Codes, Eval, LocalsIn, Alu;
    var step := Vm(code, cpool);
    Sizes(l, l.divA);
    Sizes(l, l.modE);
    HeadEval(l, 1, s.locals);
    RunBranch(code, cpool, hs, ExitCond(l), s, true);
    var s1 := Run(step, s, 4).s;
    TestEval(l, 2, s1.locals, 1);
    RunBranch(code, cpool, hs, MultipleTest(l, 2), s1, false);
    RunBoth(step, s, 4, s1, 6);
    var s2 := Run(step, s1, 6).s;
    RunBranch(code, cpool, hs, MultipleTest(l, 2), s2, false);
    RunBoth(step, s, 10, s2, 6);
    var s3 := Run(step, s2, 6).s;
    DoublingEval(s3.locals);
    RunAssign(code, cpool, hs, 0, ElseExpr(l), s3);
    RunBoth(step, s, 16, s3, 10);
    t := Run(step, s3, 10).s;
  }

  // ---------------------------------------------------------------------------
  // The calls
  // ---------------------------------------------------------------------------

  /** The bytecode returns 3; a call of it answers 1. */
  lemma SharedLocalShows(cpool: seq<Value>, locals: seq<Value>) returns (final: seq<Value>)
    requires |locals| >= 1
    ensures Halts(Stack(List(ProgramBytes(Loop(0, 1))), cpool), StackStart(locals), Returned(Int(3)), final)
    ensures DispatchEnds(ProgramBytes(Loop(0, 1)), cpool, locals, Returned(Int(1)), locals)
  {
    hide ProgramText, BytesOf, CodeOf, WellWritten, Stack, Vm, List, NativeFor, FoldBranchy, NumberCode, DispatchEnds;
    ProgramIsWritten(Loop(0, 1));
    final := FoldAcceptsASharedLocal(cpool, locals);
    WrittenMeans(ProgramText(Loop(0, 1)), cpool, locals, Returned(Int(3)), final);
    ProgramCompiles(Loop(0, 1), Int(1));
    WrittenFolds(ProgramText(Loop(0, 1)), Int(1), cpool, locals);
  }

  /** With the largest limit the bytecode's own run gives up on the counter; a
      call answers with the sum all the same. */
  lemma LargestLimitShows(cpool: seq<Value>, locals: seq<Value>) returns (v: Value, final: seq<Value>)
    requires |locals| >= 2
    ensures FoldBranchy(Program(Loop(1, INT32_MAX))) == Some(v)
    ensures Halts(Stack(List(ProgramBytes(Loop(1, INT32_MAX))), cpool), StackStart(locals), Aborted, final)
    ensures DispatchEnds(ProgramBytes(Loop(1, INT32_MAX)), cpool, locals, Returned(v), locals)
  {
    hide ProgramText, BytesOf, CodeOf, WellWritten, Stack, Vm, List, NativeFor, FoldBranchy, NumberCode, DispatchEnds, StackShaped, BranchyShape;
    ProgramIsWritten(Loop(1, INT32_MAX));
    ProgramShape(Loop(1, INT32_MAX));
    var hs := ProgramShaped(Loop(1, INT32_MAX), 2);
    var exit, end := SmallLoopFolds(Program(Loop(1, INT32_MAX)), cpool, hs, locals);
    final := end;
    v := FoldBranchy(Program(Loop(1, INT32_MAX))).value;
    WrittenMeans(ProgramText(Loop(1, INT32_MAX)), cpool, locals, Aborted, final);
    ProgramCompiles(Loop(1, INT32_MAX), v);
    WrittenFolds(ProgramText(Loop(1, INT32_MAX)), v, cpool, locals);
  }
}
