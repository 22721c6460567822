/** A counted loop that is folded although its partial sums leave the safe integers. */
module LongSum {
  import opened JsValues
  import opened Machines
  import opened RegisterCode
  import opened RegisterVm
  import opened StackMachine
  import opened StackShape
  import opened Translator
  import opened CountedLoop
  import opened CountedLoopTurns
  import opened CountedLoopRuns
  import opened Assembly
  import opened NativeCompiler
  import opened Dispatch
  import opened WrittenCalls

  const FIRST: int32 := -2_000_000_000
  const LAST: int32 := 2_000_000_000

  /** `count = 0; for (i = FIRST; i <= LAST; i++) count += i; return count` */
  function LineAt(k: nat): StackOp {
    if k == 0 then PushInt(0)
    else if k == 1 then PutLoc(0)
    else if k == 2 then PushInt(FIRST)
    else if k == 3 then PutLoc(1)
    else if k == 4 then GetLoc(1)
    else if k == 5 then PushInt(LAST)
    else if k == 6 then Operate(Lte)
    else if k == 7 then Branch(false, 12)
    else if k == 8 then GetLoc(1)
    else if k == 9 then AddLoc(0)
    else if k == 10 then BumpLoc(1, 1)
    else if k == 11 then Goto(4)
    else if k == 12 then GetLoc(0)
    else Ret
  }

  function HeightAt(k: nat): nat {
    if k in {0, 2, 4, 8, 10, 11, 12, 14} then 0 else if k == 6 then 2 else 1
  }

  function StartAt(k: nat): nat {
    if k <= 9 then k else if k == 10 then 12 else k + 5
  }

  function ProgramText(): (t: Text)
    ensures |t.lines| == 14 && |t.heights| == |t.starts| == 15
    ensures forall k :: 0 <= k < 14 ==> t.lines[k] == LineAt(k)
    ensures forall k :: 0 <= k < 15 ==> t.heights[k] == HeightAt(k) && t.starts[k] == StartAt(k)
  {
    Text(seq(14, k requires 0 <= k < 14 => LineAt(k)),
         seq(15, k requires 0 <= k < 15 => HeightAt(k)), seq(15, k requires 0 <= k < 15 => StartAt(k)))
  }

  lemma LineIsWritten(k: nat)
    requires k < 14
    ensures LineFits(ProgramText(), k)
  {
    hide ProgramText;
  }

  lemma ProgramIsWritten()
    ensures WellWritten(ProgramText())
  {
    hide ProgramText, LineFits, LineAt;
    forall k: nat | k < 14
      ensures LineFits(ProgramText(), k)
    {
      LineIsWritten(k);
    }
  }

  function Program(): (code: seq<RegInstruction>)
    ensures |code| == 19
  {
    ProgramIsWritten();
    CodeOf(ProgramText())
  }

  function ProgramBytes(): Bytecode {
    ProgramIsWritten();
    BytesOf(ProgramText())
  }

  lemma CodeAt(k: nat)
    requires k < 14 && k != 9 && k != 10
    ensures 0 <= Target(LineAt(k)) < 14
    ensures Becomes(LineAt(k), HeightAt(k), StartAt(Target(LineAt(k))), Program()[StartAt(k)])
  {
    hide Becomes, Code, ProgramText;
    ProgramIsWritten();
    LineBecomes(ProgramText(), k);
  }

  /** Lines 9 and 10: the update and the step. */
  lemma BodyAt()
    ensures Program()[9] == RegInstruction(LoadLoc, 1, 0, 0) && Program()[10] == RegInstruction(Binary(Add), 1, 1, 0)
    ensures Program()[11] == RegInstruction(StoreLoc, 0, 1, 0) && IsBump(Program(), 12, 1, 1, 0)
  {
    hide IsBump, Code, ProgramText;
    ProgramIsWritten();
    LineAdds(ProgramText(), 9);
    LineBumps(ProgramText(), 10);
  }

  function Loop(): Counted {
    Counted(1, FIRST, LAST, Lte, 1, 0, 0, Induction, 4, 8, 12, 16, 17)
  }

  lemma InitsAre()
    ensures ScanInits(Program(), 0, 4, 1, Inits(None, 0, None)) == Some(Inits(Some(0), 0, Some(FIRST)))
  {
    hide RegI32, Program;
    var code, one, two := Program(), Inits(Some(0), 0, None), Inits(Some(0), 0, Some(FIRST));
    CodeAt(0);
    CodeAt(1);
    CodeAt(2);
    CodeAt(3);
    assert AddInit(Inits(None, 0, None), code[0], code[1], 1) == Some(one);
    assert AddInit(one, code[2], code[3], 1) == Some(two);
    assert ScanInits(code, 4, 4, 1, two) == Some(two);
    assert ScanInits(code, 2, 4, 1, one) == Some(two);
  }

  lemma HeadIs()
    ensures
      var code := Program();
      LoopHead(code, 4) && LoadsLocal(code[4], 1) && RegI32(code[5]) == LAST && code[6].op == Binary(Lte) && code[7].src1 == 17
  {
    hide RegI32, Program;
    CodeAt(4);
    CodeAt(5);
    CodeAt(6);
    CodeAt(7);
  }

  lemma BodyIs()
    ensures ShortUpdate(Program(), 8, 0, 1) == Some(Induction) && StepOf(Program(), 12, 1) == Some(1)
  {
    hide RegI32, Program;
    CodeAt(8);
    BodyAt();
  }

  lemma ExitIs()
    ensures
      var code := Program();
      LoadsLocal(code[17], 0) && code[18].op.Return? && code[18].dst == code[17].dst
  {
    hide RegI32, Program;
    CodeAt(12);
    CodeAt(13);
  }

  lemma JumpIs()
    ensures FirstLoopJump(Program(), 0) == Some(16) && Program()[16].src1 == 4
  {
    hide RegI32, Program, HeightAt;
    forall k | 0 <= k < 9
      ensures Becomes(LineAt(k), HeightAt(k), StartAt(Target(LineAt(k))), Program()[k])
    {
      CodeAt(k);
    }
    BodyAt();
    CodeAt(11);
    FirstLoopJumpIs(Program(), 0, 16);
  }

  lemma ProgramIsRecognized()
    ensures Recognize(Program()) == Some(Loop())
  {
    hide RegI32, Program, ScanInits, ShortUpdate, StepOf, FirstLoopJump;
    JumpIs();
    InitsAre();
    HeadIs();
    BodyIs();
    ExitIs();
  }

  lemma ProgramShaped() returns (hs: seq<nat>)
    ensures StackShaped(Program(), hs) && NarrowLoads(Program()) && StoresIn(Program(), 2)
  {
    hide ProgramText, CodeOf, StackShaped, NarrowLoads, StoresIn;
    ProgramIsWritten();
    hs := WrittenIsShaped(ProgramText(), 2);
  }

  lemma LoopFolds()
    ensures FoldLoop(Loop()) == Some(Int(0))
  {
    hide FinalCount, CountAt;
    var l, n := Loop(), 4_000_000_001;
    assert Iterations(l.iInit, l.limit, l.step, l.cmp) == Some(n);
    ArithmeticNeverFails(l, n);
    CountClosedForm(l, n);
    TriangleHalves(n);
  }

  /** After ten million rounds the sum needs more than 53 bits. */
  lemma LoopIsUnsafe()
    ensures
      var l := Loop();
      Iterations(l.iInit, l.limit, l.step, l.cmp) == Some(4_000_000_001) && !TurnsSafe(l, 4_000_000_001)
  {
    hide CountAt, Triangle, TurnsSafe;
    var l, k := Loop(), 10_000_000;
    SafeAtTurns(l, 4_000_000_001);
    CountClosedForm(l, k);
    TriangleHalves(k);
    assert !SafeRound(l, k - 1);
  }

  /** The recognizer folds this loop to 0, but long before the end a partial
      sum needs more than 53 bits and the machine is no longer exact. */
  lemma FoldAcceptsAnInexactLoop(cpool: seq<Value>, locals: seq<Value>) returns (final: seq<Value>)
    requires |locals| >= 2
    ensures FoldCounted(Program()) == Some(Int(0))
    ensures Halts(Vm(Program(), cpool), VmStart(locals), Outside, final)
  {
    hide Program, FoldLoop, Recognize, CountAt, Iterations, TurnsSafe, VmStep, Vm, StackShaped;
    ProgramIsRecognized();
    LoopFolds();
    LoopIsUnsafe();
    var hs := ProgramShaped();
    var exit, end := CountedFoldIsExact(Program(), cpool, hs, locals);
    final := end;
  }

  /** The bytecode's run leaves the exact integers; a call of it answers 0. */
  lemma LongSumShows(cpool: seq<Value>, locals: seq<Value>) returns (final: seq<Value>)
    requires |locals| >= 2
    ensures Halts(Stack(List(ProgramBytes()), cpool), StackStart(locals), Outside, final)
    ensures DispatchEnds(ProgramBytes(), cpool, locals, Returned(Int(0)), locals)
  {
    hide ProgramText, BytesOf, CodeOf, WellWritten, Stack, Vm, List, FoldCounted, NumberCode, DispatchEnds;
    ProgramIsWritten();
    final := FoldAcceptsAnInexactLoop(cpool, locals);
    WrittenMeans(ProgramText(), cpool, locals, Outside, final);
    WrittenFolds(ProgramText(), Int(0), cpool, locals);
  }
}
