/** A program whose restart shows: it loads a local before storing it. */
module EarlyRead {
  import opened JsValues
  import opened Machines
  import opened RegisterCode
  import opened RegisterVm
  import opened StackMachine
  import opened Translator
  import opened NativeCode
  import opened Baseline
  import opened BaselineRuns
  import opened CodeGen
  import opened Restart
  import opened Assembly
  import opened NativeCompiler
  import opened Dispatch
  import opened WrittenCalls

  /** `y = x; x = 5; x = 2147483647 + 1; return y` */
  function LineAt(k: nat): StackOp {
    if k == 0 then GetLoc(0)
    else if k == 1 then PutLoc(1)
    else if k == 2 then PushInt(5)
    else if k == 3 then PutLoc(0)
    else if k == 4 then PushInt(INT32_MAX)
    else if k == 5 then PushInt(1)
    else if k == 6 then Operate(Add)
    else if k == 7 then PutLoc(0)
    else if k == 8 then GetLoc(1)
    else StackOp.Ret
  }

  function HeightAt(k: nat): nat {
    if k in {0, 2, 4, 8, 10} then 0 else if k == 6 then 2 else 1
  }

  function ProgramText(): (t: Text)
    ensures |t.lines| == 10 && |t.heights| == |t.starts| == 11
    ensures forall k :: 0 <= k < 10 ==> t.lines[k] == LineAt(k)
    ensures forall k :: 0 <= k < 11 ==> t.heights[k] == HeightAt(k) && t.starts[k] == k
  {
    Text(seq(10, k requires 0 <= k < 10 => LineAt(k)), seq(11, k requires 0 <= k < 11 => HeightAt(k)), seq(11, k => k))
  }

  lemma LineIsWritten(k: nat)
    requires k < 10
    ensures LineFits(ProgramText(), k)
  {
    hide ProgramText;
  }

  lemma ProgramIsWritten()
    ensures WellWritten(ProgramText())
  {
    hide ProgramText, LineFits, LineAt;
    forall k: nat | k < 10
      ensures LineFits(ProgramText(), k)
    {
      LineIsWritten(k);
    }
  }

  function Program(): (code: seq<RegInstruction>)
    ensures |code| == 10
  {
    ProgramIsWritten();
    CodeOf(ProgramText())
  }

  function ProgramBytes(): Bytecode {
    ProgramIsWritten();
    BytesOf(ProgramText())
  }

  lemma CodeAt(k: nat)
    requires k < 10
    ensures Becomes(LineAt(k), HeightAt(k), 0, Program()[k])
  {
    hide Becomes, Code, ProgramText;
    ProgramIsWritten();
    LineBecomes(ProgramText(), k);
  }

  // ---------------------------------------------------------------------------
  // The two machines
  // ---------------------------------------------------------------------------

  /** Up to the sum both machines agree. */
  lemma ProgramPrefix(step: Machine<VmState>, x: Value, y: Value) returns (s: VmState)
    requires step == Vm(Program(), []) || step == Jit(Program())
    ensures Run(step, VmStart([x, y]), 6) == Next(s)
    ensures s.pc == 6 && s.locals == [Int(5), x] && s.regs[0] == Int(INT32_MAX) && s.regs[1] == Int(1)
  {
    hide RegI32, Run, Program;
    var s0 := VmStart([x, y]);
    var s1 := Put(s0, 0, x);
    CodeAt(0);
    RunOne(step, s0);
    assert step(s0) == Next(s1);
    var s2 := VmState(2, s1.regs, [x, x]);
    CodeAt(1);
    RunThen(step, s0, 1, s1);
    assert [x, y][1 := x] == [x, x];
    assert step(s1) == Next(s2);
    var s3 := Put(s2, 0, Int(5));
    CodeAt(2);
    RunThen(step, s0, 2, s2);
    assert step(s2) == Next(s3);
    var s4 := VmState(4, s3.regs, [Int(5), x]);
    CodeAt(3);
    RunThen(step, s0, 3, s3);
    assert [x, x][0 := Int(5)] == [Int(5), x];
    assert step(s3) == Next(s4);
    var s5 := Put(s4, 0, Int(INT32_MAX));
    CodeAt(4);
    RunThen(step, s0, 4, s4);
    assert step(s4) == Next(s5);
    s := Put(s5, 1, Int(1));
    CodeAt(5);
    RunThen(step, s0, 5, s5);
  }

  /** On its own the register machine returns what the first local held. */
  lemma ProgramReturns(x: Value, y: Value) returns (final: seq<Value>)
    ensures Halts(Vm(Program(), []), VmStart([x, y]), Returned(x), final)
  {
    hide RegI32, Run, Program, Alu;
    var step, s0 := Vm(Program(), []), VmStart([x, y]);
    var s6 := ProgramPrefix(step, x, y);
    OverflowingSum();
    var s7 := Put(s6, 0, Float(0x8000_0000));
    CodeAt(6);
    RunThen(step, s0, 6, s6);
    assert step(s6) == Next(s7);
    final := [Float(0x8000_0000), x];
    var s8 := VmState(8, s7.regs, final);
    CodeAt(7);
    RunThen(step, s0, 7, s7);
    assert [Int(5), x][0 := Float(0x8000_0000)] == final;
    assert step(s7) == Next(s8);
    var s9 := Put(s8, 0, x);
    CodeAt(8);
    RunThen(step, s0, 8, s8);
    assert step(s8) == Next(s9);
    CodeAt(9);
    RunThen(step, s0, 9, s9);
    assert step(s9) == Halt(Returned(x), final);
  }

  lemma OverflowingSum()
    ensures Alu(Add, Int(INT32_MAX), Int(1)) == Val(Float(0x8000_0000))
  {
  }

  /** Native code bails at the sum, with the first local overwritten. */
  lemma ProgramBails()
    ensures Halts(Jit(Program()), VmStart([Int(7), Undef]), BAIL, [Int(5), Int(7)])
    ensures !StoresBeforeLoads(Program())
  {
    hide RegI32, Run, Program;
    var code, locals := Program(), [Int(7), Undef];
    var s := ProgramPrefix(Jit(code), Int(7), Undef);
    CodeAt(6);
    RunThen(Jit(code), VmStart(locals), 6, s);
    assert JitStep(code, s) == Halt(BAIL, [Int(5), Int(7)]);
    CodeAt(0);
    CodeAt(3);
    assert Stores(code, 3, 0);
    assert Path(code, [0]) && LoadsAtEnd(code, [0]) && !Assigned(code, [0], 0);
  }

  lemma ProgramCompiles()
    ensures AllSupported(Program(), 10) && NativeFor(Program()) == Some(Assemble(Program()))
  {
    hide RegI32, Program, Assemble, HeightAt, Template;
    forall k | 0 <= k < 10
      ensures Supported(Program()[k].op)
    {
      CodeAt(k);
    }
  }

  /** Without the hypothesis the restart shows: the bytecode returns 7, a call
      of it bails out, starts over and answers 5. */
  lemma RestartCanShow() returns (final: seq<Value>, end: seq<Value>)
    ensures Halts(Stack(List(ProgramBytes()), []), StackStart([Int(7), Undef]), Returned(Int(7)), final)
    ensures DispatchEnds(ProgramBytes(), [], [Int(7), Undef], Returned(Int(5)), end)
    ensures CompiledOf(ProgramBytes()) == Some(Program()) && !StoresBeforeLoads(Program())
  {
    hide ProgramText, BytesOf, Program, WellWritten, Stack, Vm, Jit, Native, List, NativeFor, Assemble, CompiledOf, StoresBeforeLoads;
    var locals, mid := [Int(7), Undef], [Int(5), Int(7)];
    ProgramIsWritten();
    final := ProgramReturns(Int(7), Undef);
    end := ProgramReturns(Int(5), Int(7));
    ProgramBails();
    ProgramCompiles();
    AssembleIsAssembled(Program());
    NativeMatchesJit(Program(), Assemble(Program()), Starts(Program()), locals, BAIL, mid);
    WrittenIs();
    WrittenMeans(ProgramText(), [], locals, Returned(Int(7)), final);
    WrittenCompiles(ProgramText());
    assert NativeEnds(Assemble(Program()), locals, BAIL, mid) && VmEnds(Program(), [], mid, Returned(Int(5)), end);
  }

  lemma WrittenIs()
    ensures WellWritten(ProgramText()) && CodeOf(ProgramText()) == Program() && BytesOf(ProgramText()) == ProgramBytes()
  {
    hide ProgramText;
    ProgramIsWritten();
  }
}
