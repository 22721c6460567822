/** End to end: what a call answers, against what the bytecode means. */
module DispatchSound {
  import opened JsValues
  import opened Machines
  import opened RegisterCode
  import opened RegisterVm
  import opened StackMachine
  import opened Translator
  import opened Simulation
  import opened StackShape
  import opened NativeCode
  import opened Baseline
  import opened BaselineRuns
  import opened Restart
  import opened CodeGen
  import opened NativeCompiler
  import opened Dispatch

  // ---------------------------------------------------------------------------
  // Native code ends when the register machine does
  // ---------------------------------------------------------------------------

  lemma {:induction false} JitHaltsWithVm(code: seq<RegInstruction>, cpool: seq<Value>, s: VmState, n: nat)
    requires Run(Vm(code, cpool), s, n).Halt?
    ensures Run(Jit(code), s, n).Halt?
    decreases n
  {
    hide VmStep, JitStep;
    if n > 0 {
      JitStepAgrees(code, cpool, s);
      if JitStep(code, s).Next? {
        JitHaltsWithVm(code, cpool, JitStep(code, s).s, n - 1);
      }
    }
  }

  /** Templates leave the model only where the register machine does. */
  lemma OutsideAgrees(code: seq<RegInstruction>, cpool: seq<Value>, hs: seq<nat>, s: VmState)
    requires StackShaped(code, hs) && JitStep(code, s).Halt? && JitStep(code, s).exit == Outside
    ensures VmStep(code, cpool, s) == JitStep(code, s)
  {
    hide RegI32, Alu;
    assert s.pc < |code|;
    assert Shaped(code, hs, s.pc);
    assert hs[s.pc] <= REGISTERS;
  }

  lemma {:induction false} JitOutside(code: seq<RegInstruction>, cpool: seq<Value>, hs: seq<nat>, s: VmState, n: nat)
    requires StackShaped(code, hs) && Run(Jit(code), s, n).Halt? && Run(Jit(code), s, n).exit == Outside
    ensures Run(Vm(code, cpool), s, n) == Run(Jit(code), s, n)
    decreases n
  {
    hide VmStep, JitStep, StackShaped;
    if n > 0 {
      JitStepAgrees(code, cpool, s);
      match JitStep(code, s)
      case Next(t) => JitOutside(code, cpool, hs, t, n - 1);
      case Halt(_, _) => OutsideAgrees(code, cpool, hs, s);
    }
  }

  // ---------------------------------------------------------------------------
  // What a call may answer when the bytecode's own run ends with `truth`
  // ---------------------------------------------------------------------------

  /** The same number or value; a run that leaves the exact integers promises
      nothing; a loop whose counter overruns int32 is answered although the
      machine gives up on it. */
  predicate Accords(code: seq<RegInstruction>, exit: Exit, truth: Exit) {
    match truth
    case Returned(v) => exit.Returned? && SameValue(exit.v, v)
    case Aborted => exit == Aborted || (exit.Returned? && CounterOverruns(code))
    case Outside => true
  }

  lemma SameValueReflects(v: Value)
    ensures SameValue(v, v)
  {
  }

  /** What the compilers assume of their input. */
  ghost predicate Assumptions(code: seq<RegInstruction>, hs: seq<nat>, locals: nat) {
    && StackShaped(code, hs) && NarrowLoads(code) && StoresIn(code, locals)
    && RecognizersSafe(code) && StoresBeforeLoads(code)
  }

  lemma FoldAnswers(code: seq<RegInstruction>, v: Value, cpool: seq<Value>, hs: seq<nat>, locals: seq<Value>, truth: Exit, end: seq<Value>)
    requires Assumptions(code, hs, |locals|) && VmEnds(code, cpool, locals, truth, end)
    requires IsExact(v) && NativeFor(code) == Some(NumberCode(v))
    ensures NativeEnds(NumberCode(v), locals, Returned(v), locals) && Accords(code, Returned(v), truth)
  {
    hide StackShaped, NarrowLoads, StoresIn, RecognizersSafe, StoresBeforeLoads, Vm, Native, NativeFor, NumberCode, CounterOverruns;
    NumberCodeReturns(v, locals);
    var exit, e := NativeIsSound(code, cpool, hs, locals, v, locals);
    HaltsOnce(Vm(code, cpool), VmStart(locals), exit, e, truth, end);
  }

  lemma HashAnswers(code: seq<RegInstruction>, cpool: seq<Value>, hs: seq<nat>, locals: seq<Value>, truth: Exit, end: seq<Value>)
    returns (v: Value)
    requires Assumptions(code, hs, |locals|) && VmEnds(code, cpool, locals, truth, end)
    requires HashRecognized(code)
    ensures NativeEnds(HashLoop.HashCode(HashLoop.HashOf(code)), locals, Returned(v), locals)
    ensures v != Uninit && Accords(code, Returned(v), truth)
  {
    hide StackShaped, NarrowLoads, StoresIn, StoresBeforeLoads, Vm, Native, HashLoop.HashCode, HashLoop.HashOf;
    hide HashLoop.InitShape, HashLoop.MixInShape, HashLoop.StirShape, HashLoop.LoopEndShape, HashLoop.HashAt, HashLoopRuns.HashLoads;
    var l := HashLoop.HashOf(code);
    var w, e := HashLoopRuns.HashLoopIsExact(code, cpool, hs, locals);
    HashLoop.HashCodeReturns(l, locals);
    v := Int(S32(HashLoop.HashAt(l, l.limit)));
    HaltsOnce(Native(HashLoop.HashCode(l)), NativeStart(locals), Returned(v), locals, Returned(w), locals);
    HaltsOnce(Vm(code, cpool), VmStart(locals), Returned(w), e, truth, end);
    SameValueReflects(v);
  }

  /** Templates answer exactly as the register machine does, or bail out. */
  lemma TemplatesAnswer(code: seq<RegInstruction>, cpool: seq<Value>, hs: seq<nat>, locals: seq<Value>, truth: Exit, end: seq<Value>)
    returns (exit: Exit, final: seq<Value>)
    requires Assumptions(code, hs, |locals|) && AllSupported(code, |code|) && VmEnds(code, cpool, locals, truth, end)
    ensures NativeEnds(Assemble(code), locals, exit, final)
    ensures exit != BAIL ==> exit == truth && final == end
    ensures exit == BAIL ==> VmEnds(code, cpool, final, truth, end)
  {
    hide StackShaped, NarrowLoads, StoresIn, RecognizersSafe, StoresBeforeLoads, VmStep, JitStep, Native, Assemble;
    var s := VmStart(locals);
    var n: nat :| Run(Vm(code, cpool), s, n) == Halt(truth, end);
    JitHaltsWithVm(code, cpool, s, n);
    var r := Run(Jit(code), s, n);
    exit, final := r.exit, r.locals;
    assert Halts(Jit(code), s, exit, final);
    AssembleIsAssembled(code);
    NativeMatchesJit(code, Assemble(code), Starts(code), locals, exit, final);
    if exit == BAIL {
      RestartIsTransparent(code, cpool, locals, final, truth, end);
    } else if exit == Outside {
      JitOutside(code, cpool, hs, s, n);
    } else {
      JitRefinesVm(code, cpool, s, n);
    }
  }

  lemma NativeAnswers(code: seq<RegInstruction>, ops: seq<NOp>, cpool: seq<Value>, hs: seq<nat>, locals: seq<Value>, truth: Exit, end: seq<Value>)
    returns (exit: Exit, final: seq<Value>)
    requires Assumptions(code, hs, |locals|) && NativeFor(code) == Some(ops) && VmEnds(code, cpool, locals, truth, end)
    ensures NativeThenVm(ops, code, cpool, locals, exit, final) && Accords(code, exit, truth)
  {
    hide Assumptions, VmEnds, NativeEnds, NumberCode, Assemble, CountedLoop.FoldCounted, BranchyLoop.FoldBranchy, CounterOverruns;
    hide HashLoop.HashShape, HashLoop.HashOf, HashLoop.HashCode, HashLoop.HashGuards, AllSupported;
    FoldsAreNumbers(code);
    if CountedLoop.FoldCounted(code).Some? || BranchyLoop.FoldBranchy(code).Some? {
      var v := if CountedLoop.FoldCounted(code).Some? then CountedLoop.FoldCounted(code).value else BranchyLoop.FoldBranchy(code).value;
      FoldAnswers(code, v, cpool, hs, locals, truth, end);
      exit, final := Returned(v), locals;
    } else if HashRecognized(code) {
      var v := HashAnswers(code, cpool, hs, locals, truth, end);
      exit, final := Returned(v), locals;
    } else {
      exit, final := TemplatesAnswer(code, cpool, hs, locals, truth, end);
      if exit == BAIL {
        exit, final := truth, end;
      }
      if truth.Returned? {
        SameValueReflects(truth.v);
      }
    }
  }

  /** The whole pipeline: when the bytecode, run as a stack program, ends, the
      call ends too and its answer accords with that end, unless the program is
      one the pipeline hands over to the C interpreter. */
  lemma DispatchMeansBytecode(b: Bytecode, slots: seq<Slot>, code: seq<RegInstruction>, cpool: seq<Value>, locals: seq<Value>,
                              truth: Exit, end: seq<Value>)
    returns (exit: Exit, final: seq<Value>)
    requires Accepted(List(b), slots, code) && NarrowLoads(code) && StoresIn(code, |locals|)
    requires RecognizersSafe(code) && StoresBeforeLoads(code)
    requires Halts(Stack(List(b), cpool), StackStart(locals), truth, end)
    ensures DispatchEnds(b, cpool, locals, exit, final)
    ensures if NativeFor(code).None? && FallsBack(code) then exit == Aborted && final == locals else Accords(code, exit, truth)
  {
    hide NarrowLoads, StoresIn, RecognizersSafe, StoresBeforeLoads, Stack, Vm, NativeFor, FallsBack, CompiledOf, StackShaped, NativeThenVm;
    var hs := TranslationIsShaped(List(b), slots, code);
    TranslationPreservesMeaning(List(b), slots, code, cpool, locals, truth, end);
    CompiledIs(b, code);
    assert VmEnds(code, cpool, locals, truth, end);
    match NativeFor(code)
    case Some(ops) => exit, final := NativeAnswers(code, ops, cpool, hs, locals, truth, end);
    case None =>
      if FallsBack(code) {
        exit, final := Aborted, locals;
      } else {
        exit, final := truth, end;
        if truth.Returned? {
          SameValueReflects(truth.v);
        }
      }
  }

  /** A call has one end. */
  lemma DispatchEndsOnce(b: Bytecode, cpool: seq<Value>, locals: seq<Value>, e1: Exit, f1: seq<Value>, e2: Exit, f2: seq<Value>)
    requires DispatchEnds(b, cpool, locals, e1, f1) && DispatchEnds(b, cpool, locals, e2, f2)
    ensures e1 == e2 && f1 == f2
  {
    hide NativeFor, FallsBack, CompiledOf, Vm, Native;
    if CompiledOf(b).Some? {
      var code := CompiledOf(b).value;
      match NativeFor(code)
      case Some(ops) => NativeThenVmOnce(ops, code, cpool, locals, e1, f1, e2, f2);
      case None =>
        if !FallsBack(code) {
          HaltsOnce(Vm(code, cpool), VmStart(locals), e1, f1, e2, f2);
        }
    }
  }

  lemma NativeThenVmOnce(ops: seq<NOp>, code: seq<RegInstruction>, cpool: seq<Value>, locals: seq<Value>,
                         e1: Exit, f1: seq<Value>, e2: Exit, f2: seq<Value>)
    requires NativeThenVm(ops, code, cpool, locals, e1, f1) && NativeThenVm(ops, code, cpool, locals, e2, f2)
    ensures e1 == e2 && f1 == f2
  {
    hide NativeEnds, VmEnds;
    if e1 != BAIL && NativeEnds(ops, locals, e1, f1) {
      if e2 != BAIL && NativeEnds(ops, locals, e2, f2) {
        NativeExitsOnce(ops, locals, e1, f1, e2, f2);
      } else {
        var m :| NativeEnds(ops, locals, BAIL, m) && VmEnds(code, cpool, m, e2, f2);
        NativeExitsOnce(ops, locals, e1, f1, BAIL, m);
      }
    } else {
      var m :| NativeEnds(ops, locals, BAIL, m) && VmEnds(code, cpool, m, e1, f1);
      OnlyThrough(ops, code, cpool, locals, m, e2, f2);
      VmExitsOnce(code, cpool, m, e1, f1, e2, f2);
    }
  }

  lemma VmExitsOnce(code: seq<RegInstruction>, cpool: seq<Value>, locals: seq<Value>, e1: Exit, f1: seq<Value>, e2: Exit, f2: seq<Value>)
    requires VmEnds(code, cpool, locals, e1, f1) && VmEnds(code, cpool, locals, e2, f2)
    ensures e1 == e2 && f1 == f2
  {
    hide Vm;
    HaltsOnce(Vm(code, cpool), VmStart(locals), e1, f1, e2, f2);
  }
}
