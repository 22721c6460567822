/** The choice among the folds, the hash loop and the templates. */
module NativeCompiler {
  import opened JsValues
  import opened Machines
  import opened RegisterCode
  import opened RegisterVm
  import opened StackShape
  import opened CountedLoop
  import opened CountedLoopTurns
  import opened CountedLoopRuns
  import opened BranchyLoop
  import opened BranchyLoopRuns
  import opened NativeCode
  import opened HashLoop
  import opened HashLoopRuns
  import opened Baseline
  import opened BaselineRuns
  import opened NativeBytes
  import opened CodeGen

  // ---------------------------------------------------------------------------
  // Returning a constant
  // ---------------------------------------------------------------------------

  /** Code that returns a number: int32 in eax, float64 bits in rax. */
  function NumberCode(v: Value): seq<NOp>
    requires IsExact(v)
  {
    if v.Int? then [MovEax(v.i), MovEdx(TAG_INT), NOp.Ret] else [MovRaxDouble(v.n), MovEdx(TAG_FLOAT64), NOp.Ret]
  }

  lemma NumberCodeReturns(v: Value, locals: seq<Value>)
    requires IsExact(v)
    ensures Halts(Native(NumberCode(v)), NativeStart(locals), Returned(v), locals)
  {
    hide Native, NativeStep, Run, ExecSlot, ExecLocal, ExecPair, ExecFlag, ExecHash;
    var ops, s := NumberCode(v), NativeStart(locals);
    var c1 := s.cpu.(rax := Enc(v).payload);
    var c2 := c1.(rdx := Enc(v).tag);
    var cpus := [s.cpu, c1, c2];
    assert Exec(ops[0], s.cpu) == Some(c1);
    assert Exec(ops[1], c1) == Some(c2);
    assert TraceAt(ops, 0, cpus, 0) && TraceAt(ops, 0, cpus, 1);
    RunTrace(ops, 0, cpus, 2);
    var t := NState(2, c2);
    RunThen(Native(ops), s, 2, t);
    RetStep(ops, t);
    DecEnc(v);
    DecEncAll(locals);
  }

  lemma FoldsAreNumbers(code: seq<RegInstruction>)
    ensures FoldCounted(code).Some? ==> IsExact(FoldCounted(code).value)
    ensures FoldBranchy(code).Some? ==> IsExact(FoldBranchy(code).value)
  {
    hide Recognize, FinalCount, Iterations, SumAt, BranchyShape;
  }

  // ---------------------------------------------------------------------------
  // The compiler
  // ---------------------------------------------------------------------------

  predicate HashRecognized(code: seq<RegInstruction>) {
    HashShape(code) && HashGuards(HashOf(code))
  }

  /** The code a program compiles to, first match first. */
  function NativeFor(code: seq<RegInstruction>): Option<seq<NOp>> {
    FoldsAreNumbers(code);
    if FoldCounted(code).Some? then Some(NumberCode(FoldCounted(code).value))
    else if FoldBranchy(code).Some? then Some(NumberCode(FoldBranchy(code).value))
    else if HashRecognized(code) then Some(HashCode(HashOf(code)))
    else if AllSupported(code, |code|) then Some(Assemble(code))
    else None
  }

  /** A branchy loop's first jump is forward, so the counted recognizer gives up on it. */
  lemma BranchyIsNotCounted(code: seq<RegInstruction>)
    requires BranchyShape(code)
    ensures FoldCounted(code).None?
  {
    hide RegI32;
    FirstLoopJumpIs(code, 0, 20);
  }

  /** A hash loop's body is neither of the lengths of a counted loop's. */
  lemma HashIsNotCounted(code: seq<RegInstruction>)
    requires HashShape(code) && code[20].op.LoadLoc? && code[24].op.LoadLoc?
    ensures FoldCounted(code).None?
  {
    hide RegI32, ScanInits, LoopHead;
    FirstLoopJumpIs(code, 0, 35);
  }

  method CompileToNative(code: seq<RegInstruction>) returns (r: Option<seq<byte>>)
    ensures r.Some? <==> NativeFor(code).Some?
    ensures r.Some? ==> r.value == EncodeAll(NativeFor(code).value)
  {
    hide FoldCounted, FoldBranchy, HashShape, HashGuards, HashOf, HashCode, EncodeAll, Assemble, NumberCode;
    FoldsAreNumbers(code);
    var counted := CompileConstantCountedLoop(code);
    if counted.Some? {
      return Some(EncodeAll(NumberCode(counted.value)));
    }
    var branchy := CompileBranchyModuloLoop(code);
    if branchy.Some? {
      return Some(EncodeAll(NumberCode(branchy.value)));
    }
    var hash := CompileBitwiseHashLoop(code);
    if hash.Some? {
      return Some(EncodeAll(hash.value));
    }
    r := CompileTemplates(code);
  }

  // ---------------------------------------------------------------------------
  // Soundness
  // ---------------------------------------------------------------------------

  /** What the branchy and hash recognizers take for granted: two different
      locals, and a hash that is reloaded where they do not look. */
  predicate RecognizersSafe(code: seq<RegInstruction>) {
    && (BranchyShape(code) ==> BranchyOf(code).sumLoc != BranchyOf(code).iLoc)
    && (HashShape(code) ==> HashLoads(code, HashOf(code)) && HashOf(code).hashLoc != HashOf(code).iLoc)
  }

  /** The branchy loop whose counter runs past int32. */
  predicate CounterOverruns(code: seq<RegInstruction>) {
    BranchyShape(code) && BranchyOf(code).limit == TWO31 - 1
  }

  lemma FoldIsSound(code: seq<RegInstruction>, cpool: seq<Value>, hs: seq<nat>, locals: seq<Value>) returns (exit: Exit, end: seq<Value>)
    requires StackShaped(code, hs) && NarrowLoads(code) && StoresIn(code, |locals|) && RecognizersSafe(code)
    requires FoldCounted(code).Some? || FoldBranchy(code).Some?
    ensures Halts(Vm(code, cpool), VmStart(locals), exit, end)
    ensures
      var v := if FoldCounted(code).Some? then FoldCounted(code).value else FoldBranchy(code).value;
      && (exit.Returned? ==> SameValue(v, exit.v))
      && (exit == Aborted ==> CounterOverruns(code))
  {
    hide StackShaped, NarrowLoads, StoresIn, Vm, Recognize, FoldLoop, TurnsSafe, Iterations, SumAt, BranchyOf;
    if FoldCounted(code).Some? {
      exit, end := CountedFoldIsExact(code, cpool, hs, locals);
    } else {
      exit, end := BranchyFoldIsExact(code, cpool, hs, locals);
    }
  }

  /** A native answer is the register machine's answer, up to how a number is
      tagged, unless that run leaves the exact integers or the loop is the one
      whose counter overruns int32. */
  lemma NativeIsSound(code: seq<RegInstruction>, cpool: seq<Value>, hs: seq<nat>, locals: seq<Value>, v: Value, final: seq<Value>)
    returns (exit: Exit, end: seq<Value>)
    requires StackShaped(code, hs) && NarrowLoads(code) && StoresIn(code, |locals|) && RecognizersSafe(code)
    requires NativeFor(code).Some? && v != Uninit
    requires Halts(Native(NativeFor(code).value), NativeStart(locals), Returned(v), final)
    ensures Halts(Vm(code, cpool), VmStart(locals), exit, end)
    ensures exit.Returned? ==> SameValue(v, exit.v)
    ensures exit == Aborted ==> CounterOverruns(code)
  {
    hide StackShaped, NarrowLoads, StoresIn, Vm, Native, FoldCounted, FoldBranchy, HashShape, HashOf, HashCode, HashGuards;
    hide Assemble, NumberCode, HashLoads, AllSupported, BranchyShape;
    FoldsAreNumbers(code);
    var ops, s := NativeFor(code).value, NativeStart(locals);
    if FoldCounted(code).Some? || FoldBranchy(code).Some? {
      var w := if FoldCounted(code).Some? then FoldCounted(code).value else FoldBranchy(code).value;
      NumberCodeReturns(w, locals);
      HaltsOnce(Native(ops), s, Returned(v), final, Returned(w), locals);
      exit, end := FoldIsSound(code, cpool, hs, locals);
    } else if HashRecognized(code) {
      var w, f := HashLoopIsExact(code, cpool, hs, locals);
      HaltsOnce(Native(ops), s, Returned(v), final, Returned(w), locals);
      exit, end := Returned(w), f;
    } else {
      AssembleIsAssembled(code);
      NativeRefinesVm(code, cpool, ops, Starts(code), locals, v, final);
      exit, end := Returned(v), final;
    }
  }
}
