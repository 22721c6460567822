/** Running a program again from instruction 0 over the locals an earlier,
    unfinished run left behind. */
module Restart {
  import opened JsValues
  import opened Machines
  import opened RegisterCode
  import opened RegisterVm
  import opened Baseline

  // ---------------------------------------------------------------------------
  // Paths through a program
  // ---------------------------------------------------------------------------

  predicate Edge(code: seq<RegInstruction>, a: nat, b: nat) {
    && a < |code|
    && match code[a].op
       case Jmp => b == code[a].src1
       case IfFalse | IfTrue => b == code[a].src1 || b == a + 1
       case Return | ReturnUndef => false
       case _ => b == a + 1
  }

  /** Instructions visited one after the other, from the start. */
  ghost predicate Path(code: seq<RegInstruction>, p: seq<nat>) {
    |p| >= 1 && p[0] == 0 && forall k :: 0 <= k < |p| - 1 ==> Edge(code, p[k], p[k + 1])
  }

  predicate Stores(code: seq<RegInstruction>, pc: nat, x: nat) {
    pc < |code| && (code[pc].op.StoreLoc? || code[pc].op.SetLoc?) && code[pc].dst == x
  }

  /** Some instruction of the path before its last stores local `x`. */
  ghost predicate Assigned(code: seq<RegInstruction>, p: seq<nat>, x: nat) {
    exists k :: 0 <= k < |p| - 1 && Stores(code, p[k], x)
  }

  predicate LoadsAtEnd(code: seq<RegInstruction>, p: seq<nat>) {
    |p| >= 1 && p[|p| - 1] < |code| && code[p[|p| - 1]].op.LoadLoc?
  }

  /** Some instruction of the program stores local `x`, wherever it stands. */
  ghost predicate Stored(code: seq<RegInstruction>, x: nat) {
    exists pc: nat :: Stores(code, pc, x)
  }

  /** Every load of a local the program stores is preceded, on all paths, by a store to it. */
  ghost predicate StoresBeforeLoads(code: seq<RegInstruction>) {
    forall p :: Path(code, p) && LoadsAtEnd(code, p) ==>
      Assigned(code, p, code[p[|p| - 1]].src1) || !Stored(code, code[p[|p| - 1]].src1)
  }

  /** The locals that some path loads before storing them are the same in both. */
  ghost predicate LoadsAgree(code: seq<RegInstruction>, a0: seq<Value>, b0: seq<Value>) {
    && |a0| == |b0|
    && forall p :: Path(code, p) && LoadsAtEnd(code, p) && code[p[|p| - 1]].src1 < |a0| ==>
         Assigned(code, p, code[p[|p| - 1]].src1) || a0[code[p[|p| - 1]].src1] == b0[code[p[|p| - 1]].src1]
  }

  // ---------------------------------------------------------------------------
  // Two runs from different locals
  // ---------------------------------------------------------------------------

  /** A local is the same in both runs, or neither run has stored it. */
  ghost predicate LocalTwin(code: seq<RegInstruction>, p: seq<nat>, a: seq<Value>, b: seq<Value>, a0: seq<Value>, b0: seq<Value>, x: nat)
    requires |a| == |b| == |a0| == |b0| && x < |a|
  {
    a[x] == b[x] || (!Assigned(code, p, x) && a[x] == a0[x] && b[x] == b0[x])
  }

  ghost predicate LocalTwins(code: seq<RegInstruction>, p: seq<nat>, a: seq<Value>, b: seq<Value>, a0: seq<Value>, b0: seq<Value>) {
    |a| == |b| == |a0| == |b0| && forall x: nat :: x < |a| ==> LocalTwin(code, p, a, b, a0, b0, x)
  }

  ghost predicate Twins(code: seq<RegInstruction>, p: seq<nat>, s: VmState, t: VmState, a0: seq<Value>, b0: seq<Value>) {
    && Path(code, p) && p[|p| - 1] == s.pc == t.pc
    && s.regs == t.regs
    && LocalTwins(code, p, s.locals, t.locals, a0, b0)
  }

  /** After a step of each run, by whichever machine. */
  ghost predicate StepTwins(code: seq<RegInstruction>, p: seq<nat>, r: Progress<VmState>, q: Progress<VmState>, a0: seq<Value>, b0: seq<Value>) {
    match r
    case Next(s) => q.Next? && Twins(code, p + [s.pc], s, q.s, a0, b0)
    case Halt(exit, locals) => q.Halt? && q.exit == exit && LocalTwins(code, p, locals, q.locals, a0, b0)
  }

  lemma AssignedGrows(code: seq<RegInstruction>, p: seq<nat>, pc: nat, x: nat)
    requires |p| >= 1
    ensures Assigned(code, p + [pc], x) <==> Assigned(code, p, x) || Stores(code, p[|p| - 1], x)
  {
    var q := p + [pc];
    if Assigned(code, p, x) {
      var k :| 0 <= k < |p| - 1 && Stores(code, p[k], x);
      assert q[k] == p[k];
    }
    if Stores(code, p[|p| - 1], x) {
      assert q[|p| - 1] == p[|p| - 1];
    }
  }

  lemma PathGrows(code: seq<RegInstruction>, p: seq<nat>, pc: nat)
    requires Path(code, p) && Edge(code, p[|p| - 1], pc)
    ensures Path(code, p + [pc])
  {
    var q := p + [pc];
    forall k | 0 <= k < |q| - 1
      ensures Edge(code, q[k], q[k + 1])
    {
      if k < |p| - 1 {
        assert Edge(code, p[k], p[k + 1]);
      }
    }
  }

  /** A step that leaves the locals alone. */
  lemma QuietStep(code: seq<RegInstruction>, p: seq<nat>, s: VmState, t: VmState, a0: seq<Value>, b0: seq<Value>, pc: nat, regs: Registers)
    requires Twins(code, p, s, t, a0, b0) && Edge(code, s.pc, pc)
    requires !code[s.pc].op.StoreLoc? && !code[s.pc].op.SetLoc?
    ensures Twins(code, p + [pc], VmState(pc, regs, s.locals), VmState(pc, regs, t.locals), a0, b0)
  {
    PathGrows(code, p, pc);
    forall x: nat | x < |s.locals|
      ensures LocalTwin(code, p + [pc], s.locals, t.locals, a0, b0, x)
    {
      assert LocalTwin(code, p, s.locals, t.locals, a0, b0, x);
      AssignedGrows(code, p, pc, x);
    }
  }

  /** Both runs store the same value. */
  lemma StoringStep(code: seq<RegInstruction>, p: seq<nat>, s: VmState, t: VmState, a0: seq<Value>, b0: seq<Value>, y: nat, v: Value)
    requires Twins(code, p, s, t, a0, b0) && Stores(code, s.pc, y) && y < |s.locals|
    ensures Twins(code, p + [s.pc + 1], VmState(s.pc + 1, s.regs, s.locals[y := v]), VmState(s.pc + 1, s.regs, t.locals[y := v]), a0, b0)
  {
    PathGrows(code, p, s.pc + 1);
    var q, a, b := p + [s.pc + 1], s.locals[y := v], t.locals[y := v];
    forall x: nat | x < |a|
      ensures LocalTwin(code, q, a, b, a0, b0, x)
    {
      assert LocalTwin(code, p, s.locals, t.locals, a0, b0, x);
      AssignedGrows(code, p, s.pc + 1, x);
    }
  }

  /** What a load puts in its register is the same in both runs. */
  lemma SameLoad(code: seq<RegInstruction>, p: seq<nat>, s: VmState, t: VmState, a0: seq<Value>, b0: seq<Value>)
    requires LoadsAgree(code, a0, b0) && Twins(code, p, s, t, a0, b0)
    requires s.pc < |code| && code[s.pc].op.LoadLoc? && code[s.pc].src1 < |s.locals|
    ensures s.locals[code[s.pc].src1] == t.locals[code[s.pc].src1]
  {
    var x: nat := code[s.pc].src1;
    assert LoadsAtEnd(code, p);
    assert LocalTwin(code, p, s.locals, t.locals, a0, b0, x);
  }

  lemma VmTogether(code: seq<RegInstruction>, cpool: seq<Value>, p: seq<nat>, s: VmState, t: VmState, a0: seq<Value>, b0: seq<Value>)
    requires LoadsAgree(code, a0, b0) && Twins(code, p, s, t, a0, b0)
    ensures StepTwins(code, p, VmStep(code, cpool, s), VmStep(code, cpool, t), a0, b0)
  {
    hide Alu, RegI32, Path, LocalTwins, LoadsAgree;
    var r := VmStep(code, cpool, s);
    SameLength(code, p, s, t, a0, b0);
    if r.Next? {
      var inst := code[s.pc];
      if inst.op.StoreLoc? || inst.op.SetLoc? {
        StoringStep(code, p, s, t, a0, b0, inst.dst, s.regs[inst.src1]);
      } else {
        if inst.op.LoadLoc? {
          SameLoad(code, p, s, t, a0, b0);
        }
        QuietStep(code, p, s, t, a0, b0, r.s.pc, r.s.regs);
      }
    }
  }

  lemma SameLength(code: seq<RegInstruction>, p: seq<nat>, s: VmState, t: VmState, a0: seq<Value>, b0: seq<Value>)
    requires Twins(code, p, s, t, a0, b0)
    ensures |s.locals| == |t.locals|
  {
  }

  lemma JitTogether(code: seq<RegInstruction>, p: seq<nat>, s: VmState, t: VmState, a0: seq<Value>, b0: seq<Value>)
    requires LoadsAgree(code, a0, b0) && Twins(code, p, s, t, a0, b0)
    ensures StepTwins(code, p, JitStep(code, s), JitStep(code, t), a0, b0)
  {
    hide RegI32, Path, LocalTwins, LoadsAgree;
    var r := JitStep(code, s);
    SameLength(code, p, s, t, a0, b0);
    if r.Next? {
      var inst := code[s.pc];
      if inst.op.StoreLoc? || inst.op.SetLoc? {
        StoringStep(code, p, s, t, a0, b0, inst.dst, s.regs[inst.src1]);
      } else {
        if inst.op.LoadLoc? {
          SameLoad(code, p, s, t, a0, b0);
        }
        QuietStep(code, p, s, t, a0, b0, r.s.pc, r.s.regs);
      }
    }
  }

  /** Runs of either machine from twin states stay twins and end alike. */
  ghost predicate Together(step: Machine<VmState>, code: seq<RegInstruction>, a0: seq<Value>, b0: seq<Value>) {
    forall p, s, t :: Twins(code, p, s, t, a0, b0) ==> StepTwins(code, p, step(s), step(t), a0, b0)
  }

  ghost predicate RunTwins(code: seq<RegInstruction>, r: Progress<VmState>, q: Progress<VmState>, a0: seq<Value>, b0: seq<Value>) {
    exists p :: EndTwins(code, p, r, q, a0, b0)
  }

  ghost predicate EndTwins(code: seq<RegInstruction>, p: seq<nat>, r: Progress<VmState>, q: Progress<VmState>, a0: seq<Value>, b0: seq<Value>) {
    match r
    case Next(s) => q.Next? && Twins(code, p, s, q.s, a0, b0)
    case Halt(exit, locals) => q.Halt? && q.exit == exit && LocalTwins(code, p, locals, q.locals, a0, b0)
  }

  lemma {:induction false} RunTogether(step: Machine<VmState>, code: seq<RegInstruction>, p: seq<nat>, s: VmState, t: VmState,
                                       a0: seq<Value>, b0: seq<Value>, n: nat)
    requires Together(step, code, a0, b0) && Twins(code, p, s, t, a0, b0)
    ensures RunTwins(code, Run(step, s, n), Run(step, t, n), a0, b0)
    decreases n
  {
    hide Twins, LocalTwins;
    if n == 0 {
      assert EndTwins(code, p, Run(step, s, 0), Run(step, t, 0), a0, b0);
    } else {
      assert StepTwins(code, p, step(s), step(t), a0, b0);
      match step(s)
      case Next(s1) => RunTogether(step, code, p + [s1.pc], s1, step(t).s, a0, b0, n - 1);
      case Halt(_, _) => assert EndTwins(code, p, Run(step, s, n), Run(step, t, n), a0, b0);
    }
  }

  lemma StartTwins(code: seq<RegInstruction>, a0: seq<Value>, b0: seq<Value>)
    requires |a0| == |b0|
    ensures Twins(code, [0], VmStart(a0), VmStart(b0), a0, b0)
  {
  }

  lemma AgreeingLength(code: seq<RegInstruction>, a0: seq<Value>, b0: seq<Value>)
    requires LoadsAgree(code, a0, b0)
    ensures |a0| == |b0|
  {
  }

  /** The result depends only on locals that can be loaded before they are stored:
      two runs that agree on those stop together, with the same outcome, and
      differ at most in locals neither has stored. */
  lemma LocalsDoNotMatter(code: seq<RegInstruction>, cpool: seq<Value>, a0: seq<Value>, b0: seq<Value>, n: nat)
    requires LoadsAgree(code, a0, b0)
    ensures RunTwins(code, Run(Vm(code, cpool), VmStart(a0), n), Run(Vm(code, cpool), VmStart(b0), n), a0, b0)
  {
    hide Twins, LoadsAgree, VmStep, StepTwins, RunTwins;
    AgreeingLength(code, a0, b0);
    forall p, s, t | Twins(code, p, s, t, a0, b0)
      ensures StepTwins(code, p, Vm(code, cpool)(s), Vm(code, cpool)(t), a0, b0)
    {
      VmTogether(code, cpool, p, s, t, a0, b0);
    }
    StartTwins(code, a0, b0);
    RunTogether(Vm(code, cpool), code, [0], VmStart(a0), VmStart(b0), a0, b0, n);
  }

  lemma LocalsDoNotMatterToJit(code: seq<RegInstruction>, a0: seq<Value>, b0: seq<Value>, n: nat)
    requires LoadsAgree(code, a0, b0)
    ensures RunTwins(code, Run(Jit(code), VmStart(a0), n), Run(Jit(code), VmStart(b0), n), a0, b0)
  {
    hide Twins, LoadsAgree, JitStep, StepTwins, RunTwins;
    AgreeingLength(code, a0, b0);
    forall p, s, t | Twins(code, p, s, t, a0, b0)
      ensures StepTwins(code, p, Jit(code)(s), Jit(code)(t), a0, b0)
    {
      JitTogether(code, p, s, t, a0, b0);
    }
    StartTwins(code, a0, b0);
    RunTogether(Jit(code), code, [0], VmStart(a0), VmStart(b0), a0, b0, n);
  }

  // ---------------------------------------------------------------------------
  // Bailing out and starting over
  // ---------------------------------------------------------------------------

  /** The locals a run left behind are twins only of themselves. */
  lemma TwinOfOwnStart(code: seq<RegInstruction>, p: seq<nat>, mid: seq<Value>, b: seq<Value>, a0: seq<Value>)
    requires LocalTwins(code, p, mid, b, a0, mid)
    ensures b == mid
  {
    forall x: nat | x < |mid|
      ensures b[x] == mid[x]
    {
      assert LocalTwin(code, p, mid, b, a0, mid, x);
    }
  }

  /** The locals no instruction stores. */
  ghost predicate KeepsUnstored(code: seq<RegInstruction>, a: seq<Value>, b: seq<Value>) {
    |a| == |b| && forall x: nat :: x < |a| && !Stored(code, x) ==> a[x] == b[x]
  }

  lemma {:induction false} HaltKeepsUnstored(code: seq<RegInstruction>, s: VmState, n: nat, exit: Exit, final: seq<Value>)
    requires Run(Jit(code), s, n) == Halt(exit, final)
    ensures KeepsUnstored(code, s.locals, final)
    decreases n
  {
    hide JitStep, Stored;
    match JitStep(code, s)
    case Next(t) =>
      StepKeepsUnstored(code, s, t);
      HaltKeepsUnstored(code, t, n - 1, exit, final);
    case Halt(_, _) => HaltsKeepLocals(code, s);
  }

  lemma StepKeepsUnstored(code: seq<RegInstruction>, s: VmState, t: VmState)
    requires JitStep(code, s) == Next(t)
    ensures KeepsUnstored(code, s.locals, t.locals)
  {
    hide RegI32;
    var inst := code[s.pc];
    if inst.op.StoreLoc? || inst.op.SetLoc? {
      assert Stores(code, s.pc, inst.dst);
    }
  }

  /** A restart reads what the first run read, unless a store comes first. */
  lemma RestartAgrees(code: seq<RegInstruction>, locals: seq<Value>, mid: seq<Value>)
    requires StoresBeforeLoads(code) && KeepsUnstored(code, locals, mid)
    ensures LoadsAgree(code, locals, mid)
  {
    hide Path, Assigned, Stored;
  }

  /** A run that bails goes through a last state, which still holds the locals it bails with. */
  lemma {:induction false} LastState(code: seq<RegInstruction>, cpool: seq<Value>, s: VmState, n: nat, mid: seq<Value>) returns (k: nat, t: VmState)
    requires Run(Jit(code), s, n) == Halt(BAIL, mid)
    ensures Run(Jit(code), s, k) == Next(t) && Run(Vm(code, cpool), s, k) == Next(t) && t.locals == mid && JitStep(code, t) == Halt(BAIL, mid)
    decreases n
  {
    hide VmStep, JitStep;
    match JitStep(code, s)
    case Next(s1) =>
      JitStepAgrees(code, cpool, s);
      k, t := LastState(code, cpool, s1, n - 1, mid);
      k := k + 1;
    case Halt(_, _) =>
      k, t := 0, s;
      HaltsKeepLocals(code, s);
  }

  lemma HaltsKeepLocals(code: seq<RegInstruction>, s: VmState)
    requires JitStep(code, s).Halt?
    ensures JitStep(code, s).locals == s.locals
  {
    hide RegI32;
  }

  /** At the point of the bailout the restarted run is in the very same state. */
  lemma RestartMeets(code: seq<RegInstruction>, cpool: seq<Value>, locals: seq<Value>, mid: seq<Value>) returns (k: nat, t: VmState)
    requires StoresBeforeLoads(code) && Halts(Jit(code), VmStart(locals), BAIL, mid)
    ensures Run(Vm(code, cpool), VmStart(locals), k) == Next(t) == Run(Vm(code, cpool), VmStart(mid), k)
    ensures Run(Jit(code), VmStart(locals), k) == Next(t) == Run(Jit(code), VmStart(mid), k)
    ensures JitStep(code, t) == Halt(BAIL, mid)
  {
    hide VmStep, JitStep, Run, StoresBeforeLoads, LoadsAgree, KeepsUnstored, LocalTwins;
    var n: nat :| Run(Jit(code), VmStart(locals), n) == Halt(BAIL, mid);
    HaltKeepsUnstored(code, VmStart(locals), n, BAIL, mid);
    RestartAgrees(code, locals, mid);
    k, t := LastState(code, cpool, VmStart(locals), n, mid);
    LocalsDoNotMatter(code, cpool, locals, mid, k);
    var p :| EndTwins(code, p, Run(Vm(code, cpool), VmStart(locals), k), Run(Vm(code, cpool), VmStart(mid), k), locals, mid);
    TwinOfOwnStart(code, p, mid, Run(Vm(code, cpool), VmStart(mid), k).s.locals, locals);
    LocalsDoNotMatterToJit(code, locals, mid, k);
    var q :| EndTwins(code, q, Run(Jit(code), VmStart(locals), k), Run(Jit(code), VmStart(mid), k), locals, mid);
    TwinOfOwnStart(code, q, mid, Run(Jit(code), VmStart(mid), k).s.locals, locals);
  }

  /** A bailout is transparent: the register machine started over on the locals
      the bailed run left gives what it would have given on its own. */
  lemma RestartIsTransparent(code: seq<RegInstruction>, cpool: seq<Value>, locals: seq<Value>, mid: seq<Value>, exit: Exit, final: seq<Value>)
    requires StoresBeforeLoads(code) && Halts(Jit(code), VmStart(locals), BAIL, mid)
    ensures Halts(Vm(code, cpool), VmStart(mid), exit, final) <==> Halts(Vm(code, cpool), VmStart(locals), exit, final)
  {
    hide VmStep, JitStep, Run, Vm, Jit, StoresBeforeLoads;
    var k, t := RestartMeets(code, cpool, locals, mid);
    HaltsFrom(Vm(code, cpool), VmStart(locals), k, t, exit, final);
    HaltsFrom(Vm(code, cpool), VmStart(mid), k, t, exit, final);
  }

  /** Bailing out a second time, from those locals, changes nothing. */
  lemma BailsAgain(code: seq<RegInstruction>, locals: seq<Value>, mid: seq<Value>)
    requires StoresBeforeLoads(code) && Halts(Jit(code), VmStart(locals), BAIL, mid)
    ensures Halts(Jit(code), VmStart(mid), BAIL, mid)
  {
    hide VmStep, JitStep, Run, StoresBeforeLoads;
    var k, t := RestartMeets(code, [], locals, mid);
    RunThen(Jit(code), VmStart(mid), k, t);
  }

  // ---------------------------------------------------------------------------
  // Checking the hypothesis
  // ---------------------------------------------------------------------------

  function AfterStore(code: seq<RegInstruction>, known: seq<set<nat>>, a: nat): set<nat>
    requires |known| == |code| && a < |code|
  {
    if code[a].op.StoreLoc? || code[a].op.SetLoc? then known[a] + {code[a].dst as nat} else known[a]
  }

  ghost predicate FlowsInto(code: seq<RegInstruction>, known: seq<set<nat>>, a: nat, b: nat)
    requires |known| == |code| && a < |code| && b < |code|
  {
    known[b] <= AfterStore(code, known, a)
  }

  /** For each instruction, locals that every way of reaching it has stored; what
      it loads is among them, or stored nowhere. */
  ghost predicate DataFlow(code: seq<RegInstruction>, known: seq<set<nat>>) {
    && |known| == |code|
    && (|code| > 0 ==> known[0] == {})
    && (forall a, b :: 0 <= a < |code| && 0 <= b < |code| && Edge(code, a, b) ==> FlowsInto(code, known, a, b))
    && (forall a :: 0 <= a < |code| && code[a].op.LoadLoc? && Stored(code, code[a].src1) ==> code[a].src1 in known[a])
  }

  lemma {:induction false} KnownIsAssigned(code: seq<RegInstruction>, known: seq<set<nat>>, p: seq<nat>, x: nat)
    requires DataFlow(code, known) && Path(code, p) && p[|p| - 1] < |code| && x in known[p[|p| - 1]]
    ensures Assigned(code, p, x)
    decreases |p|
  {
    var n := |p| - 1;
    if n > 0 {
      var q := p[..n];
      assert Edge(code, p[n - 1], p[n]);
      assert FlowsInto(code, known, p[n - 1], p[n]);
      assert forall k :: 0 <= k < n ==> q[k] == p[k];
      if x in known[p[n - 1]] {
        KnownIsAssigned(code, known, q, x);
      } else {
        assert Stores(code, p[n - 1], x);
      }
      assert q + [p[n]] == p;
      AssignedGrows(code, q, p[n], x);
    }
  }

  /** A data-flow solution is enough; none of its paths needs to be looked at. */
  lemma DataFlowSuffices(code: seq<RegInstruction>, known: seq<set<nat>>)
    requires DataFlow(code, known)
    ensures StoresBeforeLoads(code)
  {
    forall p | Path(code, p) && LoadsAtEnd(code, p)
      ensures Assigned(code, p, code[p[|p| - 1]].src1) || !Stored(code, code[p[|p| - 1]].src1)
    {
      var x: nat := code[p[|p| - 1]].src1;
      if Stored(code, x) {
        KnownIsAssigned(code, known, p, x);
      }
    }
  }
}
