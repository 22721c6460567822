/** When a safe final count makes every round of a counted loop safe. */
module CountedLoopSafety {
  import opened JsValues
  import opened Machines
  import opened RegisterCode
  import opened RegisterVm
  import opened StackShape
  import opened CountedLoop
  import opened CountedLoopTurns
  import opened CountedLoopRuns

  /** No round can lower the count. */
  predicate Growing(l: Counted) {
    && l.countInit >= 0 && l.iInit >= 0 && l.step > 0
    && match l.update
       case ConstStep(c) => c >= 0
       case Induction => true
       case Affine(mul, add) => mul >= 0 && add >= 0
  }

  lemma InductionGrows(l: Counted, k: nat)
    requires l.iInit >= 0 && l.step > 0
    ensures InductionAt(l, k) >= 0
  {
    MulMonotone(0, 0, k, l.step);
  }

  lemma RoundGrows(l: Counted, k: nat)
    requires Growing(l)
    ensures Delta(l.update, InductionAt(l, k)) >= 0
    ensures l.update.Affine? ==> 0 <= InductionAt(l, k) * l.update.mul <= Delta(l.update, InductionAt(l, k))
  {
    hide InductionAt;
    InductionGrows(l, k);
    if l.update.Affine? {
      MulMonotone(0, 0, InductionAt(l, k), l.update.mul);
    }
  }

  lemma {:induction false} CountGrows(l: Counted, j: nat, k: nat)
    requires Growing(l) && j <= k
    ensures 0 <= CountAt(l, j) <= CountAt(l, k)
    decreases k
  {
    hide Growing, Delta, InductionAt;
    if k > 0 {
      RoundGrows(l, k - 1);
      if j < k {
        CountGrows(l, j, k - 1);
      } else {
        CountGrows(l, k - 1, k - 1);
      }
    } else {
      assert CountAt(l, 0) >= 0 by { StartsNonNegative(l); }
    }
  }

  lemma StartsNonNegative(l: Counted)
    requires Growing(l)
    ensures CountAt(l, 0) >= 0
  {
  }

  /** Safety of the end is safety of the whole run. */
  lemma GrowingIsSafe(l: Counted, n: nat)
    requires Growing(l) && IsSafe(CountAt(l, n))
    ensures SafeFrom(l, 0, n)
  {
    hide Growing, InductionAt;
    forall j: nat | j < n
      ensures SafeRound(l, j)
    {
      CountGrows(l, j, j + 1);
      CountGrows(l, j + 1, n);
      RoundGrows(l, j);
    }
  }

  /** Constant increments of either sign: the endpoints bound every partial sum. */
  lemma ConstantStepIsSafe(l: Counted, n: nat)
    requires l.update.ConstStep? && IsSafe(CountAt(l, n))
    ensures SafeFrom(l, 0, n)
  {
    hide CountAt, InductionTotal;
    CountClosedForm(l, n);
    forall j: nat | j < n
      ensures SafeRound(l, j)
    {
      CountClosedForm(l, j + 1);
      LineBetween(l.countInit, l.update.c, j + 1, n);
    }
  }

  lemma FoldedCountIsSafe(l: Counted, n: nat)
    requires FoldLoop(l).Some? && Iterations(l.iInit, l.limit, l.step, l.cmp) == Some(n)
    ensures IsSafe(CountAt(l, n))
  {
    hide FinalCount, CountAt;
    IterationsIsLeast(l.iInit, l.limit, l.step, l.cmp);
    ArithmeticNeverFails(l, n);
  }

  /** For such loops the fold needs no proviso: the machine returns the folded number. */
  lemma SteadyFoldReturns(code: seq<RegInstruction>, cpool: seq<Value>, hs: seq<nat>, locals: seq<Value>) returns (v: Value, final: seq<Value>)
    requires StackShaped(code, hs) && NarrowLoads(code) && StoresIn(code, |locals|)
    requires FoldCounted(code).Some? && (Growing(Recognize(code).value) || Recognize(code).value.update.ConstStep?)
    ensures Halts(Vm(code, cpool), VmStart(locals), Returned(v), final) && SameValue(v, FoldCounted(code).value)
  {
    hide StackShaped, NarrowLoads, StoresIn, Vm, Recognize, FoldLoop, Growing, CountAt, SafeFrom, TurnsSafe;
    var l := Recognize(code).value;
    var exit, end := CountedFoldIsExact(code, cpool, hs, locals);
    var n := FoldCountIterations(l);
    FoldedCountIsSafe(l, n);
    SafeAtTurns(l, n);
    if Growing(l) {
      GrowingIsSafe(l, n);
    } else {
      ConstantStepIsSafe(l, n);
    }
    v, final := exit.v, end;
  }

  lemma FoldCountIterations(l: Counted) returns (n: nat)
    requires FoldLoop(l).Some?
    ensures Iterations(l.iInit, l.limit, l.step, l.cmp) == Some(n)
  {
    hide FinalCount;
    n := Iterations(l.iInit, l.limit, l.step, l.cmp).value;
  }
}
