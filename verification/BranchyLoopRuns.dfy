/** The folded branchy loop returns what the register machine returns. */
module BranchyLoopRuns {
  import opened JsValues
  import opened Machines
  import opened RegisterCode
  import opened RegisterVm
  import opened Translator
  import opened StackShape
  import opened CountedLoop
  import opened BranchyLoop

  // ---------------------------------------------------------------------------
  // The program as statements
  // ---------------------------------------------------------------------------

  function ExitCond(l: Branchy): Expr {
    Bin(Lte, Local(l.iLoc), Const(l.limit))
  }

  /** `i % m` */
  function Residue(l: Branchy, m: int32): Expr {
    Bin(Mod, Local(l.iLoc), Const(m))
  }

  /** `(i % m) === 0` */
  function MultipleTest(l: Branchy, m: int32): Expr {
    Bin(StrictEq, Residue(l, m), Const(0))
  }

  function FirstExpr(l: Branchy): Expr {
    Bin(Add, Local(l.sumLoc), Residue(l, l.modB))
  }

  function SecondExpr(l: Branchy): Expr {
    Bin(Sub, Local(l.sumLoc), Residue(l, l.modD))
  }

  function MaskExpr(l: Branchy): Expr {
    Bin(And, Local(l.iLoc), Const(l.mask))
  }

  function ElseExpr(l: Branchy): Expr {
    Bin(Add, Local(l.sumLoc), Bin(Sub, MaskExpr(l), Residue(l, l.modE)))
  }

  function IncExpr(l: Branchy): Expr {
    Bin(Add, Const(1), Local(l.iLoc))
  }

  /** `if (e) ...` stands at `at` and goes to `to` when `e` is false. */
  predicate TestAt(code: seq<RegInstruction>, at: nat, e: Expr, to: nat) {
    && Codes(code, at, e) && NoSwap(e)
    && at + Size(e) < |code| && code[at + Size(e)].op.IfFalse? && code[at + Size(e)].src1 == to
  }

  predicate JumpAt(code: seq<RegInstruction>, at: nat, to: nat) {
    at < |code| && code[at].op.Jmp? && code[at].src1 == to
  }

  ghost predicate BranchyLaidOut(code: seq<RegInstruction>, l: Branchy) {
    && AssignAt(code, 0, l.sumLoc, Const(l.sumInit)) && AssignAt(code, 2, l.iLoc, Const(l.iInit))
    && TestAt(code, 4, ExitCond(l), 49)
    && TestAt(code, 8, MultipleTest(l, l.divA), 21)
    && AssignAt(code, 14, l.sumLoc, FirstExpr(l)) && JumpAt(code, 20, 44)
    && TestAt(code, 21, MultipleTest(l, l.divC), 34)
    && AssignAt(code, 27, l.sumLoc, SecondExpr(l)) && JumpAt(code, 33, 44)
    && AssignAt(code, 34, l.sumLoc, ElseExpr(l))
    && AssignAt(code, 44, l.iLoc, IncExpr(l)) && JumpAt(code, 48, 4)
    && Codes(code, 49, Local(l.sumLoc)) && |code| == 51 && code[50].op.Return?
  }

  lemma Sizes(l: Branchy, m: int32)
    ensures Size(ExitCond(l)) == 3 && NoSwap(ExitCond(l))
    ensures Size(Residue(l, m)) == 3 && NoSwap(Residue(l, m))
    ensures Size(MultipleTest(l, m)) == 5 && NoSwap(MultipleTest(l, m))
    ensures Size(FirstExpr(l)) == 5 && NoSwap(FirstExpr(l))
    ensures Size(SecondExpr(l)) == 5 && NoSwap(SecondExpr(l))
    ensures Size(MaskExpr(l)) == 3 && NoSwap(MaskExpr(l))
    ensures Size(ElseExpr(l)) == 9 && NoSwap(ElseExpr(l))
    ensures Size(IncExpr(l)) == 3 && Assignable(IncExpr(l))
  {
    LeafSizes();
    assert forall x: nat :: NoSwap(Local(x));
    assert forall c: int32 :: NoSwap(Const(c));
    assert NoSwap(MaskExpr(l)) && NoSwap(Residue(l, l.modE)) && Size(MaskExpr(l)) == 3 && Size(Residue(l, l.modE)) == 3;
    var d := Bin(Sub, MaskExpr(l), Residue(l, l.modE));
    assert Size(d) == 7 && NoSwap(d);
  }

  lemma LoadCodes(code: seq<RegInstruction>, k: nat, loc: byte)
    requires k < |code| && NarrowLoads(code) && LoadsLocal(code[k], loc)
    ensures Codes(code, k, Local(loc))
  {
    Narrow(code[k].src1);
    BuildLeaf(code, k);
  }

  lemma PushCodes(code: seq<RegInstruction>, k: nat)
    requires k < |code| && IsPush(code, k)
    ensures Codes(code, k, Const(RegI32(code[k])))
  {
    BuildLeaf(code, k);
  }

  lemma ResidueCodes(code: seq<RegInstruction>, l: Branchy, k: nat, m: int32)
    requires k + 3 <= |code| && NarrowLoads(code)
    requires LoadsLocal(code[k], l.iLoc) && IsPush(code, k + 1) && RegI32(code[k + 1]) == m && IsBinary(code, k + 2, Mod)
    ensures Codes(code, k, Residue(l, m))
  {
    hide Codes, RegI32;
    LoadCodes(code, k, l.iLoc);
    PushCodes(code, k + 1);
    LeafSizes();
    BuildBin(code, k, Mod, Local(l.iLoc), Const(m));
  }

  lemma TestCodes(code: seq<RegInstruction>, l: Branchy, k: nat, m: int32)
    requires k + 5 <= |code| && NarrowLoads(code)
    requires LoadsLocal(code[k], l.iLoc) && IsPush(code, k + 1) && RegI32(code[k + 1]) == m && IsBinary(code, k + 2, Mod)
    requires PushesInt(code, k + 3, 0) && IsBinary(code, k + 4, StrictEq)
    ensures Codes(code, k, MultipleTest(l, m))
  {
    hide Codes, RegI32;
    LeafSizes();
    Sizes(l, m);
    ResidueCodes(code, l, k, m);
    PushCodes(code, k + 3);
    BuildBin(code, k, StrictEq, Residue(l, m), Const(0));
  }

  lemma HeadLaidOut(code: seq<RegInstruction>, l: Branchy)
    requires BranchyShape(code) && l == BranchyOf(code) && NarrowLoads(code)
    ensures AssignAt(code, 0, l.sumLoc, Const(l.sumInit)) && AssignAt(code, 2, l.iLoc, Const(l.iInit))
    ensures TestAt(code, 4, ExitCond(l), 49)
    ensures AssignAt(code, 44, l.iLoc, IncExpr(l)) && JumpAt(code, 48, 4)
    ensures Codes(code, 49, Local(l.sumLoc)) && code[50].op.Return?
  {
    hide Codes, RegI32, FirstShape, SecondShape, ElseShape;
    LeafSizes();
    Sizes(l, 0);
    PushCodes(code, 0);
    PushCodes(code, 2);
    LoadCodes(code, 4, l.iLoc);
    PushCodes(code, 5);
    BuildBin(code, 4, Lte, Local(l.iLoc), Const(l.limit));
    PushCodes(code, 44);
    LoadCodes(code, 45, l.iLoc);
    BuildBin(code, 44, Add, Const(1), Local(l.iLoc));
    LoadCodes(code, 49, l.sumLoc);
  }

  lemma FirstLaidOut(code: seq<RegInstruction>, l: Branchy)
    requires BranchyShape(code) && l == BranchyOf(code) && NarrowLoads(code)
    ensures TestAt(code, 8, MultipleTest(l, l.divA), 21)
    ensures AssignAt(code, 14, l.sumLoc, FirstExpr(l)) && JumpAt(code, 20, 44)
  {
    hide Codes, RegI32, HeadShape, SecondShape, ElseShape, TailShape;
    LeafSizes();
    Sizes(l, l.divA);
    Sizes(l, l.modB);
    TestCodes(code, l, 8, l.divA);
    LoadCodes(code, 14, l.sumLoc);
    ResidueCodes(code, l, 15, l.modB);
    BuildBin(code, 14, Add, Local(l.sumLoc), Residue(l, l.modB));
  }

  lemma SecondLaidOut(code: seq<RegInstruction>, l: Branchy)
    requires BranchyShape(code) && l == BranchyOf(code) && NarrowLoads(code)
    ensures TestAt(code, 21, MultipleTest(l, l.divC), 34)
    ensures AssignAt(code, 27, l.sumLoc, SecondExpr(l)) && JumpAt(code, 33, 44)
  {
    hide Codes, RegI32, HeadShape, FirstShape, ElseShape, TailShape;
    LeafSizes();
    Sizes(l, l.divC);
    Sizes(l, l.modD);
    TestCodes(code, l, 21, l.divC);
    LoadCodes(code, 27, l.sumLoc);
    ResidueCodes(code, l, 28, l.modD);
    BuildBin(code, 27, Sub, Local(l.sumLoc), Residue(l, l.modD));
  }

  lemma ElseLaidOut(code: seq<RegInstruction>, l: Branchy)
    requires BranchyShape(code) && l == BranchyOf(code) && NarrowLoads(code)
    ensures AssignAt(code, 34, l.sumLoc, ElseExpr(l))
  {
    hide Codes, RegI32, HeadShape, FirstShape, SecondShape, TailShape;
    LeafSizes();
    Sizes(l, l.modE);
    LoadCodes(code, 34, l.sumLoc);
    LoadCodes(code, 35, l.iLoc);
    PushCodes(code, 36);
    BuildBin(code, 35, And, Local(l.iLoc), Const(l.mask));
    ResidueCodes(code, l, 38, l.modE);
    BuildBin(code, 35, Sub, MaskExpr(l), Residue(l, l.modE));
    BuildBin(code, 34, Add, Local(l.sumLoc), Bin(Sub, MaskExpr(l), Residue(l, l.modE)));
  }

  lemma LaidOut(code: seq<RegInstruction>, l: Branchy)
    requires BranchyShape(code) && l == BranchyOf(code) && NarrowLoads(code)
    ensures BranchyLaidOut(code, l)
  {
    hide HeadShape, FirstShape, SecondShape, ElseShape, TailShape, RegI32, AssignAt, TestAt, JumpAt, Codes;
    HeadLaidOut(code, l);
    FirstLaidOut(code, l);
    SecondLaidOut(code, l);
    ElseLaidOut(code, l);
  }

  // ---------------------------------------------------------------------------
  // Evaluating the expressions
  // ---------------------------------------------------------------------------

  /** At the loop head, about to test round `k`. */
  predicate AtRound(l: Branchy, k: nat, locals: seq<Value>)
    requires BranchyGuards(l)
  {
    && k >= 1 && l.iLoc < |locals| && l.sumLoc < |locals|
    && locals[l.iLoc].Int? && locals[l.iLoc].i == k
    && IsExact(locals[l.sumLoc]) && Number(locals[l.sumLoc]) == SumAt(l, k - 1)
  }

  lemma ResidueEval(l: Branchy, m: int32, locals: seq<Value>, k: nat)
    requires l.iLoc < |locals| && locals[l.iLoc].Int? && locals[l.iLoc].i == k && m > 0
    ensures LocalsIn(Residue(l, m), |locals|)
    ensures Eval(Residue(l, m), locals) == Evaluation(Val(Int(k % m)), locals)
  {
    hide Eval;
    EvalLeaf(Local(l.iLoc), locals);
    EvalLeaf(Const(m), locals);
    EvalBin(Mod, Local(l.iLoc), Const(m), locals, Int(k), Int(m));
  }

  lemma TestEval(l: Branchy, m: int32, locals: seq<Value>, k: nat)
    requires l.iLoc < |locals| && locals[l.iLoc].Int? && locals[l.iLoc].i == k && m > 0
    ensures LocalsIn(MultipleTest(l, m), |locals|)
    ensures Eval(MultipleTest(l, m), locals) == Evaluation(Val(Bool(k % m == 0)), locals)
  {
    hide Eval;
    ResidueEval(l, m, locals, k);
    EvalLeaf(Const(0), locals);
    EvalBin(StrictEq, Residue(l, m), Const(0), locals, Int(k % m), Int(0));
  }

  lemma MaskEval(l: Branchy, locals: seq<Value>, k: nat)
    requires l.iLoc < |locals| && locals[l.iLoc].Int? && locals[l.iLoc].i == k && l.mask == 15
    ensures LocalsIn(MaskExpr(l), |locals|)
    ensures Eval(MaskExpr(l), locals) == Evaluation(Val(Int(k % 16)), locals)
  {
    hide Eval, Alu;
    EvalLeaf(Local(l.iLoc), locals);
    EvalLeaf(Const(15), locals);
    EvalBin(And, Local(l.iLoc), Const(15), locals, Int(k), Int(15));
    MaskResult(k);
  }

  lemma MaskResult(k: int32)
    requires k >= 0
    ensures Alu(And, Int(k), Int(15)) == Val(Int(k % 16))
  {
    hide Word;
    AndFifteen(k);
  }

  /** The sum so far, or the run leaves the exact integers. */
  ghost predicate Sums(l: Branchy, k: nat, e: Evaluation, locals: seq<Value>)
    requires BranchyGuards(l)
  {
    && e.locals == locals
    && (IsSafe(SumAt(l, k)) ==> e.result.Val? && IsExact(e.result.v) && Number(e.result.v) == SumAt(l, k))
    && (!IsSafe(SumAt(l, k)) ==> e.result == Inexact)
  }

  lemma SubIsExact(a: Value, b: Value)
    requires IsExact(a) && IsExact(b)
    ensures Alu(Sub, a, b).Val? <==> IsSafe(Number(a) - Number(b))
    ensures Alu(Sub, a, b).Val? ==> IsExact(Alu(Sub, a, b).v) && Number(Alu(Sub, a, b).v) == Number(a) - Number(b)
    ensures !Alu(Sub, a, b).Val? ==> Alu(Sub, a, b).Inexact?
  {
  }

  lemma FirstEval(l: Branchy, k: nat, locals: seq<Value>)
    requires BranchyGuards(l) && AtRound(l, k, locals) && k % l.divA == 0
    ensures LocalsIn(FirstExpr(l), |locals|) && Sums(l, k, Eval(FirstExpr(l), locals), locals)
  {
    hide Eval, Alu;
    var s := locals[l.sumLoc];
    ResidueEval(l, l.modB, locals, k);
    EvalLeaf(Local(l.sumLoc), locals);
    EvalBin(Add, Local(l.sumLoc), Residue(l, l.modB), locals, s, Int(k % l.modB));
    AddIsExact(s, Int(k % l.modB));
  }

  lemma SecondEval(l: Branchy, k: nat, locals: seq<Value>)
    requires BranchyGuards(l) && AtRound(l, k, locals) && k % l.divA != 0 && k % l.divC == 0
    ensures LocalsIn(SecondExpr(l), |locals|) && Sums(l, k, Eval(SecondExpr(l), locals), locals)
  {
    hide Eval, Alu;
    var s := locals[l.sumLoc];
    ResidueEval(l, l.modD, locals, k);
    EvalLeaf(Local(l.sumLoc), locals);
    EvalBin(Sub, Local(l.sumLoc), Residue(l, l.modD), locals, s, Int(k % l.modD));
    SubIsExact(s, Int(k % l.modD));
  }

  lemma ElseEval(l: Branchy, k: nat, locals: seq<Value>)
    requires BranchyGuards(l) && AtRound(l, k, locals) && k % l.divA != 0 && k % l.divC != 0
    ensures LocalsIn(ElseExpr(l), |locals|) && Sums(l, k, Eval(ElseExpr(l), locals), locals)
  {
    hide Eval, Alu;
    var s := locals[l.sumLoc];
    var d := k % 16 - k % l.modE;
    MaskEval(l, locals, k);
    ResidueEval(l, l.modE, locals, k);
    SmallDifference(k, l.modE);
    EvalBin(Sub, MaskExpr(l), Residue(l, l.modE), locals, Int(k % 16), Int(k % l.modE));
    EvalLeaf(Local(l.sumLoc), locals);
    EvalBin(Add, Local(l.sumLoc), Bin(Sub, MaskExpr(l), Residue(l, l.modE)), locals, s, Int(d));
    AddIsExact(s, Int(d));
  }

  lemma SmallDifference(k: nat, m: int32)
    requires m > 0
    ensures IsInt32(k % 16 - k % m)
    ensures Alu(Sub, Int(k % 16), Int(k % m)) == Val(Int(k % 16 - k % m))
  {
  }

  lemma HeadEval(l: Branchy, k: nat, locals: seq<Value>)
    requires l.iLoc < |locals| && locals[l.iLoc].Int? && locals[l.iLoc].i == k
    ensures LocalsIn(ExitCond(l), |locals|)
    ensures Eval(ExitCond(l), locals) == Evaluation(Val(Bool(k <= l.limit)), locals)
  {
    hide Eval;
    EvalLeaf(Local(l.iLoc), locals);
    EvalLeaf(Const(l.limit), locals);
    EvalBin(Lte, Local(l.iLoc), Const(l.limit), locals, Int(k), Int(l.limit));
  }

  lemma IncEval(l: Branchy, k: nat, locals: seq<Value>)
    requires l.iLoc < |locals| && locals[l.iLoc].Int? && locals[l.iLoc].i == k
    ensures LocalsIn(IncExpr(l), |locals|)
    ensures Eval(IncExpr(l), locals)
         == Evaluation(Val(if k < TWO31 - 1 then Int(k + 1) else Float(k + 1)), locals)
  {
    hide Eval;
    EvalLeaf(Local(l.iLoc), locals);
    EvalLeaf(Const(1), locals);
    EvalBin(Add, Const(1), Local(l.iLoc), locals, Int(1), Int(k));
  }

  // ---------------------------------------------------------------------------
  // One round
  // ---------------------------------------------------------------------------

  /** After the branches: the sum is updated and control is at 44. */
  ghost predicate Updated(l: Branchy, k: nat, r: Progress<VmState>, locals: seq<Value>)
    requires BranchyGuards(l)
  {
    if IsSafe(SumAt(l, k)) then
      && r.Next? && r.s.pc == 44 && |r.s.locals| == |locals|
      && l.sumLoc < |locals| && IsExact(r.s.locals[l.sumLoc]) && Number(r.s.locals[l.sumLoc]) == SumAt(l, k)
      && l.iLoc < |locals| && r.s.locals[l.iLoc] == locals[l.iLoc]
    else
      r.Halt? && r.exit == Outside
  }

  /** `sum := e` followed by a jump to 44, or falling through to it. */
  lemma RunUpdate(code: seq<RegInstruction>, cpool: seq<Value>, hs: seq<nat>, l: Branchy, k: nat, e: Expr, at: nat, s: VmState)
    returns (n: nat)
    requires StackShaped(code, hs) && BranchyGuards(l) && l.sumLoc != l.iLoc
    requires AtRound(l, k, s.locals) && s.pc == at
    requires AssignAt(code, at, l.sumLoc, e) && (at + Size(e) + 1 == 44 || JumpAt(code, at + Size(e) + 1, 44))
    requires LocalsIn(e, |s.locals|) && Sums(l, k, Eval(e, s.locals), s.locals)
    ensures Updated(l, k, Run(Vm(code, cpool), s, n), s.locals)
  {
    hide Alu, VmStep, Run, Vm, Codes, StackShaped, Eval, SumAt;
    RunAssign(code, cpool, hs, l.sumLoc, e, s);
    n := Size(e) + 1;
    if IsSafe(SumAt(l, k)) && at + Size(e) + 1 != 44 {
      RunJump(code, cpool, s, n, Run(Vm(code, cpool), s, n).s);
      n := n + 1;
    }
  }

  lemma RunBranches(code: seq<RegInstruction>, cpool: seq<Value>, hs: seq<nat>, l: Branchy, k: nat, s: VmState) returns (n: nat)
    requires StackShaped(code, hs) && BranchyGuards(l) && l.sumLoc != l.iLoc && BranchyLaidOut(code, l)
    requires AtRound(l, k, s.locals) && s.pc == 8
    ensures Updated(l, k, Run(Vm(code, cpool), s, n), s.locals)
  {
    hide Alu, VmStep, Run, Vm, Codes, StackShaped, Eval, SumAt, AssignAt, Sums, Updated, LocalsIn;
    var step := Vm(code, cpool);
    Sizes(l, l.divA);
    Sizes(l, l.divC);
    TestEval(l, l.divA, s.locals, k);
    RunBranch(code, cpool, hs, MultipleTest(l, l.divA), s, k % l.divA == 0);
    var s1 := Run(step, s, 6).s;
    var m: nat;
    if k % l.divA == 0 {
      FirstEval(l, k, s.locals);
      m := RunUpdate(code, cpool, hs, l, k, FirstExpr(l), 14, s1);
      n := 6 + m;
      RunBoth(step, s, 6, s1, m);
    } else {
      TestEval(l, l.divC, s.locals, k);
      RunBranch(code, cpool, hs, MultipleTest(l, l.divC), s1, k % l.divC == 0);
      var s2 := Run(step, s1, 6).s;
      RunBoth(step, s, 6, s1, 6);
      if k % l.divC == 0 {
        SecondEval(l, k, s.locals);
        m := RunUpdate(code, cpool, hs, l, k, SecondExpr(l), 27, s2);
      } else {
        ElseEval(l, k, s.locals);
        m := RunUpdate(code, cpool, hs, l, k, ElseExpr(l), 34, s2);
      }
      n := 12 + m;
      RunBoth(step, s, 12, s2, m);
    }
  }

  /** What one round leads to: the next head, leaving the exact integers, or,
      when `i` passes the int32 range, a comparison of a float64 that aborts. */
  ghost predicate RoundLeads(l: Branchy, k: nat, r: Progress<VmState>, n: nat)
    requires BranchyGuards(l)
  {
    if !IsSafe(SumAt(l, k)) then r.Halt? && r.exit == Outside
    else if k < TWO31 - 1 then r.Next? && r.s.pc == 4 && |r.s.locals| == n && AtRound(l, k + 1, r.s.locals)
    else r.Next? && r.s.pc == 4 && l.iLoc < |r.s.locals| && r.s.locals[l.iLoc].Float?
  }

  lemma OneRound(code: seq<RegInstruction>, cpool: seq<Value>, hs: seq<nat>, l: Branchy, k: nat, s: VmState) returns (n: nat)
    requires StackShaped(code, hs) && BranchyGuards(l) && l.sumLoc != l.iLoc && BranchyLaidOut(code, l)
    requires AtRound(l, k, s.locals) && s.pc == 4 && k <= l.limit
    ensures RoundLeads(l, k, Run(Vm(code, cpool), s, n), |s.locals|)
  {
    hide Alu, VmStep, Run, Vm, Codes, StackShaped, Eval, SumAt, AssignAt, LocalsIn;
    var step := Vm(code, cpool);
    Sizes(l, 0);
    HeadEval(l, k, s.locals);
    RunBranch(code, cpool, hs, ExitCond(l), s, true);
    var s1 := Run(step, s, 4).s;
    var m := RunBranches(code, cpool, hs, l, k, s1);
    RunBoth(step, s, 4, s1, m);
    n := 4 + m;
    if IsSafe(SumAt(l, k)) {
      var s2 := Run(step, s1, m).s;
      var a := RunInc(code, cpool, hs, l, k, s2);
      RunBoth(step, s, n, s2, a);
      n := n + a;
    }
  }

  lemma RunInc(code: seq<RegInstruction>, cpool: seq<Value>, hs: seq<nat>, l: Branchy, k: nat, s: VmState) returns (n: nat)
    requires StackShaped(code, hs) && AssignAt(code, 44, l.iLoc, IncExpr(l)) && JumpAt(code, 48, 4)
    requires l.iLoc < |s.locals| && s.locals[l.iLoc].Int? && s.locals[l.iLoc].i == k && s.pc == 44
    ensures
      var r, i := Run(Vm(code, cpool), s, n), if k < TWO31 - 1 then Int(k + 1) else Float(k + 1);
      r.Next? && r.s.pc == 4 && r.s.locals == s.locals[l.iLoc := i]
  {
    hide Alu, VmStep, Run, Vm, Codes, StackShaped, Eval, LocalsIn;
    Sizes(l, 0);
    IncEval(l, k, s.locals);
    RunAssign(code, cpool, hs, l.iLoc, IncExpr(l), s);
    RunJump(code, cpool, s, 4, Run(Vm(code, cpool), s, 4).s);
    n := 5;
  }

  // ---------------------------------------------------------------------------
  // The whole loop
  // ---------------------------------------------------------------------------

  ghost predicate SafeSums(l: Branchy, k: nat, n: nat)
    requires BranchyGuards(l)
  {
    forall j: nat :: k <= j <= n ==> IsSafe(SumAt(l, j))
  }

  /** How the machine ends, from the head of round `k`. */
  ghost predicate LoopEnds(l: Branchy, k: nat, r: Progress<VmState>)
    requires BranchyGuards(l)
  {
    && r.Halt?
    && (!SafeSums(l, k, l.limit) ==> r.exit == Outside)
    && (SafeSums(l, k, l.limit) && l.limit == TWO31 - 1 ==> r.exit == Aborted)
    && (SafeSums(l, k, l.limit) && l.limit < TWO31 - 1 ==>
          r.exit.Returned? && IsExact(r.exit.v) && Number(r.exit.v) == SumAt(l, l.limit))
  }

  lemma RunExit(code: seq<RegInstruction>, cpool: seq<Value>, hs: seq<nat>, l: Branchy, k: nat, s: VmState)
    requires StackShaped(code, hs) && BranchyGuards(l) && BranchyLaidOut(code, l)
    requires AtRound(l, k, s.locals) && s.pc == 4 && k == l.limit + 1
    ensures LoopEnds(l, k, Run(Vm(code, cpool), s, 6))
  {
    hide Alu, VmStep, Run, Vm, Codes, StackShaped, Eval, AssignAt, LocalsIn;
    var step := Vm(code, cpool);
    Sizes(l, 0);
    HeadEval(l, k, s.locals);
    RunBranch(code, cpool, hs, ExitCond(l), s, false);
    var s1 := Run(step, s, 4).s;
    RunReturn(code, cpool, hs, l.sumLoc, s1);
    RunBoth(step, s, 4, s1, 2);
  }

  /** The comparison of a float64 counter is not handled. */
  lemma RunPastInt32(code: seq<RegInstruction>, cpool: seq<Value>, hs: seq<nat>, l: Branchy, s: VmState)
    requires StackShaped(code, hs) && TestAt(code, 4, ExitCond(l), 49)
    requires l.iLoc < |s.locals| && s.locals[l.iLoc].Float? && s.pc == 4
    ensures Run(Vm(code, cpool), s, 3) == Halt(Aborted, s.locals)
  {
    hide VmStep, Run, Vm, Codes, StackShaped, Eval;
    Sizes(l, 0);
    EvalLeaf(Local(l.iLoc), s.locals);
    EvalLeaf(Const(l.limit), s.locals);
    EvalBin(Lte, Local(l.iLoc), Const(l.limit), s.locals, s.locals[l.iLoc], Int(l.limit));
    RunExpr(code, cpool, hs, ExitCond(l), s);
  }

  lemma {:induction false} RunRounds(code: seq<RegInstruction>, cpool: seq<Value>, hs: seq<nat>, l: Branchy, k: nat, s: VmState)
    returns (n: nat)
    requires StackShaped(code, hs) && BranchyGuards(l) && l.sumLoc != l.iLoc && BranchyLaidOut(code, l)
    requires AtRound(l, k, s.locals) && s.pc == 4 && k <= l.limit + 1
    ensures LoopEnds(l, k, Run(Vm(code, cpool), s, n))
    decreases l.limit + 1 - k
  {
    hide Alu, VmStep, Run, Vm, Codes, StackShaped, Eval, SumAt, AssignAt, LocalsIn;
    var step := Vm(code, cpool);
    if k == l.limit + 1 {
      RunExit(code, cpool, hs, l, k, s);
      n := 6;
    } else {
      var a := OneRound(code, cpool, hs, l, k, s);
      n := a;
      if IsSafe(SumAt(l, k)) {
        var s1 := Run(step, s, a).s;
        if k < TWO31 - 1 {
          var b := RunRounds(code, cpool, hs, l, k + 1, s1);
          RunBoth(step, s, a, s1, b);
          n := a + b;
          assert SafeSums(l, k, l.limit) <==> SafeSums(l, k + 1, l.limit);
        } else {
          RunPastInt32(code, cpool, hs, l, s1);
          RunBoth(step, s, a, s1, 3);
          n := a + 3;
        }
      }
    }
  }

  /** The fold is exact. From any locals the machine returns the folded number
      precisely when every partial sum is a safe integer and the limit leaves
      room for the counter; with the largest limit it aborts instead. */
  lemma BranchyFoldIsExact(code: seq<RegInstruction>, cpool: seq<Value>, hs: seq<nat>, locals: seq<Value>)
    returns (exit: Exit, final: seq<Value>)
    requires StackShaped(code, hs) && NarrowLoads(code) && StoresIn(code, |locals|)
    requires FoldBranchy(code).Some? && BranchyOf(code).sumLoc != BranchyOf(code).iLoc
    ensures Halts(Vm(code, cpool), VmStart(locals), exit, final)
    ensures
      var l := BranchyOf(code);
      if SafeSums(l, 1, l.limit) && l.limit < TWO31 - 1 then exit.Returned? && SameValue(exit.v, FoldBranchy(code).value)
      else exit == if SafeSums(l, 1, l.limit) then Aborted else Outside
  {
    hide Alu, VmStep, Run, Vm, Codes, StackShaped, Eval, LocalsIn, RegI32;
    hide HeadShape, FirstShape, SecondShape, ElseShape, TailShape;
    var l, step := BranchyOf(code), Vm(code, cpool);
    LaidOut(code, l);
    var s0 := VmStart(locals);
    ConstEval(l.sumInit, locals);
    RunAssign(code, cpool, hs, l.sumLoc, Const(l.sumInit), s0);
    var s1 := Run(step, s0, 2).s;
    ConstEval(1, s1.locals);
    RunAssign(code, cpool, hs, l.iLoc, Const(1), s1);
    RunBoth(step, s0, 2, s1, 2);
    var s2 := Run(step, s1, 2).s;
    assert AtRound(l, 1, s2.locals);
    var n := RunRounds(code, cpool, hs, l, 1, s2);
    RunBoth(step, s0, 4, s2, n);
    exit, final := Run(step, s2, n).exit, Run(step, s2, n).locals;
  }

  // ---------------------------------------------------------------------------
  // Constants that make every partial sum safe
  // ---------------------------------------------------------------------------

  /** No round changes the sum by more. */
  function RoundBound(l: Branchy): int {
    if l.modB >= 16 && l.modB >= l.modD && l.modB >= l.modE then l.modB - 1
    else if l.modD >= 16 && l.modD >= l.modE then l.modD - 1
    else if l.modE >= 16 then l.modE - 1
    else 15
  }

  /** What the constants show before the loop is run. */
  predicate SmallLoop(l: Branchy) {
    -MAX_SAFE_INTEGER <= l.sumInit - l.limit * RoundBound(l) && l.sumInit + l.limit * RoundBound(l) <= MAX_SAFE_INTEGER
  }

  lemma TermWithin(l: Branchy, i: nat)
    requires BranchyGuards(l)
    ensures -RoundBound(l) <= Term(l, i) <= RoundBound(l)
  {
  }

  lemma {:induction false} SumWithin(l: Branchy, k: nat)
    requires BranchyGuards(l)
    ensures l.sumInit - k * RoundBound(l) <= SumAt(l, k) <= l.sumInit + k * RoundBound(l)
  {
    hide Term, RoundBound;
    if k > 0 {
      SumWithin(l, k - 1);
      TermWithin(l, k);
      OneMore(k, RoundBound(l));
    }
  }

  lemma SmallLoopIsSafe(l: Branchy)
    requires BranchyGuards(l) && SmallLoop(l)
    ensures SafeSums(l, 0, l.limit)
  {
    hide SumAt, RoundBound;
    assert RoundBound(l) >= 0 by { TermWithin(l, 0); }
    forall k: nat | k <= l.limit
      ensures IsSafe(SumAt(l, k))
    {
      SumWithin(l, k);
      MulMonotone(k, RoundBound(l), l.limit, RoundBound(l));
    }
  }

  /** For such loops nothing but the limit matters: the fold is returned, or,
      with the largest limit, folded although the machine aborts. */
  lemma SmallLoopFolds(code: seq<RegInstruction>, cpool: seq<Value>, hs: seq<nat>, locals: seq<Value>)
    returns (exit: Exit, final: seq<Value>)
    requires StackShaped(code, hs) && NarrowLoads(code) && StoresIn(code, |locals|)
    requires BranchyShape(code) && BranchyGuards(BranchyOf(code)) && SmallLoop(BranchyOf(code))
    requires BranchyOf(code).sumLoc != BranchyOf(code).iLoc
    ensures FoldBranchy(code).Some? && Halts(Vm(code, cpool), VmStart(locals), exit, final)
    ensures BranchyOf(code).limit < TWO31 - 1 ==> exit.Returned? && SameValue(exit.v, FoldBranchy(code).value)
    ensures BranchyOf(code).limit == TWO31 - 1 ==> exit == Aborted
  {
    hide StackShaped, NarrowLoads, StoresIn, HeadShape, FirstShape, SecondShape, ElseShape, TailShape, BranchyOf, SmallLoop, Vm, SumAt;
    SmallLoopIsSafe(BranchyOf(code));
    exit, final := BranchyFoldIsExact(code, cpool, hs, locals);
  }

  lemma ConstEval(c: int32, locals: seq<Value>)
    ensures Size(Const(c)) == 1 && LocalsIn(Const(c), |locals|) && Eval(Const(c), locals) == Evaluation(Val(Int(c)), locals)
  {
  }
}
