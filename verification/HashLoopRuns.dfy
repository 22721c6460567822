/** The emitted hash loop returns what the register machine returns. */
module HashLoopRuns {
  import opened JsValues
  import opened Machines
  import opened RegisterCode
  import opened RegisterVm
  import opened Translator
  import opened StackShape
  import opened CountedLoop
  import opened NativeCode
  import opened HashLoop

  // ---------------------------------------------------------------------------
  // Operators on 32-bit words held as JS numbers
  // ---------------------------------------------------------------------------

  lemma WordOfInt(u: uint32)
    ensures ToUint32(Int(S32(u))) == u && ToUint32(UnsignedValue(u)) == u
  {
  }

  lemma BitwiseResult(op: BinOp, a: Value, b: Value)
    requires op.And? || op.Xor? || op.Or?
    requires IsNumber(a) && IsNumber(b)
    ensures Alu(op, a, b) == Val(Int(S32(JsValues.Word(op, ToUint32(a), ToUint32(b)))))
  {
    hide JsValues.Word, ToUint32;
  }

  /** A sum may leave int32 and become a float64; its low 32 bits are the
      wrapped sum either way. */
  lemma SumResult(h: uint32, y: uint32)
    ensures
      var r := Alu(Add, Int(S32(h)), Int(S32(y)));
      r.Val? && IsExact(r.v) && ToUint32(r.v) == U32(h + y)
  {
  }

  lemma OrZeroResult(v: Value)
    requires IsNumber(v)
    ensures Alu(Or, v, Int(0)) == Val(Int(S32(ToUint32(v))))
  {
    hide JsValues.Word, Alu;
    BitwiseResult(Or, v, Int(0));
    OrZero(ToUint32(v));
  }

  lemma ShiftLeftResult(x: uint32, b: int32)
    requires 0 <= b < 32
    ensures Alu(Shl, Int(S32(x)), Int(b)) == Val(Int(S32(x * Pow2(b))))
  {
    WordOfInt(x);
    assert ToUint32(Int(b)) % 32 == b;
    var p := Pow2(b);
    if S32(x) != x {
      assert S32(x) == x - TWO32;
      assert (x - TWO32) * p == x * p + (-p) * TWO32;
      WrapCongruence((x - TWO32) * p, x * p);
    }
  }

  lemma ShiftRightResult(x: uint32, c: int32)
    requires 0 <= c < 32
    ensures Alu(Shr, Int(S32(x)), Int(c)) == Val(UnsignedValue(ShiftRight(x, c)))
  {
    hide ShiftRight;
    WordOfInt(x);
    assert ToUint32(Int(c)) % 32 == c;
  }

  // ---------------------------------------------------------------------------
  // The program as statements
  // ---------------------------------------------------------------------------

  function MixExpr(l: Hash): Expr {
    Bin(Or, Bin(Add, Local(l.hashLoc), Bin(Xor, Bin(And, Local(l.iLoc), Const(l.mask)), Bin(Shr, Local(l.iLoc), Const(l.a)))),
        Const(0))
  }

  function LeftExpr(l: Hash): Expr {
    Bin(Xor, Tee(l.hashLoc, MixExpr(l)), Bin(Shl, Local(l.hashLoc), Const(l.b)))
  }

  function RoundExpr(l: Hash): Expr {
    Bin(Or, Bin(Xor, LeftExpr(l), Bin(Shr, Local(l.hashLoc), Const(l.c))), Const(0))
  }

  function LimitCond(l: Hash): Expr {
    Bin(Lt, Local(l.iLoc), Const(l.limit))
  }

  function NextExpr(l: Hash): Expr {
    Bin(Add, Const(1), Local(l.iLoc))
  }

  lemma Sizes(l: Hash)
    ensures Size(LimitCond(l)) == 3 && NoSwap(LimitCond(l))
    ensures Size(MixExpr(l)) == 11 && NoSwap(MixExpr(l))
    ensures Size(LeftExpr(l)) == 16 && NoSwap(LeftExpr(l))
    ensures Size(RoundExpr(l)) == 22 && NoSwap(RoundExpr(l))
    ensures Size(NextExpr(l)) == 3 && Assignable(NextExpr(l))
  {
    LeafSizes();
    var mask, shift := Bin(And, Local(l.iLoc), Const(l.mask)), Bin(Shr, Local(l.iLoc), Const(l.a));
    assert Size(mask) == 3 && Size(shift) == 3 && NoSwap(mask) && NoSwap(shift);
    var x := Bin(Xor, mask, shift);
    assert Size(x) == 7 && NoSwap(x);
    var sum := Bin(Add, Local(l.hashLoc), x);
    assert Size(sum) == 9 && NoSwap(sum);
    assert Size(MixExpr(l)) == 11 && NoSwap(MixExpr(l));
    var tee, shl := Tee(l.hashLoc, MixExpr(l)), Bin(Shl, Local(l.hashLoc), Const(l.b));
    assert Size(tee) == 12 && NoSwap(tee) && Size(shl) == 3 && NoSwap(shl);
    assert Size(LeftExpr(l)) == 16 && NoSwap(LeftExpr(l));
    var shr := Bin(Shr, Local(l.hashLoc), Const(l.c));
    assert Size(shr) == 3 && NoSwap(shr);
    var last := Bin(Xor, LeftExpr(l), shr);
    assert Size(last) == 20 && NoSwap(last);
  }

  /** Instructions 20 and 24 load the hash, as the recognizer assumes. */
  predicate HashLoads(code: seq<RegInstruction>, l: Hash)
    requires |code| == 38
  {
    LoadsLocal(code[20], l.hashLoc) && LoadsLocal(code[24], l.hashLoc)
  }

  lemma LeafCodes(code: seq<RegInstruction>, k: nat, loc: byte)
    requires k + 1 < |code| && NarrowLoads(code) && LoadsLocal(code[k], loc) && IsPush(code, k + 1)
    ensures Codes(code, k, Local(loc)) && Codes(code, k + 1, Const(RegI32(code[k + 1])))
  {
    hide RegI32;
    Narrow(code[k].src1);
    BuildLeaf(code, k);
    BuildLeaf(code, k + 1);
  }

  /** A local combined with a constant. */
  lemma PairCodes(code: seq<RegInstruction>, k: nat, op: BinOp, loc: byte)
    requires k + 2 < |code| && NarrowLoads(code)
    requires LoadsLocal(code[k], loc) && IsPush(code, k + 1) && IsBinary(code, k + 2, op)
    ensures Codes(code, k, Bin(op, Local(loc), Const(RegI32(code[k + 1])))) && Size(Bin(op, Local(loc), Const(RegI32(code[k + 1])))) == 3
  {
    hide RegI32, Codes;
    LeafSizes();
    LeafCodes(code, k, loc);
    BuildBin(code, k, op, Local(loc), Const(RegI32(code[k + 1])));
  }

  lemma MixCoded(code: seq<RegInstruction>, l: Hash)
    requires HashShape(code) && l == HashOf(code) && NarrowLoads(code)
    ensures Codes(code, 8, Tee(l.hashLoc, MixExpr(l)))
  {
    hide RegI32, Codes, InitShape, StirShape, LoopEndShape;
    LeafSizes();
    Sizes(l);
    var mask, shift := Bin(And, Local(l.iLoc), Const(l.mask)), Bin(Shr, Local(l.iLoc), Const(l.a));
    PairCodes(code, 9, And, l.iLoc);
    PairCodes(code, 12, Shr, l.iLoc);
    BuildBin(code, 9, Xor, mask, shift);
    var x := Bin(Xor, mask, shift);
    Narrow(code[8].src1);
    BuildLeaf(code, 8);
    BuildBin(code, 8, Add, Local(l.hashLoc), x);
    BuildLeaf(code, 17);
    BuildBin(code, 8, Or, Bin(Add, Local(l.hashLoc), x), Const(0));
    BuildTee(code, 8, l.hashLoc, MixExpr(l));
  }

  lemma RoundCoded(code: seq<RegInstruction>, l: Hash)
    requires HashShape(code) && l == HashOf(code) && NarrowLoads(code) && HashLoads(code, l)
    ensures AssignAt(code, 8, l.hashLoc, RoundExpr(l))
  {
    hide RegI32, Codes, InitShape, MixInShape, LoopEndShape;
    LeafSizes();
    Sizes(l);
    MixCoded(code, l);
    PairCodes(code, 20, Shl, l.hashLoc);
    BuildBin(code, 8, Xor, Tee(l.hashLoc, MixExpr(l)), Bin(Shl, Local(l.hashLoc), Const(l.b)));
    PairCodes(code, 24, Shr, l.hashLoc);
    BuildBin(code, 8, Xor, LeftExpr(l), Bin(Shr, Local(l.hashLoc), Const(l.c)));
    BuildLeaf(code, 28);
    BuildBin(code, 8, Or, Bin(Xor, LeftExpr(l), Bin(Shr, Local(l.hashLoc), Const(l.c))), Const(0));
  }

  lemma FrameCoded(code: seq<RegInstruction>, l: Hash)
    requires HashShape(code) && l == HashOf(code) && NarrowLoads(code)
    ensures |code| == 38
    ensures AssignAt(code, 0, l.hashLoc, Const(l.hashInit)) && AssignAt(code, 2, l.iLoc, Const(0))
    ensures Codes(code, 4, LimitCond(l)) && code[7].op.IfFalse? && code[7].src1 == 36
    ensures AssignAt(code, 31, l.iLoc, NextExpr(l)) && code[35].op.Jmp? && code[35].src1 == 4
    ensures Codes(code, 36, Local(l.hashLoc)) && code[37].op.Return?
  {
    hide RegI32, Codes, MixInShape, StirShape;
    LeafSizes();
    Sizes(l);
    BuildLeaf(code, 0);
    BuildLeaf(code, 2);
    PairCodes(code, 4, Lt, l.iLoc);
    BuildLeaf(code, 31);
    Narrow(code[32].src1);
    BuildLeaf(code, 32);
    BuildBin(code, 31, Add, Const(1), Local(l.iLoc));
    Narrow(code[36].src1);
    BuildLeaf(code, 36);
  }

  // ---------------------------------------------------------------------------
  // Evaluating a round
  // ---------------------------------------------------------------------------

  /** The hash is an int32, the counter is `k`. */
  predicate HoldsHash(l: Hash, h: uint32, k: nat, locals: seq<Value>) {
    && l.hashLoc < |locals| && l.iLoc < |locals| && k < TWO31
    && locals[l.hashLoc] == Int(S32(h)) && locals[l.iLoc] == Int(k)
  }

  lemma PairEval(op: BinOp, x: nat, c: int32, locals: seq<Value>)
    requires x < |locals|
    ensures
      var e := Bin(op, Local(x), Const(c));
      LocalsIn(e, |locals|) && Eval(e, locals) == Evaluation(Alu(op, locals[x], Int(c)), locals)
  {
    hide Eval, Alu;
    EvalLeaf(Local(x), locals);
    EvalLeaf(Const(c), locals);
    EvalBin(op, Local(x), Const(c), locals, locals[x], Int(c));
  }

  lemma MixEval(l: Hash, h: uint32, k: nat, locals: seq<Value>)
    requires HashGuards(l) && HoldsHash(l, h, k, locals)
    ensures LocalsIn(MixExpr(l), |locals|)
    ensures Eval(MixExpr(l), locals) == Evaluation(Val(Int(S32(MixIn(l, h, k)))), locals)
  {
    hide Eval, Alu, JsValues.Word, ShiftRight;
    var i := Local(l.iLoc);
    var m := JsValues.Word(And, k, U32(l.mask));
    var s := ShiftRight(k, l.a);
    PairEval(And, l.iLoc, l.mask, locals);
    BitwiseResult(And, Int(k), Int(l.mask));
    PairEval(Shr, l.iLoc, l.a, locals);
    ShiftRightResult(k, l.a);
    EvalBin(Xor, Bin(And, i, Const(l.mask)), Bin(Shr, i, Const(l.a)), locals, Int(S32(m)), UnsignedValue(s));
    WordOfInt(m);
    WordOfInt(s);
    BitwiseResult(Xor, Int(S32(m)), UnsignedValue(s));
    var y := JsValues.Word(Xor, m, s);
    var x := Bin(Xor, Bin(And, i, Const(l.mask)), Bin(Shr, i, Const(l.a)));
    EvalLeaf(Local(l.hashLoc), locals);
    EvalBin(Add, Local(l.hashLoc), x, locals, Int(S32(h)), Int(S32(y)));
    SumResult(h, y);
    var sum := Alu(Add, Int(S32(h)), Int(S32(y))).v;
    EvalLeaf(Const(0), locals);
    EvalBin(Or, Bin(Add, Local(l.hashLoc), x), Const(0), locals, sum, Int(0));
    OrZeroResult(sum);
  }

  lemma LeftEval(l: Hash, h: uint32, k: nat, locals: seq<Value>)
    requires HashGuards(l) && HoldsHash(l, h, k, locals)
    ensures LocalsIn(LeftExpr(l), |locals|)
    ensures
      var x := MixIn(l, h, k);
      Eval(LeftExpr(l), locals)
      == Evaluation(Val(Int(S32(JsValues.Word(Xor, x, U32(x * Pow2(l.b)))))), locals[l.hashLoc := Int(S32(x))])
  {
    hide Eval, Alu, JsValues.Word, ShiftRight, MixIn, Pow2;
    var x := MixIn(l, h, k);
    var v := Int(S32(x));
    var after := locals[l.hashLoc := v];
    MixEval(l, h, k, locals);
    EvalTee(Tee(l.hashLoc, MixExpr(l)), locals, v);
    PairEval(Shl, l.hashLoc, l.b, after);
    ShiftLeftResult(x, l.b);
    var shifted := Int(S32(x * Pow2(l.b)));
    EvalBinThrough(Xor, Tee(l.hashLoc, MixExpr(l)), Bin(Shl, Local(l.hashLoc), Const(l.b)), locals, v, after, shifted);
    WordOfInt(x);
    WordOfInt(U32(x * Pow2(l.b)));
    assert S32(U32(x * Pow2(l.b))) == S32(x * Pow2(l.b));
    BitwiseResult(Xor, v, shifted);
  }

  /** One round of the program computes one round of the 32-bit loop. */
  lemma RoundEval(l: Hash, h: uint32, k: nat, locals: seq<Value>)
    requires HashGuards(l) && HoldsHash(l, h, k, locals)
    ensures LocalsIn(RoundExpr(l), |locals|)
    ensures
      var x := MixIn(l, h, k);
      Eval(RoundExpr(l), locals) == Evaluation(Val(Int(S32(Stir(l, x)))), locals[l.hashLoc := Int(S32(x))])
  {
    hide Eval, Alu, JsValues.Word, ShiftRight, MixIn, Pow2;
    var x := MixIn(l, h, k);
    var after := locals[l.hashLoc := Int(S32(x))];
    var y := JsValues.Word(Xor, x, U32(x * Pow2(l.b)));
    var s := ShiftRight(x, l.c);
    LeftEval(l, h, k, locals);
    PairEval(Shr, l.hashLoc, l.c, after);
    ShiftRightResult(x, l.c);
    var shr := Bin(Shr, Local(l.hashLoc), Const(l.c));
    EvalBinThrough(Xor, LeftExpr(l), shr, locals, Int(S32(y)), after, UnsignedValue(s));
    WordOfInt(y);
    WordOfInt(s);
    BitwiseResult(Xor, Int(S32(y)), UnsignedValue(s));
    var z := JsValues.Word(Xor, y, s);
    EvalLeaf(Const(0), after);
    EvalBinThrough(Or, Bin(Xor, LeftExpr(l), shr), Const(0), locals, Int(S32(z)), after, Int(0));
    WordOfInt(z);
    OrZeroResult(Int(S32(z)));
  }

  // ---------------------------------------------------------------------------
  // Running the loop
  // ---------------------------------------------------------------------------

  lemma RunRound(code: seq<RegInstruction>, cpool: seq<Value>, hs: seq<nat>, l: Hash, h: uint32, k: nat, s: VmState) returns (t: VmState)
    requires StackShaped(code, hs) && NarrowLoads(code)
    requires HashShape(code) && l == HashOf(code) && HashLoads(code, l) && HashGuards(l) && l.hashLoc != l.iLoc
    requires HoldsHash(l, h, k, s.locals) && s.pc == 4 && k < l.limit
    ensures Run(Vm(code, cpool), s, 32) == Next(t)
    ensures t.pc == 4 && HoldsHash(l, Stir(l, MixIn(l, h, k)), k + 1, t.locals)
  {
    hide Alu, VmStep, Run, Vm, Codes, StackShaped, Eval, LocalsIn, MixIn, Stir, RegI32, HashShape, HashOf;
    var step := Vm(code, cpool);
    Sizes(l);
    FrameCoded(code, l);
    RoundCoded(code, l);
    PairEval(Lt, l.iLoc, l.limit, s.locals);
    LessResult(k, l.limit);
    RunBranch(code, cpool, hs, LimitCond(l), s, true);
    var s1 := Run(step, s, 4).s;
    RoundEval(l, h, k, s1.locals);
    RunAssign(code, cpool, hs, l.hashLoc, RoundExpr(l), s1);
    RunBoth(step, s, 4, s1, 23);
    var s2 := Run(step, s1, 23).s;
    NextEval(l, k, s2.locals);
    RunAssign(code, cpool, hs, l.iLoc, NextExpr(l), s2);
    RunBoth(step, s, 27, s2, 4);
    var s3 := Run(step, s2, 4).s;
    RunJump(code, cpool, s, 31, s3);
    t := s3.(pc := 4);
  }

  lemma LessResult(k: int32, limit: int32)
    ensures Alu(Lt, Int(k), Int(limit)) == Val(Bool(k < limit))
  {
  }

  lemma NextEval(l: Hash, k: nat, locals: seq<Value>)
    requires l.iLoc < |locals| && k + 1 < TWO31 && locals[l.iLoc] == Int(k)
    ensures LocalsIn(NextExpr(l), |locals|)
    ensures Eval(NextExpr(l), locals) == Evaluation(Val(Int(k + 1)), locals)
  {
    hide Eval;
    EvalLeaf(Const(1), locals);
    EvalLeaf(Local(l.iLoc), locals);
    EvalBin(Add, Const(1), Local(l.iLoc), locals, Int(1), Int(k));
  }

  lemma {:induction false} RunRounds(code: seq<RegInstruction>, cpool: seq<Value>, hs: seq<nat>, l: Hash, k: nat, s: VmState)
    returns (n: nat)
    requires StackShaped(code, hs) && NarrowLoads(code)
    requires HashShape(code) && l == HashOf(code) && HashLoads(code, l) && HashGuards(l) && l.hashLoc != l.iLoc
    requires k <= l.limit && HoldsHash(l, HashAt(l, k), k, s.locals) && s.pc == 4
    ensures
      var r := Run(Vm(code, cpool), s, n);
      r.Halt? && r.exit == Returned(Int(S32(HashAt(l, l.limit))))
    decreases l.limit - k
  {
    hide Alu, VmStep, Run, Vm, Codes, StackShaped, Eval, LocalsIn, MixIn, Stir, RegI32, HashShape, HashOf;
    var step := Vm(code, cpool);
    if k < l.limit {
      var t := RunRound(code, cpool, hs, l, HashAt(l, k), k, s);
      assert HashAt(l, k + 1) == Stir(l, MixIn(l, HashAt(l, k), k));
      var m := RunRounds(code, cpool, hs, l, k + 1, t);
      RunBoth(step, s, 32, t, m);
      n := 32 + m;
    } else {
      Sizes(l);
      FrameCoded(code, l);
      PairEval(Lt, l.iLoc, l.limit, s.locals);
      LessResult(k, l.limit);
      RunBranch(code, cpool, hs, LimitCond(l), s, false);
      var s1 := Run(step, s, 4).s;
      RunReturn(code, cpool, hs, l.hashLoc, s1);
      RunBoth(step, s, 4, s1, 2);
      n := 6;
    }
  }

  /** The register machine, with its promotions to float64, and the emitted
      loop, which only wraps, return the same number from any locals. */
  lemma HashLoopIsExact(code: seq<RegInstruction>, cpool: seq<Value>, hs: seq<nat>, locals: seq<Value>)
    returns (v: Value, final: seq<Value>)
    requires StackShaped(code, hs) && NarrowLoads(code) && StoresIn(code, |locals|)
    requires HashShape(code) && HashGuards(HashOf(code)) && HashLoads(code, HashOf(code))
    requires HashOf(code).hashLoc != HashOf(code).iLoc
    ensures Halts(Vm(code, cpool), VmStart(locals), Returned(v), final)
    ensures Halts(Native(HashCode(HashOf(code))), NativeStart(locals), Returned(v), locals)
  {
    hide Alu, VmStep, Run, Vm, Codes, StackShaped, Eval, RegI32, Native, NativeStep, HashAt;
    hide InitShape, MixInShape, StirShape, LoopEndShape;
    var l, step, s0 := HashOf(code), Vm(code, cpool), VmStart(locals);
    FrameCoded(code, l);
    LeafSizes();
    EvalLeaf(Const(l.hashInit), locals);
    RunAssign(code, cpool, hs, l.hashLoc, Const(l.hashInit), s0);
    var s1 := Run(step, s0, 2).s;
    EvalLeaf(Const(0), s1.locals);
    RunAssign(code, cpool, hs, l.iLoc, Const(0), s1);
    RunBoth(step, s0, 2, s1, 2);
    var s2 := Run(step, s1, 2).s;
    FirstHash(l);
    var n := RunRounds(code, cpool, hs, l, 0, s2);
    RunBoth(step, s0, 4, s2, n);
    HashCodeReturns(l, locals);
    v, final := Int(S32(HashAt(l, l.limit))), Run(step, s2, n).locals;
  }

  lemma FirstHash(l: Hash)
    requires HashGuards(l)
    ensures S32(HashAt(l, 0)) == l.hashInit
  {
    S32OfInt32(l.hashInit);
  }
}
