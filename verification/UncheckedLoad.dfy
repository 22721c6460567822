/** Hash loops whose two loads of the hash, which the recognizer does not look
    at, and whose counter are locals of choice. */
module UncheckedLoad {
  import opened JsValues
  import opened Machines
  import opened RegisterCode
  import opened RegisterVm
  import opened StackMachine
  import opened Translator
  import opened StackShape
  import opened CountedLoop
  import opened NativeCode
  import opened HashLoop
  import opened HashLoopRuns
  import opened HashProgram
  import opened Assembly
  import opened NativeCompiler
  import opened Dispatch
  import opened WrittenCalls

  /** The locals and the last shift of
      `hash = 1; for (i = 0; i < 1; i++) { hash = (hash + ((i & 0) ^ (i >>> 0))) | 0;
      hash = (hash ^ (x << 0) ^ (y >>> c)) | 0; } return hash`,
      with the hash in local 0 and the counter in local `i`. */
  datatype Choice = Choice(i: byte, x: byte, y: byte, c: int32)

  function Loop(p: Choice): Hash {
    Hash(0, 1, p.i, 1, 0, 0, 0, p.c)
  }

  function Written(p: Choice): HashText {
    HashText(Loop(p), p.x, p.y)
  }

  // ---------------------------------------------------------------------------
  // The round, on bits
  // ---------------------------------------------------------------------------

  type bit = b: int | 0 <= b < 2

  function XorBit(a: bit, b: bit): bit {
    if a == b then 0 else 1
  }

  function ShiftBit(a: bit, c: int32): bit {
    if c == 0 then a else 0
  }

  lemma {:induction false} XorSelf(x: nat, width: nat)
    ensures JsValues.Bitwise(Xor, x, x, width) == 0
  {
    if width > 0 {
      XorSelf(x / 2, width - 1);
    }
  }

  lemma {:induction false} XorZero(x: nat, width: nat)
    requires x < Pow2(width)
    ensures JsValues.Bitwise(Xor, x, 0, width) == x && JsValues.Bitwise(Xor, 0, x, width) == x
  {
    if width > 0 {
      XorZero(x / 2, width - 1);
    }
  }

  lemma XorOfBits(a: bit, b: bit)
    ensures JsValues.Word(Xor, a, b) == XorBit(a, b)
  {
    hide JsValues.Bitwise, Pow2;
    Pow2Word();
    if a == b {
      XorSelf(a, WORD);
    } else {
      XorZero(1, WORD);
    }
  }

  lemma AndOfZero()
    ensures JsValues.Word(And, 0, 0) == 0
  {
    hide JsValues.Bitwise, Pow2;
    BitwiseAndZero(0, WORD);
  }

  lemma BitAlu(a: bit, b: bit, c: int32)
    requires c == 0 || c == 1
    ensures Alu(Shl, Int(a), Int(0)) == Val(Int(a))
    ensures Alu(Xor, Int(a), Int(b)) == Val(Int(XorBit(a, b)))
    ensures Alu(Shr, Int(a), Int(c)) == Val(Int(ShiftBit(a, c)))
    ensures Alu(Or, Int(a), Int(0)) == Val(Int(a))
  {
    hide JsValues.Word, Alu;
    XorOfBits(a, b);
    BitwiseResult(Xor, Int(a), Int(b));
    OrZeroResult(Int(a));
    ShiftLeftResult(a, 0);
    ShiftRightResult(a, c);
  }

  /** The word the emitted code computes. */
  lemma EmittedHash(p: Choice)
    requires p.c == 0 || p.c == 1
    ensures HashGuards(Loop(p)) && HashAt(Loop(p), 1) == ShiftBit(1, p.c)
  {
    hide MixIn, Stir;
    MixesTo(p, 1);
    StirsTo(p);
    assert HashAt(Loop(p), 0) == 1;
  }

  lemma MixesTo(p: Choice, h: bit)
    requires HashGuards(Loop(p))
    ensures MixIn(Loop(p), h, 0) == h
  {
    hide JsValues.Word;
    AndOfZero();
    XorOfBits(0, 0);
  }

  lemma StirsTo(p: Choice)
    requires HashGuards(Loop(p)) && (p.c == 0 || p.c == 1)
    ensures Stir(Loop(p), 1) == ShiftBit(1, p.c)
  {
    hide JsValues.Word;
    XorOfBits(1, 1);
    XorOfBits(0, ShiftBit(1, p.c));
  }

  function LooseLeft(p: Choice): Expr {
    Bin(Xor, Tee(0, MixExpr(Loop(p))), Bin(Shl, Local(p.x), Const(0)))
  }

  function LooseRound(p: Choice): Expr {
    Bin(Or, Bin(Xor, LooseLeft(p), Bin(Shr, Local(p.y), Const(p.c))), Const(0))
  }

  lemma LooseSizes(p: Choice)
    ensures Size(LooseLeft(p)) == 16 && NoSwap(LooseLeft(p))
    ensures Size(LooseRound(p)) == 22 && NoSwap(LooseRound(p))
  {
    hide MixExpr;
    LeafSizes();
    Sizes(Loop(p));
    var tee, shl := Tee(0, MixExpr(Loop(p))), Bin(Shl, Local(p.x), Const(0));
    assert Size(tee) == 12 && NoSwap(tee) && Size(shl) == 3 && NoSwap(shl);
    var shr := Bin(Shr, Local(p.y), Const(p.c));
    assert Size(shr) == 3 && NoSwap(shr);
    var last := Bin(Xor, LooseLeft(p), shr);
    assert Size(last) == 20 && NoSwap(last);
  }

  /** What instructions 8 to 30 are, loads included. */
  lemma LooseCoded(p: Choice)
    requires NarrowLoads(Program(Written(p)))
    ensures AssignAt(Program(Written(p)), 8, 0, LooseRound(p))
  {
    hide RegI32, Codes, Program, InitShape, MixInShape, LoopEndShape, MixExpr, NarrowLoads;
    var code, l := Program(Written(p)), Loop(p);
    StirIs(Written(p));
    ProgramShape(Written(p));
    LeafSizes();
    Sizes(l);
    LooseSizes(p);
    MixCoded(code, l);
    PairCodes(code, 20, Shl, p.x);
    BuildBin(code, 8, Xor, Tee(0, MixExpr(l)), Bin(Shl, Local(p.x), Const(0)));
    PairCodes(code, 24, Shr, p.y);
    BuildBin(code, 8, Xor, LooseLeft(p), Bin(Shr, Local(p.y), Const(p.c)));
    BuildLeaf(code, 28);
    BuildBin(code, 8, Or, Bin(Xor, LooseLeft(p), Bin(Shr, Local(p.y), Const(p.c))), Const(0));
  }

  /** At the head of the only round: the hash is `h`, every other local 0. */
  predicate Begun(p: Choice, h: bit, locals: seq<Value>) {
    && 0 < |locals| && p.i < |locals| && p.x < |locals| && p.y < |locals|
    && locals[0] == Int(h) && locals[p.i] == Int(0)
    && forall j :: 0 < j < |locals| ==> locals[j] == Int(0)
  }

  function RoundBit(p: Choice, h: bit): bit {
    XorBit(XorBit(h, if p.x == 0 then h else 0), ShiftBit(if p.y == 0 then h else 0, p.c))
  }

  lemma LooseEval(p: Choice, h: bit, locals: seq<Value>)
    requires Begun(p, h, locals) && (p.c == 0 || p.c == 1)
    ensures LocalsIn(LooseRound(p), |locals|)
    ensures Eval(LooseRound(p), locals) == Evaluation(Val(Int(RoundBit(p, h))), locals)
  {
    hide Eval, Alu, MixIn, MixExpr, S32;
    var l := Loop(p);
    var vx: bit, vy: bit := if p.x == 0 then h else 0, if p.y == 0 then h else 0;
    var a := XorBit(h, vx);
    MixesTo(p, h);
    S32OfInt32(h);
    S32OfInt32(0);
    MixEval(l, h, 0, locals);
    assert locals[0 := Int(h)] == locals;
    EvalTee(Tee(0, MixExpr(l)), locals, Int(h));
    PairEval(Shl, p.x, 0, locals);
    BitAlu(vx, vx, 0);
    EvalBinThrough(Xor, Tee(0, MixExpr(l)), Bin(Shl, Local(p.x), Const(0)), locals, Int(h), locals, Int(vx));
    BitAlu(h, vx, 0);
    PairEval(Shr, p.y, p.c, locals);
    BitAlu(vy, vy, p.c);
    var shr := Bin(Shr, Local(p.y), Const(p.c));
    EvalBinThrough(Xor, LooseLeft(p), shr, locals, Int(a), locals, Int(ShiftBit(vy, p.c)));
    BitAlu(a, ShiftBit(vy, p.c), 0);
    EvalLeaf(Const(0), locals);
    EvalBinThrough(Or, Bin(Xor, LooseLeft(p), shr), Const(0), locals, Int(RoundBit(p, h)), locals, Int(0));
    BitAlu(RoundBit(p, h), 0, 0);
  }

  // ---------------------------------------------------------------------------
  // The run
  // ---------------------------------------------------------------------------

  predicate Zeros(p: Choice, locals: seq<Value>) {
    && 0 < |locals| && p.i < |locals| && p.x < |locals| && p.y < |locals|
    && forall j :: 0 <= j < |locals| ==> locals[j] == Int(0)
  }

  ghost predicate Laid(p: Choice, code: seq<RegInstruction>, hs: seq<nat>) {
    && code == Program(Written(p)) && HashShape(code) && HashOf(code) == Loop(p)
    && StackShaped(code, hs) && NarrowLoads(code) && AssignAt(code, 8, 0, LooseRound(p))
  }

  lemma LooseStart(p: Choice, code: seq<RegInstruction>, cpool: seq<Value>, hs: seq<nat>, s0: VmState) returns (s4: VmState)
    requires Laid(p, code, hs) && s0.pc == 0 && Zeros(p, s0.locals)
    ensures Run(Vm(code, cpool), s0, 4) == Next(s4) && s4.pc == 4 && Begun(p, if p.i == 0 then 0 else 1, s4.locals)
  {
    hide StackShaped, VmStep, Vm, Run, Codes, Eval, Alu, HashShape, HashOf, Program, LooseRound;
    FrameCoded(code, Loop(p));
    LeafSizes();
    EvalLeaf(Const(1), s0.locals);
    RunAssign(code, cpool, hs, 0, Const(1), s0);
    var s2 := Run(Vm(code, cpool), s0, 2).s;
    EvalLeaf(Const(0), s2.locals);
    RunAssign(code, cpool, hs, p.i, Const(0), s2);
    RunBoth(Vm(code, cpool), s0, 2, s2, 2);
    s4 := Run(Vm(code, cpool), s2, 2).s;
  }

  lemma LooseEnters(p: Choice, code: seq<RegInstruction>, cpool: seq<Value>, hs: seq<nat>, s: VmState) returns (t: VmState)
    requires Laid(p, code, hs) && s.pc == 4 && p.i < |s.locals| && s.locals[p.i] == Int(0)
    ensures Run(Vm(code, cpool), s, 4) == Next(t) && t.pc == 8 && t.locals == s.locals
  {
    hide StackShaped, VmStep, Vm, Run, Codes, Eval, LocalsIn, Alu, HashShape, HashOf, Program, LooseRound;
    FrameCoded(code, Loop(p));
    Sizes(Loop(p));
    PairEval(Lt, p.i, 1, s.locals);
    LessResult(0, 1);
    RunBranch(code, cpool, hs, LimitCond(Loop(p)), s, true);
    t := Run(Vm(code, cpool), s, 4).s;
  }

  lemma LooseUpdates(p: Choice, code: seq<RegInstruction>, cpool: seq<Value>, hs: seq<nat>, h: bit, s: VmState) returns (t: VmState)
    requires Laid(p, code, hs) && s.pc == 8 && Begun(p, h, s.locals) && (p.c == 0 || p.c == 1)
    ensures Run(Vm(code, cpool), s, 23) == Next(t) && t.pc == 31 && t.locals == s.locals[0 := Int(RoundBit(p, h))]
  {
    hide StackShaped, VmStep, Vm, Run, Codes, Eval, LocalsIn, Alu, HashShape, HashOf, Program, LooseRound, RoundBit;
    LooseSizes(p);
    LooseEval(p, h, s.locals);
    RunAssign(code, cpool, hs, 0, LooseRound(p), s);
    t := Run(Vm(code, cpool), s, 23).s;
  }

  lemma LooseNext(p: Choice, code: seq<RegInstruction>, cpool: seq<Value>, hs: seq<nat>, s: VmState) returns (t: VmState)
    requires Laid(p, code, hs) && s.pc == 31 && p.i < |s.locals| && s.locals[p.i] == Int(0)
    ensures Run(Vm(code, cpool), s, 5) == Next(t) && t.pc == 4 && t.locals == s.locals[p.i := Int(1)]
  {
    hide StackShaped, VmStep, Vm, Run, Codes, Eval, LocalsIn, Alu, HashShape, HashOf, Program, LooseRound;
    FrameCoded(code, Loop(p));
    Sizes(Loop(p));
    NextEval(Loop(p), 0, s.locals);
    RunAssign(code, cpool, hs, p.i, NextExpr(Loop(p)), s);
    var u := Run(Vm(code, cpool), s, 4).s;
    RunJump(code, cpool, s, 4, u);
    t := u.(pc := 4);
  }

  lemma LooseLeaves(p: Choice, code: seq<RegInstruction>, cpool: seq<Value>, hs: seq<nat>, s: VmState)
    requires Laid(p, code, hs) && s.pc == 4 && 0 < |s.locals| && p.i < |s.locals| && s.locals[p.i] == Int(1)
    ensures Run(Vm(code, cpool), s, 6) == Halt(Returned(s.locals[0]), s.locals)
  {
    hide StackShaped, VmStep, Vm, Run, Codes, Eval, LocalsIn, Alu, HashShape, HashOf, Program, LooseRound;
    FrameCoded(code, Loop(p));
    Sizes(Loop(p));
    PairEval(Lt, p.i, 1, s.locals);
    LessResult(1, 1);
    RunBranch(code, cpool, hs, LimitCond(Loop(p)), s, false);
    var u := Run(Vm(code, cpool), s, 4).s;
    RunReturn(code, cpool, hs, 0, u);
    RunBoth(Vm(code, cpool), s, 4, u, 2);
  }

  /** What the machine returns: with one local for hash and counter, the counter. */
  function MachineBit(p: Choice): bit {
    if p.i == 0 then 1 else RoundBit(p, 1)
  }

  lemma MachineAnswers(p: Choice, cpool: seq<Value>, locals: seq<Value>) returns (final: seq<Value>)
    requires Zeros(p, locals) && (p.c == 0 || p.c == 1)
    ensures Halts(Vm(Program(Written(p)), cpool), VmStart(locals), Returned(Int(MachineBit(p))), final)
  {
    hide StackShaped, NarrowLoads, Vm, Run, HashShape, HashOf, Program, LooseRound, AssignAt;
    var h: bit := if p.i == 0 then 0 else 1;
    var hs := ProgramShaped(Written(p), |locals|);
    ProgramShape(Written(p));
    LooseCoded(p);
    var code, step, s0 := Program(Written(p)), Vm(Program(Written(p)), cpool), VmStart(locals);
    var s4 := LooseStart(p, code, cpool, hs, s0);
    var s8 := LooseEnters(p, code, cpool, hs, s4);
    RunBoth(step, s0, 4, s4, 4);
    var s31 := LooseUpdates(p, code, cpool, hs, h, s8);
    RunBoth(step, s0, 8, s8, 23);
    var s := LooseNext(p, code, cpool, hs, s31);
    RunBoth(step, s0, 31, s31, 5);
    LooseLeaves(p, code, cpool, hs, s);
    RunBoth(step, s0, 36, s, 6);
    final := s.locals;
  }

  lemma EmittedAnswers(p: Choice, locals: seq<Value>)
    requires p.c == 0 || p.c == 1
    ensures NativeEnds(HashCode(Loop(p)), locals, Returned(Int(ShiftBit(1, p.c))), locals)
  {
    hide HashCode, Native, HashAt;
    EmittedHash(p);
    S32OfInt32(ShiftBit(1, p.c));
    HashCodeReturns(Loop(p), locals);
  }

  // ---------------------------------------------------------------------------
  // The two answers
  // ---------------------------------------------------------------------------

  /** A call answers the emitted code's bit, the bytecode returns the machine's. */
  lemma TwoAnswers(p: Choice, cpool: seq<Value>, locals: seq<Value>) returns (final: seq<Value>)
    requires Zeros(p, locals) && (p.c == 0 || p.c == 1)
    ensures Halts(Stack(List(ProgramBytes(Written(p))), cpool), StackStart(locals), Returned(Int(MachineBit(p))), final)
    ensures DispatchEnds(ProgramBytes(Written(p)), cpool, locals, Returned(Int(ShiftBit(1, p.c))), locals)
  {
    hide ProgramText, BytesOf, CodeOf, WellWritten, Stack, Vm, List, NativeFor, HashCode, NativeEnds, DispatchEnds, MachineBit;
    ProgramIsWritten(Written(p));
    final := MachineAnswers(p, cpool, locals);
    WrittenMeans(ProgramText(Written(p)), cpool, locals, Returned(Int(MachineBit(p))), final);
    ProgramCompiles(Written(p));
    EmittedAnswers(p, locals);
    WrittenAnswers(ProgramText(Written(p)), HashCode(Loop(p)), cpool, locals, Returned(Int(ShiftBit(1, p.c))), locals);
  }

  /** The two answers agree for both shifts exactly when both loads are of the
      hash and the counter has a local of its own: what the recognizer takes for
      granted is needed. */
  lemma AgreementNeedsTheLoads(p: Choice)
    ensures
      (forall c: int32 :: c == 0 || c == 1 ==> MachineBit(p.(c := c)) == ShiftBit(1, c))
      <==> HashLoads(Program(Written(p)), HashOf(Program(Written(p)))) && HashOf(Program(Written(p))).hashLoc != HashOf(Program(Written(p))).iLoc
  {
    hide Program, HashShape, HashOf, HashLoads;
    ProgramShape(Written(p));
    var c0, c1 := p.(c := 0), p.(c := 1);
    assert MachineBit(p.(c := 0)) == MachineBit(c0) && MachineBit(p.(c := 1)) == MachineBit(c1);
  }

  /** Every other choice is accepted all the same, and one of the two shifts shows it. */
  lemma HashAcceptsAnUncheckedLoad(p: Choice, cpool: seq<Value>, locals: seq<Value>) returns (q: Choice, a: bit, b: bit, final: seq<Value>)
    requires Zeros(p, locals) && !(p.i != 0 && p.x == 0 && p.y == 0)
    ensures q == p.(c := q.c) && HashShape(Program(Written(q))) && HashGuards(HashOf(Program(Written(q))))
    ensures Halts(Stack(List(ProgramBytes(Written(q))), cpool), StackStart(locals), Returned(Int(a)), final)
    ensures DispatchEnds(ProgramBytes(Written(q)), cpool, locals, Returned(Int(b)), locals)
    ensures a != b
  {
    hide Program, HashShape, HashOf, ProgramBytes, Stack, List, DispatchEnds;
    q := if p.i == 0 || p.x != 0 then p.(c := 1) else p.(c := 0);
    ProgramShape(Written(q));
    final := TwoAnswers(q, cpool, locals);
    a, b := MachineBit(q), ShiftBit(1, q.c);
  }
}
