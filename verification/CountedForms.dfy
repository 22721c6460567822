/** The counted loops that are folded: every loop of the forms below, whatever
    its locals and constants, and exactly when its result can be returned. */
module CountedForms {
  import opened JsValues
  import opened RegisterCode
  import opened StackMachine
  import opened Translator
  import opened Simulation
  import opened CountedLoop

  // ---------------------------------------------------------------------------
  // The loops
  // ---------------------------------------------------------------------------

  /** `count = count + C`, `count += C`, `count += i`, `count = count + i * C + K` */
  datatype BodyForm = Plus(c: int32) | PlusTo(d: int32) | PlusCounter | PlusAffine(mul: int32, add: int32)

  /** `i++`, `i--`, `i = i + STEP`, `i += STEP` */
  datatype StepForm = Up | Down | By(step: int32) | Into(rise: int32)

  /** `count = A; i = B` in either order, then
      `while (i cmp LIMIT) { body; step }  return count` */
  datatype Loop = Loop(count: byte, i: byte, countInit: int32, iInit: int32, countFirst: bool,
                       limit: int32, cmp: BinOp, body: BodyForm, step: StepForm)

  predicate IsLoop(l: Loop) {
    l.count != l.i && (l.cmp.Lt? || l.cmp.Lte? || l.cmp.Gt? || l.cmp.Gte?)
  }

  function Assign(x: byte, v: int32): (code: seq<RegInstruction>)
    ensures |code| == 2
  {
    Emit(PushInt(v), 0, 0) + Emit(PutLoc(x), 1, 0)
  }

  function Test(l: Loop, exit: uint16): (code: seq<RegInstruction>)
    ensures |code| == 4
  {
    Emit(GetLoc(l.i), 0, 0) + Emit(PushInt(l.limit), 1, 0) + Emit(Operate(l.cmp), 2, 0) + Emit(Branch(false, 0), 1, exit)
  }

  function Body(l: Loop): (code: seq<RegInstruction>)
    ensures |code| == if l.body.PlusAffine? then 8 else 4
  {
    match l.body
    case Plus(c) =>
      Emit(GetLoc(l.count), 0, 0) + Emit(PushInt(c), 1, 0) + Emit(Operate(Add), 2, 0) + Emit(PutLoc(l.count), 1, 0)
    case PlusTo(c) => Emit(PushInt(c), 0, 0) + Emit(AddLoc(l.count), 1, 0)
    case PlusCounter => Emit(GetLoc(l.i), 0, 0) + Emit(AddLoc(l.count), 1, 0)
    case PlusAffine(mul, add) =>
      (Emit(GetLoc(l.count), 0, 0) + Emit(GetLoc(l.i), 1, 0) + Emit(PushInt(mul), 2, 0) + Emit(Operate(Mul), 3, 0))
      + (Emit(Operate(Add), 2, 0) + Emit(PushInt(add), 1, 0) + Emit(Operate(Add), 2, 0) + Emit(PutLoc(l.count), 1, 0))
  }

  function Step(l: Loop): (code: seq<RegInstruction>)
    ensures |code| == 4
  {
    match l.step
    case Up => Emit(BumpLoc(l.i, 1), 0, 0)
    case Down => Emit(BumpLoc(l.i, -1), 0, 0)
    case By(c) => Emit(GetLoc(l.i), 0, 0) + Emit(PushInt(c), 1, 0) + Emit(Operate(Add), 2, 0) + Emit(PutLoc(l.i), 1, 0)
    case Into(c) => Emit(PushInt(c), 0, 0) + Emit(AddLoc(l.i), 1, 0)
  }

  function End(l: Loop): (code: seq<RegInstruction>)
    ensures |code| == 3
  {
    Emit(Goto(0), 0, 4) + Emit(GetLoc(l.count), 0, 0) + Emit(StackOp.Ret, 1, 0)
  }

  function Inits4(l: Loop): (code: seq<RegInstruction>)
    ensures |code| == 4
  {
    if l.countFirst then Assign(l.count, l.countInit) + Assign(l.i, l.iInit)
    else Assign(l.i, l.iInit) + Assign(l.count, l.countInit)
  }

  /** Register code of the loop. */
  function CodeOf(l: Loop): (code: seq<RegInstruction>)
    ensures |code| == if l.body.PlusAffine? then 23 else 19
  {
    Inits4(l) + Test(l, if l.body.PlusAffine? then 21 else 17) + Body(l) + Step(l) + End(l)
  }

  function UpdateOf(l: Loop): Update {
    match l.body
    case Plus(c) => ConstStep(c)
    case PlusTo(c) => ConstStep(c)
    case PlusCounter => Induction
    case PlusAffine(mul, add) => Affine(mul, add)
  }

  function StepSize(l: Loop): int32 {
    match l.step
    case Up => 1
    case Down => -1
    case By(c) => c
    case Into(c) => c
  }

  function CountedOf(l: Loop): Counted {
    var n := if l.body.PlusAffine? then 8 else 4;
    Counted(l.i, l.iInit, l.limit, l.cmp, StepSize(l), l.count, l.countInit, UpdateOf(l), 4, 8, 8 + n, 12 + n, 13 + n)
  }

  // ---------------------------------------------------------------------------
  // Instruction by instruction
  // ---------------------------------------------------------------------------

  lemma AssignIs(x: byte, v: int32)
    ensures PushesInt(Assign(x, v), 0, v) && Assign(x, v)[0].dst == 0
    ensures Assign(x, v)[1] == RegInstruction(StoreLoc, x, 0, 0)
  {
    hide PushI32At, RegI32;
    PushI32RoundTrip(0, v);
    PushForm(0, v);
  }

  lemma TestIs(l: Loop, exit: uint16)
    ensures
      var c := Test(l, exit);
      && c[0] == RegInstruction(LoadLoc, 0, l.i, 0) && PushesInt(c, 1, l.limit)
      && c[2].op == Binary(l.cmp) && c[2].dst == 0 && c[3] == RegInstruction(IfFalse, 0, exit, 0)
  {
    hide PushI32At, RegI32;
    PushI32RoundTrip(1, l.limit);
    PushForm(1, l.limit);
  }

  lemma EndIs(l: Loop)
    ensures End(l) == [RegInstruction(Jmp, 0, 4, 0), RegInstruction(LoadLoc, 0, l.count, 0), RegInstruction(Return, 0, 0, 0)]
  {
  }

  lemma ShortBodyIs(l: Loop, code: seq<RegInstruction>)
    requires |code| >= 12 && code[8..12] == Body(l) && !l.body.PlusAffine? && l.count != l.i
    ensures ShortUpdate(code, 8, l.count, l.i) == Some(UpdateOf(l))
    ensures forall k :: 0 <= k < 4 ==> !Body(l)[k].op.Jmp?
  {
    hide PushI32At, RegI32;
    assert forall k :: 0 <= k < 4 ==> code[8 + k] == Body(l)[k];
    match l.body
    case Plus(c) =>
      PushI32RoundTrip(1, c);
      PushForm(1, c);
    case PlusTo(c) =>
      PushI32RoundTrip(0, c);
      PushForm(0, c);
    case PlusCounter =>
  }

  lemma LongBodyIs(l: Loop, code: seq<RegInstruction>)
    requires |code| >= 16 && code[8..16] == Body(l) && l.body.PlusAffine?
    ensures LongUpdate(code, 8, l.count, l.i) == Some(UpdateOf(l))
    ensures forall k :: 0 <= k < 8 ==> !Body(l)[k].op.Jmp?
  {
    hide PushI32At, RegI32;
    assert forall k :: 0 <= k < 8 ==> code[8 + k] == Body(l)[k];
    PushI32RoundTrip(2, l.body.mul);
    PushForm(2, l.body.mul);
    PushI32RoundTrip(1, l.body.add);
    PushForm(1, l.body.add);
  }

  lemma BodyIs(l: Loop, code: seq<RegInstruction>)
    requires |code| >= 16 && code[8..8 + |Body(l)|] == Body(l) && l.count != l.i
    ensures !l.body.PlusAffine? ==> ShortUpdate(code, 8, l.count, l.i) == Some(UpdateOf(l))
    ensures l.body.PlusAffine? ==> LongUpdate(code, 8, l.count, l.i) == Some(UpdateOf(l))
    ensures forall k :: 0 <= k < |Body(l)| ==> !Body(l)[k].op.Jmp?
  {
    hide Body, ShortUpdate, LongUpdate;
    if l.body.PlusAffine? {
      LongBodyIs(l, code);
    } else {
      ShortBodyIs(l, code);
    }
  }

  lemma StepIs(l: Loop, code: seq<RegInstruction>, at: nat)
    requires at + 4 <= |code| && code[at..at + 4] == Step(l)
    ensures StepOf(code, at, l.i) == Some(StepSize(l))
    ensures forall k :: 0 <= k < 4 ==> !Step(l)[k].op.Jmp?
  {
    hide PushI32At, RegI32;
    assert forall k :: 0 <= k < 4 ==> code[at + k] == Step(l)[k];
    var h: byte := if l.step.By? then 1 else 0;
    PushI32RoundTrip(h, StepSize(l));
    PushForm(h, StepSize(l));
  }

  lemma InitsAre(l: Loop, code: seq<RegInstruction>)
    requires IsLoop(l) && |code| >= 4 && code[..4] == Inits4(l)
    ensures ScanInits(code, 0, 4, l.i, Inits(None, 0, None)) == Some(Inits(Some(l.count), l.countInit, Some(l.iInit)))
    ensures forall k :: 0 <= k < 4 ==> !code[k].op.Jmp?
  {
    hide RegI32, Assign;
    AssignIs(l.count, l.countInit);
    AssignIs(l.i, l.iInit);
    assert forall k :: 0 <= k < 4 ==> code[k] == Inits4(l)[k];
    var none := Inits(None, 0, None);
    var two := Inits(Some(l.count), l.countInit, Some(l.iInit));
    var one := if l.countFirst then Inits(Some(l.count), l.countInit, None) else Inits(None, 0, Some(l.iInit));
    assert AddInit(none, code[0], code[1], l.i) == Some(one);
    assert AddInit(one, code[2], code[3], l.i) == Some(two);
    assert ScanInits(code, 4, 4, l.i, two) == Some(two);
    assert ScanInits(code, 2, 4, l.i, one) == Some(two);
  }

  /** Where the parts stand. */
  lemma Parts(l: Loop)
    ensures
      var code, n := CodeOf(l), if l.body.PlusAffine? then 8 else 4;
      && code[..4] == Inits4(l) && code[4..8] == Test(l, 13 + n) && code[8..8 + n] == Body(l)
      && code[8 + n..12 + n] == Step(l) && code[12 + n..15 + n] == End(l)
  {
    hide Inits4, Test, Body, Step, End;
  }

  /** Every such loop is recognized, with its own locals and constants. */
  lemma LoopsAreRecognized(l: Loop)
    requires IsLoop(l)
    ensures Recognize(CodeOf(l)) == Some(CountedOf(l))
  {
    hide CodeOf, Inits4, Test, Body, Step, End, ScanInits, ShortUpdate, LongUpdate, StepOf, RegI32, FirstLoopJump;
    var code, n := CodeOf(l), if l.body.PlusAffine? then 8 else 4;
    Parts(l);
    InitsAre(l, code);
    TestIs(l, 13 + n);
    BodyIs(l, code);
    StepIs(l, code, 8 + n);
    EndIs(l);
    assert code[12 + n] == End(l)[0] && code[13 + n] == End(l)[1] && code[14 + n] == End(l)[2] by {
      assert code[12 + n..15 + n] == End(l);
    }
    JumpIs(l);
  }

  lemma JumpIs(l: Loop)
    requires IsLoop(l)
    ensures FirstLoopJump(CodeOf(l), 0) == Some(if l.body.PlusAffine? then 20 else 16)
  {
    hide CodeOf, Inits4, Test, Body, Step, End, ScanInits, ShortUpdate, LongUpdate, StepOf, RegI32;
    var code, n := CodeOf(l), if l.body.PlusAffine? then 8 else 4;
    Parts(l);
    InitsAre(l, code);
    TestIs(l, 13 + n);
    BodyIs(l, code);
    StepIs(l, code, 8 + n);
    EndIs(l);
    assert code[12 + n] == code[12 + n..15 + n][0];
    forall q | 0 <= q < 12 + n
      ensures !code[q].op.Jmp?
    {
      if 4 <= q < 8 {
        assert code[q] == code[4..8][q - 4];
      } else if 8 <= q < 8 + n {
        assert code[q] == code[8..8 + n][q - 8];
      } else if 8 + n <= q {
        assert code[q] == code[8 + n..12 + n][q - 8 - n];
      }
    }
    FirstLoopJumpIs(code, 0, 12 + n);
  }

  // ---------------------------------------------------------------------------
  // When a recognized loop is folded
  // ---------------------------------------------------------------------------

  /** Folded exactly when the step goes the comparison's way, the final counter
      is an int32 and the final count a safe integer; and then to that count. */
  lemma FoldsExactly(l: Counted, n: nat)
    requires IsComparison(l.cmp)
    requires Iterations(l.iInit, l.limit, l.step, l.cmp).Some? ==> Iterations(l.iInit, l.limit, l.step, l.cmp).value == n
    ensures FoldLoop(l).Some? <==>
      (if l.cmp.Lt? || l.cmp.Lte? then l.step > 0 else l.step < 0)
      && -0x8000_0000 <= InductionAt(l, n) <= 0x7fff_ffff && -0x1f_ffff_ffff_ffff <= CountAt(l, n) <= 0x1f_ffff_ffff_ffff
    ensures FoldLoop(l).Some? ==>
      FoldLoop(l).value == if -0x8000_0000 <= CountAt(l, n) <= 0x7fff_ffff then Int(CountAt(l, n)) else Float(CountAt(l, n))
  {
    hide FinalCount, CountAt, Iterations;
    IterationsIsLeast(l.iInit, l.limit, l.step, l.cmp);
    if Iterations(l.iInit, l.limit, l.step, l.cmp).Some? {
      ArithmeticNeverFails(l, n);
    }
  }

  /** So a loop of these forms is folded whenever its count can be returned. */
  lemma LoopsAreFolded(l: Loop)
    requires IsLoop(l)
    ensures FoldCounted(CodeOf(l)) == FoldLoop(CountedOf(l))
  {
    hide CodeOf, Recognize, FoldLoop;
    LoopsAreRecognized(l);
  }
}
