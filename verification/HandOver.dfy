/** Which bytecode a call hands over to the C interpreter, told from the bytecode. */
module HandOver {
  import opened JsValues
  import opened Machines
  import opened RegisterCode
  import opened RegisterVm
  import opened StackMachine
  import opened Translator
  import opened Simulation
  import opened StackShape
  import opened NativeCode
  import opened Restart
  import Baseline
  import opened CodeGen
  import opened NativeCompiler
  import opened Dispatch
  import opened DispatchSound
  import opened Assembly
  import opened WrittenCalls

  // ---------------------------------------------------------------------------
  // Loops and operators of a bytecode
  // ---------------------------------------------------------------------------

  /** Instruction `k` goes to a byte of the bytecode. */
  predicate JumpsInside(prog: Listing, slots: seq<Slot>, k: nat) {
    && k + 1 < |slots| && HasOp(prog, slots[k].pc) && OpAt(prog, slots[k].pc).Goto?
    && 0 <= OpAt(prog, slots[k].pc).target < |prog|
  }

  /** `*`, `-`, `%`, the shifts, the bitwise operators and `===`. */
  predicate IsHeavyOp(op: StackOp) {
    op in {Operate(Mul), Operate(Sub), Operate(Mod), Operate(Shl), Operate(Sar), Operate(Shr),
           Operate(And), Operate(Xor), Operate(Or), Operate(StrictEq)}
  }

  /** Instruction `k` is one of these. */
  predicate IsHeavy(prog: Listing, slots: seq<Slot>, k: nat) {
    && k + 1 < |slots| && HasOp(prog, slots[k].pc)
    && IsHeavyOp(OpAt(prog, slots[k].pc))
  }

  ghost predicate HasJump(prog: Listing, slots: seq<Slot>) {
    exists k: nat :: JumpsInside(prog, slots, k)
  }

  ghost predicate HasHeavy(prog: Listing, slots: seq<Slot>) {
    exists k: nat :: IsHeavy(prog, slots, k)
  }

  // ---------------------------------------------------------------------------
  // The same in register code
  // ---------------------------------------------------------------------------

  /** The instruction that instruction `j` of the code was emitted for. */
  lemma Origin(prog: Listing, slots: seq<Slot>, code: seq<RegInstruction>, j: nat) returns (k: nat, to: uint16)
    requires IsTranslation(prog, slots, code) && j < |code|
    ensures k + 1 < |slots| && Linked(prog, slots, k) && slots[k].idx <= j < slots[k].idx + Width(OpAt(prog, slots[k].pc))
    ensures code[j] == Emit(OpAt(prog, slots[k].pc), slots[k].height, to)[j - slots[k].idx]
    ensures JumpTarget(OpAt(prog, slots[k].pc)).Some? ==>
      j == slots[k].idx && to == code[j].src1 && Resolves(prog, slots, |code|, JumpTarget(OpAt(prog, slots[k].pc)).value, to)
  {
    hide Emit, Resolves;
    k := OwnerOf(prog, slots, code, |slots| - 1, j);
    assert Linked(prog, slots, k) && Placed(prog, slots, code, k) && Resolved(prog, slots, code, k);
    var op, at := OpAt(prog, slots[k].pc), slots[k].idx;
    assert code[at..at + Width(op)][j - at] == code[j];
    to := if JumpTarget(op).Some? then code[at].src1 else 0;
  }

  lemma EmitsJmp(op: StackOp, h: nat, to: uint16, d: nat)
    requires Need(op) <= h && d < Width(op)
    ensures Emit(op, h, to)[d].op.Jmp? <==> op.Goto?
    ensures op.Goto? ==> d == 0 && Emit(op, h, to)[0].src1 == to
  {
    hide PushI32At;
    if op.PushInt? {
      PushForm(U8(h), op.val);
    } else if op.BumpLoc? {
      PushForm(U8(h), op.delta);
    }
  }

  lemma EmitsHeavy(op: StackOp, h: nat, to: uint16, d: nat)
    requires Need(op) <= h && d < Width(op)
    ensures Advanced(Emit(op, h, to)[d].op) <==> IsHeavyOp(op)
  {
    hide PushI32At;
    if op.PushInt? {
      PushForm(U8(h), op.val);
    } else if op.BumpLoc? {
      PushForm(U8(h), op.delta);
    }
  }

  lemma LoopIsJump(prog: Listing, slots: seq<Slot>, code: seq<RegInstruction>, j: nat)
    requires Accepted(prog, slots, code) && j < |code| && LoopsBack(code, j)
    ensures HasJump(prog, slots)
  {
    hide Emit, SlotFits, HeightConsistent;
    var k, to := Origin(prog, slots, code, j);
    EmitsJmp(OpAt(prog, slots[k].pc), slots[k].height, to, j - slots[k].idx);
    var target := OpAt(prog, slots[k].pc).target;
    if !(0 <= target < |prog|) {
      EndsOutside(prog, slots, code, target, to);
    }
    assert JumpsInside(prog, slots, k);
  }

  /** A jump to the end or beyond leads past the code. */
  lemma EndsOutside(prog: Listing, slots: seq<Slot>, code: seq<RegInstruction>, target: int, to: uint16)
    requires IsTranslation(prog, slots, code) && |code| < TWO16 && !(0 <= target < |prog|)
    requires Resolves(prog, slots, |code|, target, to)
    ensures to == |code|
  {
    if target == |prog| {
      var k :| 0 <= k < |slots| && slots[k].pc == target && to == U16(slots[k].idx);
      SlotOfPc(prog, slots, k, |slots| - 1);
    }
  }

  lemma JumpIsLoop(prog: Listing, slots: seq<Slot>, code: seq<RegInstruction>, k: nat)
    requires Accepted(prog, slots, code) && JumpsInside(prog, slots, k)
    ensures slots[k].idx < |code| && LoopsBack(code, slots[k].idx)
  {
    hide Emit, HeightConsistent;
    assert Linked(prog, slots, k) && Placed(prog, slots, code, k) && Resolved(prog, slots, code, k);
    var op, at := OpAt(prog, slots[k].pc), slots[k].idx;
    var to := code[at].src1;
    assert code[at..at + 1][0] == code[at];
    EmitsJmp(op, slots[k].height, to, 0);
    var q :| 0 <= q < |slots| && slots[q].pc == op.target && to == U16(slots[q].idx);
    if q == |slots| - 1 {
      assert false;
    }
    ChainIncreases(prog, slots, q, |slots| - 1);
  }

  lemma HeavyIsAdvanced(prog: Listing, slots: seq<Slot>, code: seq<RegInstruction>, k: nat)
    requires IsTranslation(prog, slots, code) && IsHeavy(prog, slots, k)
    ensures slots[k].idx < |code| && Advanced(code[slots[k].idx].op)
  {
    hide Emit, Advanced;
    assert Linked(prog, slots, k) && Placed(prog, slots, code, k);
    var op, at := OpAt(prog, slots[k].pc), slots[k].idx;
    assert code[at..at + 1][0] == code[at];
    EmitsHeavy(op, slots[k].height, 0, 0);
  }

  lemma AdvancedIsHeavy(prog: Listing, slots: seq<Slot>, code: seq<RegInstruction>, j: nat)
    requires IsTranslation(prog, slots, code) && j < |code| && Advanced(code[j].op)
    ensures HasHeavy(prog, slots)
  {
    hide Emit, Advanced, Resolves;
    var k, to := Origin(prog, slots, code, j);
    EmitsHeavy(OpAt(prog, slots[k].pc), slots[k].height, to, j - slots[k].idx);
    assert IsHeavy(prog, slots, k);
  }

  lemma HandedOverIff(prog: Listing, slots: seq<Slot>, code: seq<RegInstruction>)
    requires Accepted(prog, slots, code)
    ensures FallsBack(code) <==> HasJump(prog, slots) && HasHeavy(prog, slots)
  {
    hide IsTranslation, Fits, HeightConsistent, LoopsBack, Advanced;
    if FallsBack(code) {
      var j, i :| 0 <= j < |code| && LoopsBack(code, j) && 0 <= i < |code| && Advanced(code[i].op);
      LoopIsJump(prog, slots, code, j);
      AdvancedIsHeavy(prog, slots, code, i);
    }
    if HasJump(prog, slots) && HasHeavy(prog, slots) {
      var k: nat :| JumpsInside(prog, slots, k);
      var q: nat :| IsHeavy(prog, slots, q);
      JumpIsLoop(prog, slots, code, k);
      HeavyIsAdvanced(prog, slots, code, q);
      var j, i := slots[k].idx, slots[q].idx;
      assert 0 <= j < |code| && LoopsBack(code, j);
      assert 0 <= i < |code| && Advanced(code[i].op);
    }
  }

  // ---------------------------------------------------------------------------
  // Calls
  // ---------------------------------------------------------------------------

  /** Without native code and without either of the two, a call ends exactly as
      the bytecode's own run does. */
  lemma InterpretedCalls(b: Bytecode, slots: seq<Slot>, code: seq<RegInstruction>, cpool: seq<Value>, locals: seq<Value>, exit: Exit, final: seq<Value>)
    requires Accepted(List(b), slots, code) && NativeFor(code).None?
    requires !HasJump(List(b), slots) || !HasHeavy(List(b), slots)
    ensures DispatchEnds(b, cpool, locals, exit, final) <==> Halts(Stack(List(b), cpool), StackStart(locals), exit, final)
  {
    hide NativeFor, FallsBack, CompiledOf, Stack, Vm, List, IsTranslation, Fits, HeightConsistent, HasJump, HasHeavy;
    HandedOverIff(List(b), slots, code);
    CompiledIs(b, code);
    TranslationPreservesMeaning(List(b), slots, code, cpool, locals, exit, final);
  }

  /** With both, and no native code, the call is handed over untouched. */
  lemma HandedOverCalls(b: Bytecode, slots: seq<Slot>, code: seq<RegInstruction>, cpool: seq<Value>, locals: seq<Value>, exit: Exit, final: seq<Value>)
    requires Accepted(List(b), slots, code) && NativeFor(code).None?
    requires HasJump(List(b), slots) && HasHeavy(List(b), slots)
    ensures DispatchEnds(b, cpool, locals, exit, final) <==> exit == Aborted && final == locals
  {
    hide NativeFor, FallsBack, CompiledOf, Vm, List, IsTranslation, Fits, HeightConsistent, HasJump, HasHeavy;
    HandedOverIff(List(b), slots, code);
    CompiledIs(b, code);
  }

  /** With native code or without, a call of bytecode that lacks either of the
      two answers in accord with the bytecode's own run. */
  lemma AnsweredCalls(b: Bytecode, slots: seq<Slot>, code: seq<RegInstruction>, cpool: seq<Value>, locals: seq<Value>, truth: Exit, end: seq<Value>)
    returns (exit: Exit, final: seq<Value>)
    requires Accepted(List(b), slots, code) && NarrowLoads(code) && StoresIn(code, |locals|)
    requires RecognizersSafe(code) && StoresBeforeLoads(code)
    requires !HasJump(List(b), slots) || !HasHeavy(List(b), slots)
    requires Halts(Stack(List(b), cpool), StackStart(locals), truth, end)
    ensures DispatchEnds(b, cpool, locals, exit, final) && Accords(code, exit, truth)
  {
    hide NarrowLoads, StoresIn, RecognizersSafe, StoresBeforeLoads, NativeFor, FallsBack, DispatchEnds, Accords, Stack, List;
    hide IsTranslation, Fits, HeightConsistent, HasJump, HasHeavy;
    HandedOverIff(List(b), slots, code);
    exit, final := DispatchMeansBytecode(b, slots, code, cpool, locals, truth, end);
  }

  // ---------------------------------------------------------------------------
  // A difference, and a loop with one
  // ---------------------------------------------------------------------------

  /** `return 5 - 3` */
  function DifferenceText(): Text {
    Text([PushInt(5), PushInt(3), Operate(Sub), StackOp.Ret], [0, 1, 2, 1, 0], [0, 1, 2, 3, 4])
  }

  lemma DifferenceIsWritten()
    ensures WellWritten(DifferenceText())
  {
    var t := DifferenceText();
    assert LineFits(t, 0) && LineFits(t, 1) && LineFits(t, 2) && LineFits(t, 3);
  }

  lemma DifferenceCode() returns (code: seq<RegInstruction>)
    ensures WellWritten(DifferenceText()) && code == CodeOf(DifferenceText()) && |code| == 4
    ensures PushesInt(code, 0, 5) && code[0].dst == 0 && PushesInt(code, 1, 3) && code[1].dst == 1
    ensures code[2].op == Binary(Sub) && code[2].dst == code[2].src1 == 0 && code[2].src2 == 1
    ensures code[3].op.Return? && code[3].dst == 0
  {
    hide Code, RegI32;
    DifferenceIsWritten();
    var t := DifferenceText();
    code := CodeOf(t);
    LineBecomes(t, 0);
    LineBecomes(t, 1);
    LineBecomes(t, 2);
    LineBecomes(t, 3);
  }

  lemma DifferenceReturns(cpool: seq<Value>, locals: seq<Value>)
    ensures WellWritten(DifferenceText())
    ensures Halts(Vm(CodeOf(DifferenceText()), cpool), VmStart(locals), Returned(Int(2)), locals)
  {
    hide Run, RegI32, CodeOf, DifferenceText, Alu;
    var code := DifferenceCode();
    var step, s0 := Vm(code, cpool), VmStart(locals);
    var s1 := Put(s0, 0, Int(5));
    RunOne(step, s0);
    assert step(s0) == Next(s1);
    var s2 := Put(s1, 1, Int(3));
    RunThen(step, s0, 1, s1);
    assert step(s1) == Next(s2);
    assert Alu(Sub, Int(5), Int(3)) == Val(Int(2)) by { Two(); }
    var s3 := Put(s2, 0, Int(2));
    RunThen(step, s0, 2, s2);
    assert step(s2) == Next(s3);
    RunThen(step, s0, 3, s3);
    assert step(s3) == Halt(Returned(Int(2)), locals);
  }

  lemma Two()
    ensures Alu(Sub, Int(5), Int(3)) == Val(Int(2))
  {
  }

  lemma ShortIsPlain(code: seq<RegInstruction>, k: nat)
    requires |code| < 19 && k < |code| && code[k].op == Binary(Sub)
    ensures NativeFor(code).None?
  {
    hide RegI32;
    assert !Baseline.Supported(code[k].op);
    NotSupported(code, |code|, k);
  }

  lemma {:induction false} NotSupported(code: seq<RegInstruction>, n: nat, k: nat)
    requires k < n <= |code| && !Baseline.Supported(code[k].op)
    ensures !AllSupported(code, n)
    decreases n
  {
    if k < n - 1 {
      NotSupported(code, n - 1, k);
    }
  }

  lemma Unaimed(op: StackOp, target: int)
    ensures IsHeavyOp(Aimed(op, target)) <==> IsHeavyOp(op)
    ensures Aimed(op, target).Goto? <==> op.Goto?
    ensures op.Goto? ==> Aimed(op, target).target == target
  {
  }

  lemma TargetBefore(t: Text, k: nat)
    requires WellWritten(t) && k < |t.lines|
    ensures LineFits(t, k) && 0 <= Offset(t, Target(t.lines[k])) < |BytesOf(t)|
  {
    assert LineFits(t, k);
    OffsetsGrow(t, Target(t.lines[k]), |t.lines|);
  }

  /** In a written program both are seen on the lines. */
  lemma WrittenLine(t: Text, k: nat)
    requires WellWritten(t)
    ensures JumpsInside(List(BytesOf(t)), SlotsOf(t), k) <==> k < |t.lines| && t.lines[k].Goto?
    ensures IsHeavy(List(BytesOf(t)), SlotsOf(t), k) <==> k < |t.lines| && IsHeavyOp(t.lines[k])
  {
    hide Bytes, List, SlotsOf, Writable, IsHeavyOp, Aimed, Offset;
    if k < |t.lines| {
      LineDecodes(t, k);
      TargetBefore(t, k);
      Unaimed(t.lines[k], Offset(t, Target(t.lines[k])));
    }
  }

  function DifferenceBytes(): Bytecode {
    DifferenceIsWritten();
    BytesOf(DifferenceText())
  }

  /** A straight-line difference is answered, and with nothing else. */
  lemma DifferenceIsAnswered(cpool: seq<Value>, locals: seq<Value>)
    ensures DispatchEnds(DifferenceBytes(), cpool, locals, Returned(Int(2)), locals)
    ensures forall exit, final :: DispatchEnds(DifferenceBytes(), cpool, locals, exit, final) ==> exit == Returned(Int(2)) && final == locals
  {
    hide CodeOf, BytesOf, SlotsOf, Stack, Vm, List, NativeFor, DispatchEnds, IsHeavyOp, WellWritten, StackStart, JumpsInside;
    var t := DifferenceText();
    DifferenceIsWritten();
    var code := DifferenceCode();
    ShortIsPlain(code, 2);
    WrittenIsAccepted(t);
    DifferenceReturns(cpool, locals);
    forall k: nat
      ensures !JumpsInside(List(BytesOf(t)), SlotsOf(t), k)
    {
      WrittenLine(t, k);
    }
    WrittenMeans(t, cpool, locals, Returned(Int(2)), locals);
    InterpretedCalls(BytesOf(t), SlotsOf(t), code, cpool, locals, Returned(Int(2)), locals);
    forall exit, final | DispatchEnds(DifferenceBytes(), cpool, locals, exit, final)
      ensures exit == Returned(Int(2)) && final == locals
    {
      DispatchEndsOnce(BytesOf(t), cpool, locals, exit, final, Returned(Int(2)), locals);
    }
  }

  /** `while (0 < x) x = x - 1; return x` */
  function CountdownText(): Text {
    Text([GetLoc(0), PushInt(0), Operate(Gt), Branch(false, 9), GetLoc(0), PushInt(1), Operate(Sub), PutLoc(0), Goto(0), GetLoc(0), StackOp.Ret],
         [0, 1, 2, 1, 0, 1, 2, 1, 0, 0, 1, 0], [0, 1, 2, 3, 4, 5, 6, 7, 8, 9, 10, 11])
  }

  lemma CountdownIsWritten()
    ensures WellWritten(CountdownText())
  {
    var t := CountdownText();
    forall k: nat | k < 11
      ensures LineFits(t, k)
    {
    }
  }

  function CountdownBytes(): Bytecode {
    CountdownIsWritten();
    BytesOf(CountdownText())
  }

  lemma CountdownIsPlain()
    ensures WellWritten(CountdownText()) && NativeFor(CodeOf(CountdownText())).None?
  {
    hide Code, RegI32;
    CountdownIsWritten();
    LineBecomes(CountdownText(), 6);
    ShortIsPlain(CodeOf(CountdownText()), 6);
  }

  /** A loop with a difference is handed over, its locals untouched. */
  lemma CountdownIsHandedOver(cpool: seq<Value>, locals: seq<Value>, exit: Exit, final: seq<Value>)
    ensures DispatchEnds(CountdownBytes(), cpool, locals, exit, final) <==> exit == Aborted && final == locals
  {
    hide CodeOf, BytesOf, SlotsOf, List, NativeFor, DispatchEnds, WellWritten, JumpsInside, IsHeavy;
    var t := CountdownText();
    CountdownIsPlain();
    WrittenIsAccepted(t);
    WrittenLine(t, 8);
    WrittenLine(t, 6);
    HandedOverCalls(BytesOf(t), SlotsOf(t), CodeOf(t), cpool, locals, exit, final);
  }
}
