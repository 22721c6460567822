/** A hash loop compiled to a real loop over 32-bit machine registers. */
module HashLoop {
  import opened JsValues
  import opened Machines
  import opened RegisterCode
  import opened Translator
  import opened CountedLoop
  import opened NativeCode

  // ---------------------------------------------------------------------------
  // The shape
  // ---------------------------------------------------------------------------

  datatype Hash = Hash(hashLoc: byte, hashInit: int32, iLoc: byte, limit: int32, mask: int32, a: int32, b: int32, c: int32)

  predicate InitShape(code: seq<RegInstruction>)
    requires |code| == 38
  {
    && IsPush(code, 0) && code[1].op.StoreLoc? && U8(code[1].src1) == code[0].dst
    && PushesInt(code, 2, 0) && code[3].op.StoreLoc? && U8(code[3].src1) == code[2].dst
    && LoadsLocal(code[4], code[3].dst) && IsPush(code, 5)
    && IsBinary(code, 6, Lt) && code[6].dst == code[4].dst && U8(code[6].src1) == code[4].dst && U8(code[6].src2) == code[5].dst
    && code[7].op.IfFalse? && code[7].dst == code[6].dst && code[7].src1 == 36
  }

  /** `hash = (hash + ((i & MASK) ^ (i >>> A))) | 0` */
  predicate MixInShape(code: seq<RegInstruction>, hashLoc: byte, iLoc: byte)
    requires |code| == 38
  {
    && LoadsLocal(code[8], hashLoc) && LoadsLocal(code[9], iLoc) && IsPush(code, 10)
    && IsBinary(code, 11, And) && code[11].dst == code[9].dst
    && LoadsLocal(code[12], iLoc) && IsPush(code, 13) && IsBinary(code, 14, Shr) && code[14].dst == code[12].dst
    && IsBinary(code, 15, Xor) && IsBinary(code, 16, Add) && code[16].dst == code[8].dst
    && PushesInt(code, 17, 0) && IsBinary(code, 18, Or) && code[18].dst == code[16].dst
    && code[19].op.SetLoc? && code[19].dst == hashLoc
  }

  /** `hash = (hash ^ (hash << B) ^ (hash >>> C)) | 0`. Instructions 20 and 24
      are not looked at. */
  predicate StirShape(code: seq<RegInstruction>, hashLoc: byte)
    requires |code| == 38
  {
    && IsPush(code, 21) && IsBinary(code, 22, Shl) && IsBinary(code, 23, Xor)
    && IsPush(code, 25) && IsBinary(code, 26, Shr) && IsBinary(code, 27, Xor)
    && PushesInt(code, 28, 0) && IsBinary(code, 29, Or) && code[30].op.StoreLoc? && code[30].dst == hashLoc
  }

  predicate LoopEndShape(code: seq<RegInstruction>, hashLoc: byte, iLoc: byte)
    requires |code| == 38
  {
    && PushesInt(code, 31, 1) && LoadsLocal(code[32], iLoc) && IsBinary(code, 33, Add)
    && code[34].op.StoreLoc? && code[34].dst == iLoc
    && code[35].op.Jmp? && code[35].src1 == 4
    && LoadsLocal(code[36], hashLoc) && code[37].op.Return? && code[37].dst == code[36].dst
  }

  predicate HashShape(code: seq<RegInstruction>) {
    && |code| == 38
    && InitShape(code)
    && MixInShape(code, code[1].dst, code[3].dst)
    && StirShape(code, code[1].dst)
    && LoopEndShape(code, code[1].dst, code[3].dst)
  }

  function HashOf(code: seq<RegInstruction>): Hash
    requires |code| == 38
  {
    Hash(code[1].dst, RegI32(code[0]), code[3].dst, RegI32(code[5]), RegI32(code[10]), RegI32(code[13]), RegI32(code[21]), RegI32(code[25]))
  }

  predicate HashGuards(l: Hash) {
    l.limit >= 0 && 0 <= l.a < 32 && 0 <= l.b < 32 && 0 <= l.c < 32
  }

  // ---------------------------------------------------------------------------
  // The emitted code
  // ---------------------------------------------------------------------------

  const LOOP_HEAD: nat := 2
  const EXIT: nat := 18

  function HashOpAt(l: Hash, exitRel: int, backRel: int, k: nat): NOp
    requires HashGuards(l)
  {
    if k == 0 then MovEcx(0)
    else if k == 1 then MovEax(l.hashInit)
    else if k == 2 then CmpEcx(l.limit)
    else if k == 3 then Jge(exitRel)
    else if k == 4 then MovR10Ecx
    else if k == 5 then AndR10(l.mask)
    else if k == 6 then MovR11Ecx
    else if k == 7 then ShrR11(l.a)
    else if k == 8 then XorR10R11
    else if k == 9 then AddEaxR10
    else if k == 10 then MovR10Eax
    else if k == 11 then ShlR10(l.b)
    else if k == 12 then MovR11Eax
    else if k == 13 then ShrR11(l.c)
    else if k == 14 then XorEaxR10
    else if k == 15 then XorEaxR11
    else if k == 16 then IncEcx
    else if k == 17 then NOp.Jmp(backRel)
    else if k == 18 then MovEdx(0)
    else Ret
  }

  function HashOps(l: Hash, exitRel: int, backRel: int): (ops: seq<NOp>)
    requires HashGuards(l)
    ensures |ops| == 20 && forall k :: 0 <= k < 20 ==> ops[k] == HashOpAt(l, exitRel, backRel, k)
  {
    seq(20, k requires 0 <= k < 20 => HashOpAt(l, exitRel, backRel, k))
  }

  lemma HashOffsets(l: Hash, exitRel: int, backRel: int)
    requires HashGuards(l)
    ensures
      var ops := HashOps(l, exitRel, backRel);
      Off(ops, 2) == 10 && Off(ops, 4) == 22 && Off(ops, 18) == 72
  {
    hide HashOps, Off, Length;
    var ops := HashOps(l, exitRel, backRel);
    OffStart(ops);
    FourOffsets(ops, 0);
    HeadLengths(l, exitRel, backRel);
    MixInLengths(l, exitRel, backRel);
    StirLengths(l, exitRel, backRel);
    EndLengths(l, exitRel, backRel);
    FourOffsets(ops, 4);
    FourOffsets(ops, 8);
    FourOffsets(ops, 12);
    FourOffsets(ops, 16);
  }

  lemma HeadLengths(l: Hash, exitRel: int, backRel: int)
    requires HashGuards(l)
    ensures Length(HashOpAt(l, exitRel, backRel, 0)) == 5
    ensures Length(HashOpAt(l, exitRel, backRel, 1)) == 5
    ensures Length(HashOpAt(l, exitRel, backRel, 2)) == 6
    ensures Length(HashOpAt(l, exitRel, backRel, 3)) == 6
  {
  }

  lemma MixInLengths(l: Hash, exitRel: int, backRel: int)
    requires HashGuards(l)
    ensures Length(HashOpAt(l, exitRel, backRel, 4)) == 3
    ensures Length(HashOpAt(l, exitRel, backRel, 5)) == 7
    ensures Length(HashOpAt(l, exitRel, backRel, 6)) == 3
    ensures Length(HashOpAt(l, exitRel, backRel, 7)) == 4
    ensures Length(HashOpAt(l, exitRel, backRel, 8)) == 3
    ensures Length(HashOpAt(l, exitRel, backRel, 9)) == 3
  {
  }

  lemma StirLengths(l: Hash, exitRel: int, backRel: int)
    requires HashGuards(l)
    ensures Length(HashOpAt(l, exitRel, backRel, 10)) == 3
    ensures Length(HashOpAt(l, exitRel, backRel, 11)) == 4
    ensures Length(HashOpAt(l, exitRel, backRel, 12)) == 3
    ensures Length(HashOpAt(l, exitRel, backRel, 13)) == 4
    ensures Length(HashOpAt(l, exitRel, backRel, 14)) == 3
    ensures Length(HashOpAt(l, exitRel, backRel, 15)) == 3
  {
  }

  lemma EndLengths(l: Hash, exitRel: int, backRel: int)
    requires HashGuards(l)
    ensures Length(HashOpAt(l, exitRel, backRel, 16)) == 2
    ensures Length(HashOpAt(l, exitRel, backRel, 17)) == 5
  {
  }

  lemma OffStart(ops: seq<NOp>)
    ensures Off(ops, 0) == 0
  {
  }

  lemma FourOffsets(ops: seq<NOp>, k: nat)
    requires k + 4 <= |ops|
    ensures Off(ops, k + 1) == Off(ops, k) + Length(ops[k])
    ensures Off(ops, k + 2) == Off(ops, k + 1) + Length(ops[k + 1])
    ensures Off(ops, k + 3) == Off(ops, k + 2) + Length(ops[k + 2])
    ensures Off(ops, k + 4) == Off(ops, k + 3) + Length(ops[k + 3])
  {
  }

  /** The two jumps of the loop, resolved. */
  function HashCode(l: Hash): (ops: seq<NOp>)
    requires HashGuards(l)
  {
    HashOps(l, 50, -62)
  }

  lemma HashCodeResolved(l: Hash)
    requires HashGuards(l)
    ensures HashCode(l)[3] == Jge(Displacement(HashCode(l), 3, EXIT))
    ensures HashCode(l)[17] == NOp.Jmp(Displacement(HashCode(l), 17, LOOP_HEAD))
  {
    hide Off;
    HashOffsets(l, 50, -62);
  }

  /** Emission with placeholder displacements that are patched at the end. */
  method CompileBitwiseHashLoop(code: seq<RegInstruction>) returns (r: Option<seq<NOp>>)
    ensures r.Some? <==> HashShape(code) && HashGuards(HashOf(code))
    ensures r.Some? ==> r.value == HashCode(HashOf(code))
  {
    hide InitShape, MixInShape, StirShape, LoopEndShape, RegI32, Off;
    if !HashShape(code) || !HashGuards(HashOf(code)) {
      return None;
    }
    var l := HashOf(code);
    var ops := HashOps(l, 0, 0);
    HashOffsets(l, 0, 0);
    var loopStart: int := Off(ops, 2);
    var exitJumpEnd := Off(ops, 4);
    var backJumpEnd := Off(ops, 18);
    var exitPos := Off(ops, 18);
    ops := ops[3 := Jge(exitPos - exitJumpEnd)];
    ops := ops[17 := NOp.Jmp(loopStart - backJumpEnd)];
    assert ops == HashOps(l, 50, -62);
    r := Some(ops);
  }

  // ---------------------------------------------------------------------------
  // What the loop computes
  // ---------------------------------------------------------------------------

  function MixIn(l: Hash, h: uint32, i: uint32): uint32
    requires HashGuards(l)
  {
    U32(h + JsValues.Word(Xor, JsValues.Word(And, i, U32(l.mask)), ShiftRight(i, l.a)))
  }

  function Stir(l: Hash, x: uint32): uint32
    requires HashGuards(l)
  {
    JsValues.Word(Xor, JsValues.Word(Xor, x, U32(x * Pow2(l.b))), ShiftRight(x, l.c))
  }

  /** The hash after `k` rounds, as a 32-bit word. */
  function HashAt(l: Hash, k: nat): uint32
    requires HashGuards(l) && k <= l.limit
  {
    if k == 0 then U32(l.hashInit) else Stir(l, MixIn(l, HashAt(l, k - 1), k - 1))
  }

  // ---------------------------------------------------------------------------
  // Running the emitted code
  // ---------------------------------------------------------------------------

  /** At the top of the loop with `k` rounds done. */
  predicate AtTop(l: Hash, k: nat, s: NState, cells: seq<Cell>)
    requires HashGuards(l)
  {
    k <= l.limit && s.ip == LOOP_HEAD && s.cpu.rax == Low(HashAt(l, k)) && s.cpu.rcx == Low(k) && s.cpu.locals == cells
  }

  lemma RunMixIn(l: Hash, ops: seq<NOp>, c: Cpu, h: uint32, i: uint32) returns (d: Cpu)
    requires HashGuards(l) && ops == HashCode(l)
    requires c.rax == Low(h) && c.rcx == Low(i)
    ensures Run(Native(ops), NState(4, c), 6) == Next(NState(10, d))
    ensures d.rax == Low(MixIn(l, h, i)) && d.rcx == c.rcx && d.locals == c.locals
  {
    hide JsValues.Word, ShiftRight, U32, Native, NativeStep, Exec, HashOps, Pow2;
    var m := JsValues.Word(And, i, U32(l.mask));
    var s := ShiftRight(i, l.a);
    var x := JsValues.Word(Xor, m, s);
    var c1 := c.(r10 := i);
    var c2 := c1.(r10 := m);
    var c3 := c2.(r11 := i);
    var c4 := c3.(r11 := s);
    var c5 := c4.(r10 := x);
    d := c5.(rax := Low(U32(h + x)));
    var cpus := [c, c1, c2, c3, c4, c5, d];
    HashStep(ops[4], cpus[0]);
    assert TraceAt(ops, 4, cpus, 0);
    HashStep(ops[5], cpus[1]);
    assert TraceAt(ops, 4, cpus, 1);
    HashStep(ops[6], cpus[2]);
    assert TraceAt(ops, 4, cpus, 2);
    HashStep(ops[7], cpus[3]);
    assert TraceAt(ops, 4, cpus, 3);
    HashStep(ops[8], cpus[4]);
    assert TraceAt(ops, 4, cpus, 4);
    HashStep(ops[9], cpus[5]);
    assert TraceAt(ops, 4, cpus, 5);
    RunTrace(ops, 4, cpus, 6);
  }

  lemma RunStir(l: Hash, ops: seq<NOp>, c: Cpu, x: uint32) returns (d: Cpu)
    requires HashGuards(l) && ops == HashCode(l)
    requires c.rax == Low(x) && c.rcx.Low?
    ensures Run(Native(ops), NState(10, c), 6) == Next(NState(16, d))
    ensures d.rax == Low(Stir(l, x)) && d.rcx == c.rcx && d.locals == c.locals
  {
    hide JsValues.Word, ShiftRight, U32, Native, NativeStep, Exec, HashOps, Pow2;
    var t, s := U32(x * Pow2(l.b)), ShiftRight(x, l.c);
    var y := JsValues.Word(Xor, x, t);
    var c1 := c.(r10 := x);
    var c2 := c1.(r10 := t);
    var c3 := c2.(r11 := x);
    var c4 := c3.(r11 := s);
    var c5 := c4.(rax := Low(y));
    d := c5.(rax := Low(JsValues.Word(Xor, y, s)));
    var cpus := [c, c1, c2, c3, c4, c5, d];
    HashStep(ops[10], cpus[0]);
    assert TraceAt(ops, 10, cpus, 0);
    HashStep(ops[11], cpus[1]);
    assert TraceAt(ops, 10, cpus, 1);
    HashStep(ops[12], cpus[2]);
    assert TraceAt(ops, 10, cpus, 2);
    HashStep(ops[13], cpus[3]);
    assert TraceAt(ops, 10, cpus, 3);
    HashStep(ops[14], cpus[4]);
    assert TraceAt(ops, 10, cpus, 4);
    HashStep(ops[15], cpus[5]);
    assert TraceAt(ops, 10, cpus, 5);
    RunTrace(ops, 10, cpus, 6);
  }

  /** The comparison at the top, and the exit jump when `k` has reached the limit. */
  lemma RunTop(l: Hash, ops: seq<NOp>, k: nat, s: NState)
    requires HashGuards(l) && ops == HashCode(l)
    requires AtTop(l, k, s, s.cpu.locals)
    ensures k < l.limit ==> Run(Native(ops), s, 2) == Next(NState(4, s.cpu.(flags := Compared(k, l.limit))))
    ensures k == l.limit ==> Run(Native(ops), s, 2) == Next(NState(EXIT, s.cpu.(flags := Compared(k, l.limit))))
  {
    hide Exec, HashOps, Native, NativeStep, Displacement, Run, HashAt;
    HashCodeResolved(l);
    var c := s.cpu.(flags := Compared(k, l.limit));
    var t := NState(3, c);
    HashStep(ops[2], s.cpu);
    StraightStep(ops, s, c);
    RunOne(Native(ops), s);
    RunThen(Native(ops), s, 1, t);
    JgeStep(ops, t, EXIT);
  }

  lemma RunBack(l: Hash, ops: seq<NOp>, k: nat, c: Cpu)
    requires HashGuards(l) && ops == HashCode(l) && k < l.limit
    requires c.rax.Low? && c.rcx == Low(k)
    ensures Run(Native(ops), NState(16, c), 2) == Next(NState(LOOP_HEAD, c.(rcx := Low(k + 1))))
  {
    hide Exec, HashOps, Native, NativeStep, Displacement, Run;
    HashCodeResolved(l);
    var s, d := NState(16, c), c.(rcx := Low(k + 1));
    var t := NState(17, d);
    HashStep(ops[16], c);
    StraightStep(ops, s, d);
    RunOne(Native(ops), s);
    RunThen(Native(ops), s, 1, t);
    JmpStep(ops, t, LOOP_HEAD);
  }

  lemma {:induction false} RunHashLoop(l: Hash, ops: seq<NOp>, k: nat, s: NState) returns (n: nat)
    requires HashGuards(l) && ops == HashCode(l)
    requires AtTop(l, k, s, s.cpu.locals)
    ensures Run(Native(ops), s, n) == Halt(Returned(Int(S32(HashAt(l, l.limit)))), DecAll(s.cpu.locals))
    decreases l.limit - k
  {
    hide Native, NativeStep, Exec, MixIn, Stir, HashCode, Run;
    var step := Native(ops);
    RunTop(l, ops, k, s);
    var c := s.cpu.(flags := Compared(k, l.limit));
    if k < l.limit {
      var d := RunMixIn(l, ops, c, HashAt(l, k), k);
      RunBoth(step, s, 2, NState(4, c), 6);
      var e := RunStir(l, ops, d, MixIn(l, HashAt(l, k), k));
      RunBoth(step, s, 8, NState(10, d), 6);
      RunBack(l, ops, k, e);
      RunBoth(step, s, 14, NState(16, e), 2);
      var t := NState(LOOP_HEAD, e.(rcx := Low(k + 1)));
      assert HashAt(l, k + 1) == Stir(l, MixIn(l, HashAt(l, k), k));
      var m := RunHashLoop(l, ops, k + 1, t);
      RunBoth(step, s, 16, t, m);
      n := 16 + m;
    } else {
      RunReturnEax(l, ops, c);
      RunBoth(step, s, 2, NState(EXIT, c), 2);
      n := 4;
    }
  }

  lemma RunReturnEax(l: Hash, ops: seq<NOp>, c: Cpu)
    requires HashGuards(l) && ops == HashCode(l) && c.rax.Low?
    ensures Run(Native(ops), NState(EXIT, c), 2) == Halt(Returned(Int(S32(c.rax.u))), DecAll(c.locals))
  {
    hide HashOps, ExecSlot, ExecLocal, ExecPair, ExecFlag, ExecHash, Native, NativeStep, Run;
    var s, d := NState(EXIT, c), c.(rdx := 0);
    assert Exec(ops[18], c) == Some(d);
    StraightStep(ops, s, d);
    RunOne(Native(ops), s);
    RunThen(Native(ops), s, 1, NState(19, d));
    RetStep(ops, NState(19, d));
  }

  /** The two loads before the loop. */
  lemma RunEntry(l: Hash, ops: seq<NOp>, c: Cpu) returns (d: Cpu)
    requires HashGuards(l) && ops == HashCode(l)
    ensures Run(Native(ops), NState(0, c), 2) == Next(NState(LOOP_HEAD, d))
    ensures AtTop(l, 0, NState(LOOP_HEAD, d), c.locals)
  {
    hide Native, NativeStep, Run, HashOps, Exec;
    var c1 := c.(rcx := Low(0));
    d := c1.(rax := Low(U32(l.hashInit)));
    var cpus := [c, c1, d];
    ImmediateStep(ops[0], c);
    ImmediateStep(ops[1], c1);
    assert TraceAt(ops, 0, cpus, 0) && TraceAt(ops, 0, cpus, 1);
    RunTrace(ops, 0, cpus, 2);
  }

  lemma ImmediateStep(op: NOp, c: Cpu)
    ensures op.MovEcx? ==> Exec(op, c) == Some(c.(rcx := Low(U32(op.imm))))
    ensures op.MovEax? ==> Exec(op, c) == Some(c.(rax := Low(U32(op.imm))))
  {
    hide ExecSlot, ExecLocal, ExecPair, ExecFlag;
  }

  /** From entry the emitted code returns the 32-bit hash and leaves the locals alone. */
  lemma HashCodeReturns(l: Hash, locals: seq<Value>)
    requires HashGuards(l)
    ensures Halts(Native(HashCode(l)), NativeStart(locals), Returned(Int(S32(HashAt(l, l.limit)))), locals)
  {
    hide Native, NativeStep, Run, HashCode, HashAt;
    var ops, s := HashCode(l), NativeStart(locals);
    var d := RunEntry(l, ops, s.cpu);
    var n := RunHashLoop(l, ops, 0, NState(LOOP_HEAD, d));
    RunBoth(Native(ops), s, 2, NState(LOOP_HEAD, d), n);
    DecEncAll(locals);
  }
}
