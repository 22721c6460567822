/** Assembled templates run in step with the int32-only register machine. */
module BaselineRuns {
  import opened JsValues
  import opened Machines
  import opened RegisterCode
  import opened RegisterVm
  import opened NativeCode
  import opened Baseline

  /** After `n` native instructions the machine stands at the start of the next
      template with the same contents, or has ended in the same way. */
  ghost predicate Follows(code: seq<RegInstruction>, ops: seq<NOp>, starts: seq<nat>, s: NState, n: nat, r: Progress<VmState>)
    requires |starts| == |code| + 1
  {
    match r
    case Next(m) => Run(Native(ops), s, n).Next? && Synced(code, ops, starts, m, Run(Native(ops), s, n).s)
    case Halt(exit, locals) => Run(Native(ops), s, n) == Halt(exit, locals)
  }

  ghost predicate At(code: seq<RegInstruction>, ops: seq<NOp>, starts: seq<nat>, m: VmState, s: NState) {
    && Assembled(code, ops, starts)
    && m.pc < |code| && Synced(code, ops, starts, m, s)
  }

  lemma NextStart(code: seq<RegInstruction>, ops: seq<NOp>, starts: seq<nat>, i: nat)
    requires Assembled(code, ops, starts) && i < |code|
    ensures Supported(code[i].op) && starts[i + 1] == starts[i] + |Template(code[i], i)| && starts[i + 1] <= starts[|code|]
  {
    hide Template;
    assert Laid(code, ops, starts, i);
    StartsIncrease(code, ops, starts, i + 1, |code|);
  }

  /** Out of bounds: the run leaves the model at instruction `k`. */
  lemma RunLeaves(ops: seq<NOp>, s: NState, m: VmState)
    requires s.ip < |ops| && !IsJumpOp(ops[s.ip]) && !ops[s.ip].Ret? && Exec(ops[s.ip], s.cpu).None? && s.cpu.locals == EncAll(m.locals)
    ensures Run(Native(ops), s, 1) == Halt(Outside, m.locals)
  {
    hide ExecSlot, ExecLocal, ExecPair, ExecFlag, ExecHash;
    DecEncAll(m.locals);
    RunOne(Native(ops), s);
  }

  // ---------------------------------------------------------------------------
  // What each template looks like in place
  // ---------------------------------------------------------------------------

  lemma LoadOps(code: seq<RegInstruction>, ops: seq<NOp>, starts: seq<nat>, i: nat)
    requires Assembled(code, ops, starts) && i < |code| && code[i].op.LoadLoc?
    ensures |starts| == |code| + 1 && starts[|code|] + 2 == |ops|
    ensures starts[i + 1] == starts[i] + 4 <= |ops|
    ensures ops[starts[i]] == LoadLocalRax(code[i].src1) && ops[starts[i] + 1] == LoadLocalRdx(code[i].src1)
    ensures ops[starts[i] + 2] == StoreRax(code[i].dst) && ops[starts[i] + 3] == StoreRdx(code[i].dst)
  {
    hide Laid, Displacement, RegI32, Note;
    NextStart(code, ops, starts, i);
    OpAt(code, ops, starts, i, 0);
    OpAt(code, ops, starts, i, 1);
    OpAt(code, ops, starts, i, 2);
    OpAt(code, ops, starts, i, 3);
  }

  lemma MovOps(code: seq<RegInstruction>, ops: seq<NOp>, starts: seq<nat>, i: nat)
    requires Assembled(code, ops, starts) && i < |code| && code[i].op.Mov?
    ensures |starts| == |code| + 1 && starts[|code|] + 2 == |ops|
    ensures starts[i + 1] == starts[i] + 4 <= |ops|
    ensures ops[starts[i]] == LoadRax(code[i].src1) && ops[starts[i] + 1] == LoadRdx(code[i].src1)
    ensures ops[starts[i] + 2] == StoreRax(code[i].dst) && ops[starts[i] + 3] == StoreRdx(code[i].dst)
  {
    hide Laid, Displacement, RegI32, Note;
    NextStart(code, ops, starts, i);
    OpAt(code, ops, starts, i, 0);
    OpAt(code, ops, starts, i, 1);
    OpAt(code, ops, starts, i, 2);
    OpAt(code, ops, starts, i, 3);
  }

  lemma StoreOps(code: seq<RegInstruction>, ops: seq<NOp>, starts: seq<nat>, i: nat)
    requires Assembled(code, ops, starts) && i < |code| && (code[i].op.StoreLoc? || code[i].op.SetLoc?)
    ensures |starts| == |code| + 1 && starts[|code|] + 2 == |ops|
    ensures starts[i + 1] == starts[i] + 4 <= |ops|
    ensures ops[starts[i]] == LoadRax(code[i].src1) && ops[starts[i] + 1] == LoadRdx(code[i].src1)
    ensures ops[starts[i] + 2] == StoreLocalRax(code[i].dst) && ops[starts[i] + 3] == StoreLocalRdx(code[i].dst)
  {
    hide Laid, Displacement, RegI32, Note;
    NextStart(code, ops, starts, i);
    OpAt(code, ops, starts, i, 0);
    OpAt(code, ops, starts, i, 1);
    OpAt(code, ops, starts, i, 2);
    OpAt(code, ops, starts, i, 3);
  }

  lemma PushOps(code: seq<RegInstruction>, ops: seq<NOp>, starts: seq<nat>, i: nat)
    requires Assembled(code, ops, starts) && i < |code| && code[i].op.PushI32?
    ensures |starts| == |code| + 1 && starts[|code|] + 2 == |ops|
    ensures starts[i + 1] == starts[i] + 2 <= |ops|
    ensures ops[starts[i]] == StoreImm(code[i].dst, RegI32(code[i])) && ops[starts[i] + 1] == StoreTag(code[i].dst, TAG_INT)
  {
    hide Laid, Displacement, RegI32, Note;
    NextStart(code, ops, starts, i);
    OpAt(code, ops, starts, i, 0);
    OpAt(code, ops, starts, i, 1);
  }

  lemma IfOps(code: seq<RegInstruction>, ops: seq<NOp>, starts: seq<nat>, i: nat)
    requires Assembled(code, ops, starts) && i < |code| && (code[i].op.IfFalse? || code[i].op.IfTrue?)
    ensures |starts| == |code| + 1 && starts[|code|] + 2 == |ops|
    ensures starts[i + 1] == starts[i] + 5 <= |ops|
    ensures ops[starts[i]] == CmpTag(code[i].dst, TAG_BOOL)
    ensures ops[starts[i] + 1] == GuardEqual(Note(i, 0), Displacement(ops, starts[i] + 1, starts[|code|]))
    ensures ops[starts[i] + 2] == LoadRax(code[i].dst) && ops[starts[i] + 3] == CmpRaxZero
    ensures Target(code, starts, i, JmpIf(true, 0)) <= |ops|
    ensures ops[starts[i] + 4] == JmpIf(code[i].op.IfFalse?, Displacement(ops, starts[i] + 4, Target(code, starts, i, JmpIf(true, 0))))
  {
    hide Laid, Displacement, RegI32, Note;
    NextStart(code, ops, starts, i);
    OpAt(code, ops, starts, i, 0);
    OpAt(code, ops, starts, i, 1);
    OpAt(code, ops, starts, i, 2);
    OpAt(code, ops, starts, i, 3);
    OpAt(code, ops, starts, i, 4);
  }

  lemma OperandOps(code: seq<RegInstruction>, ops: seq<NOp>, starts: seq<nat>, i: nat)
    requires Assembled(code, ops, starts) && i < |code| && code[i].op.Binary?
    ensures |starts| == |code| + 1 && starts[|code|] + 2 == |ops|
    ensures starts[i] + 10 <= starts[i + 1] <= |ops|
    ensures ops[starts[i]] == CmpTag(code[i].src1, TAG_INT) && ops[starts[i] + 2] == CmpTag(code[i].src2, TAG_INT)
    ensures ops[starts[i] + 1] == GuardEqual(Note(i, 0), Displacement(ops, starts[i] + 1, starts[|code|]))
    ensures ops[starts[i] + 3] == GuardEqual(Note(i, 1), Displacement(ops, starts[i] + 3, starts[|code|]))
    ensures ops[starts[i] + 4] == LoadRax(code[i].src1) && ops[starts[i] + 5] == LoadRcx(code[i].src2)
  {
    hide Laid, Displacement, RegI32, Note;
    NextStart(code, ops, starts, i);
    OpAt(code, ops, starts, i, 0);
    OpAt(code, ops, starts, i, 1);
    OpAt(code, ops, starts, i, 2);
    OpAt(code, ops, starts, i, 3);
    OpAt(code, ops, starts, i, 4);
    OpAt(code, ops, starts, i, 5);
  }

  lemma AddOps(code: seq<RegInstruction>, ops: seq<NOp>, starts: seq<nat>, i: nat)
    requires Assembled(code, ops, starts) && i < |code| && code[i].op == Binary(Add)
    ensures |starts| == |code| + 1 && starts[|code|] + 2 == |ops|
    ensures starts[i + 1] == starts[i] + 10 <= |ops|
    ensures ops[starts[i] + 6] == AddEaxEcx
    ensures ops[starts[i] + 7] == GuardNoOverflow(Note(i, 2), Displacement(ops, starts[i] + 7, starts[|code|]))
    ensures ops[starts[i] + 8] == StoreRax(code[i].dst) && ops[starts[i] + 9] == StoreTag(code[i].dst, TAG_INT)
  {
    hide Laid, Displacement, RegI32, Note;
    NextStart(code, ops, starts, i);
    OpAt(code, ops, starts, i, 6);
    OpAt(code, ops, starts, i, 7);
    OpAt(code, ops, starts, i, 8);
    OpAt(code, ops, starts, i, 9);
  }

  lemma CompareOps(code: seq<RegInstruction>, ops: seq<NOp>, starts: seq<nat>, i: nat)
    requires Assembled(code, ops, starts) && i < |code| && code[i].op.Binary? && IsCompare(code[i].op.op)
    ensures |starts| == |code| + 1 && starts[|code|] + 2 == |ops|
    ensures starts[i + 1] == starts[i] + 11 <= |ops|
    ensures ops[starts[i] + 6] == CmpEaxEcx && ops[starts[i] + 7] == SetCc(code[i].op.op) && ops[starts[i] + 8] == MovzxEaxAl
    ensures ops[starts[i] + 9] == StoreRax(code[i].dst) && ops[starts[i] + 10] == StoreTag(code[i].dst, TAG_BOOL)
  {
    hide Laid, Displacement, RegI32, Note;
    NextStart(code, ops, starts, i);
    OpAt(code, ops, starts, i, 6);
    OpAt(code, ops, starts, i, 7);
    OpAt(code, ops, starts, i, 8);
    OpAt(code, ops, starts, i, 9);
    OpAt(code, ops, starts, i, 10);
  }

  // ---------------------------------------------------------------------------
  // Moves
  // ---------------------------------------------------------------------------

  lemma RunPush(code: seq<RegInstruction>, ops: seq<NOp>, starts: seq<nat>, m: VmState, s: NState)
    requires At(code, ops, starts, m, s) && code[m.pc].op.PushI32?
    ensures Follows(code, ops, starts, s, 2, JitStep(code, m))
  {
    hide Assembled, Template, Fix, Note, Native, NativeStep, Run, Laid, RegI32, ExecPair, ExecFlag, ExecHash, ExecLocal;
    var inst, k := code[m.pc], s.ip;
    PushOps(code, ops, starts, m.pc);
    var v := Int(RegI32(inst));
    var c := s.cpu;
    var c1 := WithReg(c, inst.dst, c.regs[inst.dst].(payload := Enc(v).payload));
    var c2 := WithReg(c1, inst.dst, Enc(v));
    EncUpdate(m.regs, inst.dst, v);
    assert c2.regs == EncAll(m.regs[inst.dst := v]);
    var cpus := [c, c1, c2];
    assert Exec(ops[k], c) == Some(c1);
    assert Exec(ops[k + 1], c1) == Some(c2);
    assert TraceAt(ops, k, cpus, 0) && TraceAt(ops, k, cpus, 1);
    RunTrace(ops, k, cpus, 2);
  }

  /** Four instructions that copy a cell through rax and rdx into a register. */
  lemma CopyToReg(ops: seq<NOp>, m: VmState, c: Cpu, k: nat, v: Value, dst: byte)
    requires Holding(m, c) && k + 4 <= |ops|
    requires Exec(ops[k], c) == Some(c.(rax := Enc(v).payload))
    requires Exec(ops[k + 1], c.(rax := Enc(v).payload)) == Some(c.(rax := Enc(v).payload, rdx := Enc(v).tag))
    requires ops[k + 2] == StoreRax(dst) && ops[k + 3] == StoreRdx(dst)
    ensures
      var r := Run(Native(ops), NState(k, c), 4);
      r.Next? && r.s.ip == k + 4 && Holding(Put(m, dst, v), r.s.cpu)
  {
    hide Native, NativeStep, Run, ExecPair, ExecFlag, ExecHash, ExecLocal;
    var c1 := c.(rax := Enc(v).payload);
    var c2 := c1.(rdx := Enc(v).tag);
    var c3 := WithReg(c2, dst, c.regs[dst].(payload := Enc(v).payload));
    var c4 := WithReg(c3, dst, Enc(v));
    EncUpdate(m.regs, dst, v);
    assert c4.regs == EncAll(m.regs[dst := v]);
    var cpus := [c, c1, c2, c3, c4];
    assert Exec(ops[k + 2], c2) == Some(c3);
    assert Exec(ops[k + 3], c3) == Some(c4);
    assert TraceAt(ops, k, cpus, 0) && TraceAt(ops, k, cpus, 1);
    assert TraceAt(ops, k, cpus, 2) && TraceAt(ops, k, cpus, 3);
    RunTrace(ops, k, cpus, 4);
  }

  lemma RunLoad(code: seq<RegInstruction>, ops: seq<NOp>, starts: seq<nat>, m: VmState, s: NState) returns (n: nat)
    requires At(code, ops, starts, m, s) && code[m.pc].op.LoadLoc?
    ensures n >= 1 && Follows(code, ops, starts, s, n, JitStep(code, m))
  {
    hide Assembled, Template, Fix, Note, Native, NativeStep, Run, Laid, RegI32, ExecPair, ExecFlag, ExecHash, ExecSlot;
    var inst := code[m.pc];
    LoadOps(code, ops, starts, m.pc);
    if inst.src1 < |m.locals| {
      CopyToReg(ops, m, s.cpu, s.ip, m.locals[inst.src1], inst.dst);
      n := 4;
    } else {
      RunLeaves(ops, s, m);
      n := 1;
    }
  }

  lemma RunMov(code: seq<RegInstruction>, ops: seq<NOp>, starts: seq<nat>, m: VmState, s: NState) returns (n: nat)
    requires At(code, ops, starts, m, s) && code[m.pc].op.Mov?
    ensures n >= 1 && Follows(code, ops, starts, s, n, JitStep(code, m))
  {
    hide Assembled, Template, Fix, Note, Native, NativeStep, Run, Laid, RegI32, ExecPair, ExecFlag, ExecHash, ExecLocal;
    var inst := code[m.pc];
    MovOps(code, ops, starts, m.pc);
    if inst.src1 < REGISTERS {
      CopyToReg(ops, m, s.cpu, s.ip, m.regs[inst.src1], inst.dst);
      n := 4;
    } else {
      RunLeaves(ops, s, m);
      n := 1;
    }
  }

  /** rax and rdx receive the cell of register `slot`. */
  lemma FetchReg(ops: seq<NOp>, m: VmState, c: Cpu, k: nat, slot: nat)
    requires Holding(m, c) && k + 2 <= |ops| && slot < REGISTERS
    requires ops[k] == LoadRax(slot) && ops[k + 1] == LoadRdx(slot)
    ensures Run(Native(ops), NState(k, c), 2)
         == Next(NState(k + 2, c.(rax := Enc(m.regs[slot]).payload, rdx := Enc(m.regs[slot]).tag)))
  {
    hide Native, NativeStep, Run, ExecPair, ExecFlag, ExecHash, ExecLocal;
    var c1 := c.(rax := Enc(m.regs[slot]).payload);
    var c2 := c1.(rdx := Enc(m.regs[slot]).tag);
    var cpus := [c, c1, c2];
    assert TraceAt(ops, k, cpus, 0) && TraceAt(ops, k, cpus, 1);
    RunTrace(ops, k, cpus, 2);
  }

  lemma StoreCell(ops: seq<NOp>, m: VmState, c: Cpu, k: nat, v: Value, loc: byte)
    requires Holding(m, c.(rax := Low(0))) && k + 2 <= |ops| && loc < |m.locals|
    requires c.rax == Enc(v).payload && c.rdx == Enc(v).tag
    requires ops[k] == StoreLocalRax(loc) && ops[k + 1] == StoreLocalRdx(loc)
    ensures
      var r := Run(Native(ops), NState(k, c), 2);
      r.Next? && r.s.ip == k + 2 && Holding(m.(pc := m.pc + 1, locals := m.locals[loc := v]), r.s.cpu)
  {
    hide Native, NativeStep, Run, ExecPair, ExecFlag, ExecHash, ExecSlot;
    var c1 := WithLocal(c, loc, c.locals[loc].(payload := c.rax));
    var c2 := WithLocal(c1, loc, Enc(v));
    EncUpdate(m.locals, loc, v);
    assert c2.locals == EncAll(m.locals[loc := v]);
    var cpus := [c, c1, c2];
    assert TraceAt(ops, k, cpus, 0) && TraceAt(ops, k, cpus, 1);
    RunTrace(ops, k, cpus, 2);
  }

  lemma RunStore(code: seq<RegInstruction>, ops: seq<NOp>, starts: seq<nat>, m: VmState, s: NState) returns (n: nat)
    requires At(code, ops, starts, m, s) && (code[m.pc].op.StoreLoc? || code[m.pc].op.SetLoc?)
    ensures n >= 1 && Follows(code, ops, starts, s, n, JitStep(code, m))
  {
    hide Assembled, Template, Fix, Note, Native, NativeStep, Run, Laid, RegI32, ExecPair, ExecFlag, ExecHash;
    var inst := code[m.pc];
    StoreOps(code, ops, starts, m.pc);
    if inst.src1 >= REGISTERS {
      RunLeaves(ops, s, m);
      n := 1;
    } else {
      var v := m.regs[inst.src1];
      FetchReg(ops, m, s.cpu, s.ip, inst.src1);
      var t := Run(Native(ops), s, 2).s;
      if inst.dst < |m.locals| {
        StoreCell(ops, m, t.cpu, t.ip, v, inst.dst);
        RunBoth(Native(ops), s, 2, t, 2);
        n := 4;
      } else {
        RunLeaves(ops, t, m);
        RunBoth(Native(ops), s, 2, t, 1);
        n := 3;
      }
    }
  }

  // ---------------------------------------------------------------------------
  // Returns and jumps
  // ---------------------------------------------------------------------------

  lemma RunReturn(code: seq<RegInstruction>, ops: seq<NOp>, starts: seq<nat>, m: VmState, s: NState)
    requires At(code, ops, starts, m, s) && code[m.pc].op.Return?
    ensures Follows(code, ops, starts, s, 3, JitStep(code, m))
  {
    hide Native, NativeStep, Run, Laid, RegI32, Exec;
    var inst := code[m.pc];
    NextStart(code, ops, starts, m.pc);
    OpAt(code, ops, starts, m.pc, 0);
    OpAt(code, ops, starts, m.pc, 1);
    OpAt(code, ops, starts, m.pc, 2);
    FetchReg(ops, m, s.cpu, s.ip, inst.dst);
    var t := Run(Native(ops), s, 2).s;
    RunThen(Native(ops), s, 2, t);
    RetStep(ops, t);
    DecEnc(m.regs[inst.dst]);
    DecEncAll(m.locals);
  }

  lemma RunReturnUndef(code: seq<RegInstruction>, ops: seq<NOp>, starts: seq<nat>, m: VmState, s: NState)
    requires At(code, ops, starts, m, s) && code[m.pc].op.ReturnUndef?
    ensures Follows(code, ops, starts, s, 3, JitStep(code, m))
  {
    hide Native, NativeStep, Run, Laid, RegI32, ExecSlot, ExecPair, ExecFlag, ExecHash, ExecLocal;
    var k := s.ip;
    NextStart(code, ops, starts, m.pc);
    OpAt(code, ops, starts, m.pc, 0);
    OpAt(code, ops, starts, m.pc, 1);
    OpAt(code, ops, starts, m.pc, 2);
    var c1 := s.cpu.(rax := Low(0));
    var c2 := c1.(rdx := TAG_UNDEFINED);
    var cpus := [s.cpu, c1, c2];
    assert TraceAt(ops, k, cpus, 0) && TraceAt(ops, k, cpus, 1);
    RunTrace(ops, k, cpus, 2);
    var t := NState(k + 2, c2);
    RunThen(Native(ops), s, 2, t);
    RetStep(ops, t);
    DecEncAll(m.locals);
  }

  lemma RunJmp(code: seq<RegInstruction>, ops: seq<NOp>, starts: seq<nat>, m: VmState, s: NState)
    requires At(code, ops, starts, m, s) && code[m.pc].op.Jmp?
    ensures Follows(code, ops, starts, s, 1, JitStep(code, m))
  {
    hide Native, NativeStep, Run, Laid, RegI32, Displacement;
    NextStart(code, ops, starts, m.pc);
    OpAt(code, ops, starts, m.pc, 0);
    RunOne(Native(ops), s);
    JmpStep(ops, s, Target(code, starts, m.pc, NOp.Jmp(0)));
  }

  // ---------------------------------------------------------------------------
  // Guards
  // ---------------------------------------------------------------------------

  /** A tag check passes, or the run ends in the bailout block. */
  lemma RunTagCheck(code: seq<RegInstruction>, ops: seq<NOp>, starts: seq<nat>, m: VmState, c: Cpu, k: nat, slot: nat, tag: int32, note: uint32)
    requires Assembled(code, ops, starts) && Holding(m, c) && k + 2 <= |ops| && slot < REGISTERS
    requires ops[k] == CmpTag(slot, tag) && ops[k + 1] == GuardEqual(note, Displacement(ops, k + 1, starts[|code|]))
    ensures Enc(m.regs[slot]).tag == tag ==>
      Run(Native(ops), NState(k, c), 2) == Next(NState(k + 2, c.(flags := Compared(tag, tag))))
    ensures Enc(m.regs[slot]).tag != tag ==> Run(Native(ops), NState(k, c), 4) == Halt(BAIL, m.locals)
  {
    hide Native, NativeStep, Run, Laid, Displacement, ExecLocal, ExecPair, ExecFlag, ExecHash;
    var step, s := Native(ops), NState(k, c);
    var d := c.(flags := Compared(Enc(m.regs[slot]).tag, tag));
    assert Exec(ops[k], c) == Some(d);
    StraightStep(ops, s, d);
    RunOne(step, s);
    var t := NState(k + 1, d);
    RunThen(step, s, 1, t);
    GuardStep(ops, t, starts[|code|]);
    if Enc(m.regs[slot]).tag != tag {
      var u := d.(rax := Low(note));
      RunBailout(code, ops, starts, m, u);
      RunBoth(step, s, 2, NState(starts[|code|], u), 2);
    }
  }

  lemma GuardStep(ops: seq<NOp>, s: NState, target: nat)
    requires s.ip < |ops| && target <= |ops| && s.cpu.flags.Compared?
    requires ops[s.ip].GuardEqual? && ops[s.ip].rel == Displacement(ops, s.ip, target)
    ensures s.cpu.flags.a == s.cpu.flags.b ==> Native(ops)(s) == Next(s.(ip := s.ip + 1))
    ensures s.cpu.flags.a != s.cpu.flags.b ==> Native(ops)(s) == Next(NState(target, s.cpu.(rax := Low(ops[s.ip].note))))
  {
    hide Exec, Landing, Displacement;
    JumpStep(ops, s.(cpu := s.cpu.(rax := Low(ops[s.ip].note))), Displacement(ops, s.ip, target), target);
  }

  lemma OverflowStep(ops: seq<NOp>, s: NState, target: nat)
    requires s.ip < |ops| && target <= |ops| && s.cpu.flags.Overflow?
    requires ops[s.ip].GuardNoOverflow? && ops[s.ip].rel == Displacement(ops, s.ip, target)
    ensures !s.cpu.flags.hit ==> Native(ops)(s) == Next(s.(ip := s.ip + 1))
    ensures s.cpu.flags.hit ==> Native(ops)(s) == Next(NState(target, s.cpu.(rax := Low(ops[s.ip].note))))
  {
    hide Exec, Landing, Displacement;
    JumpStep(ops, s.(cpu := s.cpu.(rax := Low(ops[s.ip].note))), Displacement(ops, s.ip, target), target);
  }

  lemma JumpIfStep(ops: seq<NOp>, s: NState, target: nat)
    requires s.ip < |ops| && target <= |ops| && s.cpu.flags.Compared?
    requires ops[s.ip].JmpIf? && ops[s.ip].rel == Displacement(ops, s.ip, target)
    ensures (s.cpu.flags.a == s.cpu.flags.b) == ops[s.ip].equal ==> Native(ops)(s) == Next(s.(ip := target))
    ensures (s.cpu.flags.a == s.cpu.flags.b) != ops[s.ip].equal ==> Native(ops)(s) == Next(s.(ip := s.ip + 1))
  {
    hide Exec, Landing, Displacement;
    JumpStep(ops, s, Displacement(ops, s.ip, target), target);
  }

  lemma RunIf(code: seq<RegInstruction>, ops: seq<NOp>, starts: seq<nat>, m: VmState, s: NState) returns (n: nat)
    requires At(code, ops, starts, m, s) && (code[m.pc].op.IfFalse? || code[m.pc].op.IfTrue?)
    ensures n >= 1 && Follows(code, ops, starts, s, n, JitStep(code, m))
  {
    hide Assembled, Template, Fix, Note, Native, NativeStep, Run, Laid, RegI32, Displacement, ExecLocal, ExecPair, ExecHash;
    var inst, k, step := code[m.pc], s.ip, Native(ops);
    IfOps(code, ops, starts, m.pc);
    var cond := m.regs[inst.dst];
    EncTag(cond);
    RunTagCheck(code, ops, starts, m, s.cpu, k, inst.dst, TAG_BOOL, Note(m.pc, 0));
    if cond.Bool? {
      var c := s.cpu.(flags := Compared(TAG_BOOL, TAG_BOOL));
      var c1 := c.(rax := Enc(cond).payload);
      var c2 := c1.(flags := Compared(Enc(cond).payload.u, 0));
      var cpus := [c, c1, c2];
      assert TraceAt(ops, k + 2, cpus, 0) && TraceAt(ops, k + 2, cpus, 1);
      RunTrace(ops, k + 2, cpus, 2);
      RunBoth(step, s, 2, NState(k + 2, c), 2);
      var t := NState(k + 4, c2);
      RunThen(step, s, 4, t);
      JumpIfStep(ops, t, Target(code, starts, m.pc, JmpIf(true, 0)));
      n := 5;
    } else {
      n := 4;
    }
  }

  // ---------------------------------------------------------------------------
  // Arithmetic
  // ---------------------------------------------------------------------------

  /** Both operands are int32 and in eax and ecx, or the run has ended as the
      machine does. */
  lemma RunOperands(code: seq<RegInstruction>, ops: seq<NOp>, starts: seq<nat>, m: VmState, s: NState)
    returns (n: nat, c: Cpu)
    requires At(code, ops, starts, m, s) && code[m.pc].op.Binary?
    ensures n >= 1
    ensures
      var inst := code[m.pc];
      if inst.src1 < REGISTERS && inst.src2 < REGISTERS && m.regs[inst.src1].Int? && m.regs[inst.src2].Int? then
        && Run(Native(ops), s, n) == Next(NState(s.ip + 6, c))
        && Holding(m, c) && c.rax == Low(U32(m.regs[inst.src1].i)) && c.rcx == Low(U32(m.regs[inst.src2].i))
      else
        JitStep(code, m).Halt? && Run(Native(ops), s, n) == Halt(JitStep(code, m).exit, JitStep(code, m).locals)
  {
    hide Assembled, Template, Fix, Note, Native, NativeStep, Run, Laid, RegI32, Displacement, ExecLocal, ExecPair, ExecHash, ExecFlag, IntResult;
    var inst, k, step := code[m.pc], s.ip, Native(ops);
    OperandOps(code, ops, starts, m.pc);
    c := s.cpu.(flags := Compared(TAG_INT, TAG_INT));
    if inst.src1 >= REGISTERS {
      RunLeaves(ops, s, m);
      n := 1;
    } else {
      EncTag(m.regs[inst.src1]);
      RunTagCheck(code, ops, starts, m, s.cpu, k, inst.src1, TAG_INT, Note(m.pc, 0));
      n := 4;
      if m.regs[inst.src1].Int? {
        if inst.src2 >= REGISTERS {
          RunLeaves(ops, NState(k + 2, c), m);
          RunBoth(step, s, 2, NState(k + 2, c), 1);
          n := 3;
        } else {
          EncTag(m.regs[inst.src2]);
          RunTagCheck(code, ops, starts, m, c, k + 2, inst.src2, TAG_INT, Note(m.pc, 1));
          RunBoth(step, s, 2, NState(k + 2, c), 2);
          RunBoth(step, s, 2, NState(k + 2, c), 4);
          n := 6;
          if m.regs[inst.src2].Int? {
            var c1 := c.(rax := Enc(m.regs[inst.src1]).payload);
            var c2 := c1.(rcx := Enc(m.regs[inst.src2]).payload);
            var cpus := [c, c1, c2];
            assert TraceAt(ops, k + 4, cpus, 0) && TraceAt(ops, k + 4, cpus, 1);
            RunTrace(ops, k + 4, cpus, 2);
            RunBoth(step, s, 4, NState(k + 4, c), 2);
            c := c2;
          }
        }
      }
    }
  }

  /** eax goes to a register with the given tag. */
  lemma StoreEax(ops: seq<NOp>, m: VmState, c: Cpu, k: nat, v: Value, dst: byte, tag: int32)
    requires Holding(m, c) && k + 2 <= |ops| && Enc(v) == Cell(c.rax, tag)
    requires ops[k] == StoreRax(dst) && ops[k + 1] == StoreTag(dst, tag)
    ensures
      var r := Run(Native(ops), NState(k, c), 2);
      r.Next? && r.s.ip == k + 2 && Holding(Put(m, dst, v), r.s.cpu)
  {
    hide Native, NativeStep, Run, ExecPair, ExecFlag, ExecHash, ExecLocal;
    var c1 := WithReg(c, dst, c.regs[dst].(payload := c.rax));
    var c2 := WithReg(c1, dst, Enc(v));
    EncUpdate(m.regs, dst, v);
    assert c2.regs == EncAll(m.regs[dst := v]);
    var cpus := [c, c1, c2];
    assert TraceAt(ops, k, cpus, 0) && TraceAt(ops, k, cpus, 1);
    RunTrace(ops, k, cpus, 2);
  }

  lemma AddWords(a: int32, b: int32)
    ensures S32(U32(a)) == a && S32(U32(b)) == b
    ensures IsInt32(a + b) ==> Enc(Int(a + b)) == Cell(Low(U32(a + b)), TAG_INT)
  {
  }

  lemma RunAddTail(code: seq<RegInstruction>, ops: seq<NOp>, starts: seq<nat>, m: VmState, c: Cpu, k: nat, a: int32, b: int32)
    returns (n: nat)
    requires m.pc < |code| && |starts| == |code| + 1
    requires At(code, ops, starts, m, NState(starts[m.pc], c)) && k == starts[m.pc] + 6
    requires code[m.pc].op == Binary(Add)
    requires c.rax == Low(U32(a)) && c.rcx == Low(U32(b))
    ensures n >= 1 && Follows(code, ops, starts, NState(k, c), n, IntResult(m, code[m.pc].dst, Add, a, b))
  {
    hide Assembled, Template, Fix, Note, Native, NativeStep, Run, Laid, RegI32, Displacement, ExecLocal, ExecSlot, ExecHash, ExecFlag, U32, S32, Enc;
    var inst, step, s := code[m.pc], Native(ops), NState(k, c);
    AddOps(code, ops, starts, m.pc);
    AddWords(a, b);
    var d := c.(rax := Low(U32(a + b)), flags := Overflow(!IsInt32(a + b)));
    assert Exec(ops[k], c) == Some(d);
    StraightStep(ops, s, d);
    RunOne(step, s);
    var t := NState(k + 1, d);
    RunThen(step, s, 1, t);
    OverflowStep(ops, t, starts[|code|]);
    if IsInt32(a + b) {
      StoreEax(ops, m, d, k + 2, Int(a + b), inst.dst, TAG_INT);
      RunBoth(step, s, 2, NState(k + 2, d), 2);
      n := 4;
    } else {
      var u := d.(rax := Low(Note(m.pc, 2)));
      RunBailout(code, ops, starts, m, u);
      RunBoth(step, s, 2, NState(starts[|code|], u), 2);
      n := 4;
    }
  }

  lemma CompareFlag(op: BinOp, c: Cpu, a: int32, b: int32) returns (c1: Cpu, c2: Cpu)
    requires IsCompare(op) && c.rax.Low? && c.flags == Compared(a, b)
    ensures Exec(SetCc(op), c) == Some(c1) && Exec(MovzxEaxAl, c1) == Some(c2)
    ensures c2 == c.(rax := Enc(Bool(Holds(op, a, b))).payload)
  {
    hide ExecSlot, ExecLocal, ExecPair, ExecHash;
    var bit := if Holds(op, a, b) then 1 else 0;
    c1 := c.(rax := Low(c.rax.u - c.rax.u % 0x100 + bit));
    c2 := c.(rax := Low(bit));
  }

  lemma RunCompareTail(code: seq<RegInstruction>, ops: seq<NOp>, starts: seq<nat>, m: VmState, c: Cpu, k: nat, a: int32, b: int32)
    requires m.pc < |code| && |starts| == |code| + 1
    requires At(code, ops, starts, m, NState(starts[m.pc], c)) && k == starts[m.pc] + 6
    requires code[m.pc].op.Binary? && IsCompare(code[m.pc].op.op)
    requires c.rax == Low(U32(a)) && c.rcx == Low(U32(b))
    ensures Follows(code, ops, starts, NState(k, c), 5, IntResult(m, code[m.pc].dst, code[m.pc].op.op, a, b))
  {
    hide JitStep, Holds, Assembled, Template, Fix, Note, Native, NativeStep, Run, Laid, RegI32, Displacement, ExecLocal, ExecSlot, ExecHash, ExecFlag, U32, S32;
    var inst, op, step, s := code[m.pc], code[m.pc].op.op, Native(ops), NState(k, c);
    CompareOps(code, ops, starts, m.pc);
    AddWords(a, b);
    var d := c.(flags := Compared(a, b));
    assert Exec(ops[k], c) == Some(d);
    var d1, d2 := CompareFlag(op, d, a, b);
    var cpus := [c, d, d1, d2];
    assert TraceAt(ops, k, cpus, 0);
    assert TraceAt(ops, k, cpus, 1);
    assert TraceAt(ops, k, cpus, 2);
    RunTrace(ops, k, cpus, 3);
    StoreEax(ops, m, d2, k + 3, Bool(Holds(op, a, b)), inst.dst, TAG_BOOL);
    RunBoth(step, s, 3, NState(k + 3, d2), 2);
  }

  lemma RunBinary(code: seq<RegInstruction>, ops: seq<NOp>, starts: seq<nat>, m: VmState, s: NState) returns (n: nat)
    requires At(code, ops, starts, m, s) && code[m.pc].op.Binary?
    ensures n >= 1 && Follows(code, ops, starts, s, n, JitStep(code, m))
  {
    hide Native, NativeStep, Run, Laid, RegI32, IntResult, Template, Exec;
    var inst, step := code[m.pc], Native(ops);
    NextStart(code, ops, starts, m.pc);
    var a, c := RunOperands(code, ops, starts, m, s);
    n := a;
    if inst.src1 < REGISTERS && inst.src2 < REGISTERS && m.regs[inst.src1].Int? && m.regs[inst.src2].Int? {
      var x, y := m.regs[inst.src1].i, m.regs[inst.src2].i;
      var b: nat := 5;
      if inst.op.op.Add? {
        b := RunAddTail(code, ops, starts, m, c, s.ip + 6, x, y);
      } else {
        RunCompareTail(code, ops, starts, m, c, s.ip + 6, x, y);
      }
      RunBoth(step, s, a, NState(s.ip + 6, c), b);
      n := a + b;
    }
  }

  // ---------------------------------------------------------------------------
  // Whole runs
  // ---------------------------------------------------------------------------

  lemma StepFollows(code: seq<RegInstruction>, ops: seq<NOp>, starts: seq<nat>, m: VmState, s: NState) returns (n: nat)
    requires Assembled(code, ops, starts) && Synced(code, ops, starts, m, s)
    ensures n >= 1 && Follows(code, ops, starts, s, n, JitStep(code, m))
  {
    hide Native, NativeStep, Run, Laid, Template, Exec, RegI32;
    if m.pc >= |code| {
      RunBailout(code, ops, starts, m, s.cpu);
      n := 2;
    } else {
      NextStart(code, ops, starts, m.pc);
      match code[m.pc].op
      case PushI32 => RunPush(code, ops, starts, m, s); n := 2;
      case LoadLoc => n := RunLoad(code, ops, starts, m, s);
      case Mov => n := RunMov(code, ops, starts, m, s);
      case StoreLoc | SetLoc => n := RunStore(code, ops, starts, m, s);
      case Binary(_) => n := RunBinary(code, ops, starts, m, s);
      case Jmp => RunJmp(code, ops, starts, m, s); n := 1;
      case IfFalse | IfTrue => n := RunIf(code, ops, starts, m, s);
      case Return => RunReturn(code, ops, starts, m, s); n := 3;
      case ReturnUndef => RunReturnUndef(code, ops, starts, m, s); n := 3;
  }
  }

  lemma {:induction false} RunFollows(code: seq<RegInstruction>, ops: seq<NOp>, starts: seq<nat>, m: VmState, s: NState, steps: nat)
    returns (n: nat)
    requires Assembled(code, ops, starts) && Synced(code, ops, starts, m, s)
    ensures n >= steps && Follows(code, ops, starts, s, n, Run(Jit(code), m, steps))
    decreases steps
  {
    hide Native, NativeStep, JitStep, Assembled, Synced;
    if steps == 0 {
      n := 0;
    } else {
      var a := StepFollows(code, ops, starts, m, s);
      match JitStep(code, m)
      case Next(m1) =>
        var t := Run(Native(ops), s, a).s;
        var b := RunFollows(code, ops, starts, m1, t, steps - 1);
        RunAdd(Native(ops), s, a, b);
        n := a + b;
      case Halt(_, _) =>
        RunAdd(Native(ops), s, a, steps);
        n := a + steps;
    }
  }

  /** After the prologue native code is in step with the start of the program. */
  lemma RunPrologue(code: seq<RegInstruction>, ops: seq<NOp>, starts: seq<nat>, locals: seq<Value>) returns (t: NState)
    requires Assembled(code, ops, starts)
    ensures Run(Native(ops), NativeStart(locals), 2) == Next(t) && Synced(code, ops, starts, VmStart(locals), t)
  {
    hide Native, NativeStep, Run, Laid, ExecSlot, ExecPair, ExecFlag, ExecHash, ExecLocal;
    var s := NativeStart(locals);
    var c1 := s.cpu.(varBuf := true);
    var cpus := [s.cpu, c1, c1];
    assert TraceAt(ops, 0, cpus, 0) && TraceAt(ops, 0, cpus, 1);
    RunTrace(ops, 0, cpus, 2);
    t := NState(2, c1);
    if |code| == 0 {
      assert starts[0] == starts[|code|];
    }
  }

  /** Native code ends exactly as the int32-only machine does, with the same locals. */
  lemma NativeMatchesJit(code: seq<RegInstruction>, ops: seq<NOp>, starts: seq<nat>, locals: seq<Value>, exit: Exit, final: seq<Value>)
    requires Assembled(code, ops, starts)
    ensures Halts(Native(ops), NativeStart(locals), exit, final) <==> Halts(Jit(code), VmStart(locals), exit, final)
  {
    hide Native, NativeStep, JitStep, Assembled, Synced, Run;
    var s0, m := NativeStart(locals), VmStart(locals);
    var s := RunPrologue(code, ops, starts, locals);
    HaltsFrom(Native(ops), s0, 2, s, exit, final);
    if Halts(Jit(code), m, exit, final) {
      var a: nat :| Run(Jit(code), m, a) == Halt(exit, final);
      var n := RunFollows(code, ops, starts, m, s, a);
    }
    if Halts(Native(ops), s, exit, final) {
      var b: nat :| Run(Native(ops), s, b) == Halt(exit, final);
      var n := RunFollows(code, ops, starts, m, s, b);
      RunAdd(Native(ops), s, b, n - b);
    }
  }

  /** Native code that returns anything but `JS_UNINITIALIZED` returns what the
      register machine returns, and leaves the locals as it does. */
  lemma NativeRefinesVm(code: seq<RegInstruction>, cpool: seq<Value>, ops: seq<NOp>, starts: seq<nat>, locals: seq<Value>, v: Value, final: seq<Value>)
    requires Assembled(code, ops, starts)
    requires Halts(Native(ops), NativeStart(locals), Returned(v), final) && v != Uninit
    ensures Halts(Vm(code, cpool), VmStart(locals), Returned(v), final)
  {
    hide Native, NativeStep, JitStep, VmStep, Assembled, Run;
    NativeMatchesJit(code, ops, starts, locals, Returned(v), final);
    var n: nat :| Run(Jit(code), VmStart(locals), n) == Halt(Returned(v), final);
    JitRefinesVm(code, cpool, VmStart(locals), n);
  }
}
