/** From stack bytecode to register code: stack slot k becomes register k. */
module Translator {
  import opened JsValues
  import opened Machines
  import opened RegisterCode
  import opened RegisterVm
  import opened StackMachine

  datatype CompileError = OperandMissing | StackUnderflow | UnsupportedOpcode | BadJumpTarget

  datatype Compiled = Ok(code: seq<RegInstruction>) | Err(error: CompileError)

  /** Where the linear pass stands: byte offset, tracked stack height, and the
      number of instructions emitted before it. */
  datatype Slot = Slot(pc: nat, height: nat, idx: nat)

  // ---------------------------------------------------------------------------
  // What one stack instruction becomes
  // ---------------------------------------------------------------------------

  function U8(x: int): byte {
    x % 0x100
  }

  function U16(x: int): uint16 {
    x % TWO16
  }

  function HeightAfter(op: StackOp, h: nat): nat
    requires Need(op) <= h
  {
    match op
    case PushInt(_) | PushCpool(_) | PushLiteral(_) | Dup | GetLoc(_) => h + 1
    case GetLoc0Loc1 => h + 2
    case Drop | PutLoc(_) | AddLoc(_) | Operate(_) | Ret | Branch(_, _) => h - 1
    case SetLocal(_) | BumpLoc(_, _) | RetUndef | Goto(_) => h
  }

  function JumpTarget(op: StackOp): Option<int> {
    match op
    case Goto(target) => Some(target)
    case Branch(_, target) => Some(target)
    case _ => None
  }

  /** Register instructions emitted for one stack instruction. */
  function Width(op: StackOp): (n: nat)
    ensures n >= 1
  {
    match op
    case GetLoc0Loc1 => 2
    case AddLoc(_) => 3
    case BumpLoc(_, _) => 4
    case _ => 1
  }

  function LiteralOp(lit: Literal): RegOp {
    match lit
    case LitUndefined => Undefined
    case LitNull => PushNull
    case LitFalse => PushFalse
    case LitTrue => PushTrue
  }

  function Inst(op: RegOp, dst: int, src1: int, src2: int): RegInstruction {
    RegInstruction(op, U8(dst), U16(src1), U16(src2))
  }

  function Emit(op: StackOp, h: nat, target: uint16): (code: seq<RegInstruction>)
    requires Need(op) <= h
    ensures |code| == Width(op)
    ensures JumpTarget(op).Some? ==> |code| == 1 && code[0].src1 == target
  {
    match op
    case PushInt(val) => [PushI32At(U8(h), val)]
    case PushCpool(idx) => [Inst(PushConst, h, idx, 0)]
    case PushLiteral(lit) => [Inst(LiteralOp(lit), h, 0, 0)]
    case Drop => [Inst(RegOp.Drop, h - 1, 0, 0)]
    case Dup => [Inst(Mov, h, h - 1, 0)]
    case GetLoc(idx) => [Inst(LoadLoc, h, idx, 0)]
    case GetLoc0Loc1 => [Inst(LoadLoc, h, 0, 0), Inst(LoadLoc, h + 1, 1, 0)]
    case PutLoc(idx) => [Inst(StoreLoc, idx, h - 1, 0)]
    case SetLocal(idx) => [Inst(SetLoc, idx, h - 1, 0)]
    case AddLoc(idx) =>
      [Inst(LoadLoc, h, idx, 0), Inst(Binary(Add), h, U8(h), h - 1), Inst(StoreLoc, idx, U8(h), 0)]
    case BumpLoc(idx, delta) =>
      [PushI32At(U8(h), delta), Inst(LoadLoc, h + 1, idx, 0),
       Inst(Binary(Add), h + 1, U8(h + 1), U8(h)), Inst(StoreLoc, idx, U8(h + 1), 0)]
    case Operate(op) => [Inst(Binary(op), h - 2, h - 2, h - 1)]
    case Ret => [Inst(Return, h - 1, 0, 0)]
    case RetUndef => [Inst(ReturnUndef, 0, 0, 0)]
    case Goto(_) => [Inst(Jmp, 0, target, 0)]
    case Branch(onTrue, _) => [Inst(if onTrue then IfTrue else IfFalse, h - 1, target, 0)]
  }

  // ---------------------------------------------------------------------------
  // The translation as a relation
  // ---------------------------------------------------------------------------

  predicate HasOp(prog: Listing, pc: nat) {
    pc < |prog| && prog[pc].Instruction? && prog[pc].size >= 1 && pc + prog[pc].size <= |prog|
  }

  function OpAt(prog: Listing, pc: nat): StackOp
    requires HasOp(prog, pc)
  {
    prog[pc].op
  }

  predicate Fed(prog: Listing, a: Slot) {
    HasOp(prog, a.pc) && Need(OpAt(prog, a.pc)) <= a.height
  }

  function Advance(prog: Listing, a: Slot): Slot
    requires Fed(prog, a)
  {
    var d := prog[a.pc];
    Slot(a.pc + d.size, HeightAfter(d.op, a.height), a.idx + Width(d.op))
  }

  predicate Linked(prog: Listing, slots: seq<Slot>, k: int)
    requires 0 <= k < |slots| - 1
  {
    Fed(prog, slots[k]) && slots[k + 1] == Advance(prog, slots[k])
  }

  /** The slots a linear pass over the bytecode goes through. */
  ghost predicate Chain(prog: Listing, slots: seq<Slot>) {
    && |slots| >= 1
    && slots[0] == Slot(0, 0, 0)
    && forall k :: 0 <= k < |slots| - 1 ==> Linked(prog, slots, k)
  }

  ghost predicate Complete(prog: Listing, slots: seq<Slot>) {
    Chain(prog, slots) && slots[|slots| - 1].pc == |prog|
  }

  /** `to` is the first instruction of the stack instruction at byte `target`;
      targets outside the bytecode go to the end of the code. */
  ghost predicate Resolves(prog: Listing, slots: seq<Slot>, end: nat, target: int, to: uint16) {
    if 0 <= target <= |prog| then
      exists k :: 0 <= k < |slots| && slots[k].pc == target && to == U16(slots[k].idx)
    else
      to == U16(end)
  }

  /** The instructions of slot `k` stand where the slot says. */
  predicate Placed(prog: Listing, slots: seq<Slot>, code: seq<RegInstruction>, k: int)
    requires 0 <= k < |slots| && Fed(prog, slots[k])
  {
    var op, h, i := OpAt(prog, slots[k].pc), slots[k].height, slots[k].idx;
    && i + Width(op) <= |code|
    && code[i..i + Width(op)] == Emit(op, h, if JumpTarget(op).Some? then code[i].src1 else 0)
  }

  ghost predicate Resolved(prog: Listing, slots: seq<Slot>, code: seq<RegInstruction>, k: int)
    requires 0 <= k < |slots| && Fed(prog, slots[k])
  {
    var target := JumpTarget(OpAt(prog, slots[k].pc));
    target.Some? ==>
      slots[k].idx < |code| && Resolves(prog, slots, |code|, target.value, code[slots[k].idx].src1)
  }

  predicate JumpSlot(prog: Listing, slots: seq<Slot>, k: int)
    requires 0 <= k < |slots|
  {
    HasOp(prog, slots[k].pc) && JumpTarget(OpAt(prog, slots[k].pc)).Some?
  }

  ghost predicate IsTranslation(prog: Listing, slots: seq<Slot>, code: seq<RegInstruction>) {
    && Complete(prog, slots)
    && slots[|slots| - 1].idx == |code|
    && forall k :: 0 <= k < |slots| - 1 ==>
         Linked(prog, slots, k) && Placed(prog, slots, code, k) && Resolved(prog, slots, code, k)
  }

  ghost predicate Translates(prog: Listing, code: seq<RegInstruction>) {
    exists slots :: IsTranslation(prog, slots, code)
  }

  /** Why a bytecode has no translation: the instruction the pass stops at, or a
      jump into the middle of an instruction. */
  ghost predicate RejectedAt(prog: Listing, slots: seq<Slot>, error: CompileError)
    requires Chain(prog, slots)
  {
    var last := slots[|slots| - 1];
    match error
    case OperandMissing => last.pc < |prog| && prog[last.pc].MissingOperand?
    case UnsupportedOpcode => last.pc < |prog| && prog[last.pc].Unsupported?
    case StackUnderflow => HasOp(prog, last.pc) && !Fed(prog, last)
    case BadJumpTarget =>
      && last.pc == |prog|
      && exists k :: 0 <= k < |slots| - 1 && Linked(prog, slots, k) && JumpsAstray(prog, slots, k)
  }

  ghost predicate JumpsAstray(prog: Listing, slots: seq<Slot>, k: int)
    requires 0 <= k < |slots| && Fed(prog, slots[k])
  {
    var target := JumpTarget(OpAt(prog, slots[k].pc));
    target.Some? && 0 <= target.value <= |prog| && forall j :: 0 <= j < |slots| ==> slots[j].pc != target.value
  }

  ghost predicate Rejects(prog: Listing, error: CompileError) {
    exists slots :: Chain(prog, slots) && RejectedAt(prog, slots, error)
  }

  // ---------------------------------------------------------------------------
  // Facts about chains
  // ---------------------------------------------------------------------------

  lemma {:induction false} ChainsAgree(prog: Listing, a: seq<Slot>, b: seq<Slot>, k: nat)
    requires Chain(prog, a) && Chain(prog, b)
    requires k < |a| && k < |b|
    ensures a[k] == b[k]
  {
    if k > 0 {
      ChainsAgree(prog, a, b, k - 1);
      assert Linked(prog, a, k - 1) && Linked(prog, b, k - 1);
    }
  }

  lemma {:induction false} ChainIncreases(prog: Listing, slots: seq<Slot>, j: nat, k: nat)
    requires Chain(prog, slots) && j < k < |slots|
    ensures slots[j].pc < slots[k].pc
    ensures Linked(prog, slots, j)
    ensures slots[j].idx + Width(OpAt(prog, slots[j].pc)) <= slots[k].idx
    decreases k
  {
    assert Linked(prog, slots, k - 1);
    assert Linked(prog, slots, j);
    if j < k - 1 {
      ChainIncreases(prog, slots, j, k - 1);
    }
  }

  lemma InsideChain(prog: Listing, slots: seq<Slot>, k: nat)
    requires Chain(prog, slots) && k < |slots| - 1
    ensures Fed(prog, slots[k])
  {
    assert Linked(prog, slots, k);
  }

  lemma CompleteIsUnique(prog: Listing, a: seq<Slot>, b: seq<Slot>)
    requires Complete(prog, a) && Chain(prog, b)
    ensures |b| <= |a|
    ensures forall k :: 0 <= k < |b| ==> a[k] == b[k]
    ensures Complete(prog, b) ==> a == b
  {
    if |b| > |a| {
      ChainsAgree(prog, a, b, |a| - 1);
      InsideChain(prog, b, |a| - 1);
    }
    forall k | 0 <= k < |b|
      ensures a[k] == b[k]
    {
      ChainsAgree(prog, a, b, k);
    }
    if Complete(prog, b) && |b| < |a| {
      ChainIncreases(prog, a, |b| - 1, |a| - 1);
    }
  }

  lemma SlotOfPc(prog: Listing, slots: seq<Slot>, j: nat, k: nat)
    requires Chain(prog, slots) && j < |slots| && k < |slots| && slots[j].pc == slots[k].pc
    ensures j == k
  {
    if j < k { ChainIncreases(prog, slots, j, k); }
    if k < j { ChainIncreases(prog, slots, k, j); }
  }

  /** A bytecode is either translated or rejected, and rejected for one reason. */
  lemma RejectionExcludesTranslation(prog: Listing, code: seq<RegInstruction>, error: CompileError)
    requires Rejects(prog, error)
    ensures !Translates(prog, code)
  {
    var slots :| Chain(prog, slots) && RejectedAt(prog, slots, error);
    if Translates(prog, code) {
      var full :| IsTranslation(prog, full, code);
      CompleteIsUnique(prog, full, slots);
      if error.BadJumpTarget? {
        var k :| 0 <= k < |slots| - 1 && Linked(prog, slots, k) && JumpsAstray(prog, slots, k);
        NoneAstray(prog, full, code, k);
      } else if |slots| < |full| {
        InsideChain(prog, full, |slots| - 1);
      }
    }
  }

  lemma NoneAstray(prog: Listing, slots: seq<Slot>, code: seq<RegInstruction>, k: nat)
    requires IsTranslation(prog, slots, code) && k < |slots| - 1
    ensures Linked(prog, slots, k) && !JumpsAstray(prog, slots, k)
  {
    assert Linked(prog, slots, k) && Resolved(prog, slots, code, k);
  }

  lemma TranslationIsUnique(prog: Listing, c1: seq<RegInstruction>, c2: seq<RegInstruction>)
    requires Translates(prog, c1) && Translates(prog, c2)
    ensures c1 == c2
  {
    var slots :| IsTranslation(prog, slots, c1);
    var other :| IsTranslation(prog, other, c2);
    CompleteIsUnique(prog, slots, other);
    assert slots == other;
    SameThrough(prog, slots, c1, c2, |slots| - 1);
    assert c1 == c1[..|c1|] && c2 == c2[..|c2|];
  }

  lemma SameOperand(prog: Listing, slots: seq<Slot>, c1: seq<RegInstruction>, c2: seq<RegInstruction>, k: nat)
    requires IsTranslation(prog, slots, c1) && IsTranslation(prog, slots, c2)
    requires k < |slots| - 1 && Linked(prog, slots, k) && JumpSlot(prog, slots, k)
    ensures slots[k].idx < |c1| && slots[k].idx < |c2| && c1[slots[k].idx].src1 == c2[slots[k].idx].src1
  {
    assert Resolved(prog, slots, c1, k) && Resolved(prog, slots, c2, k);
    var target, at := JumpTarget(OpAt(prog, slots[k].pc)).value, slots[k].idx;
    if 0 <= target <= |prog| {
      var i :| 0 <= i < |slots| && slots[i].pc == target && c1[at].src1 == U16(slots[i].idx);
      var j :| 0 <= j < |slots| && slots[j].pc == target && c2[at].src1 == U16(slots[j].idx);
      SlotOfPc(prog, slots, i, j);
    }
  }

  lemma {:induction false} SameThrough(prog: Listing, slots: seq<Slot>, c1: seq<RegInstruction>, c2: seq<RegInstruction>, k: nat)
    requires IsTranslation(prog, slots, c1) && IsTranslation(prog, slots, c2)
    requires k < |slots|
    ensures slots[k].idx <= |c1| && slots[k].idx <= |c2|
    ensures c1[..slots[k].idx] == c2[..slots[k].idx]
  {
    hide Emit, Resolves;
    if k < |slots| - 1 {
      ChainIncreases(prog, slots, k, |slots| - 1);
    }
    if k > 0 {
      SameThrough(prog, slots, c1, c2, k - 1);
      var a, b := slots[k - 1], slots[k];
      assert Linked(prog, slots, k - 1);
      assert Placed(prog, slots, c1, k - 1) && Placed(prog, slots, c2, k - 1);
      if JumpSlot(prog, slots, k - 1) {
        SameOperand(prog, slots, c1, c2, k - 1);
      }
      assert c1[a.idx..b.idx] == c2[a.idx..b.idx];
      assert c1[..b.idx] == c1[..a.idx] + c1[a.idx..b.idx];
      assert c2[..b.idx] == c2[..a.idx] + c2[a.idx..b.idx];
    }
  }

  // ---------------------------------------------------------------------------
  // The translator
  // ---------------------------------------------------------------------------

  datatype Patch = Patch(inst: nat, target: int)

  predicate Ascending(owners: seq<nat>) {
    forall p, q :: 0 <= p < q < |owners| ==> owners[p] < owners[q]
  }

  ghost predicate OwnedAll(prog: Listing, slots: seq<Slot>, patches: seq<Patch>, owners: seq<nat>) {
    |owners| == |patches| && forall q :: 0 <= q < |patches| ==> Owns(prog, slots, patches[q], owners[q])
  }

  /** `owners` lists the jump slots before slot `n`. */
  ghost predicate Covers(prog: Listing, slots: seq<Slot>, owners: seq<nat>, n: nat)
    requires n <= |slots|
  {
    && (forall k :: 0 <= k < n && JumpSlot(prog, slots, k) ==> k in owners)
    && (forall q :: 0 <= q < |owners| ==> owners[q] < n)
  }

  /** One entry for every jump translated so far. */
  ghost predicate Recorded(prog: Listing, slots: seq<Slot>, patches: seq<Patch>, owners: seq<nat>) {
    && |slots| >= 1
    && OwnedAll(prog, slots, patches, owners)
    && Ascending(owners)
    && Covers(prog, slots, owners, |slots| - 1)
  }

  predicate Owns(prog: Listing, slots: seq<Slot>, patch: Patch, k: nat) {
    && k < |slots| - 1
    && Linked(prog, slots, k)
    && JumpTarget(OpAt(prog, slots[k].pc)) == Some(patch.target)
    && patch.inst == slots[k].idx
  }

  /** The pc-to-instruction table holds these slots and nothing else. */
  ghost predicate Mapped(slots: seq<Slot>, table: seq<Option<nat>>) {
    && (forall k :: 0 <= k < |slots| ==> slots[k].pc < |table| && table[slots[k].pc] == Some(slots[k].idx))
    && (forall q :: 0 <= q < |table| && table[q].Some? ==> exists k :: 0 <= k < |slots| && slots[k].pc == q)
  }

  /** What the linear pass has built when it stands at the last slot. */
  ghost predicate Passed(prog: Listing, slots: seq<Slot>, code: seq<RegInstruction>) {
    && Chain(prog, slots)
    && slots[|slots| - 1].idx == |code|
    && forall k :: 0 <= k < |slots| - 1 ==> Linked(prog, slots, k) && Placed(prog, slots, code, k)
  }

  /** The state of the pass: at byte `pc`, with the tracked height, the table
      holding every earlier slot. */
  ghost predicate Scanned(prog: Listing, slots: seq<Slot>, code: seq<RegInstruction>, pc: nat, height: nat, table: seq<Option<nat>>) {
    && Passed(prog, slots, code)
    && slots[|slots| - 1] == Slot(pc, height, |code|)
    && Mapped(slots[..|slots| - 1], table)
  }

  lemma ScanOne(prog: Listing, slots: seq<Slot>, code: seq<RegInstruction>, pc: nat, height: nat, table: seq<Option<nat>>)
    requires Scanned(prog, slots, code, pc, height, table) && pc < |table|
    requires Fed(prog, slots[|slots| - 1])
    ensures
      var op := OpAt(prog, pc);
      Scanned(prog, slots + [Advance(prog, slots[|slots| - 1])], code + Emit(op, height, 0), pc + prog[pc].size,
              HeightAfter(op, height), table[pc := Some(|code|)])
  {
    var slots' := slots + [Advance(prog, slots[|slots| - 1])];
    PassOne(prog, slots, code);
    MapLast(prog, slots, table);
    assert slots'[..|slots'| - 1] == slots;
  }

  method CompileBytecode(buf: seq<byte>) returns (r: Compiled)
    ensures r.Ok? ==> Translates(List(buf), r.code)
    ensures r.Err? ==> Rejects(List(buf), r.error)
  {
    ghost var prog := List(buf);
    var code: seq<RegInstruction> := [];
    var pc: nat := 0;
    var height: nat := 0;
    var pcToInst: array<Option<nat>> := new Option<nat>[|buf| + 1](_ => None);
    var patches: seq<Patch> := [];
    ghost var slots := [Slot(0, 0, 0)];
    ghost var owners: seq<nat> := [];
    while pc < |buf|
      invariant pc <= |buf| && pcToInst.Length == |buf| + 1
      invariant Scanned(prog, slots, code, pc, height, pcToInst[..])
      invariant Recorded(prog, slots, patches, owners)
      decreases |buf| - pc
    {
      ghost var table := pcToInst[..];
      pcToInst[pc] := Some(|code|);
      assert pcToInst[..] == table[pc := Some(|code|)];
      match Decode(buf, pc) {
        case MissingOperand =>
          assert RejectedAt(prog, slots, OperandMissing);
          return Err(OperandMissing);
        case Unsupported =>
          assert RejectedAt(prog, slots, UnsupportedOpcode);
          return Err(UnsupportedOpcode);
        case Instruction(op, size) =>
          if height < Need(op) {
            assert RejectedAt(prog, slots, StackUnderflow);
            return Err(StackUnderflow);
          }
          ScanOne(prog, slots, code, pc, height, table);
          if JumpTarget(op).None? {
            RecordPlain(prog, slots, Advance(prog, slots[|slots| - 1]), patches, owners);
          } else {
            RecordJump(prog, slots, patches, owners);
            patches := patches + [Patch(|code|, JumpTarget(op).value)];
            owners := owners + [|slots| - 1];
          }
          code := code + Emit(op, height, 0);
          slots := slots + [Advance(prog, slots[|slots| - 1])];
          height := HeightAfter(op, height);
          pc := pc + size;
      }
    }
    ghost var table := pcToInst[..];
    pcToInst[pc] := Some(|code|);
    assert pcToInst[..] == table[pc := Some(|code|)];
    MapLast(prog, slots, table);
    r := PatchJumps(prog, code, pcToInst, patches, slots, owners);
  }

  /** The second pass: jump operands become instruction indices. */
  method PatchJumps(ghost prog: Listing, unpatched: seq<RegInstruction>, pcToInst: array<Option<nat>>, patches: seq<Patch>,
                    ghost slots: seq<Slot>, ghost owners: seq<nat>)
    returns (r: Compiled)
    requires Passed(prog, slots, unpatched) && Complete(prog, slots)
    requires pcToInst.Length == |prog| + 1 && Mapped(slots, pcToInst[..])
    requires Recorded(prog, slots, patches, owners)
    ensures r.Ok? ==> IsTranslation(prog, slots, r.code)
    ensures r.Err? ==> RejectedAt(prog, slots, r.error)
  {
    hide Emit;
    var code := unpatched;
    var n := 0;
    while n < |patches|
      invariant 0 <= n <= |patches|
      invariant Passed(prog, slots, code)
      invariant forall q :: 0 <= q < n ==> Owns(prog, slots, patches[q], owners[q]) && Resolved(prog, slots, code, owners[q])
    {
      var patch := patches[n];
      assert Owns(prog, slots, patch, owners[n]);
      ChainIncreases(prog, slots, owners[n], |slots| - 1);
      var to: uint16;
      if patch.target < 0 || patch.target >= pcToInst.Length {
        to := U16(|code|);
      } else if pcToInst[patch.target].Some? {
        to := U16(pcToInst[patch.target].value);
        ghost var j :| 0 <= j < |slots| && slots[j].pc == patch.target;
        assert pcToInst[..][slots[j].pc] == Some(slots[j].idx);
      } else {
        forall j | 0 <= j < |slots|
          ensures slots[j].pc != patch.target
        {
          assert pcToInst[..][slots[j].pc] == Some(slots[j].idx);
        }
        assert JumpsAstray(prog, slots, owners[n]);
        return Err(BadJumpTarget);
      }
      assert Resolves(prog, slots, |code|, patch.target, to);
      PatchKeepsPlaces(prog, slots, code, owners[n], to);
      PatchKeepsOthers(prog, slots, patches, owners, n);
      code := code[patch.inst := code[patch.inst].(src1 := to)];
      n := n + 1;
    }
    AllResolved(prog, slots, code, patches, owners);
    r := Ok(code);
  }

  lemma AllResolved(prog: Listing, slots: seq<Slot>, code: seq<RegInstruction>, patches: seq<Patch>, owners: seq<nat>)
    requires Passed(prog, slots, code) && Complete(prog, slots)
    requires Recorded(prog, slots, patches, owners)
    requires forall q :: 0 <= q < |patches| ==> Owns(prog, slots, patches[q], owners[q]) && Resolved(prog, slots, code, owners[q])
    ensures IsTranslation(prog, slots, code)
  {
    forall k | 0 <= k < |slots| - 1
      ensures Linked(prog, slots, k) && Placed(prog, slots, code, k) && Resolved(prog, slots, code, k)
    {
      assert Linked(prog, slots, k);
      if JumpSlot(prog, slots, k) {
        var q :| 0 <= q < |owners| && owners[q] == k;
        assert Owns(prog, slots, patches[q], owners[q]);
      }
    }
  }

  lemma MapLast(prog: Listing, slots: seq<Slot>, table: seq<Option<nat>>)
    requires Chain(prog, slots) && slots[|slots| - 1].pc < |table|
    requires Mapped(slots[..|slots| - 1], table)
    ensures Mapped(slots, table[slots[|slots| - 1].pc := Some(slots[|slots| - 1].idx)])
  {
    var last := slots[|slots| - 1];
    var table' := table[last.pc := Some(last.idx)];
    forall k | 0 <= k < |slots|
      ensures slots[k].pc < |table| && table'[slots[k].pc] == Some(slots[k].idx)
    {
      if k < |slots| - 1 {
        ChainIncreases(prog, slots, k, |slots| - 1);
        assert slots[..|slots| - 1][k] == slots[k];
      }
    }
    forall q | 0 <= q < |table| && table'[q].Some?
      ensures exists k :: 0 <= k < |slots| && slots[k].pc == q
    {
      if q == last.pc {
        assert slots[|slots| - 1].pc == q;
      } else {
        var k :| 0 <= k < |slots| - 1 && slots[..|slots| - 1][k].pc == q;
        assert slots[k].pc == q;
      }
    }
  }

  /** Emitting one more stack instruction keeps what the pass has built. */
  lemma PassOne(prog: Listing, slots: seq<Slot>, code: seq<RegInstruction>)
    requires Passed(prog, slots, code)
    requires Fed(prog, slots[|slots| - 1])
    ensures
      var last := slots[|slots| - 1];
      Passed(prog, slots + [Advance(prog, last)], code + Emit(OpAt(prog, last.pc), last.height, 0))
  {
    var last := slots[|slots| - 1];
    var op := OpAt(prog, last.pc);
    var slots' := slots + [Advance(prog, last)];
    var code' := code + Emit(op, last.height, 0);
    forall k | 0 <= k < |slots|
      ensures Linked(prog, slots', k) && Placed(prog, slots', code', k)
    {
      if k < |slots| - 1 {
        assert Linked(prog, slots, k) && Placed(prog, slots, code, k);
        ChainIncreases(prog, slots, k, |slots| - 1);
        var i := slots[k].idx;
        var n := Width(OpAt(prog, slots[k].pc));
        assert code'[i..i + n] == code[i..i + n];
      } else {
        assert code'[|code|..|code'|] == Emit(op, last.height, 0);
      }
    }
  }

  lemma OwnedKeeps(prog: Listing, slots: seq<Slot>, next: Slot, patches: seq<Patch>, owners: seq<nat>)
    requires OwnedAll(prog, slots, patches, owners)
    ensures OwnedAll(prog, slots + [next], patches, owners)
  {
    forall q | 0 <= q < |patches|
      ensures Owns(prog, slots + [next], patches[q], owners[q])
    {
      assert Owns(prog, slots, patches[q], owners[q]);
    }
  }

  lemma CoversKeeps(prog: Listing, slots: seq<Slot>, next: Slot, owners: seq<nat>)
    requires |slots| >= 1 && Covers(prog, slots, owners, |slots| - 1)
    requires !JumpSlot(prog, slots, |slots| - 1)
    ensures Covers(prog, slots + [next], owners, |slots|)
  {
    var slots' := slots + [next];
    forall k | 0 <= k < |slots| && JumpSlot(prog, slots', k)
      ensures k in owners
    {
      assert JumpSlot(prog, slots, k);
    }
  }

  lemma CoversOne(prog: Listing, slots: seq<Slot>, next: Slot, owners: seq<nat>)
    requires |slots| >= 1 && Covers(prog, slots, owners, |slots| - 1)
    ensures Covers(prog, slots + [next], owners + [|slots| - 1], |slots|)
  {
    var slots' := slots + [next];
    var owners' := owners + [|slots| - 1];
    forall k | 0 <= k < |slots| && JumpSlot(prog, slots', k)
      ensures k in owners'
    {
      if k < |slots| - 1 {
        assert JumpSlot(prog, slots, k);
      } else {
        assert owners'[|owners|] == k;
      }
    }
  }

  lemma RecordPlain(prog: Listing, slots: seq<Slot>, next: Slot, patches: seq<Patch>, owners: seq<nat>)
    requires Recorded(prog, slots, patches, owners)
    requires !JumpSlot(prog, slots, |slots| - 1)
    ensures Recorded(prog, slots + [next], patches, owners)
  {
    OwnedKeeps(prog, slots, next, patches, owners);
    CoversKeeps(prog, slots, next, owners);
  }

  lemma RecordJump(prog: Listing, slots: seq<Slot>, patches: seq<Patch>, owners: seq<nat>)
    requires Recorded(prog, slots, patches, owners)
    requires Fed(prog, slots[|slots| - 1]) && JumpSlot(prog, slots, |slots| - 1)
    ensures
      var last := slots[|slots| - 1];
      Recorded(prog, slots + [Advance(prog, last)],
               patches + [Patch(last.idx, JumpTarget(OpAt(prog, last.pc)).value)], owners + [|slots| - 1])
  {
    var last := slots[|slots| - 1];
    var next := Advance(prog, last);
    OwnedKeeps(prog, slots, next, patches, owners);
    CoversOne(prog, slots, next, owners);
    OwnedOne(prog, slots + [next], patches, owners, |slots| - 1);
  }

  lemma OwnedOne(prog: Listing, slots: seq<Slot>, patches: seq<Patch>, owners: seq<nat>, k: nat)
    requires OwnedAll(prog, slots, patches, owners)
    requires k < |slots| - 1 && Linked(prog, slots, k) && JumpSlot(prog, slots, k)
    requires Ascending(owners) && forall q :: 0 <= q < |owners| ==> owners[q] < k
    ensures OwnedAll(prog, slots, patches + [Patch(slots[k].idx, JumpTarget(OpAt(prog, slots[k].pc)).value)], owners + [k])
    ensures Ascending(owners + [k])
  {
  }

  lemma PatchKeepsOthers(prog: Listing, slots: seq<Slot>, patches: seq<Patch>, owners: seq<nat>, n: nat)
    requires Chain(prog, slots) && Recorded(prog, slots, patches, owners) && n < |patches|
    ensures forall q :: 0 <= q < n ==> Owns(prog, slots, patches[q], owners[q]) && patches[q].inst < patches[n].inst
  {
    forall q | 0 <= q < n
      ensures Owns(prog, slots, patches[q], owners[q]) && patches[q].inst < patches[n].inst
    {
      assert Owns(prog, slots, patches[q], owners[q]) && Owns(prog, slots, patches[n], owners[n]);
      ChainIncreases(prog, slots, owners[q], owners[n]);
    }
  }

  lemma PatchKeepsPlaces(prog: Listing, slots: seq<Slot>, code: seq<RegInstruction>, j: nat, to: uint16)
    requires Passed(prog, slots, code)
    requires j < |slots| - 1 && Linked(prog, slots, j) && slots[j].idx < |code|
    requires JumpTarget(OpAt(prog, slots[j].pc)).Some?
    ensures Passed(prog, slots, code[slots[j].idx := code[slots[j].idx].(src1 := to)])
  {
    var i := slots[j].idx;
    var code' := code[i := code[i].(src1 := to)];
    forall k | 0 <= k < |slots| - 1
      ensures Linked(prog, slots, k) && Placed(prog, slots, code', k)
    {
      assert Linked(prog, slots, k) && Placed(prog, slots, code, k);
      var a := slots[k].idx;
      var n := Width(OpAt(prog, slots[k].pc));
      if k < j {
        ChainIncreases(prog, slots, k, j);
        assert code'[a..a + n] == code[a..a + n];
      } else if j < k {
        ChainIncreases(prog, slots, j, k);
        assert code'[a..a + n] == code[a..a + n];
      } else {
        var op := OpAt(prog, slots[k].pc);
        assert code[a..a + 1][0] == code[a];
        assert code'[a..a + 1] == [code'[a]];
        assert code'[a] == Emit(op, slots[k].height, to)[0];
      }
    }
  }

  // ---------------------------------------------------------------------------
  // Where jumps of the result go
  // ---------------------------------------------------------------------------

  predicate IsJump(op: RegOp) {
    op.Jmp? || op.IfFalse? || op.IfTrue?
  }

  /** The stack instruction a register instruction was emitted for. */
  lemma {:induction false} OwnerOf(prog: Listing, slots: seq<Slot>, code: seq<RegInstruction>, n: nat, j: nat) returns (k: nat)
    requires IsTranslation(prog, slots, code) && n < |slots| && j < slots[n].idx
    ensures k < n && Linked(prog, slots, k) && slots[k].idx <= j < slots[k].idx + Width(OpAt(prog, slots[k].pc))
    decreases n
  {
    hide Placed, Resolved, Emit;
    assert n > 0;
    assert Linked(prog, slots, n - 1);
    if slots[n - 1].idx <= j {
      k := n - 1;
    } else {
      k := OwnerOf(prog, slots, code, n - 1, j);
    }
  }

  /** Only jumps of the bytecode become jumps. */
  lemma EmitsJump(op: StackOp, h: nat, to: uint16, d: nat)
    requires Need(op) <= h && d < Width(op) && IsJump(Emit(op, h, to)[d].op)
    ensures JumpTarget(op).Some? && d == 0
  {
    hide PushI32At;
    if op.PushInt? {
      PushForm(U8(h), op.val);
    } else if op.BumpLoc? {
      PushForm(U8(h), op.delta);
    }
  }

  /** Every jump operand is within the program and is the first instruction of
      some stack instruction, or the end. */
  lemma JumpsGoToStarts(prog: Listing, slots: seq<Slot>, code: seq<RegInstruction>, j: nat) returns (k: nat)
    requires IsTranslation(prog, slots, code) && |code| < TWO16
    requires j < |code| && IsJump(code[j].op)
    ensures code[j].src1 <= |code| && k < |slots| && slots[k].idx == code[j].src1
  {
    hide Emit;
    var n := |slots| - 1;
    var o := OwnerOf(prog, slots, code, n, j);
    assert Placed(prog, slots, code, o) && Resolved(prog, slots, code, o);
    var op, at := OpAt(prog, slots[o].pc), slots[o].idx;
    assert code[at..at + Width(op)][j - at] == code[j];
    EmitsJump(op, slots[o].height, if JumpTarget(op).Some? then code[at].src1 else 0, j - at);
    var target := JumpTarget(op).value;
    if 0 <= target <= |prog| {
      k :| 0 <= k < |slots| && slots[k].pc == target && code[j].src1 == U16(slots[k].idx);
      if k < n {
        ChainIncreases(prog, slots, k, n);
      }
    } else {
      k := n;
    }
  }
}
