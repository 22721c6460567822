/** Writing bytecode down line by line: the bytes of a program whose jumps name
    lines, and the register code they translate to. */
module Assembly {
  import opened JsValues
  import opened RegisterCode
  import opened StackMachine
  import opened Opcodes
  import opened Translator
  import opened Simulation
  import opened StackShape

  // ---------------------------------------------------------------------------
  // One line
  // ---------------------------------------------------------------------------

  /** Operands that fit; every instruction is written in one of its encodings. */
  predicate Writable(op: StackOp) {
    match op
    case PushCpool(idx) => idx < TWO16
    case GetLoc(idx) => idx < TWO16
    case PutLoc(idx) => idx < 0x100
    case SetLocal(idx) => idx < 0x100
    case AddLoc(idx) => idx < 0x100
    case BumpLoc(idx, delta) => idx < 0x100 && (delta == 1 || delta == -1)
    case _ => true
  }

  function Length(op: StackOp): (n: nat)
    ensures 1 <= n <= 5
  {
    match op
    case PushInt(_) | PushCpool(_) | Goto(_) | Branch(_, _) => 5
    case GetLoc(_) | PutLoc(_) | SetLocal(_) => 3
    case AddLoc(_) | BumpLoc(_, _) => 2
    case _ => 1
  }

  function Operator(op: BinOp): Form {
    match op
    case Mul => Multiply
    case Mod => Modulo
    case Add => Plus
    case Sub => Minus
    case Shl => ShiftL
    case Sar => ShiftR
    case Shr => ShiftRU
    case And => BitAnd
    case Xor => BitXor
    case Or => BitOr
    case Lt => Less
    case Lte => LessEq
    case Gt => Greater
    case Gte => GreaterEq
    case StrictEq => StrictlyEqual
  }

  /** The encoding used; a jump goes `rel` bytes past its opcode. */
  function FormOf(op: StackOp, rel: int32): Form
    requires Writable(op)
  {
    match op
    case PushInt(val) => PushInt32(val)
    case PushCpool(idx) => PushConst32(idx)
    case PushLiteral(lit) =>
      (match lit
       case LitUndefined => UndefinedValue
       case LitNull => NullValue
       case LitFalse => FalseValue
       case LitTrue => TrueValue)
    case Drop => DropTop
    case Dup => DupTop
    case GetLoc0Loc1 => GetLocPair
    case GetLoc(idx) => GetLoc16(idx)
    case PutLoc(idx) => PutLoc16(idx)
    case SetLocal(idx) => SetLoc16(idx)
    case AddLoc(idx) => AddLoc8(idx)
    case BumpLoc(idx, delta) => if delta == 1 then IncLoc(idx) else DecLoc(idx)
    case Operate(op) => Operator(op)
    case Ret => ReturnTop
    case RetUndef => ReturnNothing
    case Goto(_) => Goto32(rel)
    case Branch(onTrue, _) => if onTrue then IfTrue32(rel) else IfFalse32(rel)
  }

  function Word(op: StackOp, rel: int32): (w: seq<byte>)
    requires Writable(op)
    ensures |w| == Length(op)
  {
    Written(FormOf(op, rel))
  }

  function Aimed(op: StackOp, target: int): StackOp {
    match op
    case Goto(_) => Goto(target)
    case Branch(onTrue, _) => Branch(onTrue, target)
    case _ => op
  }

  lemma DecodesWord(buf: seq<byte>, pc: nat, op: StackOp, rel: int32)
    requires Writable(op) && pc + Length(op) <= |buf| && buf[pc..pc + Length(op)] == Word(op, rel)
    ensures pc < |buf| && Decode(buf, pc) == Instruction(Aimed(op, pc + 1 + rel), Length(op))
  {
    hide Decode, Written;
    WrittenDecodes(buf, pc, FormOf(op, rel));
  }

  // ---------------------------------------------------------------------------
  // A program
  // ---------------------------------------------------------------------------

  /** Its lines, the stack height before each, and the register instruction each
      starts with. A jump's target is the number of a line. */
  datatype Text = Text(lines: seq<StackOp>, heights: seq<nat>, starts: seq<nat>)

  function Target(op: StackOp): int {
    if JumpTarget(op).Some? then JumpTarget(op).value else 0
  }

  predicate LineFits(t: Text, k: nat)
    requires k < |t.lines| < |t.heights| && |t.lines| < |t.starts|
  {
    var op := t.lines[k];
    && Writable(op) && Need(op) <= t.heights[k] <= MAX_HEIGHT
    && t.heights[k + 1] == HeightAfter(op, t.heights[k])
    && t.starts[k + 1] == t.starts[k] + Width(op)
    && 0 <= Target(op) < |t.lines|
    && (JumpTarget(op).Some? ==> t.heights[Target(op)] == t.heights[k + 1])
  }

  /** The heights and starts are right, and jumps meet the height they leave. */
  ghost predicate WellWritten(t: Text) {
    && 1 <= |t.lines| < 0x1000 && |t.heights| == |t.starts| == |t.lines| + 1
    && t.heights[0] == 0 && t.starts[0] == 0 && t.heights[|t.lines|] <= MAX_HEIGHT && t.starts[|t.lines|] < TWO16
    && forall k: nat :: k < |t.lines| ==> LineFits(t, k)
  }

  /** The byte line `k` starts at. */
  function Offset(t: Text, k: nat): (n: nat)
    requires k <= |t.lines|
    ensures k <= n <= 5 * k
  {
    if k == 0 then 0 else Offset(t, k - 1) + Length(t.lines[k - 1])
  }

  lemma {:induction false} OffsetsGrow(t: Text, j: nat, k: nat)
    requires j < k <= |t.lines|
    ensures Offset(t, j) + Length(t.lines[j]) <= Offset(t, k)
    decreases k
  {
    if j < k - 1 {
      OffsetsGrow(t, j, k - 1);
    }
  }

  /** From the byte after the opcode of line `k` to the line it jumps to. */
  function Distance(t: Text, k: nat): (rel: int32)
    requires WellWritten(t) && k < |t.lines|
  {
    assert LineFits(t, k);
    Offset(t, Target(t.lines[k])) - Offset(t, k) - 1
  }

  function Bytes(t: Text, n: nat): (buf: seq<byte>)
    requires WellWritten(t) && n <= |t.lines|
    ensures |buf| == Offset(t, n)
  {
    if n == 0 then [] else
    assert LineFits(t, n - 1);
    Bytes(t, n - 1) + Word(t.lines[n - 1], Distance(t, n - 1))
  }

  function BytesOf(t: Text): seq<byte>
    requires WellWritten(t)
  {
    Bytes(t, |t.lines|)
  }

  /** What line `k` becomes. */
  function LineCode(t: Text, k: nat): (code: seq<RegInstruction>)
    requires WellWritten(t) && k < |t.lines|
    ensures |code| == t.starts[k + 1] - t.starts[k]
  {
    assert LineFits(t, k);
    var op := t.lines[k];
    Emit(op, t.heights[k], if JumpTarget(op).Some? then U16(t.starts[Target(op)]) else 0)
  }

  function Code(t: Text, n: nat): (code: seq<RegInstruction>)
    requires WellWritten(t) && n <= |t.lines|
    ensures |code| == t.starts[n]
  {
    if n == 0 then [] else Code(t, n - 1) + LineCode(t, n - 1)
  }

  function CodeOf(t: Text): seq<RegInstruction>
    requires WellWritten(t)
  {
    Code(t, |t.lines|)
  }

  lemma {:induction false} WordInBytes(t: Text, k: nat, n: nat)
    requires WellWritten(t) && k < n <= |t.lines| && Writable(t.lines[k])
    ensures Offset(t, k) + Length(t.lines[k]) <= Offset(t, n)
    ensures Bytes(t, n)[Offset(t, k)..Offset(t, k) + Length(t.lines[k])] == Word(t.lines[k], Distance(t, k))
    decreases n
  {
    hide WellWritten, Word, Writable, Distance;
    OffsetsGrow(t, k, n);
    if k < n - 1 {
      WordInBytes(t, k, n - 1);
    }
  }

  lemma {:induction false} LineInCode(t: Text, k: nat, n: nat)
    requires WellWritten(t) && k < n <= |t.lines|
    ensures t.starts[k] <= t.starts[k + 1] <= t.starts[n] && Code(t, n)[t.starts[k]..t.starts[k + 1]] == LineCode(t, k)
    decreases n
  {
    hide LineCode;
    assert LineFits(t, k) && LineFits(t, n - 1);
    var a, b := t.starts[k], t.starts[k + 1];
    if k < n - 1 {
      LineInCode(t, k, n - 1);
      assert Code(t, n)[a..b] == Code(t, n - 1)[a..b];
    } else {
      assert Code(t, n)[a..b] == LineCode(t, k);
    }
  }

  function SlotsOf(t: Text): (slots: seq<Slot>)
    requires WellWritten(t)
    ensures |slots| == |t.lines| + 1
    ensures forall k :: 0 <= k <= |t.lines| ==> slots[k] == Slot(Offset(t, k), t.heights[k], t.starts[k])
  {
    seq(|t.lines| + 1, k requires 0 <= k <= |t.lines| => Slot(Offset(t, k), t.heights[k], t.starts[k]))
  }

  /** Each line is decoded as it was written. */
  lemma LineDecodes(t: Text, k: nat)
    requires WellWritten(t) && k < |t.lines|
    ensures LineFits(t, k) && Offset(t, k) < |BytesOf(t)|
    ensures List(BytesOf(t))[Offset(t, k)]
         == Instruction(Aimed(t.lines[k], Offset(t, Target(t.lines[k]))), Length(t.lines[k]))
  {
    hide Word, Writable, Decode, Bytes, Offset;
    assert LineFits(t, k);
    WordInBytes(t, k, |t.lines|);
    DecodesWord(BytesOf(t), Offset(t, k), t.lines[k], Distance(t, k));
  }

  lemma SameShape(op: StackOp, target: int, h: nat, to: uint16)
    requires Need(op) <= h
    ensures Need(Aimed(op, target)) == Need(op) && HeightAfter(Aimed(op, target), h) == HeightAfter(op, h)
    ensures Width(Aimed(op, target)) == Width(op) && Emit(Aimed(op, target), h, to) == Emit(op, h, to)
    ensures JumpTarget(Aimed(op, target)) == if JumpTarget(op).Some? then Some(target) else None
    ensures Writable(op) ==> OpFits(Aimed(op, target))
  {
    hide PushI32At;
  }

  lemma LineTranslates(t: Text, k: nat)
    requires WellWritten(t) && k < |t.lines|
    ensures
      var prog, slots, code := List(BytesOf(t)), SlotsOf(t), CodeOf(t);
      Linked(prog, slots, k) && Placed(prog, slots, code, k) && Resolved(prog, slots, code, k)
  {
    hide Emit, Bytes, List, SlotsOf, Code, Writable, Word;
    var prog, slots, code := List(BytesOf(t)), SlotsOf(t), CodeOf(t);
    LineDecodes(t, k);
    LineInCode(t, k, |t.lines|);
    OffsetsGrow(t, k, |t.lines|);
    var op := t.lines[k];
    var to := if JumpTarget(op).Some? then U16(t.starts[Target(op)]) else 0;
    SameShape(op, Offset(t, Target(op)), t.heights[k], to);
    if JumpTarget(op).Some? {
      var j := Target(op);
      assert code[t.starts[k]] == LineCode(t, k)[0];
      if j > 0 {
        OffsetsGrow(t, j - 1, |t.lines|);
      }
      assert slots[j].pc == Offset(t, j);
    }
  }

  /** A jump lands where the stack is as high as it leaves it. */
  lemma LineMeets(t: Text, j: nat, k: nat)
    requires WellWritten(t) && j < |t.lines| && k < |t.lines|
    requires
      var prog, slots := List(BytesOf(t)), SlotsOf(t);
      JumpSlot(prog, slots, j) && slots[k].pc == JumpTarget(OpAt(prog, slots[j].pc)).value
    ensures t.heights[k] == t.heights[j + 1]
  {
    hide Emit, Bytes, List, SlotsOf, Writable, Word, Offset;
    LineDecodes(t, j);
    var op := t.lines[j];
    SameShape(op, Offset(t, Target(op)), t.heights[j], 0);
    var to := Target(op);
    if to < k {
      OffsetsGrow(t, to, k);
    } else if k < to {
      OffsetsGrow(t, k, to);
    }
  }

  lemma LineIsSmall(t: Text, k: nat)
    requires WellWritten(t) && k <= |t.lines|
    ensures SlotFits(List(BytesOf(t)), SlotsOf(t)[k])
  {
    hide Emit, Bytes, List, SlotsOf, Writable, Word;
    if k < |t.lines| {
      LineDecodes(t, k);
      SameShape(t.lines[k], Offset(t, Target(t.lines[k])), t.heights[k], 0);
    }
  }

  /** The written bytecode is accepted, and translates to that code. */
  lemma WrittenIsAccepted(t: Text)
    requires WellWritten(t)
    ensures Accepted(List(BytesOf(t)), SlotsOf(t), CodeOf(t))
  {
    hide Emit, Bytes, Code, LineCode, List, SlotsOf, Placed, Resolved, SlotFits, LineFits;
    var prog, slots, code := List(BytesOf(t)), SlotsOf(t), CodeOf(t);
    forall k | 0 <= k < |t.lines|
      ensures Linked(prog, slots, k) && Placed(prog, slots, code, k) && Resolved(prog, slots, code, k)
    {
      LineTranslates(t, k);
    }
    forall j, k | 0 <= j < |t.lines| && 0 <= k < |t.lines| && JumpSlot(prog, slots, j) && slots[k].pc == JumpTarget(OpAt(prog, slots[j].pc)).value
      ensures slots[k].height == slots[j + 1].height
    {
      LineMeets(t, j, k);
    }
    forall k | 0 <= k <= |t.lines|
      ensures SlotFits(prog, slots[k])
    {
      LineIsSmall(t, k);
    }
  }

  // ---------------------------------------------------------------------------
  // What the code is known to be
  // ---------------------------------------------------------------------------

  /** The `d`-th instruction of line `k`. */
  lemma InstructionIs(t: Text, k: nat, d: nat)
    requires WellWritten(t) && k < |t.lines| && d < Width(t.lines[k])
    ensures LineFits(t, k) && t.starts[k] + d < |CodeOf(t)| && CodeOf(t)[t.starts[k] + d] == LineCode(t, k)[d]
  {
    hide LineCode, Code;
    assert LineFits(t, k);
    LineInCode(t, k, |t.lines|);
    assert CodeOf(t)[t.starts[k]..t.starts[k + 1]][d] == CodeOf(t)[t.starts[k] + d];
  }

  /** Where a jump of line `k` goes. */
  function Landing(t: Text, op: StackOp): int
    requires 0 <= Target(op) < |t.starts|
  {
    if JumpTarget(op).Some? then t.starts[Target(op)] else 0
  }

  /** What a line that becomes one instruction becomes. */
  predicate Becomes(op: StackOp, h: nat, to: int, c: RegInstruction) {
    match op
    case PushInt(val) => c.op.PushI32? && RegI32(c) == val && c.dst == h
    case PushCpool(idx) => c.op.PushConst? && c.dst == h && c.src1 == idx
    case PushLiteral(lit) => c.op == LiteralOp(lit) && c.dst == h
    case Drop => c.op.Drop? && c.dst == h - 1
    case Dup => c.op.Mov? && c.dst == h && c.src1 == h - 1
    case GetLoc(idx) => c.op.LoadLoc? && c.dst == h && c.src1 == idx
    case PutLoc(idx) => c.op.StoreLoc? && c.dst == idx && c.src1 == h - 1
    case SetLocal(idx) => c.op.SetLoc? && c.dst == idx && c.src1 == h - 1
    case Operate(op) => c.op == Binary(op) && c.dst == c.src1 == h - 2 && c.src2 == h - 1
    case Ret => c.op.Return? && c.dst == h - 1
    case RetUndef => c.op.ReturnUndef?
    case Goto(_) => c.op.Jmp? && c.src1 == to
    case Branch(onTrue, _) => (if onTrue then c.op.IfTrue? else c.op.IfFalse?) && c.dst == h - 1 && c.src1 == to
    case _ => false
  }

  lemma EmitsOne(op: StackOp, h: nat, to: uint16)
    requires Writable(op) && Width(op) == 1 && Need(op) <= h <= MAX_HEIGHT
    ensures Becomes(op, h, to, Emit(op, h, to)[0])
  {
    hide PushI32At, RegI32;
    if op.PushInt? {
      PushI32RoundTrip(h, op.val);
      PushForm(h, op.val);
    }
  }

  lemma LineBecomes(t: Text, k: nat)
    requires WellWritten(t) && k < |t.lines| && Width(t.lines[k]) == 1
    ensures LineFits(t, k) && t.starts[k] < |CodeOf(t)|
    ensures Becomes(t.lines[k], t.heights[k], Landing(t, t.lines[k]), CodeOf(t)[t.starts[k]])
  {
    hide Emit, Code, Becomes;
    InstructionIs(t, k, 0);
    var op := t.lines[k];
    if JumpTarget(op).Some? {
      LineInCode(t, Target(op), |t.lines|);
    }
    EmitsOne(op, t.heights[k], Landing(t, op));
  }

  /** `x += delta` for a constant. */
  predicate IsBump(code: seq<RegInstruction>, at: nat, idx: nat, delta: int32, h: nat) {
    && idx < 0x100 && h <= MAX_HEIGHT
    && at + 4 <= |code|
    && PushesInt(code, at, delta) && code[at].dst == h
    && code[at + 1] == RegInstruction(LoadLoc, h + 1, idx, 0)
    && code[at + 2] == RegInstruction(Binary(Add), h + 1, h + 1, h)
    && code[at + 3] == RegInstruction(StoreLoc, idx, h + 1, 0)
  }

  lemma LineBumps(t: Text, k: nat)
    requires WellWritten(t) && k < |t.lines| && t.lines[k].BumpLoc?
    ensures IsBump(CodeOf(t), t.starts[k], t.lines[k].idx, t.lines[k].delta, t.heights[k])
  {
    hide Code, PushI32At, RegI32;
    var op, h := t.lines[k], t.heights[k];
    InstructionIs(t, k, 0);
    InstructionIs(t, k, 1);
    InstructionIs(t, k, 2);
    InstructionIs(t, k, 3);
    PushI32RoundTrip(h, op.delta);
    PushForm(h, op.delta);
  }

  /** `x += ` the value on the stack. */
  lemma LineAdds(t: Text, k: nat)
    requires WellWritten(t) && k < |t.lines| && t.lines[k].AddLoc?
    ensures
      var code, at, idx, h := CodeOf(t), t.starts[k], t.lines[k].idx, t.heights[k];
      && at + 3 <= |code| && 1 <= h <= MAX_HEIGHT && idx < 0x100
      && code[at] == RegInstruction(LoadLoc, h, idx, 0)
      && code[at + 1] == RegInstruction(Binary(Add), h, h, h - 1)
      && code[at + 2] == RegInstruction(StoreLoc, idx, h, 0)
  {
    hide Code;
    InstructionIs(t, k, 0);
    InstructionIs(t, k, 1);
    InstructionIs(t, k, 2);
  }

  predicate LocalsBelow(op: StackOp, n: nat) {
    match op
    case GetLoc(idx) => idx < n
    case PutLoc(idx) => idx < n
    case SetLocal(idx) => idx < n
    case AddLoc(idx) => idx < n
    case BumpLoc(idx, _) => idx < n
    case GetLoc0Loc1 => 1 < n
    case _ => true
  }

  predicate TouchesBelow(inst: RegInstruction, n: nat) {
    && (inst.op.LoadLoc? ==> inst.src1 < n)
    && (inst.op.StoreLoc? || inst.op.SetLoc? ==> inst.dst < n)
  }

  lemma {:induction false} CodeTouches(t: Text, n: nat, locals: nat)
    requires WellWritten(t) && n <= |t.lines| && locals <= 0x100
    requires forall k :: 0 <= k < n ==> LocalsBelow(t.lines[k], locals)
    ensures forall j :: 0 <= j < |Code(t, n)| ==> TouchesBelow(Code(t, n)[j], locals)
  {
    hide LineCode, TouchesBelow;
    if n > 0 {
      CodeTouches(t, n - 1, locals);
      LineTouches(t, n - 1, locals);
    }
  }

  lemma LineTouches(t: Text, k: nat, locals: nat)
    requires WellWritten(t) && k < |t.lines| && locals <= 0x100 && LocalsBelow(t.lines[k], locals)
    ensures forall j :: 0 <= j < |LineCode(t, k)| ==> TouchesBelow(LineCode(t, k)[j], locals)
  {
    hide Emit, LocalsBelow, TouchesBelow, Writable, HeightAfter;
    var op := t.lines[k];
    assert LineFits(t, k);
    EmitTouches(op, t.heights[k], if JumpTarget(op).Some? then U16(t.starts[Target(op)]) else 0, locals);
  }

  lemma EmitTouches(op: StackOp, h: nat, to: uint16, locals: nat)
    requires Need(op) <= h <= MAX_HEIGHT && Writable(op) && locals <= 0x100 && LocalsBelow(op, locals)
    ensures forall j :: 0 <= j < |Emit(op, h, to)| ==> TouchesBelow(Emit(op, h, to)[j], locals)
  {
    hide PushI32At;
    if op.PushInt? {
      PushForm(h, op.val);
    } else if op.BumpLoc? {
      PushForm(h, op.delta);
    }
  }

  /** What the recognizers' theorems ask of a program. */
  lemma WrittenIsShaped(t: Text, locals: nat) returns (hs: seq<nat>)
    requires WellWritten(t) && locals <= 0x100
    requires forall k :: 0 <= k < |t.lines| ==> LocalsBelow(t.lines[k], locals)
    ensures StackShaped(CodeOf(t), hs) && NarrowLoads(CodeOf(t)) && StoresIn(CodeOf(t), locals)
  {
    hide StackShaped, BytesOf, SlotsOf, Code, LocalsBelow, WellWritten;
    WrittenIsAccepted(t);
    hs := TranslationIsShaped(List(BytesOf(t)), SlotsOf(t), CodeOf(t));
    CodeTouches(t, |t.lines|, locals);
    forall j | 0 <= j < |CodeOf(t)|
      ensures TouchesBelow(CodeOf(t)[j], locals)
    {
    }
  }
}
