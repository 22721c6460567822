/** Hash loops written as bytecode, with any locals and constants. */
module HashProgram {
  import opened JsValues
  import opened RegisterCode
  import opened StackMachine
  import opened Translator
  import opened StackShape
  import opened CountedLoop
  import opened HashLoop
  import opened HashLoopRuns
  import opened Assembly
  import opened NativeCompiler

  // ---------------------------------------------------------------------------
  // The program
  // ---------------------------------------------------------------------------

  /** `hash = H; for (i = 0; i < LIMIT; i++) { hash = (hash + ((i & MASK) ^ (i >>> A))) | 0;
      hash = (hash ^ (x << B) ^ (y >>> C)) | 0; } return hash`; `x` and `y` are
      meant to be the hash again. */
  datatype HashText = HashText(l: Hash, x: byte, y: byte)

  function LineAt(p: HashText, k: nat): StackOp {
    if k < 8 then InitLine(p, k)
    else if k < 20 then MixLine(p, k)
    else if k < 31 then StirLine(p, k)
    else EndLine(p, k)
  }

  function InitLine(p: HashText, k: nat): StackOp {
    if k == 0 then PushInt(p.l.hashInit)
    else if k == 1 then PutLoc(p.l.hashLoc)
    else if k == 2 then PushInt(0)
    else if k == 3 then PutLoc(p.l.iLoc)
    else if k == 4 then GetLoc(p.l.iLoc)
    else if k == 5 then PushInt(p.l.limit)
    else if k == 6 then Operate(Lt)
    else Branch(false, 33)
  }

  function MixLine(p: HashText, k: nat): StackOp {
    if k == 8 then GetLoc(p.l.hashLoc)
    else if k == 9 then GetLoc(p.l.iLoc)
    else if k == 10 then PushInt(p.l.mask)
    else if k == 11 then Operate(And)
    else if k == 12 then GetLoc(p.l.iLoc)
    else if k == 13 then PushInt(p.l.a)
    else if k == 14 then Operate(Shr)
    else if k == 15 then Operate(Xor)
    else if k == 16 then Operate(Add)
    else if k == 17 then PushInt(0)
    else if k == 18 then Operate(Or)
    else SetLocal(p.l.hashLoc)
  }

  function StirLine(p: HashText, k: nat): StackOp {
    if k == 20 then GetLoc(p.x)
    else if k == 21 then PushInt(p.l.b)
    else if k == 22 then Operate(Shl)
    else if k == 23 then Operate(Xor)
    else if k == 24 then GetLoc(p.y)
    else if k == 25 then PushInt(p.l.c)
    else if k == 26 then Operate(Shr)
    else if k == 27 then Operate(Xor)
    else if k == 28 then PushInt(0)
    else if k == 29 then Operate(Or)
    else PutLoc(p.l.hashLoc)
  }

  function EndLine(p: HashText, k: nat): StackOp {
    if k == 31 then BumpLoc(p.l.iLoc, 1)
    else if k == 32 then Goto(4)
    else if k == 33 then GetLoc(p.l.hashLoc)
    else StackOp.Ret
  }

  function HeightAt(k: nat): nat {
    if k in {0, 2, 4, 8, 31, 32, 33, 35} then 0
    else if k in {1, 3, 5, 7, 9, 17, 19, 20, 24, 28, 30, 34} then 1
    else if k in {6, 10, 12, 16, 18, 21, 23, 25, 27, 29} then 2
    else if k in {11, 13, 15, 22, 26} then 3
    else 4
  }

  function StartAt(k: nat): nat {
    if k <= 31 then k else k + 3
  }

  function ProgramText(p: HashText): (t: Text)
    ensures |t.lines| == 35 && |t.heights| == |t.starts| == 36
    ensures forall k :: 0 <= k < 35 ==> t.lines[k] == LineAt(p, k)
    ensures forall k :: 0 <= k < 36 ==> t.heights[k] == HeightAt(k) && t.starts[k] == StartAt(k)
  {
    Text(seq(35, k requires 0 <= k < 35 => LineAt(p, k)),
         seq(36, k requires 0 <= k < 36 => HeightAt(k)), seq(36, k requires 0 <= k < 36 => StartAt(k)))
  }

  lemma EarlyLineIsWritten(p: HashText, k: nat)
    requires k < 20
    ensures LineFits(ProgramText(p), k)
  {
    hide ProgramText;
  }

  lemma LateLineIsWritten(p: HashText, k: nat)
    requires 20 <= k < 35
    ensures LineFits(ProgramText(p), k)
  {
    hide ProgramText;
  }

  lemma ProgramIsWritten(p: HashText)
    ensures WellWritten(ProgramText(p))
  {
    hide ProgramText, LineFits, LineAt;
    forall k: nat | k < 35
      ensures LineFits(ProgramText(p), k)
    {
      if k < 20 {
        EarlyLineIsWritten(p, k);
      } else {
        LateLineIsWritten(p, k);
      }
    }
  }

  function Program(p: HashText): (code: seq<RegInstruction>)
    ensures |code| == 38
  {
    ProgramIsWritten(p);
    CodeOf(ProgramText(p))
  }

  function ProgramBytes(p: HashText): seq<byte> {
    ProgramIsWritten(p);
    BytesOf(ProgramText(p))
  }

  lemma CodeAt(p: HashText, k: nat)
    requires k < 35 && k != 31
    ensures 0 <= Target(LineAt(p, k)) < 35
    ensures Becomes(LineAt(p, k), HeightAt(k), StartAt(Target(LineAt(p, k))), Program(p)[StartAt(k)])
  {
    hide Becomes, Code, ProgramText;
    ProgramIsWritten(p);
    LineBecomes(ProgramText(p), k);
  }

  lemma StepAt(p: HashText)
    ensures IsBump(Program(p), 31, p.l.iLoc, 1, 0)
  {
    hide IsBump, Code, ProgramText;
    ProgramIsWritten(p);
    LineBumps(ProgramText(p), 31);
  }

  lemma InitIs(p: HashText)
    ensures InitShape(Program(p))
    ensures
      var code := Program(p);
      code[1].dst == p.l.hashLoc && code[3].dst == p.l.iLoc && RegI32(code[0]) == p.l.hashInit && RegI32(code[5]) == p.l.limit
  {
    hide RegI32, Program;
    forall k | 0 <= k < 8
      ensures Becomes(LineAt(p, k), HeightAt(k), StartAt(Target(LineAt(p, k))), Program(p)[k])
    {
      CodeAt(p, k);
    }
  }

  lemma MixHeights()
    ensures HeightAt(9) == 1 && HeightAt(11) == 3 && HeightAt(12) == 2 && HeightAt(14) == 4
    ensures HeightAt(8) == 0 && HeightAt(16) == 2 && HeightAt(18) == 2
  {
  }

  lemma MixIs(p: HashText)
    ensures MixInShape(Program(p), p.l.hashLoc, p.l.iLoc) && RegI32(Program(p)[10]) == p.l.mask && RegI32(Program(p)[13]) == p.l.a
  {
    hide RegI32, Program, HeightAt;
    MixHeights();
    forall k | 8 <= k < 20
      ensures Becomes(LineAt(p, k), HeightAt(k), StartAt(Target(LineAt(p, k))), Program(p)[k])
    {
      CodeAt(p, k);
    }
  }

  lemma StirIs(p: HashText)
    ensures StirShape(Program(p), p.l.hashLoc) && RegI32(Program(p)[21]) == p.l.b && RegI32(Program(p)[25]) == p.l.c
    ensures LoadsLocal(Program(p)[20], p.x) && LoadsLocal(Program(p)[24], p.y)
  {
    hide RegI32, Program, HeightAt;
    forall k | 20 <= k < 31
      ensures Becomes(LineAt(p, k), HeightAt(k), StartAt(Target(LineAt(p, k))), Program(p)[k])
    {
      CodeAt(p, k);
    }
  }

  lemma EndIs(p: HashText)
    ensures LoopEndShape(Program(p), p.l.hashLoc, p.l.iLoc)
  {
    hide RegI32, Program;
    StepAt(p);
    CodeAt(p, 32);
    CodeAt(p, 33);
    CodeAt(p, 34);
  }

  /** Every loop of the form is recognized, with its own locals and constants,
      whatever is loaded for `x` and `y`. */
  lemma ProgramShape(p: HashText)
    ensures HashShape(Program(p)) && HashOf(Program(p)) == p.l
    ensures HashLoads(Program(p), p.l) <==> p.x == p.l.hashLoc && p.y == p.l.hashLoc
  {
    hide RegI32, Program, InitShape, MixInShape, StirShape, LoopEndShape;
    InitIs(p);
    MixIs(p);
    StirIs(p);
    EndIs(p);
  }

  lemma ProgramShaped(p: HashText, locals: nat) returns (hs: seq<nat>)
    requires p.l.hashLoc < locals && p.l.iLoc < locals && p.x < locals && p.y < locals
    ensures StackShaped(Program(p), hs) && NarrowLoads(Program(p)) && StoresIn(Program(p), locals)
  {
    hide ProgramText, CodeOf, StackShaped, NarrowLoads;
    ProgramIsWritten(p);
    hs := WrittenIsShaped(ProgramText(p), if locals < 0x100 then locals else 0x100);
  }

  /** Native hash code exists exactly for a non-negative limit and shifts below 32. */
  lemma ProgramCompiles(p: HashText)
    ensures HashRecognized(Program(p)) <==> p.l.limit >= 0 && 0 <= p.l.a <= 31 && 0 <= p.l.b <= 31 && 0 <= p.l.c <= 31
    ensures HashRecognized(Program(p)) ==> NativeFor(Program(p)) == Some(HashCode(p.l))
  {
    hide Program, FoldCounted, HashCode, InitShape, MixInShape, StirShape, LoopEndShape;
    ProgramShape(p);
    StirIs(p);
    HashIsNotCounted(Program(p));
  }
}
