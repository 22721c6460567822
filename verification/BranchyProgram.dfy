/** Branchy loops written as bytecode, with any locals and constants. */
module BranchyProgram {
  import opened JsValues
  import opened RegisterCode
  import opened StackMachine
  import opened Translator
  import opened StackShape
  import opened CountedLoop
  import opened BranchyLoop
  import opened Assembly
  import opened NativeCompiler

  // ---------------------------------------------------------------------------
  // The program
  // ---------------------------------------------------------------------------

  /** `s = S; for (i = I; i <= LIMIT; i++) if (i % A === 0) s += i % B;
      else if (i % C === 0) s -= i % D; else s += (i & MASK) - i % E; return s` */
  function LineAt(l: Branchy, k: nat): StackOp {
    if k < 14 then HeadLine(l, k)
    else if k < 21 then FirstLine(l, k)
    else if k < 34 then SecondLine(l, k)
    else TailLine(l, k)
  }

  function HeadLine(l: Branchy, k: nat): StackOp {
    if k == 0 then PushInt(l.sumInit)
    else if k == 1 then PutLoc(l.sumLoc)
    else if k == 2 then PushInt(l.iInit)
    else if k == 3 then PutLoc(l.iLoc)
    else if k == 4 then GetLoc(l.iLoc)
    else if k == 5 then PushInt(l.limit)
    else if k == 6 then Operate(Lte)
    else if k == 7 then Branch(false, 46)
    else if k == 8 then GetLoc(l.iLoc)
    else if k == 9 then PushInt(l.divA)
    else if k == 10 then Operate(Mod)
    else if k == 11 then PushInt(0)
    else if k == 12 then Operate(StrictEq)
    else Branch(false, 21)
  }

  function FirstLine(l: Branchy, k: nat): StackOp {
    if k == 14 then GetLoc(l.sumLoc)
    else if k == 15 then GetLoc(l.iLoc)
    else if k == 16 then PushInt(l.modB)
    else if k == 17 then Operate(Mod)
    else if k == 18 then Operate(Add)
    else if k == 19 then PutLoc(l.sumLoc)
    else Goto(44)
  }

  function SecondLine(l: Branchy, k: nat): StackOp {
    if k == 21 then GetLoc(l.iLoc)
    else if k == 22 then PushInt(l.divC)
    else if k == 23 then Operate(Mod)
    else if k == 24 then PushInt(0)
    else if k == 25 then Operate(StrictEq)
    else if k == 26 then Branch(false, 34)
    else if k == 27 then GetLoc(l.sumLoc)
    else if k == 28 then GetLoc(l.iLoc)
    else if k == 29 then PushInt(l.modD)
    else if k == 30 then Operate(Mod)
    else if k == 31 then Operate(Sub)
    else if k == 32 then PutLoc(l.sumLoc)
    else Goto(44)
  }

  function TailLine(l: Branchy, k: nat): StackOp {
    if k == 34 then GetLoc(l.sumLoc)
    else if k == 35 then GetLoc(l.iLoc)
    else if k == 36 then PushInt(l.mask)
    else if k == 37 then Operate(And)
    else if k == 38 then GetLoc(l.iLoc)
    else if k == 39 then PushInt(l.modE)
    else if k == 40 then Operate(Mod)
    else if k == 41 then Operate(Sub)
    else if k == 42 then Operate(Add)
    else if k == 43 then PutLoc(l.sumLoc)
    else if k == 44 then BumpLoc(l.iLoc, 1)
    else if k == 45 then Goto(4)
    else if k == 46 then GetLoc(l.sumLoc)
    else Ret
  }

  function HeightAt(k: nat): nat {
    if k in {0, 2, 4, 8, 14, 20, 21, 27, 33, 34, 44, 45, 46, 48} then 0
    else if k in {1, 3, 5, 7, 9, 11, 13, 15, 19, 22, 24, 26, 28, 32, 35, 43, 47} then 1
    else if k in {6, 10, 12, 16, 18, 23, 25, 29, 31, 36, 38, 42} then 2
    else if k in {17, 30, 37, 39, 41} then 3
    else 4
  }

  function StartAt(k: nat): nat {
    if k <= 44 then k else k + 3
  }

  function ProgramText(l: Branchy): (t: Text)
    ensures |t.lines| == 48 && |t.heights| == |t.starts| == 49
    ensures forall k :: 0 <= k < 48 ==> t.lines[k] == LineAt(l, k)
    ensures forall k :: 0 <= k < 49 ==> t.heights[k] == HeightAt(k) && t.starts[k] == StartAt(k)
  {
    Text(seq(48, k requires 0 <= k < 48 => LineAt(l, k)),
         seq(49, k requires 0 <= k < 49 => HeightAt(k)), seq(49, k requires 0 <= k < 49 => StartAt(k)))
  }

  lemma HeadFits(l: Branchy, k: nat)
    requires k < 14
    ensures LineFits(ProgramText(l), k)
  {
    hide ProgramText;
  }

  lemma BranchesFit(l: Branchy, k: nat)
    requires 14 <= k < 34
    ensures LineFits(ProgramText(l), k)
  {
    hide ProgramText;
  }

  lemma TailFits(l: Branchy, k: nat)
    requires 34 <= k < 48
    ensures LineFits(ProgramText(l), k)
  {
    hide ProgramText;
  }

  lemma ProgramIsWritten(l: Branchy)
    ensures WellWritten(ProgramText(l))
  {
    hide ProgramText, LineFits, LineAt;
    forall k: nat | k < 48
      ensures LineFits(ProgramText(l), k)
    {
      if k < 14 {
        HeadFits(l, k);
      } else if k < 34 {
        BranchesFit(l, k);
      } else {
        TailFits(l, k);
      }
    }
  }

  function Program(l: Branchy): (code: seq<RegInstruction>)
    ensures |code| == 51
  {
    ProgramIsWritten(l);
    CodeOf(ProgramText(l))
  }

  lemma CodeAt(l: Branchy, k: nat)
    requires k < 48 && k != 44
    ensures 0 <= Target(LineAt(l, k)) < 48
    ensures Becomes(LineAt(l, k), HeightAt(k), StartAt(Target(LineAt(l, k))), Program(l)[StartAt(k)])
  {
    hide Becomes, Code, ProgramText;
    ProgramIsWritten(l);
    LineBecomes(ProgramText(l), k);
  }

  lemma StepAt(l: Branchy)
    ensures IsBump(Program(l), 44, l.iLoc, 1, 0)
  {
    hide IsBump, Code, ProgramText;
    ProgramIsWritten(l);
    LineBumps(ProgramText(l), 44);
  }

  lemma HeadShapeOf(l: Branchy)
    ensures HeadShape(Program(l), l.iLoc) && TailShape(Program(l), l.sumLoc, l.iLoc)
    ensures
      var code := Program(l);
      && code[1].dst == l.sumLoc && code[3].dst == l.iLoc
      && RegI32(code[0]) == l.sumInit && RegI32(code[2]) == l.iInit && RegI32(code[5]) == l.limit
  {
    hide RegI32, Program, HeightAt;
    StepAt(l);
    forall k | 0 <= k < 8
      ensures Becomes(LineAt(l, k), HeightAt(k), StartAt(Target(LineAt(l, k))), Program(l)[k])
    {
      CodeAt(l, k);
    }
    CodeAt(l, 45);
    CodeAt(l, 46);
    CodeAt(l, 47);
  }

  lemma FirstShapeOf(l: Branchy)
    ensures FirstShape(Program(l), l.sumLoc, l.iLoc)
    ensures RegI32(Program(l)[9]) == l.divA && RegI32(Program(l)[16]) == l.modB
  {
    hide RegI32, Program, HeightAt;
    forall k | 8 <= k < 21
      ensures Becomes(LineAt(l, k), HeightAt(k), StartAt(Target(LineAt(l, k))), Program(l)[k])
    {
      CodeAt(l, k);
    }
  }

  lemma SecondShapeOf(l: Branchy)
    ensures SecondShape(Program(l), l.sumLoc, l.iLoc)
    ensures RegI32(Program(l)[22]) == l.divC && RegI32(Program(l)[29]) == l.modD
  {
    hide RegI32, Program, HeightAt;
    forall k | 21 <= k < 34
      ensures Becomes(LineAt(l, k), HeightAt(k), StartAt(Target(LineAt(l, k))), Program(l)[k])
    {
      CodeAt(l, k);
    }
  }

  lemma ElseShapeOf(l: Branchy)
    ensures ElseShape(Program(l), l.sumLoc, l.iLoc)
    ensures RegI32(Program(l)[36]) == l.mask && RegI32(Program(l)[39]) == l.modE
  {
    hide RegI32, Program, HeightAt;
    forall k | 34 <= k < 44
      ensures Becomes(LineAt(l, k), HeightAt(k), StartAt(Target(LineAt(l, k))), Program(l)[k])
    {
      CodeAt(l, k);
    }
  }

  /** Every loop of the form is recognized, with its own locals and constants. */
  lemma ProgramShape(l: Branchy)
    ensures BranchyShape(Program(l)) && BranchyOf(Program(l)) == l
  {
    hide RegI32, Program, HeadShape, FirstShape, SecondShape, ElseShape, TailShape;
    HeadShapeOf(l);
    FirstShapeOf(l);
    SecondShapeOf(l);
    ElseShapeOf(l);
  }

  lemma ProgramShaped(l: Branchy, locals: nat) returns (hs: seq<nat>)
    requires l.sumLoc < locals && l.iLoc < locals && locals <= 0x100
    ensures StackShaped(Program(l), hs) && NarrowLoads(Program(l)) && StoresIn(Program(l), locals)
  {
    hide ProgramText, CodeOf, StackShaped, NarrowLoads, StoresIn;
    ProgramIsWritten(l);
    hs := WrittenIsShaped(ProgramText(l), locals);
  }

  /** And folded exactly when it counts up from 1 to a limit of at least 1, its
      moduli are positive, its mask is 15 and its sum is a safe integer. */
  lemma ProgramFolds(l: Branchy)
    ensures FoldBranchy(Program(l)).Some? <==>
      && l.iInit == 1 && l.limit >= 1 && l.mask == 15
      && l.divA >= 1 && l.modB >= 1 && l.divC >= 1 && l.modD >= 1 && l.modE >= 1
      && -0x1f_ffff_ffff_ffff <= SumAt(l, l.limit) <= 0x1f_ffff_ffff_ffff
    ensures FoldBranchy(Program(l)).Some? ==>
      FoldBranchy(Program(l)).value
        == if -0x8000_0000 <= SumAt(l, l.limit) <= 0x7fff_ffff then Int(SumAt(l, l.limit)) else Float(SumAt(l, l.limit))
  {
    hide Program, HeadShape, FirstShape, SecondShape, ElseShape, TailShape, SumAt;
    ProgramShape(l);
  }

  lemma ProgramCompiles(l: Branchy, v: Value)
    requires FoldBranchy(Program(l)) == Some(v)
    ensures IsExact(v) && NativeFor(Program(l)) == Some(NumberCode(v))
  {
    hide Program, FoldCounted, FoldBranchy, NumberCode;
    ProgramShape(l);
    FoldsAreNumbers(Program(l));
    BranchyIsNotCounted(Program(l));
  }

  function ProgramBytes(l: Branchy): seq<byte> {
    ProgramIsWritten(l);
    BytesOf(ProgramText(l))
  }
}
