/** Folding a loop that branches on remainders, by inclusion and exclusion. */
module BranchyLoop {
  import opened JsValues
  import opened RegisterCode
  import opened Translator
  import opened Periodic
  import opened CountedLoop

  // ---------------------------------------------------------------------------
  // The shape
  // ---------------------------------------------------------------------------

  predicate IsStore(code: seq<RegInstruction>, k: nat, loc: byte)
    requires k < |code|
  {
    code[k].op.StoreLoc? && code[k].dst == loc
  }

  predicate IsExitTest(code: seq<RegInstruction>, k: nat, to: uint16)
    requires k < |code|
  {
    code[k].op.IfFalse? && code[k].src1 == to
  }

  predicate IsJump(code: seq<RegInstruction>, k: nat, to: uint16)
    requires k < |code|
  {
    code[k].op.Jmp? && code[k].src1 == to
  }

  predicate HeadShape(code: seq<RegInstruction>, iLoc: byte)
    requires |code| == 51
  {
    && IsPush(code, 0) && code[1].op.StoreLoc? && IsPush(code, 2) && code[3].op.StoreLoc?
    && LoadsLocal(code[4], iLoc) && IsPush(code, 5) && IsBinary(code, 6, Lte) && IsExitTest(code, 7, 49)
  }

  /** `if ((i % A) === 0) sum = sum + i % B` */
  predicate FirstShape(code: seq<RegInstruction>, sumLoc: byte, iLoc: byte)
    requires |code| == 51
  {
    && LoadsLocal(code[8], iLoc) && IsPush(code, 9) && IsBinary(code, 10, Mod) && PushesInt(code, 11, 0)
    && IsBinary(code, 12, StrictEq) && IsExitTest(code, 13, 21)
    && LoadsLocal(code[14], sumLoc) && LoadsLocal(code[15], iLoc) && IsPush(code, 16) && IsBinary(code, 17, Mod)
    && IsBinary(code, 18, Add) && IsStore(code, 19, sumLoc) && IsJump(code, 20, 44)
  }

  /** `else if ((i % C) === 0) sum = sum - i % D` */
  predicate SecondShape(code: seq<RegInstruction>, sumLoc: byte, iLoc: byte)
    requires |code| == 51
  {
    && LoadsLocal(code[21], iLoc) && IsPush(code, 22) && IsBinary(code, 23, Mod) && PushesInt(code, 24, 0)
    && IsBinary(code, 25, StrictEq) && IsExitTest(code, 26, 34)
    && LoadsLocal(code[27], sumLoc) && LoadsLocal(code[28], iLoc) && IsPush(code, 29) && IsBinary(code, 30, Mod)
    && IsBinary(code, 31, Sub) && IsStore(code, 32, sumLoc) && IsJump(code, 33, 44)
  }

  /** `else sum = sum + ((i & MASK) - i % E)` */
  predicate ElseShape(code: seq<RegInstruction>, sumLoc: byte, iLoc: byte)
    requires |code| == 51
  {
    && LoadsLocal(code[34], sumLoc) && LoadsLocal(code[35], iLoc) && IsPush(code, 36) && IsBinary(code, 37, And)
    && LoadsLocal(code[38], iLoc) && IsPush(code, 39) && IsBinary(code, 40, Mod)
    && IsBinary(code, 41, Sub) && IsBinary(code, 42, Add) && IsStore(code, 43, sumLoc)
  }

  predicate TailShape(code: seq<RegInstruction>, sumLoc: byte, iLoc: byte)
    requires |code| == 51
  {
    && IsPush(code, 44) && RegI32(code[44]) == 1 && LoadsLocal(code[45], iLoc) && IsBinary(code, 46, Add)
    && IsStore(code, 47, iLoc) && IsJump(code, 48, 4) && LoadsLocal(code[49], sumLoc) && code[50].op.Return?
  }

  predicate BranchyShape(code: seq<RegInstruction>) {
    && |code| == 51
    && var sumLoc, iLoc := code[1].dst, code[3].dst;
    && HeadShape(code, iLoc) && FirstShape(code, sumLoc, iLoc) && SecondShape(code, sumLoc, iLoc)
    && ElseShape(code, sumLoc, iLoc) && TailShape(code, sumLoc, iLoc)
  }

  datatype Branchy = Branchy(sumLoc: byte, sumInit: int32, iLoc: byte, iInit: int32, limit: int32,
                             divA: int32, modB: int32, divC: int32, modD: int32, mask: int32, modE: int32)

  function BranchyOf(code: seq<RegInstruction>): Branchy
    requires |code| == 51
  {
    Branchy(code[1].dst, RegI32(code[0]), code[3].dst, RegI32(code[2]), RegI32(code[5]),
            RegI32(code[9]), RegI32(code[16]), RegI32(code[22]), RegI32(code[29]), RegI32(code[36]), RegI32(code[39]))
  }

  predicate BranchyGuards(l: Branchy) {
    && l.iInit == 1 && l.divA > 0 && l.modB > 0 && l.divC > 0 && l.modD > 0 && l.modE > 0 && l.limit >= 1
    && l.mask == 15
  }

  // ---------------------------------------------------------------------------
  // What the loop computes
  // ---------------------------------------------------------------------------

  /** What round `i` adds to the sum. */
  function Term(l: Branchy, i: int): int
    requires BranchyGuards(l)
  {
    if i % l.divA == 0 then i % l.modB
    else if i % l.divC == 0 then -(i % l.modD)
    else i % 16 - i % l.modE
  }

  /** The sum after rounds 1 to `k`. */
  function SumAt(l: Branchy, k: nat): int
    requires BranchyGuards(l)
  {
    if k == 0 then l.sumInit else SumAt(l, k - 1) + Term(l, k)
  }

  /** The fold: the loop's own sum, when it can be returned as a number. */
  function FoldBranchy(code: seq<RegInstruction>): Option<Value> {
    if BranchyShape(code) && BranchyGuards(BranchyOf(code)) then
      var l := BranchyOf(code);
      JsNumber(SumAt(l, l.limit))
    else
      None
  }

  // ---------------------------------------------------------------------------
  // Inclusion and exclusion
  // ---------------------------------------------------------------------------

  /** The second branch: multiples of C that are not multiples of A. */
  function SecondSum(l: Branchy, n: nat): int
    requires BranchyGuards(l)
  {
    if n == 0 then 0
    else SecondSum(l, n - 1) + if n % l.divA != 0 && n % l.divC == 0 then n % l.modD else 0
  }

  /** The last branch: multiples of neither, reduced modulo `m`. */
  function ElseSum(l: Branchy, m: int, n: nat): int
    requires BranchyGuards(l) && m > 0
  {
    if n == 0 then 0
    else ElseSum(l, m, n - 1) + if n % l.divA != 0 && n % l.divC != 0 then n % m else 0
  }

  lemma {:induction false} SumSplits(l: Branchy, n: nat)
    requires BranchyGuards(l)
    ensures SumAt(l, n) == l.sumInit + MultSum(n, l.divA, l.modB) - SecondSum(l, n) + (ElseSum(l, 16, n) - ElseSum(l, l.modE, n))
  {
    if n > 0 {
      SumSplits(l, n - 1);
    }
  }

  /** `lcm` has the common multiples of A and C as its multiples. */
  ghost predicate IsLcm(l: Branchy, lcm: int)
    requires BranchyGuards(l)
  {
    lcm > 0 && forall i: int :: CommonMultiple(l, i) <==> i % lcm == 0
  }

  predicate CommonMultiple(l: Branchy, i: int)
    requires BranchyGuards(l)
  {
    i % l.divA == 0 && i % l.divC == 0
  }

  lemma {:induction false} SecondByExclusion(l: Branchy, lcm: int, n: nat)
    requires BranchyGuards(l) && IsLcm(l, lcm)
    ensures SecondSum(l, n) == MultSum(n, l.divC, l.modD) - MultSum(n, lcm, l.modD)
  {
    if n > 0 {
      SecondByExclusion(l, lcm, n - 1);
      assert CommonMultiple(l, n) <==> n % lcm == 0;
    }
  }

  lemma {:induction false} ElseByExclusion(l: Branchy, lcm: int, m: int, n: nat)
    requires BranchyGuards(l) && IsLcm(l, lcm) && m > 0
    ensures ElseSum(l, m, n)
         == MultSum(n, 1, m) - MultSum(n, l.divA, m) - MultSum(n, l.divC, m) + MultSum(n, lcm, m)
  {
    if n > 0 {
      ElseByExclusion(l, lcm, m, n - 1);
      assert CommonMultiple(l, n) <==> n % lcm == 0;
    }
  }

  lemma {:induction false} PartialBounds(l: Branchy, m: int, n: nat)
    requires BranchyGuards(l) && m > 0
    ensures 0 <= ElseSum(l, m, n) <= n * (m - 1)
    ensures 0 <= SecondSum(l, n) <= n * (l.modD - 1)
  {
    if n > 0 {
      PartialBounds(l, m, n - 1);
      OneMore(n, m - 1);
      OneMore(n, l.modD - 1);
    }
  }

  lemma OneMore(n: int, m: int)
    ensures n * m == (n - 1) * m + m
  {
  }

  const BOUND62: int := 0x3fff_ffff_0000_0001

  lemma MultSumFits(n: nat, d: int, m: int)
    requires n <= INT32_MAX && d > 0 && 0 < m <= INT32_MAX
    ensures 0 <= MultSum(n, d, m) <= BOUND62
  {
    MultSumIsTally(n, d, m);
    DivideShrinks(n, d);
    TallyFits(d, m, n / d);
  }

  lemma PartialFits(l: Branchy, m: int, n: nat)
    requires BranchyGuards(l) && 0 < m <= INT32_MAX && n <= INT32_MAX
    ensures 0 <= ElseSum(l, m, n) <= BOUND62
    ensures 0 <= SecondSum(l, n) <= BOUND62
    ensures m == 16 ==> ElseSum(l, m, n) <= 0x8_0000_0000
  {
    PartialBounds(l, m, n);
    ProductFits(n, m - 1);
    ProductFits(n, l.modD - 1);
  }

  method LeastCommonMultiple(l: Branchy) returns (r: Option<int>)
    requires BranchyGuards(l)
    ensures r.Some? && IsLcm(l, r.value)
  {
    hide Divides, Combines, IsLcm;
    var g := Gcd(l.divA, l.divC);
    PositiveGcd(g, l.divA);
    ProductFits(l.divA, l.divC);
    var product := I64(l.divA * l.divC);
    if product.None? { return None; }
    QuotientIsLcm(l, g);
    r := Some(product.value / g);
  }

  lemma QuotientIsLcm(l: Branchy, g: int)
    requires BranchyGuards(l) && g > 0
    requires Divides(g, l.divA) && Divides(g, l.divC) && Combines(g, l.divA, l.divC)
    ensures IsLcm(l, (l.divA * l.divC) / g)
  {
    hide Divides, Combines;
    var lcm := (l.divA * l.divC) / g;
    CommonMultiples(l.divA, l.divC, g, 0);
    forall i: int
      ensures CommonMultiple(l, i) <==> i % lcm == 0
    {
      CommonMultiples(l.divA, l.divC, g, i);
    }
  }

  lemma PositiveGcd(g: int, a: int)
    requires g >= 0 && a > 0 && Divides(g, a)
    ensures g > 0
  {
    var k: int :| a == g * k;
    SignOfProduct(k, g);
    SignOfProduct(-k, g);
    Negate(k, g);
  }

  /** The recognizer. Every sum is checked 64-bit arithmetic and none of it
      overflows, so the only refusals are the shape, the guards and the range
      of the result; the formula equals the sum the loop would compute. */
  method CompileBranchyModuloLoop(code: seq<RegInstruction>) returns (r: Option<Value>)
    ensures r == FoldBranchy(code)
  {
    hide HeadShape, FirstShape, SecondShape, ElseShape, TailShape, RegI32, SumAt, MultSum, SecondSum, ElseSum, IsLcm;
    if !BranchyShape(code) {
      return None;
    }
    var l := BranchyOf(code);
    if !BranchyGuards(l) {
      return None;
    }
    var n := l.limit;
    var lcm := LeastCommonMultiple(l);
    LcmPositive(l, lcm.value);
    var divA := SumMultiplesMod(n, l.divA, l.modB);
    var divC := SumMultiplesMod(n, l.divC, l.modD);
    var both := SumMultiplesMod(n, lcm.value, l.modD);
    var elseAnd := SumElse(l, 16, lcm.value);
    var elseMod := SumElse(l, l.modE, lcm.value);
    SecondByExclusion(l, lcm.value, n);
    PartialFits(l, 16, n);
    PartialFits(l, l.modE, n);
    MultSumFits(n, l.divA, l.modB);
    SumSplits(l, n);
    var second := I64(divC.value - both.value);
    if second.None? { return None; }
    var total := CheckedTotal(l.sumInit, divA.value, second.value, elseAnd.value, elseMod.value);
    if total.None? { return None; }
    r := JsNumber(total.value);
  }

  lemma LcmPositive(l: Branchy, lcm: int)
    requires BranchyGuards(l) && IsLcm(l, lcm)
    ensures lcm > 0
  {
  }

  /** The residues of everything, less those of A's and C's multiples, plus
      those counted twice. */
  method SumElse(l: Branchy, m: int, lcm: int) returns (r: Option<int>)
    requires BranchyGuards(l) && IsLcm(l, lcm) && 0 < m <= INT32_MAX
    ensures r == Some(ElseSum(l, m, l.limit))
  {
    hide MultSum, ElseSum, IsLcm, I64;
    LcmPositive(l, lcm);
    var n := l.limit;
    var all := SumMultiplesMod(n, 1, m);
    var a := SumMultiplesMod(n, l.divA, m);
    var c := SumMultiplesMod(n, l.divC, m);
    var both := SumMultiplesMod(n, lcm, m);
    ElseByExclusion(l, lcm, m, n);
    PartialFits(l, m, n);
    MultSumFits(n, 1, m);
    MultSumFits(n, l.divA, m);
    MultSumFits(n, l.divC, m);
    MultSumFits(n, lcm, m);
    I64Fits(all.value - a.value);
    I64Fits(all.value - a.value - c.value);
    I64Fits(all.value - a.value - c.value + both.value);
    var d := I64(all.value - a.value);
    if d.None? { return None; }
    d := I64(d.value - c.value);
    if d.None? { return None; }
    r := I64(d.value + both.value);
  }

  function CheckedTotal(init: int32, divA: int, second: int, elseAnd: int, elseMod: int): (r: Option<int>)
    ensures 0 <= divA <= BOUND62 && 0 <= second <= BOUND62 && 0 <= elseAnd <= 0x8_0000_0000 && 0 <= elseMod <= BOUND62
      ==> r == Some(init + divA - second + (elseAnd - elseMod))
  {
    var a :- I64(init + divA);
    var b :- I64(a - second);
    var c :- I64(elseAnd - elseMod);
    I64(b + c)
  }
}
