/** Folding a counted loop to the number it returns. */
module CountedLoop {
  import opened JsValues
  import opened Machines
  import opened RegisterCode
  import opened RegisterVm
  import opened Translator
  import opened StackShape

  // ---------------------------------------------------------------------------
  // Iteration count
  // ---------------------------------------------------------------------------

  /** Rounds of a loop that compares `init + k * step` with `limit` before each. */
  function Iterations(init: int32, limit: int32, step: int32, cmp: BinOp): Option<nat> {
    var abs: int := 0 - step;
    if cmp.Lt? && step > 0 then
      Some(if init >= limit then 0 else (limit - init + step - 1) / step)
    else if cmp.Lte? && step > 0 then
      Some(if init > limit then 0 else (limit - init + step) / step)
    else if cmp.Gt? && step < 0 then
      Some(if init <= limit then 0 else (init - limit + abs - 1) / abs)
    else if cmp.Gte? && step < 0 then
      Some(if init < limit then 0 else (init - limit + abs) / abs)
    else
      None
  }

  predicate IsComparison(op: BinOp) {
    op.Lt? || op.Lte? || op.Gt? || op.Gte?
  }

  /** `n` is the first round whose comparison fails. */
  ghost predicate LeastFailing(init: int, limit: int, step: int, cmp: BinOp, n: nat)
    requires IsComparison(cmp)
  {
    && !Holds(cmp, init + n * step, limit)
    && forall k: nat :: k < n ==> Holds(cmp, init + k * step, limit)
  }

  lemma CeilingBounds(d: nat, step: nat)
    requires step >= 1
    ensures
      var n := (d + step - 1) / step;
      n * step >= d && forall k: nat :: k < n ==> k * step < d
  {
    var n := (d + step - 1) / step;
    assert d + step - 1 == n * step + (d + step - 1) % step;
    forall k: nat | k < n
      ensures k * step < d
    {
      assert (n - 1 - k) * step >= 0;
      assert k * step == n * step - step - (n - 1 - k) * step;
    }
  }

  /** The iteration count is the least failing round; it is undefined exactly
      when the step is zero or points away from the limit. */
  lemma IterationsIsLeast(init: int32, limit: int32, step: int32, cmp: BinOp)
    requires IsComparison(cmp)
    ensures Iterations(init, limit, step, cmp).None? <==> (if cmp.Lt? || cmp.Lte? then step <= 0 else step >= 0)
    ensures Iterations(init, limit, step, cmp).Some? ==>
      LeastFailing(init, limit, step, cmp, Iterations(init, limit, step, cmp).value)
    ensures Iterations(init, limit, step, cmp).Some? ==> Iterations(init, limit, step, cmp).value <= TWO32
  {
    if step > 0 {
      if cmp.Lt? && init < limit {
        Rounds(init, limit, step, cmp, limit - init);
      } else if cmp.Lte? && init <= limit {
        Rounds(init, limit, step, cmp, limit - init + 1);
      }
    } else if step < 0 {
      if cmp.Gt? && init > limit {
        Rounds(init, limit, step, cmp, init - limit);
      } else if cmp.Gte? && init >= limit {
        Rounds(init, limit, step, cmp, init - limit + 1);
      }
    }
  }

  /** `d` is how far `init` may move before the comparison fails. */
  lemma Rounds(init: int32, limit: int32, step: int32, cmp: BinOp, d: nat)
    requires IsComparison(cmp) && step != 0 && 1 <= d <= TWO32
    requires if step > 0 then (cmp.Lt? && d == limit - init) || (cmp.Lte? && d == limit - init + 1)
             else (cmp.Gt? && d == init - limit) || (cmp.Gte? && d == init - limit + 1)
    ensures
      var a: int := if step > 0 then step else 0 - step;
      var n := (d + a - 1) / a;
      LeastFailing(init, limit, step, cmp, n) && n <= TWO32
  {
    var a: int := if step > 0 then step else 0 - step;
    var n := (d + a - 1) / a;
    CeilingBounds(d, a);
    StepsOf(step, n);
    forall k: nat | k < n
      ensures Holds(cmp, init + k * step, limit)
    {
      StepsOf(step, k);
      assert k * a < d;
    }
    if n >= 1 {
      assert (n - 1) * a < d;
      ProductAtLeast(n - 1, a);
    }
  }

  lemma StepsOf(step: int, k: nat)
    ensures step > 0 || k * step == -(k * (0 - step))
  {
  }

  // ---------------------------------------------------------------------------
  // Recognizing the loop
  // ---------------------------------------------------------------------------

  datatype Update = ConstStep(c: int32) | Induction | Affine(mul: int32, add: int32)

  datatype Counted = Counted(iLoc: byte, iInit: int32, limit: int32, cmp: BinOp, step: int32,
                             countLoc: byte, countInit: int32, update: Update,
                             start: nat, body: nat, inc: nat, backedge: nat, exit: nat)

  datatype Inits = Inits(countLoc: Option<byte>, countInit: int32, iInit: Option<int32>)

  function FirstLoopJump(code: seq<RegInstruction>, k: nat): (r: Option<nat>)
    requires k <= |code|
    ensures r.Some? ==> r.value < |code| && code[r.value].op.Jmp? && code[r.value].src1 < |code|
    decreases |code| - k
  {
    if k == |code| then None
    else if code[k].op.Jmp? && code[k].src1 < |code| then Some(k)
    else FirstLoopJump(code, k + 1)
  }

  lemma {:induction false} FirstLoopJumpIs(code: seq<RegInstruction>, k: nat, j: nat)
    requires k <= j < |code| && code[j].op.Jmp? && code[j].src1 < |code|
    requires forall q :: k <= q < j ==> !code[q].op.Jmp?
    ensures FirstLoopJump(code, k) == Some(j)
    decreases j - k
  {
    if k < j {
      FirstLoopJumpIs(code, k + 1, j);
    }
  }

  /** Adds one initializer, or gives up on a second accumulator. */
  function AddInit(acc: Inits, push: RegInstruction, store: RegInstruction, iLoc: byte): Option<Inits> {
    if !push.op.PushI32? || !store.op.StoreLoc? || U8(store.src1) != push.dst then None
    else if store.dst == iLoc then Some(acc.(iInit := Some(RegI32(push))))
    else if acc.countLoc.None? then Some(acc.(countLoc := Some(store.dst), countInit := RegI32(push)))
    else None
  }

  function ScanInits(code: seq<RegInstruction>, idx: nat, start: nat, iLoc: byte, acc: Inits): Option<Inits>
    requires start <= |code|
    decreases start - idx
  {
    if idx + 1 < start then
      var next :- AddInit(acc, code[idx], code[idx + 1], iLoc);
      ScanInits(code, idx + 2, start, iLoc, next)
    else if idx != start then None
    else Some(acc)
  }

  predicate LoadsLocal(inst: RegInstruction, loc: byte) {
    inst.op.LoadLoc? && U8(inst.src1) == loc
  }

  predicate StoresFrom(store: RegInstruction, loc: byte, from: byte) {
    store.op.StoreLoc? && store.dst == loc && U8(store.src1) == from
  }

  /** `count += C` in either operand order, or `count += i`. */
  function ShortUpdate(code: seq<RegInstruction>, body: nat, countLoc: byte, iLoc: byte): Option<Update>
    requires body + 4 <= |code|
  {
    var a, b, add, store := code[body], code[body + 1], code[body + 2], code[body + 3];
    if add.op != Binary(Add) || !StoresFrom(store, countLoc, add.dst) then None
    else if LoadsLocal(a, countLoc) && b.op.PushI32? && add.dst == a.dst then Some(ConstStep(RegI32(b)))
    else if a.op.PushI32? && LoadsLocal(b, countLoc) && add.dst == b.dst then Some(ConstStep(RegI32(a)))
    else if LoadsLocal(a, iLoc) && LoadsLocal(b, countLoc) && add.dst == b.dst then Some(Induction)
    else None
  }

  /** `count = count + i * C + K`. */
  function LongUpdate(code: seq<RegInstruction>, body: nat, countLoc: byte, iLoc: byte): Option<Update>
    requires body + 8 <= |code|
  {
    var countLoad, iLoad, mulConst, mul := code[body], code[body + 1], code[body + 2], code[body + 3];
    var addMul, addConst, addFinal, store := code[body + 4], code[body + 5], code[body + 6], code[body + 7];
    if && LoadsLocal(countLoad, countLoc)
       && LoadsLocal(iLoad, iLoc)
       && mulConst.op.PushI32?
       && mul.op == Binary(Mul) && mul.dst == iLoad.dst && U8(mul.src1) == iLoad.dst && U8(mul.src2) == mulConst.dst
       && addMul.op == Binary(Add) && addMul.dst == countLoad.dst && U8(addMul.src1) == countLoad.dst && U8(addMul.src2) == mul.dst
       && addConst.op.PushI32?
       && addFinal.op == Binary(Add) && addFinal.dst == countLoad.dst && U8(addFinal.src1) == countLoad.dst
       && U8(addFinal.src2) == addConst.dst
       && StoresFrom(store, countLoc, addFinal.dst)
    then Some(Affine(RegI32(mulConst), RegI32(addConst)))
    else None
  }

  /** `i += STEP` in either operand order. */
  function StepOf(code: seq<RegInstruction>, inc: nat, iLoc: byte): Option<int32>
    requires inc + 4 <= |code|
  {
    var a, b, add, store := code[inc], code[inc + 1], code[inc + 2], code[inc + 3];
    if add.op != Binary(Add) || !StoresFrom(store, iLoc, add.dst) then None
    else if a.op.PushI32? && LoadsLocal(b, iLoc) then Some(RegI32(a))
    else if LoadsLocal(a, iLoc) && b.op.PushI32? then Some(RegI32(b))
    else None
  }

  predicate LoopHead(code: seq<RegInstruction>, start: nat)
    requires start + 4 <= |code|
  {
    var cmp, branch := code[start + 2], code[start + 3];
    && code[start].op.LoadLoc? && code[start + 1].op.PushI32?
    && cmp.op.Binary? && IsComparison(cmp.op.op)
    && branch.op.IfFalse? && branch.dst == cmp.dst
  }

  /** Everything after the initializers. */
  function RecognizeBody(code: seq<RegInstruction>, start: nat, backedge: nat, inits: Inits): Option<Counted>
    requires start + 4 <= backedge < |code| && LoopHead(code, start)
  {
    var iLoc, exit, body := U8(code[start].src1), code[start + 3].src1, start + 4;
    if inits.countLoc.None? || inits.iInit.None? || exit + 1 >= |code| then None else
    var countLoc := inits.countLoc.value;
    var long := body + 12 == backedge;
    var update :- if body + 8 == backedge then ShortUpdate(code, body, countLoc, iLoc)
                  else if long then LongUpdate(code, body, countLoc, iLoc) else None;
    var inc := if long then body + 8 else body + 4;
    var step :- StepOf(code, inc, iLoc);
    if !LoadsLocal(code[exit], countLoc) || !code[exit + 1].op.Return? || code[exit + 1].dst != code[exit].dst then None else
    Some(Counted(iLoc, inits.iInit.value, RegI32(code[start + 1]), code[start + 2].op.op, step,
                 countLoc, inits.countInit, update, start, body, inc, backedge, exit))
  }

  function Recognize(code: seq<RegInstruction>): Option<Counted> {
    if |code| < 19 then None else
    var backedge :- FirstLoopJump(code, 0);
    var start := code[backedge].src1;
    if start + 4 > backedge || !LoopHead(code, start) then None else
    var exit := code[start + 3].src1;
    if exit + 1 >= |code| || exit <= backedge then None else
    var inits :- ScanInits(code, 0, start, U8(code[start].src1), Inits(None, 0, None));
    RecognizeBody(code, start, backedge, inits)
  }

  // ---------------------------------------------------------------------------
  // The closed form, in checked 128-bit arithmetic
  // ---------------------------------------------------------------------------

  const I128_MAX: int := 0x7fff_ffff_ffff_ffff_ffff_ffff_ffff_ffff

  function I128(x: int): Option<int> {
    if -I128_MAX - 1 <= x <= I128_MAX then Some(x) else None
  }

  /** `n * (n - 1) / 2`, halving the even factor first. */
  function PairCount(n: nat): Option<int> {
    if n == 0 then Some(0)
    else if n % 2 == 0 then I128((n / 2) * (n - 1))
    else I128(n * ((n - 1) / 2))
  }

  function InductionSum(iInit: int32, step: int32, n: nat): Option<int> {
    var pairs :- PairCount(n);
    var base :- I128(iInit * n);
    var slope :- I128(step * pairs);
    I128(base + slope)
  }

  function FinalCount(l: Counted, n: nat): Option<int> {
    var sum :- InductionSum(l.iInit, l.step, n);
    match l.update
    case ConstStep(c) =>
      var d :- I128(c * n);
      I128(l.countInit + d)
    case Induction => I128(l.countInit + sum)
    case Affine(mul, add) =>
      var scaled :- I128(mul * sum);
      var shift :- I128(add * n);
      var affine :- I128(scaled + shift);
      I128(l.countInit + affine)
  }

  function FoldLoop(l: Counted): Option<Value> {
    var n :- Iterations(l.iInit, l.limit, l.step, l.cmp);
    var count :- FinalCount(l, n);
    var travelled :- I128(l.step * n);
    var i :- I128(l.iInit + travelled);
    if !IsInt32(i) || count < -I64_MAX - 1 || count > I64_MAX then None else JsNumber(count)
  }

  function FoldCounted(code: seq<RegInstruction>): Option<Value> {
    var l :- Recognize(code);
    FoldLoop(l)
  }

  /** The recognizer as it scans: a loop over the initializer pairs. */
  method CompileConstantCountedLoop(code: seq<RegInstruction>) returns (r: Option<Value>)
    ensures r == FoldCounted(code)
  {
    hide FoldLoop, RecognizeBody, AddInit;
    if |code| < 19 {
      return None;
    }
    var backedge := FirstLoopJump(code, 0);
    if backedge.None? || code[backedge.value].src1 as int + 4 > backedge.value {
      return None;
    }
    var start: nat := code[backedge.value].src1;
    if !LoopHead(code, start) || code[start + 3].src1 as int + 1 >= |code| || code[start + 3].src1 <= backedge.value {
      return None;
    }
    var iLoc := U8(code[start].src1);
    var inits := Inits(None, 0, None);
    var idx: nat := 0;
    while idx + 1 < start
      invariant ScanInits(code, 0, start, iLoc, Inits(None, 0, None)) == ScanInits(code, idx, start, iLoc, inits)
    {
      var next := AddInit(inits, code[idx], code[idx + 1], iLoc);
      if next.None? {
        return None;
      }
      inits, idx := next.value, idx + 2;
    }
    if idx != start {
      return None;
    }
    var l := RecognizeBody(code, start, backedge.value, inits);
    r := if l.None? then None else FoldLoop(l.value);
  }

  // ---------------------------------------------------------------------------
  // What the loop computes
  // ---------------------------------------------------------------------------

  function InductionAt(l: Counted, k: nat): int {
    l.iInit + k * l.step
  }

  function Delta(update: Update, i: int): int {
    match update
    case ConstStep(c) => c
    case Induction => i
    case Affine(mul, add) => i * mul + add
  }

  /** The accumulator after `k` rounds. */
  function CountAt(l: Counted, k: nat): int {
    if k == 0 then l.countInit else CountAt(l, k - 1) + Delta(l.update, InductionAt(l, k - 1))
  }

  /** No intermediate of round `k` needs rounding. */
  predicate SafeRound(l: Counted, k: nat) {
    && IsSafe(CountAt(l, k + 1))
    && (l.update.Affine? ==>
          IsSafe(InductionAt(l, k) * l.update.mul) && IsSafe(CountAt(l, k) + InductionAt(l, k) * l.update.mul))
  }

  ghost predicate SafeFrom(l: Counted, k: nat, n: nat) {
    forall j: nat :: k <= j < n ==> SafeRound(l, j)
  }

  function Triangle(n: nat): nat {
    if n == 0 then 0 else Triangle(n - 1) + n - 1
  }

  lemma {:induction false} TriangleHalves(n: nat)
    ensures 2 * Triangle(n) == n * (n - 1)
  {
    if n > 0 {
      TriangleHalves(n - 1);
    }
  }

  lemma PairCountIsTriangle(n: nat)
    requires n <= TWO32
    ensures PairCount(n) == Some(Triangle(n))
    ensures Triangle(n) <= TWO32 * TWO32
  {
    TriangleHalves(n);
    if n > 0 {
      if n % 2 == 0 {
        var h := n / 2;
        assert n == 2 * h;
        assert 2 * (h * (n - 1)) == n * (n - 1);
      } else {
        var h := (n - 1) / 2;
        assert n - 1 == 2 * h;
        assert 2 * (n * h) == n * (n - 1);
      }
      MulBound(n, n - 1, TWO32, TWO32);
    }
  }

  lemma MulBound(a: int, b: int, x: int, y: int)
    requires -x <= a <= x && -y <= b <= y
    ensures -(x * y) <= a * b <= x * y
  {
    var p, q := if a < 0 then -a else a, if b < 0 then -b else b;
    MulMonotone(p, q, x, y);
    assert a * b == p * q || a * b == -(p * q);
  }

  lemma MulMonotone(p: nat, q: nat, x: nat, y: nat)
    requires p <= x && q <= y
    ensures p * q <= x * y
  {
    assert x * y == p * q + p * (y - q) + (x - p) * y;
  }

  /** Between two points of a line. */
  lemma LineBetween(a: int, c: int, k: nat, n: nat)
    requires k <= n
    ensures a <= a + c * k <= a + c * n || a + c * n <= a + c * k <= a
  {
    if c >= 0 {
      MulMonotone(k, c, n, c);
    } else {
      MulMonotone(k, -c, n, -c);
    }
  }

  /** A final counter in int32 means it never left int32. */
  lemma CounterStaysInt32(l: Counted, k: nat, n: nat)
    requires k <= n && IsInt32(InductionAt(l, n))
    ensures IsInt32(InductionAt(l, k))
  {
    LineBetween(l.iInit, l.step, k, n);
  }

  /** The induction values of the first `n` rounds, summed. */
  function InductionTotal(l: Counted, n: nat): int {
    l.iInit * n + l.step * Triangle(n)
  }

  lemma TotalStep(l: Counted, n: nat)
    requires n > 0
    ensures InductionTotal(l, n) == InductionTotal(l, n - 1) + InductionAt(l, n - 1)
  {
    Distribute(l.iInit, n - 1, 1);
    Distribute(l.step, Triangle(n - 1), n - 1);
  }

  lemma Distribute(a: int, b: int, c: int)
    ensures a * (b + c) == a * b + a * c
  {
  }

  /** The accumulator in closed form. */
  lemma {:induction false} CountClosedForm(l: Counted, n: nat)
    ensures CountAt(l, n) == l.countInit +
      match l.update
      case ConstStep(c) => c * n
      case Induction => InductionTotal(l, n)
      case Affine(mul, add) => mul * InductionTotal(l, n) + add * n
  {
    hide InductionTotal, InductionAt;
    if n > 0 {
      CountClosedForm(l, n - 1);
      TotalStep(l, n);
      match l.update
      case ConstStep(c) => Distribute(c, n - 1, 1);
      case Induction =>
      case Affine(mul, add) =>
        Distribute(mul, InductionTotal(l, n - 1), InductionAt(l, n - 1));
        Distribute(add, n - 1, 1);
    } else {
      assert InductionTotal(l, 0) == 0 by { TotalStart(l); }
    }
  }

  lemma TotalStart(l: Counted)
    ensures InductionTotal(l, 0) == 0
  {
  }

  const SUM_BOUND: int := 0x8000_0000_8000_0000_0000_0000

  lemma TotalBound(l: Counted, n: nat)
    requires n <= TWO32
    ensures InductionSum(l.iInit, l.step, n) == Some(InductionTotal(l, n))
    ensures -SUM_BOUND <= InductionTotal(l, n) <= SUM_BOUND
  {
    PairCountIsTriangle(n);
    MulBound(l.iInit, n, TWO31, TWO32);
    MulBound(l.step, Triangle(n), TWO31, TWO32 * TWO32);
  }

  lemma I128Bound(x: int)
    requires -0x7000_0000_0000_0000_0000_0000_0000_0000 <= x <= 0x7000_0000_0000_0000_0000_0000_0000_0000
    ensures I128(x) == Some(x)
  {
  }

  lemma AffineFits(l: Counted, n: nat, sum: int)
    requires n <= TWO32 && l.update.Affine?
    requires InductionSum(l.iInit, l.step, n) == Some(sum) && -SUM_BOUND <= sum <= SUM_BOUND
    ensures FinalCount(l, n) == Some(l.countInit + (l.update.mul * sum + l.update.add * n))
  {
    hide InductionSum, I128;
    var scaled, shift := l.update.mul * sum, l.update.add * n;
    MulBound(l.update.mul, sum, TWO31, SUM_BOUND);
    MulBound(l.update.add, n, TWO31, TWO32);
    I128Bound(scaled);
    I128Bound(shift);
    I128Bound(scaled + shift);
    I128Bound(l.countInit + (scaled + shift));
  }

  lemma ConstFits(l: Counted, n: nat, sum: int)
    requires n <= TWO32 && l.update.ConstStep?
    requires InductionSum(l.iInit, l.step, n) == Some(sum)
    ensures FinalCount(l, n) == Some(l.countInit + l.update.c * n)
  {
    hide InductionSum, I128;
    MulBound(l.update.c, n, TWO31, TWO32);
    I128Bound(l.update.c * n);
    I128Bound(l.countInit + l.update.c * n);
  }

  lemma InductionFits(l: Counted, n: nat, sum: int)
    requires n <= TWO32 && l.update.Induction?
    requires InductionSum(l.iInit, l.step, n) == Some(sum) && -SUM_BOUND <= sum <= SUM_BOUND
    ensures FinalCount(l, n) == Some(l.countInit + sum)
  {
    hide InductionSum, I128;
    I128Bound(l.countInit + sum);
  }

  /** With int32 constants no 128-bit operation overflows: only the final range
      tests can refuse a recognized loop. */
  lemma ArithmeticNeverFails(l: Counted, n: nat)
    requires n <= TWO32
    ensures FinalCount(l, n) == Some(CountAt(l, n))
    ensures I128(l.step * n) == Some(l.step * n)
    ensures I128(l.iInit + l.step * n) == Some(InductionAt(l, n))
  {
    hide InductionSum, InductionTotal, FinalCount, CountAt, I128;
    TotalBound(l, n);
    CountClosedForm(l, n);
    MulBound(l.step, n, TWO31, TWO32);
    I128Bound(l.step * n);
    I128Bound(l.iInit + l.step * n);
    match l.update
    case ConstStep(_) => ConstFits(l, n, InductionTotal(l, n));
    case Induction => InductionFits(l, n, InductionTotal(l, n));
    case Affine(_, _) => AffineFits(l, n, InductionTotal(l, n));
  }
}
