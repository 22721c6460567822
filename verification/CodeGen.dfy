/** The native back end: code layout, backpatching, and the choice of strategy. */
module CodeGen {
  import opened JsValues
  import opened Machines
  import opened RegisterCode
  import opened NativeCode
  import opened Baseline
  import opened NativeBytes

  // ---------------------------------------------------------------------------
  // Layout
  // ---------------------------------------------------------------------------

  predicate AllSupported(code: seq<RegInstruction>, n: nat)
    requires n <= |code|
  {
    forall i :: 0 <= i < n ==> Supported(code[i].op)
  }

  /** The instructions code is generated for: fifteen of the thirty-odd. */
  ghost predicate Templated(op: RegOp) {
    op in {PushI32, Mov, LoadLoc, StoreLoc, SetLoc, RegOp.Jmp, IfFalse, IfTrue, Return, ReturnUndef,
           Binary(Add), Binary(Lt), Binary(Lte), Binary(Gt), Binary(Gte)}
  }

  lemma SupportedExactly(code: seq<RegInstruction>)
    ensures AllSupported(code, |code|) <==> forall inst :: inst in code ==> Templated(inst.op)
  {
    if forall inst :: inst in code ==> Templated(inst.op) {
      forall i | 0 <= i < |code|
        ensures Supported(code[i].op)
      {
        assert code[i] in code;
      }
    }
  }

  /** Prologue and the first `n` templates, displacements still zero. */
  function Layout(code: seq<RegInstruction>, n: nat): (ops: seq<NOp>)
    requires n <= |code| && AllSupported(code, n)
  {
    if n == 0 then [MovR8Rdx, MovR9Rcx] else Layout(code, n - 1) + Template(code[n - 1], n - 1)
  }

  predicate IsGuard(op: NOp) {
    op.GuardEqual? || op.GuardNoOverflow?
  }

  lemma OperatorNotes(inst: RegInstruction, i: nat, d: nat)
    requires Supported(inst.op) && inst.op.Binary? && d < |Template(inst, i)| && IsGuard(Template(inst, i)[d])
    ensures d in {1, 3, 7}
    ensures Template(inst, i)[d].note == if d == 1 then Note(i, 0) else if d == 3 then Note(i, 1) else Note(i, 2)
  {
    hide Note;
  }

  lemma OtherNotes(inst: RegInstruction, i: nat, d: nat)
    requires Supported(inst.op) && !inst.op.Binary? && d < |Template(inst, i)| && IsGuard(Template(inst, i)[d])
    ensures d == 1 && Template(inst, i)[d].note == Note(i, 0)
  {
    hide Note, RegI32;
  }

  /** The number a guard leaves in eax is four times the index of its instruction,
      plus 0, 1 or 2 for the first, second and third guard of a template. */
  lemma NotesNameGuards(inst: RegInstruction, i: nat, d: nat)
    requires Supported(inst.op) && i < 0x4000_0000 && d < |Template(inst, i)| && IsGuard(Template(inst, i)[d])
    ensures d in {1, 3, 7}
    ensures Template(inst, i)[d].note == 4 * i + if d == 1 then 0 else if d == 3 then 1 else 2
  {
    hide Template;
    if inst.op.Binary? {
      OperatorNotes(inst, i, d);
    } else {
      OtherNotes(inst, i, d);
    }
  }

  /** So the number tells which guard of which instruction gave up. */
  lemma NotesTellGuards(a: RegInstruction, i: nat, d: nat, b: RegInstruction, j: nat, e: nat)
    requires Supported(a.op) && i < 0x4000_0000 && d < |Template(a, i)| && IsGuard(Template(a, i)[d])
    requires Supported(b.op) && j < 0x4000_0000 && e < |Template(b, j)| && IsGuard(Template(b, j)[e])
    ensures Template(a, i)[d].note == Template(b, j)[e].note <==> i == j && d == e
  {
    hide Template;
    NotesNameGuards(a, i, d);
    NotesNameGuards(b, j, e);
  }

  function Clamp(target: nat, end: nat): (r: nat)
    ensures r <= end
  {
    if target >= end then end else target
  }

  /** The program index instruction `op` of template `i` jumps to; the program
      length stands for the bailout block. */
  function Goal(code: seq<RegInstruction>, i: nat, op: NOp): (r: nat)
    requires i < |code|
    ensures r <= |code|
  {
    if IsGuard(op) || !IsJumpOp(op) then |code| else Clamp(code[i].src1, |code|)
  }

  function TemplateGoals(code: seq<RegInstruction>, i: nat): (gs: seq<nat>)
    requires i < |code| && Supported(code[i].op)
    ensures |gs| == |Template(code[i], i)|
    ensures forall d :: 0 <= d < |gs| ==> gs[d] == Goal(code, i, Template(code[i], i)[d])
  {
    var t := Template(code[i], i);
    seq(|t|, d requires 0 <= d < |t| => Goal(code, i, t[d]))
  }

  function Goals(code: seq<RegInstruction>, n: nat): (gs: seq<nat>)
    requires n <= |code| && AllSupported(code, n)
    ensures |gs| == |Layout(code, n)|
    ensures forall k :: 0 <= k < |gs| ==> gs[k] <= |code|
  {
    if n == 0 then [|code|, |code|] else Goals(code, n - 1) + TemplateGoals(code, n - 1)
  }

  function Starts(code: seq<RegInstruction>): (starts: seq<nat>)
    requires AllSupported(code, |code|)
    ensures |starts| == |code| + 1 && forall i :: 0 <= i <= |code| ==> starts[i] == |Layout(code, i)|
  {
    seq(|code| + 1, i requires 0 <= i <= |code| => |Layout(code, i)|)
  }

  function Bailout(): seq<NOp> {
    [MovRdx(TAG_UNINITIALIZED), Ret]
  }

  function Unpatched(code: seq<RegInstruction>): (ops: seq<NOp>)
    requires AllSupported(code, |code|)
  {
    Layout(code, |code|) + Bailout()
  }

  lemma {:induction false} LayoutGrows(code: seq<RegInstruction>, i: nat, n: nat)
    requires i <= n <= |code| && AllSupported(code, n)
    ensures |Layout(code, i)| <= |Layout(code, n)| && Layout(code, i) == Layout(code, n)[..|Layout(code, i)|]
    ensures Goals(code, i) == Goals(code, n)[..|Layout(code, i)|]
    ensures |Layout(code, i)| >= 2
    decreases n
  {
    hide Template, TemplateGoals;
    if i < n {
      LayoutGrows(code, i, n - 1);
    } else if n > 0 {
      LayoutGrows(code, n - 1, n - 1);
    }
  }

  lemma LayoutStep(code: seq<RegInstruction>, i: nat)
    requires i < |code| && AllSupported(code, i + 1)
    ensures Layout(code, i + 1) == Layout(code, i) + Template(code[i], i)
    ensures Goals(code, i + 1) == Goals(code, i) + TemplateGoals(code, i)
  {
    hide Template;
  }

  lemma LayoutAt(code: seq<RegInstruction>, i: nat, d: nat)
    requires AllSupported(code, |code|) && i < |code| && d < |Template(code[i], i)|
    ensures
      var k := |Layout(code, i)| + d;
      && k < |Layout(code, |code|)|
      && Layout(code, |code|)[k] == Template(code[i], i)[d]
      && Goals(code, |code|)[k] == Goal(code, i, Template(code[i], i)[d])
  {
    hide Template, Goal, Layout, Goals;
    LayoutGrows(code, i + 1, |code|);
    LayoutStep(code, i);
    var k, n := |Layout(code, i)| + d, |Layout(code, i + 1)|;
    assert Layout(code, |code|)[k] == Layout(code, |code|)[..n][k];
    assert Goals(code, |code|)[k] == Goals(code, |code|)[..n][k];
  }

  /** Start of the template or bailout block instruction `k` jumps to. */
  function TargetOf(code: seq<RegInstruction>, k: nat): (t: nat)
    requires AllSupported(code, |code|) && k < |Unpatched(code)|
    ensures t <= |Unpatched(code)|
  {
    var end := |Layout(code, |code|)|;
    if k < end then
      LayoutGrows(code, Goals(code, |code|)[k], |code|);
      |Layout(code, Goals(code, |code|)[k])|
    else end
  }

  function ResolvedAt(code: seq<RegInstruction>, k: nat): (op: NOp)
    requires AllSupported(code, |code|) && k < |Unpatched(code)|
    ensures Length(op) == Length(Unpatched(code)[k])
  {
    Fix(Unpatched(code)[k], Displacement(Unpatched(code), k, TargetOf(code, k)))
  }

  /** The finished code. */
  function Assemble(code: seq<RegInstruction>): (ops: seq<NOp>)
    requires AllSupported(code, |code|)
    ensures |ops| == |Unpatched(code)| && forall k :: 0 <= k < |ops| ==> ops[k] == ResolvedAt(code, k)
  {
    seq(|Unpatched(code)|, k requires 0 <= k < |Unpatched(code)| => ResolvedAt(code, k))
  }

  lemma {:induction false} SameOffsets(a: seq<NOp>, b: seq<NOp>, k: nat)
    requires |a| == |b| && k <= |a| && forall j :: 0 <= j < |a| ==> Length(a[j]) == Length(b[j])
    ensures Off(a, k) == Off(b, k)
    decreases k
  {
    hide Length;
    if k > 0 {
      SameOffsets(a, b, k - 1);
    }
  }

  lemma AssembledDisplacement(code: seq<RegInstruction>, k: nat, target: nat)
    requires AllSupported(code, |code|) && k < |Assemble(code)| && target <= |Assemble(code)|
    ensures Displacement(Assemble(code), k, target) == Displacement(Unpatched(code), k, target)
  {
    hide Length, Off, Template;
    SameOffsets(Assemble(code), Unpatched(code), target);
    SameOffsets(Assemble(code), Unpatched(code), k + 1);
  }

  /** The layout is what the run of templates was proved about. */
  lemma AssembleIsAssembled(code: seq<RegInstruction>)
    requires AllSupported(code, |code|)
    ensures Assembled(code, Assemble(code), Starts(code))
  {
    hide Template, Displacement, Goals, Layout, Goal, Fix;
    var ops, starts := Assemble(code), Starts(code);
    LayoutGrows(code, 0, |code|);
    LayoutStart(code);
    BailoutKept(code);
    forall i: nat | i < |code|
      ensures Laid(code, ops, starts, i)
    {
      LayoutNext(code, i);
      forall d: nat | d < |Template(code[i], i)|
        ensures Baseline.Placed(code, ops, starts, i, d)
      {
        PlacedAt(code, i, d);
      }
    }
  }

  lemma LayoutStart(code: seq<RegInstruction>)
    ensures Layout(code, 0) == [MovR8Rdx, MovR9Rcx]
  {
  }

  lemma LayoutNext(code: seq<RegInstruction>, i: nat)
    requires i < |code| && AllSupported(code, i + 1)
    ensures |Layout(code, i + 1)| == |Layout(code, i)| + |Template(code[i], i)|
  {
    hide Template;
  }

  lemma BailoutKept(code: seq<RegInstruction>)
    requires AllSupported(code, |code|)
    ensures
      var ops, end := Assemble(code), |Layout(code, |code|)|;
      |ops| == end + 2 && end >= 2 && ops[end] == MovRdx(TAG_UNINITIALIZED) && ops[end + 1] == Ret
      && ops[0] == MovR8Rdx && ops[1] == MovR9Rcx
  {
    hide Template, Displacement, Goals, Goal, Layout;
    LayoutGrows(code, 0, |code|);
    LayoutStart(code);
    assert Unpatched(code)[0] == MovR8Rdx && Unpatched(code)[1] == MovR9Rcx;
  }

  lemma PlacedAt(code: seq<RegInstruction>, i: nat, d: nat)
    requires AllSupported(code, |code|) && i < |code| && d < |Template(code[i], i)|
    ensures Baseline.Placed(code, Assemble(code), Starts(code), i, d)
  {
    hide Template, Displacement, Goals, Layout;
    var k, op := |Layout(code, i)| + d, Template(code[i], i)[d];
    LayoutAt(code, i, d);
    var target := Target(code, Starts(code), i, op);
    var t := Clamp(code[i].src1, |code|);
    LayoutGrows(code, t, |code|);
    LayoutGrows(code, |code|, |code|);
    assert target <= |Assemble(code)|;
    AssembledDisplacement(code, k, target);
  }

  // ---------------------------------------------------------------------------
  // Emission
  // ---------------------------------------------------------------------------

  predicate SiteAt(ops: seq<NOp>, k: nat, at: int) {
    k < |ops| && IsJumpOp(ops[k]) && at == Window(ops, k)
  }

  /** Buffer and patch lists while the instructions `ops`, with goals `gs`, are
      out: every jump has one pending patch, at its own window. */
  ghost predicate Recorded(end: nat, ops: seq<NOp>, gs: seq<nat>, buf: seq<byte>,
                           bails: seq<int>, bailSites: seq<nat>, jumps: seq<(int, nat)>, jumpSites: seq<nat>)
  {
    && |gs| == |ops| && buf == EncodeAll(ops)
    && |bails| == |bailSites| && |jumps| == |jumpSites|
    && (forall j :: 0 <= j < |bails| ==> SiteAt(ops, bailSites[j], bails[j]) && IsGuard(ops[bailSites[j]]))
    && (forall j :: 0 <= j < |jumps| ==>
          SiteAt(ops, jumpSites[j], jumps[j].0) && !IsGuard(ops[jumpSites[j]]) && gs[jumpSites[j]] == Clamp(jumps[j].1, end))
    && (forall k :: 0 <= k < |ops| && IsGuard(ops[k]) ==> k in bailSites && gs[k] == end)
    && (forall k :: 0 <= k < |ops| && IsJumpOp(ops[k]) && !IsGuard(ops[k]) ==> k in jumpSites)
  }

  lemma SiteStays(ops: seq<NOp>, op: NOp, k: nat, at: int)
    requires SiteAt(ops, k, at)
    ensures SiteAt(ops + [op], k, at)
  {
    hide Length, Off;
    var all := ops + [op];
    assert all[..|ops|] == ops;
    OffPrefix(all, |ops|, k + 1);
  }

  lemma SiteAdded(ops: seq<NOp>, op: NOp)
    ensures EncodeAll(ops + [op]) == EncodeAll(ops) + Encode(op)
    ensures IsJumpOp(op) ==> SiteAt(ops + [op], |ops|, |EncodeAll(ops + [op])| - 4)
  {
    hide Length, Encode;
    var all := ops + [op];
    assert all[..|ops|] == ops;
  }

  lemma RecordPlain(end: nat, ops: seq<NOp>, gs: seq<nat>, buf: seq<byte>, bails: seq<int>, bailSites: seq<nat>,
                    jumps: seq<(int, nat)>, jumpSites: seq<nat>, op: NOp, g: nat)
    requires Recorded(end, ops, gs, buf, bails, bailSites, jumps, jumpSites) && !IsJumpOp(op)
    ensures Recorded(end, ops + [op], gs + [g], buf + Encode(op), bails, bailSites, jumps, jumpSites)
  {
    hide SiteAt, Encode, EncodeAll;
    SiteAdded(ops, op);
    forall j | 0 <= j < |bails| ensures SiteAt(ops + [op], bailSites[j], bails[j]) { SiteStays(ops, op, bailSites[j], bails[j]); }
    forall j | 0 <= j < |jumps| ensures SiteAt(ops + [op], jumpSites[j], jumps[j].0) { SiteStays(ops, op, jumpSites[j], jumps[j].0); }
    SitesInside(ops, bails, bailSites);
    SitesInside(ops, seq(|jumps|, j requires 0 <= j < |jumps| => jumps[j].0), jumpSites);
  }

  lemma SitesInside(ops: seq<NOp>, ats: seq<int>, sites: seq<nat>)
    requires |ats| == |sites| && forall j :: 0 <= j < |ats| ==> SiteAt(ops, sites[j], ats[j])
    ensures forall j :: 0 <= j < |sites| ==> sites[j] < |ops|
  {
  }

  lemma RecordGuard(end: nat, ops: seq<NOp>, gs: seq<nat>, buf: seq<byte>, bails: seq<int>, bailSites: seq<nat>,
                    jumps: seq<(int, nat)>, jumpSites: seq<nat>, op: NOp)
    requires Recorded(end, ops, gs, buf, bails, bailSites, jumps, jumpSites) && IsGuard(op)
    ensures Recorded(end, ops + [op], gs + [end], buf + Encode(op), bails + [|buf + Encode(op)| - 4], bailSites + [|ops|], jumps, jumpSites)
  {
    hide SiteAt, Encode, EncodeAll;
    SiteAdded(ops, op);
    forall j | 0 <= j < |bails| ensures SiteAt(ops + [op], bailSites[j], bails[j]) { SiteStays(ops, op, bailSites[j], bails[j]); }
    forall j | 0 <= j < |jumps| ensures SiteAt(ops + [op], jumpSites[j], jumps[j].0) { SiteStays(ops, op, jumpSites[j], jumps[j].0); }
    SitesInside(ops, bails, bailSites);
    SitesInside(ops, seq(|jumps|, j requires 0 <= j < |jumps| => jumps[j].0), jumpSites);
    assert |ops| in bailSites + [|ops|];
  }

  lemma RecordJump(end: nat, ops: seq<NOp>, gs: seq<nat>, buf: seq<byte>, bails: seq<int>, bailSites: seq<nat>,
                   jumps: seq<(int, nat)>, jumpSites: seq<nat>, op: NOp, target: nat)
    requires Recorded(end, ops, gs, buf, bails, bailSites, jumps, jumpSites) && IsJumpOp(op) && !IsGuard(op)
    ensures Recorded(end, ops + [op], gs + [Clamp(target, end)], buf + Encode(op), bails, bailSites,
                     jumps + [(|buf + Encode(op)| - 4, target)], jumpSites + [|ops|])
  {
    hide SiteAt, Encode, EncodeAll;
    SiteAdded(ops, op);
    forall j | 0 <= j < |bails| ensures SiteAt(ops + [op], bailSites[j], bails[j]) { SiteStays(ops, op, bailSites[j], bails[j]); }
    forall j | 0 <= j < |jumps| ensures SiteAt(ops + [op], jumpSites[j], jumps[j].0) { SiteStays(ops, op, jumpSites[j], jumps[j].0); }
    SitesInside(ops, bails, bailSites);
    SitesInside(ops, seq(|jumps|, j requires 0 <= j < |jumps| => jumps[j].0), jumpSites);
    assert |ops| in jumpSites + [|ops|];
  }

  /** Appends one template to the buffer and its pending patches to the lists. */
  method EmitTemplate(code: seq<RegInstruction>, i: nat, buf0: seq<byte>, bails0: seq<int>, jumps0: seq<(int, nat)>,
                      ghost bailSites0: seq<nat>, ghost jumpSites0: seq<nat>)
    returns (buf: seq<byte>, bails: seq<int>, jumps: seq<(int, nat)>, ghost bailSites: seq<nat>, ghost jumpSites: seq<nat>)
    requires i < |code| && AllSupported(code, i + 1)
    requires Recorded(|code|, Layout(code, i), Goals(code, i), buf0, bails0, bailSites0, jumps0, jumpSites0)
    ensures buf == EncodeAll(Layout(code, i + 1))
    ensures Recorded(|code|, Layout(code, i + 1), Goals(code, i + 1), buf, bails, bailSites, jumps, jumpSites)
  {
    hide Recorded, Template, Encode, EncodeAll, Layout, Goals;
    buf, bails, jumps, bailSites, jumpSites := buf0, bails0, jumps0, bailSites0, jumpSites0;
    var t := Template(code[i], i);
    ghost var gs := TemplateGoals(code, i);
    var d := 0;
    assert Layout(code, i) + t[..0] == Layout(code, i) && Goals(code, i) + gs[..0] == Goals(code, i);
    while d < |t|
      invariant 0 <= d <= |t|
      invariant Recorded(|code|, Layout(code, i) + t[..d], Goals(code, i) + gs[..d], buf, bails, bailSites, jumps, jumpSites)
    {
      ghost var ops, goals := Layout(code, i) + t[..d], Goals(code, i) + gs[..d];
      assert Layout(code, i) + t[..d + 1] == ops + [t[d]] && Goals(code, i) + gs[..d + 1] == goals + [gs[d]];
      if IsGuard(t[d]) {
        RecordGuard(|code|, ops, goals, buf, bails, bailSites, jumps, jumpSites, t[d]);
        buf := buf + Encode(t[d]);
        bails, bailSites := bails + [|buf| - 4], bailSites + [|ops|];
      } else if IsJumpOp(t[d]) {
        RecordJump(|code|, ops, goals, buf, bails, bailSites, jumps, jumpSites, t[d], code[i].src1);
        buf := buf + Encode(t[d]);
        jumps, jumpSites := jumps + [(|buf| - 4, code[i].src1)], jumpSites + [|ops|];
      } else {
        RecordPlain(|code|, ops, goals, buf, bails, bailSites, jumps, jumpSites, t[d], gs[d]);
        buf := buf + Encode(t[d]);
      }
      d := d + 1;
    }
    assert t[..|t|] == t && gs[..|t|] == gs;
    LayoutStep(code, i);
    RecordedBuffer(code, i + 1, buf, bails, bailSites, jumps, jumpSites);
  }

  // ---------------------------------------------------------------------------
  // Backpatching
  // ---------------------------------------------------------------------------

  /** The code with the displacements of the instructions in `done` filled in. */
  ghost predicate Patched(code: seq<RegInstruction>, ops: seq<NOp>, done: set<nat>)
    requires AllSupported(code, |code|)
  {
    && |ops| == |Unpatched(code)|
    && (forall k :: 0 <= k < |ops| && k in done ==> ops[k] == ResolvedAt(code, k))
    && (forall k :: 0 <= k < |ops| && k !in done ==> ops[k] == Unpatched(code)[k])
  }

  lemma PatchedOffsets(code: seq<RegInstruction>, ops: seq<NOp>, done: set<nat>, k: nat)
    requires AllSupported(code, |code|) && Patched(code, ops, done) && k <= |ops|
    ensures Off(ops, k) == Off(Unpatched(code), k)
  {
    hide ResolvedAt, Unpatched, Length;
    forall j | 0 <= j < |ops|
      ensures Length(ops[j]) == Length(Unpatched(code)[j])
    {
    }
    SameOffsets(ops, Unpatched(code), k);
  }

  lemma FixTwice(op: NOp, a: int, b: int)
    ensures Fix(Fix(op, a), b) == Fix(op, b)
    ensures IsJumpOp(Fix(op, a)) == IsJumpOp(op)
  {
  }

  lemma PatchOne(code: seq<RegInstruction>, ops: seq<NOp>, done: set<nat>, k: nat, at: int, rel: int)
    requires AllSupported(code, |code|) && Patched(code, ops, done)
    requires SiteAt(Unpatched(code), k, at) && rel == Displacement(Unpatched(code), k, TargetOf(code, k))
    ensures k < |ops| && k < |Unpatched(code)| && 0 <= at && at + 4 <= |EncodeAll(ops)|
    ensures Patched(code, ops[k := ResolvedAt(code, k)], done + {k})
    ensures Patch(EncodeAll(ops), at, rel) == EncodeAll(ops[k := ResolvedAt(code, k)])
  {
    hide Unpatched, TargetOf, Displacement, Fix, Off, EncodeAll, Patch;
    PatchedOffsets(code, ops, done, k + 1);
    FixTwice(Unpatched(code)[k], rel, rel);
    PatchEncodes(ops, k, rel);
  }

  lemma AllPatched(code: seq<RegInstruction>, ops: seq<NOp>, done: set<nat>)
    requires AllSupported(code, |code|) && Patched(code, ops, done)
    requires forall k :: 0 <= k < |ops| && IsJumpOp(Unpatched(code)[k]) ==> k in done
    ensures ops == Assemble(code)
  {
    hide Unpatched, TargetOf, Displacement;
    forall k | 0 <= k < |ops|
      ensures ops[k] == ResolvedAt(code, k)
    {
    }
  }

  /** Byte offsets of the templates, as recorded during emission. */
  ghost predicate OffsetsOf(code: seq<RegInstruction>, offsets: seq<nat>)
    requires |offsets| <= |code| && AllSupported(code, |offsets|)
  {
    forall i :: 0 <= i < |offsets| ==> offsets[i] == |EncodeAll(Layout(code, i))|
  }

  lemma OffsetIs(code: seq<RegInstruction>, i: nat)
    requires AllSupported(code, |code|) && i <= |code|
    ensures |Layout(code, i)| <= |Unpatched(code)| && |EncodeAll(Layout(code, i))| == Off(Unpatched(code), |Layout(code, i)|)
  {
    hide Layout, EncodeAll, Length;
    LayoutGrows(code, i, |code|);
    var n, u := |Layout(code, i)|, Unpatched(code);
    assert u[..n] == Layout(code, i);
    OffPrefix(u, n, n);
  }

  /** What the recorded lists say about the finished layout. */
  ghost predicate Pending(code: seq<RegInstruction>, bails: seq<int>, bailSites: seq<nat>, jumps: seq<(int, nat)>, jumpSites: seq<nat>)
    requires AllSupported(code, |code|)
  {
    var u, end := Unpatched(code), |Layout(code, |code|)|;
    && |bails| == |bailSites| && |jumps| == |jumpSites|
    && (forall j :: 0 <= j < |bails| ==> SiteAt(u, bailSites[j], bails[j]) && TargetOf(code, bailSites[j]) == end)
    && (forall j :: 0 <= j < |jumps| ==> SiteAt(u, jumpSites[j], jumps[j].0) && GoesTo(code, jumpSites[j], Clamp(jumps[j].1, |code|)))
    && (forall k :: 0 <= k < |u| && IsJumpOp(u[k]) ==> k in bailSites || k in jumpSites)
  }

  predicate GoesTo(code: seq<RegInstruction>, k: nat, i: nat)
    requires AllSupported(code, |code|)
  {
    k < |Unpatched(code)| && i <= |code| && TargetOf(code, k) == |Layout(code, i)|
  }

  lemma RecordedIsPending(code: seq<RegInstruction>, buf: seq<byte>, bails: seq<int>, bailSites: seq<nat>,
                          jumps: seq<(int, nat)>, jumpSites: seq<nat>) returns (whole: seq<byte>)
    requires AllSupported(code, |code|)
    requires Recorded(|code|, Layout(code, |code|), Goals(code, |code|), buf, bails, bailSites, jumps, jumpSites)
    ensures whole == buf + Encode(MovRdx(TAG_UNINITIALIZED)) + Encode(Ret) && whole == EncodeAll(Unpatched(code))
    ensures Pending(code, bails, bailSites, jumps, jumpSites)
  {
    hide Layout, Goals, Encode, EncodeAll, SiteAt;
    var ops, gs, n := Layout(code, |code|), Goals(code, |code|), |code|;
    RecordPlain(n, ops, gs, buf, bails, bailSites, jumps, jumpSites, MovRdx(TAG_UNINITIALIZED), n);
    var buf1 := buf + Encode(MovRdx(TAG_UNINITIALIZED));
    RecordPlain(n, ops + [MovRdx(TAG_UNINITIALIZED)], gs + [n], buf1, bails, bailSites, jumps, jumpSites, Ret, n);
    whole := buf1 + Encode(Ret);
    assert Unpatched(code) == ops + [MovRdx(TAG_UNINITIALIZED)] + [Ret];
    SitesInside(ops, bails, bailSites);
    SitesInside(ops, seq(|jumps|, j requires 0 <= j < |jumps| => jumps[j].0), jumpSites);
  }

  /** Fills in every recorded displacement, in place: first the bailout jumps,
      then the program's own. */
  method Backpatch(code: seq<RegInstruction>, buf0: seq<byte>, bailoutPos: nat, offsets: seq<nat>, bails: seq<int>, jumps: seq<(int, nat)>,
                   ghost bailSites: seq<nat>, ghost jumpSites: seq<nat>)
    returns (buf: seq<byte>)
    requires AllSupported(code, |code|) && buf0 == EncodeAll(Unpatched(code))
    requires |offsets| == |code| && OffsetsOf(code, offsets) && bailoutPos == |EncodeAll(Layout(code, |code|))|
    requires Pending(code, bails, bailSites, jumps, jumpSites)
    ensures buf == EncodeAll(Assemble(code))
  {
    hide Patched, Unpatched, Layout, EncodeAll, Off, TargetOf, ResolvedAt, SiteAt, Assemble;
    buf := buf0;
    ghost var ops, done: set<nat> := Unpatched(code), {};
    PatchNone(code);
    var j := 0;
    while j < |bails|
      invariant 0 <= j <= |bails|
      invariant Patched(code, ops, done) && buf == EncodeAll(ops)
      invariant done == set i | 0 <= i < j :: bailSites[i]
    {
      var at := bails[j];
      ghost var k := bailSites[j];
      SiteEnd(code, k, at);
      OffsetIs(code, |code|);
      PatchOne(code, ops, done, k, at, bailoutPos - (at + 4));
      buf := Patch(buf, at, bailoutPos - (at + 4));
      ops, done := ops[k := ResolvedAt(code, k)], done + {k};
      j := j + 1;
    }
    ghost var first := done;
    j := 0;
    while j < |jumps|
      invariant 0 <= j <= |jumps|
      invariant Patched(code, ops, done) && buf == EncodeAll(ops)
      invariant done == first + set i | 0 <= i < j :: jumpSites[i]
    {
      var (at, target) := jumps[j];
      var targetPos := if target >= |offsets| then bailoutPos else offsets[target];
      ghost var k := jumpSites[j];
      SiteEnd(code, k, at);
      OffsetIs(code, Clamp(target, |code|));
      PatchOne(code, ops, done, k, at, targetPos - (at + 4));
      buf := Patch(buf, at, targetPos - (at + 4));
      ops, done := ops[k := ResolvedAt(code, k)], done + {k};
      j := j + 1;
    }
    EveryJumpPatched(code, bails, bailSites, jumps, jumpSites, ops, done);
  }

  lemma PatchNone(code: seq<RegInstruction>)
    requires AllSupported(code, |code|)
    ensures Patched(code, Unpatched(code), {})
  {
    hide Unpatched, ResolvedAt;
  }

  lemma SiteEnd(code: seq<RegInstruction>, k: nat, at: int)
    requires AllSupported(code, |code|) && SiteAt(Unpatched(code), k, at)
    ensures k < |Unpatched(code)| && at + 4 == Off(Unpatched(code), k + 1)
  {
    hide Unpatched, Off;
  }

  lemma EveryJumpPatched(code: seq<RegInstruction>, bails: seq<int>, bailSites: seq<nat>, jumps: seq<(int, nat)>, jumpSites: seq<nat>,
                         ops: seq<NOp>, done: set<nat>)
    requires AllSupported(code, |code|) && Patched(code, ops, done) && Pending(code, bails, bailSites, jumps, jumpSites)
    requires done == (set i | 0 <= i < |bails| :: bailSites[i]) + set i | 0 <= i < |jumps| :: jumpSites[i]
    ensures ops == Assemble(code)
  {
    hide Unpatched, Layout, TargetOf, ResolvedAt, SiteAt, Assemble;
    forall k | 0 <= k < |ops| && IsJumpOp(Unpatched(code)[k])
      ensures k in done
    {
      if k in bailSites {
        var i :| 0 <= i < |bailSites| && bailSites[i] == k;
      } else {
        var i :| 0 <= i < |jumpSites| && jumpSites[i] == k;
      }
    }
    AllPatched(code, ops, done);
  }

  /** The template code generator: one pass that emits, one that patches. */
  method CompileTemplates(code: seq<RegInstruction>) returns (r: Option<seq<byte>>)
    ensures r.Some? <==> AllSupported(code, |code|)
    ensures r.Some? ==> r.value == EncodeAll(Assemble(code))
  {
    hide Recorded, Layout, Goals, Encode, EncodeAll, Pending, Assemble, Unpatched;
    var buf, bails, jumps, offsets: seq<nat> := Encode(MovR8Rdx) + Encode(MovR9Rcx), [], [], [];
    ghost var bailSites, jumpSites := [], [];
    PrologueRecorded(code);
    var i := 0;
    while i < |code|
      invariant 0 <= i <= |code| && AllSupported(code, i)
      invariant |offsets| == i && OffsetsOf(code, offsets)
      invariant Recorded(|code|, Layout(code, i), Goals(code, i), buf, bails, bailSites, jumps, jumpSites)
    {
      RecordedBuffer(code, i, buf, bails, bailSites, jumps, jumpSites);
      offsets := offsets + [|buf|];
      if !Supported(code[i].op) {
        return None;
      }
      buf, bails, jumps, bailSites, jumpSites := EmitTemplate(code, i, buf, bails, jumps, bailSites, jumpSites);
      i := i + 1;
    }
    RecordedBuffer(code, |code|, buf, bails, bailSites, jumps, jumpSites);
    var bailoutPos := |buf|;
    ghost var whole := RecordedIsPending(code, buf, bails, bailSites, jumps, jumpSites);
    buf := buf + Encode(MovRdx(TAG_UNINITIALIZED)) + Encode(Ret);
    buf := Backpatch(code, buf, bailoutPos, offsets, bails, jumps, bailSites, jumpSites);
    r := Some(buf);
  }

  lemma RecordedBuffer(code: seq<RegInstruction>, i: nat, buf: seq<byte>, bails: seq<int>, bailSites: seq<nat>,
                       jumps: seq<(int, nat)>, jumpSites: seq<nat>)
    requires i <= |code| && AllSupported(code, i)
    requires Recorded(|code|, Layout(code, i), Goals(code, i), buf, bails, bailSites, jumps, jumpSites)
    ensures buf == EncodeAll(Layout(code, i))
  {
    hide Layout, Goals, EncodeAll, SiteAt;
  }

  lemma NothingRecorded(end: nat)
    ensures Recorded(end, [], [], [], [], [], [], [])
  {
    hide SiteAt, Encode;
    var empty: seq<NOp> := [];
    assert EncodeAll(empty) == [];
  }

  lemma PrologueRecorded(code: seq<RegInstruction>)
    ensures Recorded(|code|, Layout(code, 0), Goals(code, 0), Encode(MovR8Rdx) + Encode(MovR9Rcx), [], [], [], [])
  {
    hide Encode, EncodeAll, SiteAt, Recorded;
    var n, empty: seq<NOp> := |code|, [];
    NothingRecorded(n);
    RecordPlain(n, empty, [], [], [], [], [], [], MovR8Rdx, n);
    RecordPlain(n, empty + [MovR8Rdx], [] + [n], [] + Encode(MovR8Rdx), [], [], [], [], MovR9Rcx, n);
    assert empty + [MovR8Rdx] + [MovR9Rcx] == Layout(code, 0);
    assert [] + [n] + [n] == Goals(code, 0);
    assert [] + Encode(MovR8Rdx) + Encode(MovR9Rcx) == Encode(MovR8Rdx) + Encode(MovR9Rcx);
  }

  // ---------------------------------------------------------------------------
  // What the finished bytes look like
  // ---------------------------------------------------------------------------

  const MOST_INSTRUCTIONS: nat := 16_000_000

  lemma {:induction false} OffBound(ops: seq<NOp>, k: nat)
    requires k <= |ops|
    ensures Off(ops, k) <= 12 * k
    decreases k
  {
    if k > 0 {
      OffBound(ops, k - 1);
    }
  }

  lemma {:induction false} LayoutBound(code: seq<RegInstruction>, n: nat)
    requires n <= |code| && AllSupported(code, n)
    ensures |Layout(code, n)| <= 2 + 11 * n
    decreases n
  {
    hide Template;
    if n > 0 {
      LayoutBound(code, n - 1);
    }
  }

  /** No cast of a displacement to `i32` loses bits. */
  lemma DisplacementFits(code: seq<RegInstruction>, k: nat, target: nat)
    requires |code| <= MOST_INSTRUCTIONS && AllSupported(code, |code|)
    requires k < |Assemble(code)| && target <= |Assemble(code)|
    ensures IsInt32(Displacement(Assemble(code), k, target))
  {
    hide Layout, Off, Assemble;
    LayoutBound(code, |code|);
    OffBound(Assemble(code), target);
    OffBound(Assemble(code), k + 1);
  }

  /** Templates stand in program order, each strictly after the one before, and
      the bailout block after all of them. */
  lemma OffsetsIncrease(code: seq<RegInstruction>, i: nat, j: nat)
    requires AllSupported(code, |code|) && i < j <= |code|
    ensures
      var ops, starts := Assemble(code), Starts(code);
      starts[i] < starts[j] <= |ops| && Off(ops, starts[i]) < Off(ops, starts[j])
  {
    hide Layout, Template, Off;
    LayoutGrows(code, i + 1, j);
    LayoutGrows(code, j, |code|);
    LayoutNext(code, i);
    OffIncreases(Assemble(code), Starts(code)[i], Starts(code)[j]);
  }

  /** The displacement read from the buffer, counted from the end of its jump,
      lands on the first byte of the template it was meant for (or of the
      bailout block). */
  lemma JumpsLand(code: seq<RegInstruction>, k: nat)
    requires |code| <= MOST_INSTRUCTIONS && AllSupported(code, |code|)
    requires k < |Assemble(code)| && IsJumpOp(Assemble(code)[k])
    ensures
      var ops := Assemble(code);
      && 0 <= Window(ops, k) && Window(ops, k) + 4 <= |EncodeAll(ops)|
      && Off(ops, k + 1) + ReadLe32(EncodeAll(ops), Window(ops, k)) == Off(ops, TargetOf(code, k))
  {
    hide Assemble, Unpatched, TargetOf, Off, EncodeAll, ReadLe32, Displacement;
    var ops, target := Assemble(code), TargetOf(code, k);
    FixTwice(Unpatched(code)[k], 0, 0);
    assert ops[k] == ResolvedAt(code, k);
    HeadIgnoresDisplacement(Unpatched(code)[k], Displacement(Unpatched(code), k, target));
    AssembledDisplacement(code, k, target);
    DisplacementFits(code, k, target);
    WindowHoldsDisplacement(ops, k);
    DisplacementCloses(ops, k, target);
  }

  lemma DisplacementCloses(ops: seq<NOp>, k: nat, target: nat)
    requires k < |ops| && target <= |ops|
    ensures Off(ops, k + 1) + Displacement(ops, k, target) == Off(ops, target)
  {
    hide Off;
  }

  /** Patching writes nothing but the four placeholder bytes of each jump. */
  lemma OnlyWindowsChange(code: seq<RegInstruction>, k: nat, d: nat)
    requires AllSupported(code, |code|) && k < |Assemble(code)| && d < Length(Assemble(code)[k])
    ensures
      var before, after, at := EncodeAll(Unpatched(code)), EncodeAll(Assemble(code)), Off(Assemble(code), k) + d;
      && at < |before| && |before| == |after|
      && (IsJumpOp(Assemble(code)[k]) && at >= Window(Assemble(code), k) ==> before[at] == 0)
      && (!IsJumpOp(Assemble(code)[k]) || at < Window(Assemble(code), k) ==> before[at] == after[at])
  {
    hide Assemble, Unpatched, TargetOf, Off, EncodeAll, Displacement, Length, Encode, Fix, Layout, Le32;
    var u, ops := Unpatched(code), Assemble(code);
    assert forall j :: 0 <= j < |ops| ==> ops[j] == ResolvedAt(code, j);
    SameOffsets(ops, u, k);
    SameOffsets(ops, u, k + 1);
    SameOffsets(ops, u, |ops|);
    EncodeSplit(u, k);
    EncodeSplit(ops, k);
    if IsJumpOp(u[k]) {
      UnpatchedIsZero(code, k);
    }
    OneInstruction(u[k], Displacement(u, k, TargetOf(code, k)), d);
    var at := Off(ops, k) + d;
    assert EncodeAll(u)[at] == Encode(u[k])[d] && EncodeAll(ops)[at] == Encode(ops[k])[d];
  }

  lemma OneInstruction(op: NOp, rel: int, d: nat)
    requires d < Length(op) && (IsJumpOp(op) ==> op.rel == 0)
    ensures IsJumpOp(op) && d >= Length(op) - 4 ==> Encode(op)[d] == 0
    ensures !IsJumpOp(op) || d < Length(op) - 4 ==> Encode(op)[d] == Encode(Fix(op, rel))[d]
    ensures IsJumpOp(Fix(op, rel)) == IsJumpOp(op)
  {
    hide Length, EncodeSlot, EncodeMove, EncodeImmediate, JumpHead, Le32;
    if IsJumpOp(op) {
      HeadIgnoresDisplacement(op, rel);
      ZeroBytes();
    }
  }

  lemma ZeroBytes()
    ensures Le32(0) == [0, 0, 0, 0]
  {
  }

  lemma TemplateIsZero(inst: RegInstruction, i: nat, d: nat)
    requires Supported(inst.op) && d < |Template(inst, i)| && IsJumpOp(Template(inst, i)[d])
    ensures Template(inst, i)[d].rel == 0
  {
    hide Note, RegI32;
  }

  lemma {:induction false} LayoutIsZero(code: seq<RegInstruction>, n: nat, k: nat)
    requires n <= |code| && AllSupported(code, n) && k < |Layout(code, n)| && IsJumpOp(Layout(code, n)[k])
    ensures Layout(code, n)[k].rel == 0
    decreases n
  {
    hide Template;
    if n > 0 {
      var m := |Layout(code, n - 1)|;
      if k < m {
        LayoutIsZero(code, n - 1, k);
      } else {
        TemplateIsZero(code[n - 1], n - 1, k - m);
      }
    }
  }

  lemma UnpatchedIsZero(code: seq<RegInstruction>, k: nat)
    requires AllSupported(code, |code|) && k < |Unpatched(code)| && IsJumpOp(Unpatched(code)[k])
    ensures Unpatched(code)[k].rel == 0
  {
    hide Layout;
    if k < |Layout(code, |code|)| {
      LayoutIsZero(code, |code|, k);
    }
  }
}
