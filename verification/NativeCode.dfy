/** The x86-64 instructions the code generators use, and a machine that runs them. */
module NativeCode {
  import opened JsValues
  import opened Machines

  // ---------------------------------------------------------------------------
  // JSValue cells
  // ---------------------------------------------------------------------------

  /** The payload word of a `JSValue`. A 32-bit payload has zero upper bits. */
  datatype Payload = Low(u: uint32) | Double(n: safeint) | DoubleNaN | Address(id: nat)

  datatype Cell = Cell(payload: Payload, tag: int)

  const TAG_INT := 0
  const TAG_BOOL := 1
  const TAG_NULL := 2
  const TAG_UNDEFINED := 3
  const TAG_UNINITIALIZED := 4
  const TAG_FLOAT64 := 8

  function Enc(v: Value): Cell {
    match v
    case Int(i) => Cell(Low(U32(i)), TAG_INT)
    case Bool(b) => Cell(Low(if b then 1 else 0), TAG_BOOL)
    case Null => Cell(Low(0), TAG_NULL)
    case Undef => Cell(Low(0), TAG_UNDEFINED)
    case Uninit => Cell(Low(0), TAG_UNINITIALIZED)
    case Float(n) => Cell(Double(n), TAG_FLOAT64)
    case NaN => Cell(DoubleNaN, TAG_FLOAT64)
    case Ref(id) => Cell(Address(id), -1)
  }

  /** The value a cell stands for; tag and payload of every stored cell agree. */
  function Dec(c: Cell): Value {
    if c.tag == TAG_INT && c.payload.Low? then Int(S32(c.payload.u))
    else if c.tag == TAG_BOOL && c.payload.Low? then Bool(c.payload.u != 0)
    else if c.tag == TAG_NULL then Null
    else if c.tag == TAG_UNDEFINED then Undef
    else if c.tag == TAG_FLOAT64 && c.payload.Double? then Float(c.payload.n)
    else if c.tag == TAG_FLOAT64 then NaN
    else if c.tag == -1 && c.payload.Address? then Ref(c.payload.id)
    else Uninit
  }

  lemma DecEnc(v: Value)
    ensures Dec(Enc(v)) == v
  {
  }

  /** The engine's own tag numbers, with 0 and 1 for the booleans and the 32-bit
      word of an integer as payload. */
  lemma EngineTags(v: Value)
    ensures Enc(v).tag == 0 <==> v.Int?
    ensures Enc(v).tag == 1 <==> v.Bool?
    ensures Enc(v).tag == 2 <==> v == Null
    ensures Enc(v).tag == 3 <==> v == Undef
    ensures Enc(v).tag == 4 <==> v == Uninit
    ensures Enc(v).tag == 8 <==> v.Float? || v == NaN
    ensures Enc(v).tag < 0 <==> v.Ref?
    ensures v.Int? ==> Enc(v).payload == Low(if v.i < 0 then v.i + 0x1_0000_0000 else v.i)
    ensures v == Bool(true) ==> Enc(v).payload == Low(1)
    ensures v == Bool(false) ==> Enc(v).payload == Low(0)
  {
  }

  function EncAll(vs: seq<Value>): (cs: seq<Cell>)
    ensures |cs| == |vs| && forall i :: 0 <= i < |vs| ==> cs[i] == Enc(vs[i])
  {
    seq(|vs|, i requires 0 <= i < |vs| => Enc(vs[i]))
  }

  function DecAll(cs: seq<Cell>): (vs: seq<Value>)
    ensures |vs| == |cs| && forall i :: 0 <= i < |cs| ==> vs[i] == Dec(cs[i])
  {
    seq(|cs|, i requires 0 <= i < |cs| => Dec(cs[i]))
  }

  lemma DecEncAll(vs: seq<Value>)
    ensures DecAll(EncAll(vs)) == vs
  {
    forall i | 0 <= i < |vs|
      ensures DecAll(EncAll(vs))[i] == vs[i]
    {
      DecEnc(vs[i]);
    }
  }

  lemma EncUpdate(vs: seq<Value>, i: nat, v: Value)
    requires i < |vs|
    ensures EncAll(vs)[i := Enc(v)] == EncAll(vs[i := v])
  {
  }

  // ---------------------------------------------------------------------------
  // Instructions
  // ---------------------------------------------------------------------------

  datatype NOp =
    | MovR8Rdx | MovR9Rcx
    | StoreImm(slot: nat, imm: int32) | StoreTag(slot: nat, tag: int32)
    | LoadRax(slot: nat) | LoadRdx(slot: nat) | LoadRcx(slot: nat)
    | StoreRax(slot: nat) | StoreRdx(slot: nat)
    | LoadLocalRax(loc: nat) | LoadLocalRdx(loc: nat)
    | StoreLocalRax(loc: nat) | StoreLocalRdx(loc: nat)
    | CmpTag(slot: nat, tag: int32)
    | GuardEqual(note: uint32, rel: int) | GuardNoOverflow(note: uint32, rel: int)
    | AddEaxEcx | CmpEaxEcx | SetCc(op: BinOp) | MovzxEaxAl | CmpRaxZero
    | Jmp(rel: int) | JmpIf(equal: bool, rel: int) | Jge(rel: int)
    | Ret
    | MovRaxZero | MovRdx(tag: int32)
    | MovEax(imm: int32) | MovEcx(imm: int32) | MovEdx(imm: int32) | MovRaxDouble(n: safeint)
    | CmpEcx(imm: int32) | MovR10Ecx | MovR10Eax | MovR11Ecx | MovR11Eax
    | AndR10(imm: int32) | ShlR10(count: nat) | ShrR11(count: nat)
    | XorR10R11 | AddEaxR10 | XorEaxR10 | XorEaxR11 | IncEcx

  /** Encoded length in bytes. A guard is a short conditional jump over a
      ten-byte bailout path: load the note, jump to the bailout block. */
  function Length(op: NOp): (n: nat)
    ensures n >= 1
  {
    match op
    case MovR8Rdx | MovR9Rcx => 3
    case StoreImm(_, _) => 11
    case StoreTag(_, _) => 11
    case LoadRax(_) => 7
    case LoadRdx(_) => 7
    case LoadRcx(_) => 7
    case StoreRax(_) => 7
    case StoreRdx(_) => 7
    case LoadLocalRax(_) => 7
    case LoadLocalRdx(_) => 7
    case StoreLocalRax(_) => 7
    case StoreLocalRdx(_) => 7
    case CmpTag(_, _) => 8
    case GuardEqual(_, _) => 12
    case GuardNoOverflow(_, _) => 12
    case AddEaxEcx | CmpEaxEcx => 2
    case SetCc(_) => 3
    case MovzxEaxAl => 3
    case CmpRaxZero => 4
    case Jmp(_) => 5
    case JmpIf(_, _) => 6
    case Jge(_) => 6
    case Ret => 1
    case MovRaxZero => 7
    case MovRdx(_) => 7
    case MovEax(_) => 5
    case MovEcx(_) => 5
    case MovEdx(_) => 5
    case MovRaxDouble(_) => 10
    case CmpEcx(_) => 6
    case MovR10Ecx | MovR10Eax | MovR11Ecx | MovR11Eax => 3
    case AndR10(_) => 7
    case ShlR10(_) => 4
    case ShrR11(_) => 4
    case XorR10R11 | AddEaxR10 | XorEaxR10 | XorEaxR11 => 3
    case IncEcx => 2
  }

  /** Byte offset of instruction `k`. */
  function Off(ops: seq<NOp>, k: nat): nat
    requires k <= |ops|
  {
    if k == 0 then 0 else Off(ops, k - 1) + Length(ops[k - 1])
  }

  lemma {:induction false} OffIncreases(ops: seq<NOp>, j: nat, k: nat)
    requires j < k <= |ops|
    ensures Off(ops, j) + Length(ops[j]) <= Off(ops, k)
    decreases k
  {
    if j < k - 1 {
      OffIncreases(ops, j, k - 1);
    }
  }

  /** The instruction that starts at a byte offset, searching from `k`. */
  function FindOffset(ops: seq<NOp>, k: nat, at: int): Option<nat>
    requires k <= |ops|
    decreases |ops| - k
  {
    if Off(ops, k) == at then Some(k)
    else if k == |ops| then None
    else FindOffset(ops, k + 1, at)
  }

  lemma {:induction false} FindsOffset(ops: seq<NOp>, k: nat, j: nat)
    requires k <= j <= |ops|
    ensures FindOffset(ops, k, Off(ops, j)) == Some(j)
    decreases j - k
  {
    if k < j {
      OffIncreases(ops, k, j);
      FindsOffset(ops, k + 1, j);
    }
  }

  /** A displacement counts from the end of the jump. */
  function Landing(ops: seq<NOp>, k: nat, rel: int): Option<nat>
    requires k < |ops|
  {
    FindOffset(ops, 0, Off(ops, k + 1) + rel)
  }

  function Displacement(ops: seq<NOp>, k: nat, target: nat): int
    requires k < |ops| && target <= |ops|
  {
    Off(ops, target) - Off(ops, k + 1)
  }

  lemma LandsOn(ops: seq<NOp>, k: nat, target: nat)
    requires k < |ops| && target <= |ops|
    ensures Landing(ops, k, Displacement(ops, k, target)) == Some(target)
  {
    FindsOffset(ops, 0, target);
  }

  // ---------------------------------------------------------------------------
  // The machine
  // ---------------------------------------------------------------------------

  datatype Flags = Unset | Compared(a: int, b: int) | Overflow(hit: bool)

  /** `varBuf` says that r8 holds the address of the locals. */
  datatype Cpu = Cpu(rax: Payload, rcx: Payload, rdx: int, r10: uint32, r11: uint32, flags: Flags, varBuf: bool,
                     regs: seq<Cell>, locals: seq<Cell>)

  function WithReg(c: Cpu, slot: nat, cell: Cell): Cpu
    requires slot < |c.regs|
  {
    c.(regs := c.regs[slot := cell])
  }

  function WithLocal(c: Cpu, loc: nat, cell: Cell): Cpu
    requires loc < |c.locals|
  {
    c.(locals := c.locals[loc := cell])
  }

  /** Instructions that touch the register file; `None` when out of bounds. */
  function ExecSlot(op: NOp, c: Cpu): Option<Cpu>
    requires op.StoreImm? || op.StoreTag? || op.LoadRax? || op.LoadRdx? || op.LoadRcx? || op.StoreRax? || op.StoreRdx? || op.CmpTag?
  {
    if op.slot >= |c.regs| then None else
    var cell := c.regs[op.slot];
    match op
    case StoreImm(slot, imm) => Some(WithReg(c, slot, cell.(payload := Low(U32(imm)))))
    case StoreTag(slot, tag) => Some(WithReg(c, slot, cell.(tag := tag)))
    case LoadRax(_) => Some(c.(rax := cell.payload))
    case LoadRdx(_) => Some(c.(rdx := cell.tag))
    case LoadRcx(_) => Some(c.(rcx := cell.payload))
    case StoreRax(slot) => Some(WithReg(c, slot, cell.(payload := c.rax)))
    case StoreRdx(slot) => Some(WithReg(c, slot, cell.(tag := c.rdx)))
    case CmpTag(_, tag) => Some(c.(flags := Compared(cell.tag, tag)))
  }

  function ExecLocal(op: NOp, c: Cpu): Option<Cpu>
    requires op.LoadLocalRax? || op.LoadLocalRdx? || op.StoreLocalRax? || op.StoreLocalRdx?
  {
    if !c.varBuf || op.loc >= |c.locals| then None else
    var cell := c.locals[op.loc];
    match op
    case LoadLocalRax(_) => Some(c.(rax := cell.payload))
    case LoadLocalRdx(_) => Some(c.(rdx := cell.tag))
    case StoreLocalRax(loc) => Some(WithLocal(c, loc, cell.(payload := c.rax)))
    case StoreLocalRdx(loc) => Some(WithLocal(c, loc, cell.(tag := c.rdx)))
  }

  /** 32-bit arithmetic on eax and ecx. */
  function ExecPair(op: NOp, c: Cpu): Option<Cpu>
    requires op.AddEaxEcx? || op.CmpEaxEcx?
  {
    if !c.rax.Low? || !c.rcx.Low? then None else
    var a, b := S32(c.rax.u), S32(c.rcx.u);
    if op.AddEaxEcx? then Some(c.(rax := Low(U32(a + b)), flags := Overflow(!IsInt32(a + b))))
    else Some(c.(flags := Compared(a, b)))
  }

  function ExecFlag(op: NOp, c: Cpu): Option<Cpu>
    requires op.SetCc? || op.MovzxEaxAl? || op.CmpRaxZero?
  {
    if !c.rax.Low? then None else
    match op
    case SetCc(cmp) =>
      if c.flags.Compared? && (cmp.Lt? || cmp.Lte? || cmp.Gt? || cmp.Gte?) then
        Some(c.(rax := Low(c.rax.u - c.rax.u % 0x100 + if Holds(cmp, c.flags.a, c.flags.b) then 1 else 0)))
      else None
    case MovzxEaxAl => Some(c.(rax := Low(c.rax.u % 0x100)))
    case CmpRaxZero => Some(c.(flags := Compared(c.rax.u, 0)))
  }

  /** The 32-bit registers of the hash loop. */
  function ExecHash(op: NOp, c: Cpu): Option<Cpu>
    requires op.CmpEcx? || op.MovR10Ecx? || op.MovR10Eax? || op.MovR11Ecx? || op.MovR11Eax? || op.AndR10? || op.ShlR10?
          || op.ShrR11? || op.XorR10R11? || op.AddEaxR10? || op.XorEaxR10? || op.XorEaxR11? || op.IncEcx?
  {
    if !c.rax.Low? || !c.rcx.Low? then None else
    var eax, ecx := c.rax.u, c.rcx.u;
    match op
    case CmpEcx(imm) => Some(c.(flags := Compared(S32(ecx), imm)))
    case MovR10Ecx => Some(c.(r10 := ecx))
    case MovR10Eax => Some(c.(r10 := eax))
    case MovR11Ecx => Some(c.(r11 := ecx))
    case MovR11Eax => Some(c.(r11 := eax))
    case AndR10(imm) => Some(c.(r10 := JsValues.Word(And, c.r10, U32(imm))))
    case ShlR10(count) => Some(c.(r10 := U32(c.r10 * Pow2(count))))
    case ShrR11(count) => Some(c.(r11 := ShiftRight(c.r11, count)))
    case XorR10R11 => Some(c.(r10 := JsValues.Word(Xor, c.r10, c.r11)))
    case AddEaxR10 => Some(c.(rax := Low(U32(eax + c.r10))))
    case XorEaxR10 => Some(c.(rax := Low(JsValues.Word(Xor, eax, c.r10))))
    case XorEaxR11 => Some(c.(rax := Low(JsValues.Word(Xor, eax, c.r11))))
    case IncEcx => Some(c.(rcx := Low(U32(ecx + 1))))
  }

  /** Straight-line instructions. */
  function Exec(op: NOp, c: Cpu): Option<Cpu> {
    match op
    case MovR8Rdx => Some(c.(varBuf := true))
    case MovR9Rcx => Some(c)
    case StoreImm(_, _) => ExecSlot(op, c)
    case StoreTag(_, _) => ExecSlot(op, c)
    case LoadRax(_) => ExecSlot(op, c)
    case LoadRdx(_) => ExecSlot(op, c)
    case LoadRcx(_) => ExecSlot(op, c)
    case StoreRax(_) => ExecSlot(op, c)
    case StoreRdx(_) => ExecSlot(op, c)
    case CmpTag(_, _) => ExecSlot(op, c)
    case LoadLocalRax(_) => ExecLocal(op, c)
    case LoadLocalRdx(_) => ExecLocal(op, c)
    case StoreLocalRax(_) => ExecLocal(op, c)
    case StoreLocalRdx(_) => ExecLocal(op, c)
    case AddEaxEcx | CmpEaxEcx => ExecPair(op, c)
    case SetCc(_) => ExecFlag(op, c)
    case MovzxEaxAl | CmpRaxZero => ExecFlag(op, c)
    case MovRaxZero => Some(c.(rax := Low(0)))
    case MovRdx(tag) => Some(c.(rdx := tag))
    case MovEax(imm) => Some(c.(rax := Low(U32(imm))))
    case MovEcx(imm) => Some(c.(rcx := Low(U32(imm))))
    case MovEdx(imm) => Some(c.(rdx := U32(imm)))
    case MovRaxDouble(n) => Some(c.(rax := Double(n)))
    case CmpEcx(_) => ExecHash(op, c)
    case AndR10(_) => ExecHash(op, c)
    case ShlR10(_) => ExecHash(op, c)
    case ShrR11(_) => ExecHash(op, c)
    case MovR10Ecx | MovR10Eax | MovR11Ecx | MovR11Eax => ExecHash(op, c)
    case XorR10R11 | AddEaxR10 | XorEaxR10 | XorEaxR11 | IncEcx => ExecHash(op, c)
    case GuardEqual(_, _) => None
    case GuardNoOverflow(_, _) => None
    case Jmp(_) => None
    case JmpIf(_, _) => None
    case Jge(_) => None
    case Ret => None
  }

  lemma HashStep(op: NOp, c: Cpu)
    requires op.CmpEcx? || op.MovR10Ecx? || op.MovR10Eax? || op.MovR11Ecx? || op.MovR11Eax? || op.AndR10? || op.ShlR10?
          || op.ShrR11? || op.XorR10R11? || op.AddEaxR10? || op.XorEaxR10? || op.XorEaxR11? || op.IncEcx?
    ensures Exec(op, c) == ExecHash(op, c)
  {
    hide ExecHash, ExecSlot, ExecLocal, ExecPair, ExecFlag;
  }

  datatype NState = NState(ip: nat, cpu: Cpu)

  function Leave(s: NState): Progress<NState> {
    Halt(Outside, DecAll(s.cpu.locals))
  }

  function JumpBy(ops: seq<NOp>, s: NState, rel: int): Progress<NState>
    requires s.ip < |ops|
  {
    match Landing(ops, s.ip, rel)
    case Some(k) => Next(s.(ip := k))
    case None => Leave(s)
  }

  function GuardBy(ops: seq<NOp>, s: NState, pass: bool, note: uint32, rel: int): Progress<NState>
    requires s.ip < |ops|
  {
    if pass then Next(s.(ip := s.ip + 1)) else JumpBy(ops, s.(cpu := s.cpu.(rax := Low(note))), rel)
  }

  function NativeStep(ops: seq<NOp>, s: NState): Progress<NState> {
    if s.ip >= |ops| then Leave(s) else
    var op, flags := ops[s.ip], s.cpu.flags;
    match op
    case GuardEqual(note, rel) =>
      if flags.Compared? then GuardBy(ops, s, flags.a == flags.b, note, rel) else Leave(s)
    case GuardNoOverflow(note, rel) =>
      if flags.Overflow? then GuardBy(ops, s, !flags.hit, note, rel) else Leave(s)
    case Jmp(rel) => JumpBy(ops, s, rel)
    case JmpIf(equal, rel) =>
      if !flags.Compared? then Leave(s)
      else if (flags.a == flags.b) == equal then JumpBy(ops, s, rel)
      else Next(s.(ip := s.ip + 1))
    case Jge(rel) =>
      if !flags.Compared? then Leave(s)
      else if flags.a >= flags.b then JumpBy(ops, s, rel)
      else Next(s.(ip := s.ip + 1))
    case Ret => Halt(Returned(Dec(Cell(s.cpu.rax, s.cpu.rdx))), DecAll(s.cpu.locals))
    case _ =>
      match Exec(op, s.cpu)
      case Some(c) => Next(NState(s.ip + 1, c))
      case None => Leave(s)
  }

  function Native(ops: seq<NOp>): Machine<NState> {
    (s: NState) => NativeStep(ops, s)
  }

  /** The entry state: 256 registers of `undefined`, the caller's locals. */
  function NativeStart(locals: seq<Value>): NState {
    NState(0, Cpu(Low(0), Low(0), 0, 0, 0, Unset, false, EncAll(seq(256, _ => Undef)), EncAll(locals)))
  }

  lemma StraightStep(ops: seq<NOp>, s: NState, c: Cpu)
    requires s.ip < |ops| && Exec(ops[s.ip], s.cpu) == Some(c)
    ensures Native(ops)(s) == Next(NState(s.ip + 1, c))
  {
    hide ExecSlot, ExecLocal, ExecPair, ExecFlag, ExecHash;
  }

  lemma JumpStep(ops: seq<NOp>, s: NState, rel: int, target: nat)
    requires s.ip < |ops| && target <= |ops| && rel == Displacement(ops, s.ip, target)
    ensures JumpBy(ops, s, rel) == Next(s.(ip := target))
  {
    LandsOn(ops, s.ip, target);
  }

  lemma JgeStep(ops: seq<NOp>, s: NState, target: nat)
    requires s.ip < |ops| && target <= |ops| && ops[s.ip] == Jge(Displacement(ops, s.ip, target)) && s.cpu.flags.Compared?
    ensures s.cpu.flags.a >= s.cpu.flags.b ==> Native(ops)(s) == Next(s.(ip := target))
    ensures s.cpu.flags.a < s.cpu.flags.b ==> Native(ops)(s) == Next(s.(ip := s.ip + 1))
  {
    hide Exec, Landing, Displacement;
    JumpStep(ops, s, Displacement(ops, s.ip, target), target);
  }

  lemma JmpStep(ops: seq<NOp>, s: NState, target: nat)
    requires s.ip < |ops| && target <= |ops| && ops[s.ip] == Jmp(Displacement(ops, s.ip, target))
    ensures Native(ops)(s) == Next(s.(ip := target))
  {
    hide Exec, Landing, Displacement;
    JumpStep(ops, s, Displacement(ops, s.ip, target), target);
  }

  lemma RetStep(ops: seq<NOp>, s: NState)
    requires s.ip < |ops| && ops[s.ip].Ret?
    ensures Native(ops)(s) == Halt(Returned(Dec(Cell(s.cpu.rax, s.cpu.rdx))), DecAll(s.cpu.locals))
  {
    hide Exec, Landing, Dec;
  }

  ghost predicate TraceAt(ops: seq<NOp>, k: nat, cpus: seq<Cpu>, j: nat) {
    j + 1 < |cpus| && k + j < |ops| && Exec(ops[k + j], cpus[j]) == Some(cpus[j + 1])
  }

  /** Straight-line code runs through the listed states. */
  lemma {:induction false} RunTrace(ops: seq<NOp>, k: nat, cpus: seq<Cpu>, n: nat)
    requires n < |cpus| && forall j: nat :: j < n ==> TraceAt(ops, k, cpus, j)
    ensures Run(Native(ops), NState(k, cpus[0]), n) == Next(NState(k + n, cpus[n]))
  {
    hide Exec, NativeStep, Native;
    if n > 0 {
      RunTrace(ops, k, cpus, n - 1);
      assert TraceAt(ops, k, cpus, n - 1);
      StraightStep(ops, NState(k + (n - 1), cpus[n - 1]), cpus[n]);
      RunThen(Native(ops), NState(k, cpus[0]), n - 1, NState(k + (n - 1), cpus[n - 1]));
    }
  }
}
