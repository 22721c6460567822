/** The three-address instructions the translator emits and both back ends read. */
module RegisterCode {
  import opened JsValues

  datatype RegOp =
    | PushI32 | PushConst | Undefined | PushNull | PushFalse | PushTrue
    | Drop | Mov
    | LoadLoc | StoreLoc | SetLoc
    | Binary(op: BinOp)
    | Return | ReturnUndef
    | Jmp | IfFalse | IfTrue

  datatype RegInstruction = RegInstruction(op: RegOp, dst: byte, src1: uint16, src2: uint16)

  /** The int32 split over the two source fields. */
  function RegI32(inst: RegInstruction): int32 {
    S32(inst.src1 + TWO16 * inst.src2)
  }

  function PushI32At(dst: byte, val: int32): RegInstruction {
    RegInstruction(PushI32, dst, val % TWO16, (val / TWO16) % TWO16)
  }

  predicate IsPush(code: seq<RegInstruction>, k: nat)
    requires k < |code|
  {
    code[k].op.PushI32?
  }

  predicate PushesInt(code: seq<RegInstruction>, k: nat, val: int32)
    requires k < |code|
  {
    IsPush(code, k) && RegI32(code[k]) == val
  }

  predicate IsBinary(code: seq<RegInstruction>, k: nat, op: BinOp)
    requires k < |code|
  {
    code[k].op == Binary(op)
  }

  /** With the fields of `PushI32At` hidden, this is what its users need. */
  lemma PushForm(dst: byte, val: int32)
    ensures PushI32At(dst, val).op.PushI32? && PushI32At(dst, val).dst == dst
  {
  }

  lemma PushI32RoundTrip(dst: byte, val: int32)
    ensures RegI32(PushI32At(dst, val)) == val
  {
    var lo, hi := val % TWO16, val / TWO16;
    assert val == hi * TWO16 + lo;
    assert -0x8000 <= hi < 0x8000;
    if hi < 0 {
      assert hi % TWO16 == hi + TWO16;
    }
  }
}
