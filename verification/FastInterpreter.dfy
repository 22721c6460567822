/** The fast interpreter: a handful of opcodes, run in place on the engine's own
    stack, locals and reference counts until one of them is too much for it. */
module FastInterpreter {
  import opened JsValues
  import opened Machines
  import opened StackMachine
  import opened Ownership

  /** `Stopped`: the next instruction is left to the engine. `Unmodelled`: it
      would read or write past the code, the stack, the locals or the constants. */
  datatype FastExit = Finished(v: Value) | Stopped | Unmodelled

  datatype Outcome = Went | Ended(exit: FastExit)

  // ---------------------------------------------------------------------------
  // Owners around one instruction
  // ---------------------------------------------------------------------------

  /** All slots that own references: stack, locals, constants, and the caller. */
  function AllSlots(stack: seq<Value>, locals: seq<Value>, cpool: seq<Value>, held: seq<Value>): seq<Value> {
    stack + locals + cpool + held
  }

  lemma OwnersOfAll(stack: seq<Value>, locals: seq<Value>, cpool: seq<Value>, held: seq<Value>, id: nat)
    ensures Owners(AllSlots(stack, locals, cpool, held), id)
         == Owners(stack, id) + Owners(locals, id) + Owners(cpool, id) + Owners(held, id)
  {
    hide Owners;
    OwnersConcat(stack + locals + cpool, held, id);
    OwnersConcat(stack + locals, cpool, id);
    OwnersConcat(stack, locals, id);
  }

  lemma PushOwns(stack: seq<Value>, locals: seq<Value>, cpool: seq<Value>, held: seq<Value>, v: Value)
    ensures OneMore(AllSlots(stack, locals, cpool, held), AllSlots(stack + [v], locals, cpool, held), v)
  {
    hide Owners, AllSlots;
    forall id: nat
      ensures Owners(AllSlots(stack + [v], locals, cpool, held), id) == Owners(AllSlots(stack, locals, cpool, held), id) + Weight(v, id)
    {
      OwnersOfAll(stack, locals, cpool, held, id);
      OwnersOfAll(stack + [v], locals, cpool, held, id);
      OwnersConcat(stack, [v], id);
      OwnersOne(v, id);
    }
  }

  /** The top of the stack moves into a local, whose old value is released. */
  lemma PutOwns(stack: seq<Value>, locals: seq<Value>, cpool: seq<Value>, held: seq<Value>, k: nat, v: Value)
    requires k < |locals|
    ensures OneMore(AllSlots(stack, locals[k := v], cpool, held), AllSlots(stack + [v], locals, cpool, held), locals[k])
  {
    hide Owners, AllSlots;
    forall id: nat
      ensures Owners(AllSlots(stack + [v], locals, cpool, held), id)
           == Owners(AllSlots(stack, locals[k := v], cpool, held), id) + Weight(locals[k], id)
    {
      OwnersOfAll(stack + [v], locals, cpool, held, id);
      OwnersOfAll(stack, locals[k := v], cpool, held, id);
      OwnersConcat(stack, [v], id);
      OwnersOne(v, id);
      OwnersUpdate(locals, k, v, id);
    }
  }

  /** The returned value moves from the stack to the caller. */
  lemma ReturnOwns(stack: seq<Value>, locals: seq<Value>, cpool: seq<Value>, held: seq<Value>, v: Value, id: nat)
    ensures Owners(AllSlots(stack + [v], locals, cpool, held), id) == Owners(AllSlots(stack, locals, cpool, held + [v]), id)
  {
    hide Owners, AllSlots;
    OwnersOfAll(stack + [v], locals, cpool, held, id);
    OwnersOfAll(stack, locals, cpool, held + [v], id);
    OwnersConcat(stack, [v], id);
    OwnersConcat(held, [v], id);
  }

  /** A value that owns nothing can come and go. */
  lemma PlainOwns(stack: seq<Value>, locals: seq<Value>, cpool: seq<Value>, held: seq<Value>, v: Value, id: nat)
    requires !v.Ref?
    ensures Owners(AllSlots(stack + [v], locals, cpool, held), id) == Owners(AllSlots(stack, locals, cpool, held), id)
    ensures Owners(AllSlots(stack, locals, cpool, held + [v]), id) == Owners(AllSlots(stack, locals, cpool, held), id)
  {
    hide Owners, AllSlots;
    OwnersOfAll(stack + [v], locals, cpool, held, id);
    OwnersOfAll(stack, locals, cpool, held + [v], id);
    OwnersOfAll(stack, locals, cpool, held, id);
    OwnersConcat(stack, [v], id);
    OwnersConcat(held, [v], id);
    OwnersOne(v, id);
  }

  // ---------------------------------------------------------------------------
  // What it handles
  // ---------------------------------------------------------------------------

  function LiteralOf(opcode: byte): Option<Value> {
    if opcode == 6 then Some(Undef)
    else if opcode == 7 then Some(Null)
    else if opcode == 9 then Some(Bool(false))
    else if opcode == 10 then Some(Bool(true))
    else None
  }

  /** The opcodes with a fast case, and the sums that stay int32. */
  predicate Handles(opcode: byte, stack: seq<Value>) {
    || opcode in {1, 2, 14, 17, 40, 41, 87, 88}
    || LiteralOf(opcode).Some?
    || (opcode == 156 && |stack| >= 2 && IntSum(stack[|stack| - 2], stack[|stack| - 1]))
  }

  predicate IntSum(a: Value, b: Value) {
    a.Int? && b.Int? && IsInt32(a.i + b.i)
  }

  /** Bytes an opcode reads after itself. */
  function Reads(opcode: byte): nat {
    if opcode in {1, 2} then 4 else if opcode in {87, 88} then 2 else 0
  }

  /** Stack slots an opcode takes. */
  function Takes(opcode: byte): nat {
    if opcode in {14, 17, 40, 88} then 1 else if opcode == 156 then 2 else 0
  }

  predicate Pushes(opcode: byte) {
    opcode in {1, 2, 17, 87} || LiteralOf(opcode).Some?
  }

  /** Every access of the next instruction is in bounds. */
  predicate InBounds(code: seq<byte>, cpool: seq<Value>, room: nat, s: StackState) {
    && s.pc < |code|
    && s.pc + 1 + Reads(code[s.pc]) <= |code|
    && Takes(code[s.pc]) <= |s.stack|
    && (Pushes(code[s.pc]) ==> |s.stack| < room)
    && (code[s.pc] == 2 ==> ReadU32(code, s.pc + 1) < |cpool|)
    && (code[s.pc] in {87, 88} ==> ReadU16(code, s.pc + 1) < |s.locals|)
  }

  /** The loop stops on every opcode but these thirteen, and on a sum unless the
      two numbers on top are int32 and their sum is. */
  lemma HandlesExactly(opcode: byte, stack: seq<Value>)
    ensures opcode in {1, 2, 6, 7, 9, 10, 14, 17, 40, 41, 87, 88} ==> Handles(opcode, stack)
    ensures opcode == 156 ==>
      (Handles(opcode, stack) <==>
        exists below: seq<Value>, a: int32, b: int32 ::
          stack == below + [Int(a), Int(b)] && -0x8000_0000 <= a + b <= 0x7fff_ffff)
    ensures opcode !in {1, 2, 6, 7, 9, 10, 14, 17, 40, 41, 87, 88, 156} ==> !Handles(opcode, stack)
  {
    if opcode == 156 && Handles(opcode, stack) {
      var h := |stack|;
      assert stack == stack[..h - 2] + [Int(stack[h - 2].i), Int(stack[h - 1].i)];
    }
  }

  /** What each opcode reads after itself, needs on the stack and needs room for. */
  lemma AccessesExactly(code: seq<byte>, cpool: seq<Value>, room: nat, s: StackState)
    requires s.pc < |code|
    ensures
      var opcode, h, after := code[s.pc], |s.stack|, |code| - s.pc - 1;
      && (opcode == 1 ==> (InBounds(code, cpool, room, s) <==> after >= 4 && h < room))
      && (opcode == 2 ==> (InBounds(code, cpool, room, s) <==>
            after >= 4 && h < room && ReadU32(code, s.pc + 1) < |cpool|))
      && (opcode in {6, 7, 9, 10} ==> (InBounds(code, cpool, room, s) <==> h < room))
      && (opcode in {14, 40} ==> (InBounds(code, cpool, room, s) <==> h >= 1))
      && (opcode == 17 ==> (InBounds(code, cpool, room, s) <==> 1 <= h < room))
      && (opcode == 87 ==> (InBounds(code, cpool, room, s) <==>
            after >= 2 && h < room && ReadU16(code, s.pc + 1) < |s.locals|))
      && (opcode == 88 ==> (InBounds(code, cpool, room, s) <==>
            after >= 2 && h >= 1 && ReadU16(code, s.pc + 1) < |s.locals|))
      && (opcode == 156 ==> (InBounds(code, cpool, room, s) <==> h >= 2))
      && (opcode !in {1, 2, 6, 7, 9, 10, 14, 17, 40, 87, 88, 156} ==> InBounds(code, cpool, room, s))
  {
    hide ReadU32, ReadU16;
  }

  /** The stack machine's next instruction, read as the fast interpreter reads it. */
  lemma DecodesAs(code: seq<byte>, pc: nat)
    requires pc < |code| && pc + 1 + Reads(code[pc]) <= |code|
    ensures code[pc] == 1 ==> Decode(code, pc) == Instruction(PushInt(ReadI32(code, pc + 1)), 5)
    ensures code[pc] == 2 ==> Decode(code, pc) == Instruction(PushCpool(ReadU32(code, pc + 1)), 5)
    ensures code[pc] == 6 ==> Decode(code, pc) == Instruction(PushLiteral(LitUndefined), 1)
    ensures code[pc] == 7 ==> Decode(code, pc) == Instruction(PushLiteral(LitNull), 1)
    ensures code[pc] == 9 ==> Decode(code, pc) == Instruction(PushLiteral(LitFalse), 1)
    ensures code[pc] == 10 ==> Decode(code, pc) == Instruction(PushLiteral(LitTrue), 1)
    ensures code[pc] == 14 ==> Decode(code, pc) == Instruction(StackOp.Drop, 1)
    ensures code[pc] == 17 ==> Decode(code, pc) == Instruction(StackOp.Dup, 1)
    ensures code[pc] == 40 ==> Decode(code, pc) == Instruction(Ret, 1)
    ensures code[pc] == 41 ==> Decode(code, pc) == Instruction(RetUndef, 1)
    ensures code[pc] == 87 ==> Decode(code, pc) == Instruction(GetLoc(ReadU16(code, pc + 1)), 3)
    ensures code[pc] == 88 ==> Decode(code, pc) == Instruction(PutLoc(ReadU16(code, pc + 1)), 3)
    ensures code[pc] == 156 ==> Decode(code, pc) == Instruction(Operate(Add), 1)
  {
    hide ReadI32, ReadU32, ReadU16, ReadI16, ReadI8;
  }

  /** What the stack machine does with each opcode handled here. */
  lemma StepsAs(code: seq<byte>, cpool: seq<Value>, s: StackState)
    requires s.pc < |code| && s.pc + 1 + Reads(code[s.pc]) <= |code| && Takes(code[s.pc]) <= |s.stack|
    ensures
      var r, opcode, h := StackStep(List(code), cpool, s), code[s.pc], |s.stack|;
      && (opcode == 1 ==> r == Next(Push(s, s.pc + 5, Int(ReadI32(code, s.pc + 1)))))
      && (opcode == 2 && ReadU32(code, s.pc + 1) < |cpool| ==> r == Next(Push(s, s.pc + 5, cpool[ReadU32(code, s.pc + 1)])))
      && (LiteralOf(opcode).Some? ==> r == Next(Push(s, s.pc + 1, LiteralOf(opcode).value)))
      && (opcode == 14 ==> r == Next(StackState(s.pc + 1, s.stack[..h - 1], s.locals)))
      && (opcode == 17 ==> r == Next(Push(s, s.pc + 1, s.stack[h - 1])))
      && (opcode == 40 ==> r == Halt(Returned(s.stack[h - 1]), s.locals))
      && (opcode == 41 ==> r == Halt(Returned(Undef), s.locals))
      && (opcode == 87 && ReadU16(code, s.pc + 1) < |s.locals| ==> r == Next(Push(s, s.pc + 3, s.locals[ReadU16(code, s.pc + 1)])))
      && (opcode == 88 && ReadU16(code, s.pc + 1) < |s.locals| ==>
            r == Next(StackState(s.pc + 3, s.stack[..h - 1], s.locals[ReadU16(code, s.pc + 1) := s.stack[h - 1]])))
      && (opcode == 156 && IntSum(s.stack[h - 2], s.stack[h - 1]) ==>
            r == Next(StackState(s.pc + 1, s.stack[..h - 2] + [Int(s.stack[h - 2].i + s.stack[h - 1].i)], s.locals)))
  {
    hide ReadI32, ReadU32, ReadU16, Decode, Alu;
    DecodesAs(code, s.pc);
    if code[s.pc] == 156 && IntSum(s.stack[|s.stack| - 2], s.stack[|s.stack| - 1]) {
      IntSumIsExact(s.stack[|s.stack| - 2], s.stack[|s.stack| - 1]);
    }
  }

  // ---------------------------------------------------------------------------
  // The frame
  // ---------------------------------------------------------------------------

  class Frame {
    const code: seq<byte>
    const cpool: seq<Value>
    const stack: array<Value>
    const varBuf: array<Value>
    var sp: nat
    var pc: nat
    var counts: Counts

    constructor (code: seq<byte>, cpool: seq<Value>, stack: array<Value>, varBuf: array<Value>, sp: nat, pc: nat, counts: Counts)
      requires stack != varBuf && sp <= stack.Length
      ensures Valid() && this.code == code && this.cpool == cpool && this.stack == stack && this.varBuf == varBuf
      ensures State() == StackState(pc, stack[..sp], varBuf[..]) && this.counts == counts
    {
      this.code, this.cpool, this.stack, this.varBuf, this.sp, this.pc, this.counts := code, cpool, stack, varBuf, sp, pc, counts;
    }

    ghost predicate Valid()
      reads this
    {
      stack != varBuf && sp <= stack.Length
    }

    /** The frame as a state of the stack machine. */
    ghost function State(): StackState
      requires Valid()
      reads this, stack, varBuf
    {
      StackState(pc, stack[..sp], varBuf[..])
    }

    ghost function Slots(held: seq<Value>): seq<Value>
      requires Valid()
      reads this, stack, varBuf
    {
      AllSlots(stack[..sp], varBuf[..], cpool, held)
    }

    /** Counts and owners agree, the caller owning `held`. */
    ghost predicate Balanced(held: seq<Value>)
      requires Valid()
      reads this, stack, varBuf
    {
      Counted(counts, Slots(held))
    }

    /** `js_dup` a value held in some slot, and push it. */
    method PushCopy(v: Value, size: nat, ghost held: seq<Value>, ghost k: nat)
      requires Valid() && Balanced(held) && sp < stack.Length
      requires v.Ref? ==> k < |Slots(held)| && Slots(held)[k] == v
      modifies this`sp, this`pc, this`counts, stack
      ensures Valid() && Balanced(held)
      ensures State() == StackState(old(pc) + size, old(stack[..sp]) + [v], varBuf[..]) && varBuf[..] == old(varBuf[..])
    {
      hide AllSlots;
      ghost var before := stack[..sp];
      if v.Ref? {
        OwnedIsLive(counts, Slots(held), k);
      }
      PushOwns(before, varBuf[..], cpool, held, v);
      DupCounted(counts, AllSlots(before, varBuf[..], cpool, held), AllSlots(before + [v], varBuf[..], cpool, held), v);
      stack[sp] := v;
      counts := Ownership.Dup(counts, v);
      sp, pc := sp + 1, pc + size;
      assert stack[..sp] == before + [v];
    }

    /** Pops and releases the top of the stack. */
    method DropTop(ghost held: seq<Value>)
      requires Valid() && Balanced(held) && sp > 0
      modifies this`sp, this`pc, this`counts
      ensures Valid() && Balanced(held)
      ensures State() == StackState(old(pc) + 1, old(stack[..sp - 1]), varBuf[..])
    {
      hide AllSlots;
      ghost var rest, v := stack[..sp - 1], stack[sp - 1];
      assert stack[..sp] == rest + [v];
      TopIsLive(counts, rest, varBuf[..], cpool, held, v);
      PushOwns(rest, varBuf[..], cpool, held, v);
      FreeCounted(counts, AllSlots(rest + [v], varBuf[..], cpool, held), AllSlots(rest, varBuf[..], cpool, held), v);
      sp := sp - 1;
      counts := Free(counts, stack[sp]);
      pc := pc + 1;
    }

    /** Moves the top of the stack into a local and releases what was there. */
    method StoreTop(idx: nat, ghost held: seq<Value>)
      requires Valid() && Balanced(held) && sp > 0 && idx < varBuf.Length
      modifies this`sp, this`pc, this`counts, varBuf
      ensures Valid() && Balanced(held)
      ensures stack[..] == old(stack[..])
      ensures State() == StackState(old(pc) + 3, old(stack[..sp - 1]), old(varBuf[..])[idx := old(stack[sp - 1])])
    {
      hide AllSlots;
      ghost var rest, v, locals := stack[..sp - 1], stack[sp - 1], varBuf[..];
      assert stack[..sp] == rest + [v];
      LocalIsLive(counts, rest + [v], locals, cpool, held, idx);
      PutOwns(rest, locals, cpool, held, idx, v);
      FreeCounted(counts, AllSlots(rest + [v], locals, cpool, held), AllSlots(rest, locals[idx := v], cpool, held), locals[idx]);
      sp := sp - 1;
      counts := Free(counts, varBuf[idx]);
      varBuf[idx] := stack[sp];
      pc := pc + 3;
      assert varBuf[..] == locals[idx := v];
    }

    /** Replaces two int32 operands by their sum. */
    method AddTop(ghost held: seq<Value>)
      requires Valid() && Balanced(held) && sp >= 2 && IntSum(stack[sp - 2], stack[sp - 1])
      modifies this`sp, this`pc, stack
      ensures Valid() && Balanced(held) && varBuf[..] == old(varBuf[..])
      ensures State() == StackState(old(pc) + 1, old(stack[..sp - 2]) + [Int(old(stack[sp - 2]).i + old(stack[sp - 1]).i)], varBuf[..])
    {
      hide AllSlots;
      ghost var rest, a, b := stack[..sp - 2], stack[sp - 2], stack[sp - 1];
      var sum := Int(stack[sp - 2].i + stack[sp - 1].i);
      assert stack[..sp] == rest + [a] + [b];
      SumOwns(counts, rest, varBuf[..], cpool, held, a, b, sum);
      sp, pc := sp - 1, pc + 1;
      stack[sp - 1] := sum;
      assert stack[..sp] == rest + [sum];
    }

    /** The caller owns the returned value; everything else is as counted. */
    ghost predicate Returns(held: seq<Value>, v: Value)
      requires Valid()
      reads this, stack, varBuf
    {
      Balanced(held + [v])
    }

    method ReturnTop(ghost held: seq<Value>)
      requires Valid() && Balanced(held) && sp > 0
      modifies this`sp, this`pc
      ensures Valid() && sp == old(sp) - 1 && Returns(held, stack[sp])
      ensures State() == StackState(old(pc) + 1, stack[..sp], varBuf[..])
    {
      hide AllSlots;
      ghost var rest, v := stack[..sp - 1], stack[sp - 1];
      assert stack[..sp] == rest + [v];
      var locals := varBuf[..];
      forall id: nat
        ensures Owners(AllSlots(rest + [v], locals, cpool, held), id) == Owners(AllSlots(rest, locals, cpool, held + [v]), id)
      {
        ReturnOwns(rest, locals, cpool, held, v, id);
      }
      MoveCounted(counts, AllSlots(rest + [v], locals, cpool, held), AllSlots(rest, locals, cpool, held + [v]));
      sp, pc := sp - 1, pc + 1;
    }

    method ReturnNothing(ghost held: seq<Value>)
      requires Valid() && Balanced(held)
      modifies this`pc
      ensures Valid() && Returns(held, Undef)
      ensures State() == StackState(old(pc) + 1, stack[..sp], varBuf[..])
    {
      hide AllSlots;
      ghost var slots, locals := stack[..sp], varBuf[..];
      forall id: nat
        ensures Owners(AllSlots(slots, locals, cpool, held), id) == Owners(AllSlots(slots, locals, cpool, held + [Undef]), id)
      {
        PlainOwns(slots, locals, cpool, held, Undef, id);
      }
      MoveCounted(counts, AllSlots(slots, locals, cpool, held), AllSlots(slots, locals, cpool, held + [Undef]));
      pc := pc + 1;
    }

    /** One trip around the loop: an instruction is executed as the stack machine
        executes it, or nothing changes, or the frame returns. */
    method Step(ghost held: seq<Value>) returns (r: Outcome)
      requires Valid() && Balanced(held)
      modifies this`sp, this`pc, this`counts, stack, varBuf
      ensures Valid()
      ensures r == Went ==> Balanced(held) && StackStep(List(code), cpool, old(State())) == Next(State())
      ensures r == Went ==> old(pc) < pc && old(pc) < |code|
      ensures r == Ended(Stopped) ==> old(pc) < |code| && !Handles(code[old(pc)], old(State().stack))
      ensures r == Ended(Unmodelled) ==> !InBounds(code, cpool, stack.Length, old(State()))
      ensures r == Ended(Stopped) || r == Ended(Unmodelled) ==> Balanced(held) && State() == old(State())
      ensures r.Ended? && r.exit.Finished? ==> Returns(held, r.exit.v) && ReturnedFrom(code, cpool, old(State()), r.exit.v, State())
    {
      hide AllSlots, Counted, ReadI32, ReadU32, ReadU16, StackStep, Decode, List;
      if pc >= |code| {
        return Ended(Unmodelled);
      }
      var opcode := code[pc];
      if pc + 1 + Reads(opcode) > |code| || Takes(opcode) > sp || (Pushes(opcode) && sp >= stack.Length) {
        return Ended(Unmodelled);
      }
      StepsAs(code, cpool, State());
      r := Went;
      if opcode == 1 {
        PushCopy(Int(ReadI32(code, pc + 1)), 5, held, 0);
      } else if opcode == 2 {
        var idx := ReadU32(code, pc + 1);
        if idx >= |cpool| {
          return Ended(Unmodelled);
        }
        ConstantSlot(stack[..sp], varBuf[..], cpool, held, idx);
        PushCopy(cpool[idx], 5, held, sp + varBuf.Length + idx);
      } else if LiteralOf(opcode).Some? {
        PushCopy(LiteralOf(opcode).value, 1, held, 0);
      } else if opcode == 14 {
        assert stack[..sp][..sp - 1] == stack[..sp - 1];
        DropTop(held);
      } else if opcode == 17 {
        StackSlot(stack[..sp], varBuf[..], cpool, held, sp - 1);
        PushCopy(stack[sp - 1], 1, held, sp - 1);
      } else if opcode == 87 {
        var idx: int := ReadU16(code, pc + 1);
        if idx >= varBuf.Length {
          return Ended(Unmodelled);
        }
        LocalSlot(stack[..sp], varBuf[..], cpool, held, idx);
        PushCopy(varBuf[idx], 3, held, sp + idx);
      } else if opcode == 88 {
        var idx: int := ReadU16(code, pc + 1);
        if idx >= varBuf.Length {
          return Ended(Unmodelled);
        }
        assert stack[..sp][..sp - 1] == stack[..sp - 1];
        StoreTop(idx, held);
      } else if opcode == 156 && IntSum(stack[sp - 2], stack[sp - 1]) {
        assert stack[..sp][..sp - 2] == stack[..sp - 2];
        AddTop(held);
      } else if opcode == 40 {
        r := Ended(Finished(stack[sp - 1]));
        assert stack[..sp - 1] <= stack[..sp];
        ReturnTop(held);
      } else if opcode == 41 {
        r := Ended(Finished(Undef));
        ReturnNothing(held);
      } else {
        return Ended(Stopped);
      }
    }

    /** Runs until a return or an instruction it does not handle. Whatever the
        stack machine would do from the frame at entry it does from the frame at
        exit, so the engine can go on from there; counts and owners agree
        throughout. */
    method JsFastInterpreter(ghost held: seq<Value>) returns (r: FastExit)
      requires Valid() && Balanced(held)
      modifies this`sp, this`pc, this`counts, stack, varBuf
      ensures Valid()
      ensures !r.Finished? ==> Balanced(held) && SameEnds(code, cpool, old(State()), State())
      ensures r.Stopped? ==> pc < |code| && !Handles(code[pc], State().stack)
      ensures r.Unmodelled? ==> !InBounds(code, cpool, stack.Length, State())
      ensures r.Finished? ==> Returns(held, r.v) && Halts(Stack(List(code), cpool), old(State()), Returned(r.v), varBuf[..])
    {
      hide Counted, AllSlots, StackStep, Run, Handles, InBounds, List;
      ghost var step, start, n: nat := Stack(List(code), cpool), State(), 0;
      RunNone(step, start);
      while true
        invariant Valid() && Balanced(held)
        invariant Run(step, start, n) == Next(State())
        decreases |code| - pc
      {
        ghost var before := State();
        var outcome := Step(held);
        if outcome.Ended? {
          r := outcome.exit;
          if r.Finished? {
            RunThen(step, start, n, before);
            assert Run(step, start, n + 1) == Halt(Returned(r.v), varBuf[..]);
          } else {
            RunsAlike(code, cpool, start, n, State());
          }
          return;
        }
        RunThen(step, start, n, before);
        n := n + 1;
      }
    }
  }

  /** From either state the stack machine ends in the same way, if it ends. */
  ghost predicate SameEnds(code: seq<byte>, cpool: seq<Value>, s: StackState, t: StackState) {
    forall exit, final ::
      Halts(Stack(List(code), cpool), s, exit, final) <==> Halts(Stack(List(code), cpool), t, exit, final)
  }

  lemma RunsAlike(code: seq<byte>, cpool: seq<Value>, s: StackState, n: nat, t: StackState)
    requires Run(Stack(List(code), cpool), s, n) == Next(t)
    ensures SameEnds(code, cpool, s, t)
  {
    hide Stack, Run;
    forall exit, final
      ensures Halts(Stack(List(code), cpool), s, exit, final) <==> Halts(Stack(List(code), cpool), t, exit, final)
    {
      HaltsFrom(Stack(List(code), cpool), s, n, t, exit, final);
    }
  }

  lemma RunNone(step: Machine<StackState>, s: StackState)
    ensures Run(step, s, 0) == Next(s)
  {
  }

  /** The stack machine returns the same value from the frame, with the same locals. */
  predicate ReturnedFrom(code: seq<byte>, cpool: seq<Value>, s: StackState, v: Value, t: StackState) {
    && StackStep(List(code), cpool, s) == Halt(Returned(v), t.locals)
    && t.pc == s.pc + 1 && t.stack <= s.stack
  }

  lemma IntSumIsExact(a: Value, b: Value)
    requires IntSum(a, b)
    ensures Alu(Add, a, b) == Val(Int(a.i + b.i))
  {
  }

  lemma StackSlot(stack: seq<Value>, locals: seq<Value>, cpool: seq<Value>, held: seq<Value>, k: nat)
    requires k < |stack|
    ensures k < |AllSlots(stack, locals, cpool, held)| && AllSlots(stack, locals, cpool, held)[k] == stack[k]
  {
  }

  lemma LocalSlot(stack: seq<Value>, locals: seq<Value>, cpool: seq<Value>, held: seq<Value>, k: nat)
    requires k < |locals|
    ensures
      var all := AllSlots(stack, locals, cpool, held);
      |stack| + k < |all| && all[|stack| + k] == locals[k]
  {
  }

  lemma ConstantSlot(stack: seq<Value>, locals: seq<Value>, cpool: seq<Value>, held: seq<Value>, k: nat)
    requires k < |cpool|
    ensures
      var all := AllSlots(stack, locals, cpool, held);
      |stack| + |locals| + k < |all| && all[|stack| + |locals| + k] == cpool[k]
  {
  }

  lemma TopIsLive(counts: Counts, rest: seq<Value>, locals: seq<Value>, cpool: seq<Value>, held: seq<Value>, v: Value)
    requires Counted(counts, AllSlots(rest + [v], locals, cpool, held))
    ensures v.Ref? ==> v.id in counts && counts[v.id] > 0
  {
    var all := AllSlots(rest + [v], locals, cpool, held);
    assert all[|rest|] == v;
    OwnedIsLive(counts, all, |rest|);
  }

  lemma LocalIsLive(counts: Counts, stack: seq<Value>, locals: seq<Value>, cpool: seq<Value>, held: seq<Value>, k: nat)
    requires Counted(counts, AllSlots(stack, locals, cpool, held)) && k < |locals|
    ensures locals[k].Ref? ==> locals[k].id in counts && counts[locals[k].id] > 0
  {
    var all := AllSlots(stack, locals, cpool, held);
    assert all[|stack| + k] == locals[k];
    OwnedIsLive(counts, all, |stack| + k);
  }

  lemma SumOwns(counts: Counts, rest: seq<Value>, locals: seq<Value>, cpool: seq<Value>, held: seq<Value>, a: Value, b: Value, sum: Value)
    requires Counted(counts, AllSlots(rest + [a] + [b], locals, cpool, held)) && a.Int? && b.Int? && sum.Int?
    ensures Counted(counts, AllSlots(rest + [sum], locals, cpool, held))
  {
    hide AllSlots;
    var before, after := AllSlots(rest + [a] + [b], locals, cpool, held), AllSlots(rest + [sum], locals, cpool, held);
    forall id: nat
      ensures Owners(before, id) == Owners(after, id)
    {
      PlainOwns(rest + [a], locals, cpool, held, b, id);
      PlainOwns(rest, locals, cpool, held, a, id);
      PlainOwns(rest, locals, cpool, held, sum, id);
    }
    MoveCounted(counts, before, after);
  }
}
