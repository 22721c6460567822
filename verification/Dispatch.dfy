/** The entry point of the register interpreter: a memo table of native code
    in front of translation, native compilation and the register machine. */
module Dispatch {
  import opened JsValues
  import opened Machines
  import opened RegisterCode
  import opened RegisterVm
  import opened StackMachine
  import opened Translator
  import opened NativeCode
  import opened Baseline
  import opened BaselineRuns
  import opened Restart
  import opened CodeGen
  import opened NativeCompiler

  // ---------------------------------------------------------------------------
  // Keys
  // ---------------------------------------------------------------------------

  type Bytecode = seq<byte>

  datatype Key = Key(hash: nat, len: nat)

  type Hasher = Bytecode -> nat

  function KeyOf(hash: Hasher, b: Bytecode): Key {
    Key(hash(b), |b|)
  }

  /** No two bytecodes seen agree in hash and in length. */
  ghost predicate KeysDiffer(hash: Hasher, seen: set<Bytecode>) {
    forall a, b :: a in seen && b in seen && hash(a) == hash(b) && |a| == |b| ==> a == b
  }

  // ---------------------------------------------------------------------------
  // What a bytecode compiles to
  // ---------------------------------------------------------------------------

  ghost function CompiledOf(b: Bytecode): Option<seq<RegInstruction>> {
    if exists code :: Translates(List(b), code) then
      var code :| Translates(List(b), code);
      Some(code)
    else None
  }

  lemma CompiledIs(b: Bytecode, code: seq<RegInstruction>)
    requires Translates(List(b), code)
    ensures CompiledOf(b) == Some(code)
  {
    TranslationIsUnique(List(b), code, CompiledOf(b).value);
  }

  lemma NotCompiled(b: Bytecode, error: CompileError)
    requires Rejects(List(b), error)
    ensures CompiledOf(b).None?
  {
    if CompiledOf(b).Some? {
      RejectionExcludesTranslation(List(b), CompiledOf(b).value, error);
    }
  }

  predicate LoopsBack(code: seq<RegInstruction>, k: nat)
    requires k < |code|
  {
    code[k].op.Jmp? && code[k].src1 < |code|
  }

  predicate Advanced(op: RegOp) {
    op.Binary? && !op.op.Add? && !op.op.Lt? && !op.op.Lte? && !op.op.Gt? && !op.op.Gte?
  }

  /** Loops with arithmetic beyond addition are left to the C interpreter. */
  predicate FallsBack(code: seq<RegInstruction>) {
    && (exists k :: 0 <= k < |code| && LoopsBack(code, k))
    && (exists k :: 0 <= k < |code| && Advanced(code[k].op))
  }

  // ---------------------------------------------------------------------------
  // Without the table
  // ---------------------------------------------------------------------------

  ghost predicate NativeEnds(ops: seq<NOp>, locals: seq<Value>, exit: Exit, final: seq<Value>) {
    Halts(Native(ops), NativeStart(locals), exit, final)
  }

  ghost predicate VmEnds(code: seq<RegInstruction>, cpool: seq<Value>, locals: seq<Value>, exit: Exit, final: seq<Value>) {
    Halts(Vm(code, cpool), VmStart(locals), exit, final)
  }

  /** Native code answers, or bails out and the register machine starts over. */
  ghost predicate NativeThenVm(ops: seq<NOp>, code: seq<RegInstruction>, cpool: seq<Value>, locals: seq<Value>, exit: Exit, final: seq<Value>) {
    || (exit != BAIL && NativeEnds(ops, locals, exit, final))
    || exists mid :: NativeEnds(ops, locals, BAIL, mid) && VmEnds(code, cpool, mid, exit, final)
  }

  /** A call that compiles afresh. `Aborted` is the answer that sends the caller
      to the C interpreter. */
  ghost predicate DispatchEnds(b: Bytecode, cpool: seq<Value>, locals: seq<Value>, exit: Exit, final: seq<Value>) {
    match CompiledOf(b)
    case None => exit == Aborted && final == locals
    case Some(code) =>
      match NativeFor(code)
      case Some(ops) => NativeThenVm(ops, code, cpool, locals, exit, final)
      case None => if FallsBack(code) then exit == Aborted && final == locals else VmEnds(code, cpool, locals, exit, final)
  }

  // ---------------------------------------------------------------------------
  // With the table
  // ---------------------------------------------------------------------------

  const CAPACITY: nat := 4096

  type Table = map<Key, seq<NOp>>

  function Inserted(table: Table, key: Key, ops: seq<NOp>): Table {
    if |table| < CAPACITY then table[key := ops] else table
  }

  /** A call that finds no usable entry: compile, remember, run, forget on bailout. */
  ghost predicate MissEnds(table: Table, key: Key, b: Bytecode, cpool: seq<Value>, locals: seq<Value>,
                           exit: Exit, final: seq<Value>, after: Table)
  {
    match CompiledOf(b)
    case None => exit == Aborted && final == locals && after == table
    case Some(code) =>
      match NativeFor(code)
      case Some(ops) =>
        || (exit != BAIL && NativeEnds(ops, locals, exit, final) && after == Inserted(table, key, ops))
        || (after == Inserted(table, key, ops) - {key}
            && exists mid :: NativeEnds(ops, locals, BAIL, mid) && VmEnds(code, cpool, mid, exit, final))
      case None =>
        && after == table
        && if FallsBack(code) then exit == Aborted && final == locals else VmEnds(code, cpool, locals, exit, final)
  }

  /** A call: the entry answers, or bails out, is dropped, and the call goes on
      as a miss over the locals it left. */
  ghost predicate CallEnds(hash: Hasher, table: Table, b: Bytecode, cpool: seq<Value>, locals: seq<Value>,
                           exit: Exit, final: seq<Value>, after: Table)
  {
    var key := KeyOf(hash, b);
    if key in table then
      || (exit != BAIL && NativeEnds(table[key], locals, exit, final) && after == table)
      || exists mid :: NativeEnds(table[key], locals, BAIL, mid) && MissEnds(table - {key}, key, b, cpool, mid, exit, final, after)
    else MissEnds(table, key, b, cpool, locals, exit, final, after)
  }

  // ---------------------------------------------------------------------------
  // Calls that are still running after a number of steps
  // ---------------------------------------------------------------------------

  ghost predicate NativeRunsOn(ops: seq<NOp>, locals: seq<Value>, n: nat, left: seq<Value>) {
    exists s :: Run(Native(ops), NativeStart(locals), n) == Next(s) && left == DecAll(s.cpu.locals)
  }

  ghost predicate VmRunsOn(code: seq<RegInstruction>, cpool: seq<Value>, locals: seq<Value>, n: nat, left: seq<Value>) {
    exists s :: Run(Vm(code, cpool), VmStart(locals), n) == Next(s) && left == s.locals
  }

  ghost predicate MissRunsOn(table: Table, key: Key, b: Bytecode, cpool: seq<Value>, locals: seq<Value>,
                             n: nat, left: seq<Value>, after: Table)
  {
    match CompiledOf(b)
    case None => false
    case Some(code) =>
      match NativeFor(code)
      case Some(ops) =>
        || (NativeRunsOn(ops, locals, n, left) && after == Inserted(table, key, ops))
        || (after == Inserted(table, key, ops) - {key}
            && exists mid :: NativeEnds(ops, locals, BAIL, mid) && VmRunsOn(code, cpool, mid, n, left))
      case None => !FallsBack(code) && VmRunsOn(code, cpool, locals, n, left) && after == table
  }

  ghost predicate CallRunsOn(hash: Hasher, table: Table, b: Bytecode, cpool: seq<Value>, locals: seq<Value>,
                             n: nat, left: seq<Value>, after: Table)
  {
    var key := KeyOf(hash, b);
    if key in table then
      || (NativeRunsOn(table[key], locals, n, left) && after == table)
      || exists mid :: NativeEnds(table[key], locals, BAIL, mid) && MissRunsOn(table - {key}, key, b, cpool, mid, n, left, after)
    else MissRunsOn(table, key, b, cpool, locals, n, left, after)
  }

  /** At most 4096 entries, each compiled from the bytecode of its key. */
  ghost predicate TableSound(hash: Hasher, table: Table, seen: set<Bytecode>) {
    && |table| <= CAPACITY
    && KeysDiffer(hash, seen)
    && (forall b :: b in seen && KeyOf(hash, b) in table ==> EntryOf(table, KeyOf(hash, b), b))
    && (forall k :: k in table ==> exists b :: b in seen && KeyOf(hash, b) == k)
  }

  ghost predicate EntryOf(table: Table, key: Key, b: Bytecode) {
    key in table && CompiledOf(b).Some? && NativeFor(CompiledOf(b).value) == Some(table[key])
  }

  lemma InsertSound(hash: Hasher, table: Table, seen: set<Bytecode>, b: Bytecode, code: seq<RegInstruction>, ops: seq<NOp>)
    requires TableSound(hash, table, seen) && b in seen && CompiledOf(b) == Some(code) && NativeFor(code) == Some(ops)
    ensures TableSound(hash, Inserted(table, KeyOf(hash, b), ops), seen)
  {
    hide NativeFor, CompiledOf;
    var key := KeyOf(hash, b);
    var after := Inserted(table, key, ops);
    if |table| < CAPACITY {
      assert after.Keys == table.Keys + {key};
      assert |after| == |after.Keys| && |table| == |table.Keys|;
    }
    forall c | c in seen && KeyOf(hash, c) in after
      ensures EntryOf(after, KeyOf(hash, c), c)
    {
      if KeyOf(hash, c) != key {
        assert EntryOf(table, KeyOf(hash, c), c);
      } else if |table| >= CAPACITY {
        assert EntryOf(table, key, b);
      }
    }
  }

  lemma RemoveSound(hash: Hasher, table: Table, seen: set<Bytecode>, key: Key)
    requires TableSound(hash, table, seen)
    ensures TableSound(hash, table - {key}, seen)
  {
    hide NativeFor, CompiledOf;
    var after := table - {key};
    assert after.Keys == table.Keys - {key};
    assert |after| == |after.Keys| && |table| == |table.Keys|;
    forall b | b in seen && KeyOf(hash, b) in after
      ensures EntryOf(after, KeyOf(hash, b), b)
    {
      assert EntryOf(table, KeyOf(hash, b), b);
    }
  }

  lemma MissKeepsSound(hash: Hasher, table: Table, seen: set<Bytecode>, b: Bytecode, cpool: seq<Value>, locals: seq<Value>,
                       exit: Exit, final: seq<Value>, after: Table)
    requires TableSound(hash, table, seen) && b in seen && MissEnds(table, KeyOf(hash, b), b, cpool, locals, exit, final, after)
    ensures TableSound(hash, after, seen)
  {
    hide NativeFor, CompiledOf, TableSound, NativeEnds, VmEnds, Inserted;
    if CompiledOf(b).Some? && NativeFor(CompiledOf(b).value).Some? {
      var code := CompiledOf(b).value;
      var ops := NativeFor(code).value;
      InsertSound(hash, table, seen, b, code, ops);
      RemoveSound(hash, Inserted(table, KeyOf(hash, b), ops), seen, KeyOf(hash, b));
    }
  }

  /** Every call keeps the table sound. */
  lemma CallKeepsSound(hash: Hasher, table: Table, seen: set<Bytecode>, b: Bytecode, cpool: seq<Value>, locals: seq<Value>,
                       exit: Exit, final: seq<Value>, after: Table)
    requires TableSound(hash, table, seen) && b in seen && CallEnds(hash, table, b, cpool, locals, exit, final, after)
    ensures TableSound(hash, after, seen)
  {
    hide TableSound, NativeEnds, MissEnds;
    var key := KeyOf(hash, b);
    if key !in table {
      MissKeepsSound(hash, table, seen, b, cpool, locals, exit, final, after);
    } else if !(exit != BAIL && NativeEnds(table[key], locals, exit, final) && after == table) {
      var mid :| NativeEnds(table[key], locals, BAIL, mid) && MissEnds(table - {key}, key, b, cpool, mid, exit, final, after);
      RemoveSound(hash, table, seen, key);
      MissKeepsSound(hash, table - {key}, seen, b, cpool, mid, exit, final, after);
    }
  }

  // ---------------------------------------------------------------------------
  // Bailouts come from templates
  // ---------------------------------------------------------------------------

  lemma BailsFromTemplates(code: seq<RegInstruction>, ops: seq<NOp>, locals: seq<Value>, mid: seq<Value>)
    requires NativeFor(code) == Some(ops) && NativeEnds(ops, locals, BAIL, mid)
    ensures AllSupported(code, |code|) && ops == Assemble(code)
    ensures Halts(Jit(code), VmStart(locals), BAIL, mid)
  {
    hide CountedLoop.FoldCounted, BranchyLoop.FoldBranchy, HashLoop.HashOf, HashLoop.HashCode, HashLoop.HashGuards;
    hide HashLoop.InitShape, HashLoop.MixInShape, HashLoop.StirShape, HashLoop.LoopEndShape;
    hide Assemble, NumberCode, AllSupported, Native;
    FoldsAreNumbers(code);
    if CountedLoop.FoldCounted(code).Some? {
      NumberNeverBails(CountedLoop.FoldCounted(code).value, locals, mid);
    } else if BranchyLoop.FoldBranchy(code).Some? {
      NumberNeverBails(BranchyLoop.FoldBranchy(code).value, locals, mid);
    } else if HashRecognized(code) {
      HashNeverBails(HashLoop.HashOf(code), locals, mid);
    } else {
      AssembleIsAssembled(code);
      NativeMatchesJit(code, ops, Starts(code), locals, BAIL, mid);
    }
  }

  lemma NumberNeverBails(v: Value, locals: seq<Value>, mid: seq<Value>)
    requires IsExact(v)
    ensures !NativeEnds(NumberCode(v), locals, BAIL, mid)
  {
    hide Native, NumberCode;
    NumberCodeReturns(v, locals);
    if NativeEnds(NumberCode(v), locals, BAIL, mid) {
      HaltsOnce(Native(NumberCode(v)), NativeStart(locals), BAIL, mid, Returned(v), locals);
    }
  }

  lemma HashNeverBails(l: HashLoop.Hash, locals: seq<Value>, mid: seq<Value>)
    requires HashLoop.HashGuards(l)
    ensures !NativeEnds(HashLoop.HashCode(l), locals, BAIL, mid)
  {
    hide Native, HashLoop.HashCode, HashLoop.HashAt;
    HashLoop.HashCodeReturns(l, locals);
    var v := Int(S32(HashLoop.HashAt(l, l.limit)));
    if NativeEnds(HashLoop.HashCode(l), locals, BAIL, mid) {
      HaltsOnce(Native(HashLoop.HashCode(l)), NativeStart(locals), BAIL, mid, Returned(v), locals);
    }
  }

  /** Native code run again on the locals of its own bailout bails the same way. */
  lemma NativeBailsAgain(code: seq<RegInstruction>, ops: seq<NOp>, locals: seq<Value>, mid: seq<Value>)
    requires NativeFor(code) == Some(ops) && NativeEnds(ops, locals, BAIL, mid) && StoresBeforeLoads(code)
    ensures NativeEnds(ops, mid, BAIL, mid)
  {
    hide NativeFor, Assemble, Native, Jit, StoresBeforeLoads, AllSupported;
    BailsFromTemplates(code, ops, locals, mid);
    BailsAgain(code, locals, mid);
    AssembleIsAssembled(code);
    NativeMatchesJit(code, ops, Starts(code), mid, BAIL, mid);
  }

  // ---------------------------------------------------------------------------
  // The table is invisible
  // ---------------------------------------------------------------------------

  /** Every local load of the program follows a store to that local. */
  ghost predicate Restartable(b: Bytecode) {
    CompiledOf(b).Some? ==> StoresBeforeLoads(CompiledOf(b).value)
  }

  lemma MissIsDispatch(table: Table, key: Key, b: Bytecode, cpool: seq<Value>, locals: seq<Value>, exit: Exit, final: seq<Value>)
    ensures (exists after :: MissEnds(table, key, b, cpool, locals, exit, final, after)) <==> DispatchEnds(b, cpool, locals, exit, final)
  {
    hide NativeFor, CompiledOf, NativeEnds, VmEnds, Inserted, FallsBack;
    if DispatchEnds(b, cpool, locals, exit, final) {
      match CompiledOf(b)
      case None => assert MissEnds(table, key, b, cpool, locals, exit, final, table);
      case Some(code) =>
        match NativeFor(code)
        case None => assert MissEnds(table, key, b, cpool, locals, exit, final, table);
        case Some(ops) =>
          var kept := Inserted(table, key, ops);
          if exit != BAIL && NativeEnds(ops, locals, exit, final) {
            assert MissEnds(table, key, b, cpool, locals, exit, final, kept);
          } else {
            assert MissEnds(table, key, b, cpool, locals, exit, final, kept - {key});
          }
    }
  }

  lemma NativeExitsOnce(ops: seq<NOp>, locals: seq<Value>, e1: Exit, f1: seq<Value>, e2: Exit, f2: seq<Value>)
    requires NativeEnds(ops, locals, e1, f1) && NativeEnds(ops, locals, e2, f2)
    ensures e1 == e2 && f1 == f2
  {
    hide Native;
    HaltsOnce(Native(ops), NativeStart(locals), e1, f1, e2, f2);
  }

  /** A call on the locals of a bailout ends as a call on the original ones. */
  lemma DispatchAfterBail(b: Bytecode, code: seq<RegInstruction>, ops: seq<NOp>, cpool: seq<Value>,
                          locals: seq<Value>, mid: seq<Value>, exit: Exit, final: seq<Value>)
    requires CompiledOf(b) == Some(code) && NativeFor(code) == Some(ops) && StoresBeforeLoads(code)
    requires NativeEnds(ops, locals, BAIL, mid)
    ensures DispatchEnds(b, cpool, mid, exit, final) <==> DispatchEnds(b, cpool, locals, exit, final)
  {
    hide NativeFor, CompiledOf, NativeEnds, VmEnds, StoresBeforeLoads;
    NativeBailsAgain(code, ops, locals, mid);
    OnlyThrough(ops, code, cpool, locals, mid, exit, final);
    OnlyThrough(ops, code, cpool, mid, mid, exit, final);
  }

  lemma OnlyThrough(ops: seq<NOp>, code: seq<RegInstruction>, cpool: seq<Value>, locals: seq<Value>, mid: seq<Value>, exit: Exit, final: seq<Value>)
    requires NativeEnds(ops, locals, BAIL, mid)
    ensures NativeThenVm(ops, code, cpool, locals, exit, final) <==> VmEnds(code, cpool, mid, exit, final)
  {
    hide NativeEnds, VmEnds;
    if NativeThenVm(ops, code, cpool, locals, exit, final) {
      if exit != BAIL && NativeEnds(ops, locals, exit, final) {
        NativeExitsOnce(ops, locals, BAIL, mid, exit, final);
      } else {
        var other :| NativeEnds(ops, locals, BAIL, other) && VmEnds(code, cpool, other, exit, final);
        NativeExitsOnce(ops, locals, BAIL, mid, BAIL, other);
      }
    }
  }

  /** The table is invisible: with it a call ends in exactly the ways, and with
      exactly the locals, that it would without it. */
  lemma CacheIsInvisible(hash: Hasher, table: Table, seen: set<Bytecode>, b: Bytecode, cpool: seq<Value>, locals: seq<Value>,
                         exit: Exit, final: seq<Value>)
    requires TableSound(hash, table, seen) && b in seen && Restartable(b)
    ensures (exists after :: CallEnds(hash, table, b, cpool, locals, exit, final, after)) <==> DispatchEnds(b, cpool, locals, exit, final)
  {
    hide NativeFor, CompiledOf, NativeEnds, VmEnds, StoresBeforeLoads, MissEnds, DispatchEnds;
    var key := KeyOf(hash, b);
    if key !in table {
      MissIsDispatch(table, key, b, cpool, locals, exit, final);
      MissIsCall(hash, table, b, cpool, locals, exit, final);
    } else {
      assert EntryOf(table, key, b);
      HitIsDispatch(hash, table, b, CompiledOf(b).value, cpool, locals, exit, final);
    }
  }

  lemma MissIsCall(hash: Hasher, table: Table, b: Bytecode, cpool: seq<Value>, locals: seq<Value>, exit: Exit, final: seq<Value>)
    requires KeyOf(hash, b) !in table
    ensures (exists after :: CallEnds(hash, table, b, cpool, locals, exit, final, after))
       <==> (exists after :: MissEnds(table, KeyOf(hash, b), b, cpool, locals, exit, final, after))
  {
    hide MissEnds;
    if after :| MissEnds(table, KeyOf(hash, b), b, cpool, locals, exit, final, after) {
      assert CallEnds(hash, table, b, cpool, locals, exit, final, after);
    }
  }

  lemma HitIsDispatch(hash: Hasher, table: Table, b: Bytecode, code: seq<RegInstruction>, cpool: seq<Value>, locals: seq<Value>,
                      exit: Exit, final: seq<Value>)
    requires EntryOf(table, KeyOf(hash, b), b) && CompiledOf(b) == Some(code) && StoresBeforeLoads(code)
    ensures (exists after :: CallEnds(hash, table, b, cpool, locals, exit, final, after)) <==> DispatchEnds(b, cpool, locals, exit, final)
  {
    hide NativeFor, CompiledOf, NativeEnds, VmEnds, StoresBeforeLoads, MissEnds;
    var key := KeyOf(hash, b);
    var ops := table[key];
    if after :| CallEnds(hash, table, b, cpool, locals, exit, final, after) {
      if !(exit != BAIL && NativeEnds(ops, locals, exit, final)) {
        var mid :| NativeEnds(ops, locals, BAIL, mid) && MissEnds(table - {key}, key, b, cpool, mid, exit, final, after);
        MissIsDispatch(table - {key}, key, b, cpool, mid, exit, final);
        DispatchAfterBail(b, code, ops, cpool, locals, mid, exit, final);
      }
    }
    if DispatchEnds(b, cpool, locals, exit, final) {
      if exit != BAIL && NativeEnds(ops, locals, exit, final) {
        assert CallEnds(hash, table, b, cpool, locals, exit, final, table);
      } else {
        var mid :| NativeEnds(ops, locals, BAIL, mid) && VmEnds(code, cpool, mid, exit, final);
        DispatchAfterBail(b, code, ops, cpool, locals, mid, exit, final);
        MissIsDispatch(table - {key}, key, b, cpool, mid, exit, final);
        var after :| MissEnds(table - {key}, key, b, cpool, mid, exit, final, after);
        assert CallEnds(hash, table, b, cpool, locals, exit, final, after);
      }
    }
  }

  /** After a call whose native code bailed the table has no entry for it. */
  lemma BailedEntryIsGone(hash: Hasher, table: Table, seen: set<Bytecode>, b: Bytecode, code: seq<RegInstruction>, ops: seq<NOp>,
                          cpool: seq<Value>, locals: seq<Value>, mid: seq<Value>, exit: Exit, final: seq<Value>, after: Table)
    requires TableSound(hash, table, seen) && b in seen && Restartable(b)
    requires CompiledOf(b) == Some(code) && NativeFor(code) == Some(ops) && NativeEnds(ops, locals, BAIL, mid)
    requires CallEnds(hash, table, b, cpool, locals, exit, final, after)
    ensures KeyOf(hash, b) !in after
  {
    hide NativeFor, CompiledOf, NativeEnds, VmEnds, StoresBeforeLoads;
    var key := KeyOf(hash, b);
    NativeBailsAgain(code, ops, locals, mid);
    if exit != BAIL && NativeEnds(ops, locals, exit, final) {
      NativeExitsOnce(ops, locals, BAIL, mid, exit, final);
    }
    if key in table {
      assert EntryOf(table, key, b);
      var m :| NativeEnds(ops, locals, BAIL, m) && MissEnds(table - {key}, key, b, cpool, m, exit, final, after);
      NativeExitsOnce(ops, locals, BAIL, mid, BAIL, m);
      if exit != BAIL && NativeEnds(ops, mid, exit, final) {
        NativeExitsOnce(ops, mid, BAIL, mid, exit, final);
      }
    }
  }

  // ---------------------------------------------------------------------------
  // Sequences of calls
  // ---------------------------------------------------------------------------

  datatype Call = Call(bytecode: Bytecode, cpool: seq<Value>, locals: seq<Value>)
  datatype Reply = Reply(exit: Exit, final: seq<Value>)

  /** Calls made one after the other over one table. */
  ghost predicate CallsEnd(hash: Hasher, table: Table, calls: seq<Call>, replies: seq<Reply>, after: Table)
    decreases |calls|
  {
    if calls == [] then replies == [] && after == table
    else
      && |replies| == |calls|
      && exists next :: CallEnds(hash, table, calls[0].bytecode, calls[0].cpool, calls[0].locals, replies[0].exit, replies[0].final, next)
                     && CallsEnd(hash, next, calls[1..], replies[1..], after)
  }

  /** Over any sequence of calls every reply is the one a call without the table
      gives, and the table stays sound throughout. */
  lemma {:induction false} EveryReplyIsUncached(hash: Hasher, table: Table, seen: set<Bytecode>, calls: seq<Call>, replies: seq<Reply>, after: Table)
    requires TableSound(hash, table, seen) && CallsEnd(hash, table, calls, replies, after)
    requires forall i :: 0 <= i < |calls| ==> calls[i].bytecode in seen && Restartable(calls[i].bytecode)
    ensures TableSound(hash, after, seen) && |replies| == |calls|
    ensures forall i :: 0 <= i < |calls| ==>
      DispatchEnds(calls[i].bytecode, calls[i].cpool, calls[i].locals, replies[i].exit, replies[i].final)
    decreases |calls|
  {
    hide TableSound, DispatchEnds, CallEnds, Restartable;
    if calls != [] {
      var c, r := calls[0], replies[0];
      var next :| CallEnds(hash, table, c.bytecode, c.cpool, c.locals, r.exit, r.final, next)
               && CallsEnd(hash, next, calls[1..], replies[1..], after);
      CallKeepsSound(hash, table, seen, c.bytecode, c.cpool, c.locals, r.exit, r.final, next);
      CacheIsInvisible(hash, table, seen, c.bytecode, c.cpool, c.locals, r.exit, r.final);
      EveryReplyIsUncached(hash, next, seen, calls[1..], replies[1..], after);
      forall i | 0 <= i < |calls|
        ensures DispatchEnds(calls[i].bytecode, calls[i].cpool, calls[i].locals, replies[i].exit, replies[i].final)
      {
        if i > 0 {
          assert calls[i] == calls[1..][i - 1] && replies[i] == replies[1..][i - 1];
        }
      }
    }
  }

  // ---------------------------------------------------------------------------
  // What the table is for
  // ---------------------------------------------------------------------------

  /** An answer of fresh native code is kept for the next call while there are
      fewer than 4096 entries, and only then. */
  lemma AnswersAreKept(hash: Hasher, table: Table, b: Bytecode, code: seq<RegInstruction>, ops: seq<NOp>, cpool: seq<Value>, locals: seq<Value>,
                       v: Value, end: seq<Value>, exit: Exit, final: seq<Value>, after: Table)
    requires CompiledOf(b) == Some(code) && NativeFor(code) == Some(ops) && KeyOf(hash, b) !in table
    requires v != Uninit && NativeEnds(ops, locals, Returned(v), end)
    requires CallEnds(hash, table, b, cpool, locals, exit, final, after)
    ensures exit == Returned(v) && final == end
    ensures |table| < 4096 ==> after == table[KeyOf(hash, b) := ops]
    ensures |table| >= 4096 ==> after == table
  {
    hide NativeFor, CompiledOf, NativeEnds;
    if mid :| NativeEnds(ops, locals, BAIL, mid) {
      NativeExitsOnce(ops, locals, Returned(v), end, BAIL, mid);
    } else {
      NativeExitsOnce(ops, locals, Returned(v), end, exit, final);
    }
  }

  /** A kept entry answers alone, and stays. */
  lemma EntriesAnswer(hash: Hasher, table: Table, b: Bytecode, cpool: seq<Value>, locals: seq<Value>,
                      v: Value, end: seq<Value>, exit: Exit, final: seq<Value>, after: Table)
    requires KeyOf(hash, b) in table && v != Uninit && NativeEnds(table[KeyOf(hash, b)], locals, Returned(v), end)
    requires CallEnds(hash, table, b, cpool, locals, exit, final, after)
    ensures exit == Returned(v) && final == end && after == table
  {
    hide NativeEnds, MissEnds;
    var ops := table[KeyOf(hash, b)];
    if exit != BAIL && NativeEnds(ops, locals, exit, final) && after == table {
      NativeExitsOnce(ops, locals, Returned(v), end, exit, final);
    } else {
      var mid :| NativeEnds(ops, locals, BAIL, mid) && MissEnds(table - {KeyOf(hash, b)}, KeyOf(hash, b), b, cpool, mid, exit, final, after);
      NativeExitsOnce(ops, locals, Returned(v), end, BAIL, mid);
    }
  }
}
