/** The call itself, over the caller's locals and the shared table. */
module DispatchMethod {
  import opened JsValues
  import opened Machines
  import opened RegisterCode
  import opened RegisterVm
  import opened StackMachine
  import opened Translator
  import opened NativeCode
  import opened NativeBytes
  import opened Baseline
  import opened NativeCompiler
  import opened Dispatch

  lemma ExecKeepsLocals(op: NOp, c: Cpu)
    ensures Exec(op, c).Some? ==> |Exec(op, c).value.locals| == |c.locals|
  {
    hide U32, S32, Word, ShiftRight, Holds, Pow2;
  }

  lemma NativeStepKeepsLength(ops: seq<NOp>, s: NState)
    ensures match NativeStep(ops, s)
            case Next(t) => |t.cpu.locals| == |s.cpu.locals|
            case Halt(_, locals) => |locals| == |s.cpu.locals|
  {
    hide Exec, Landing;
    if s.ip < |ops| {
      ExecKeepsLocals(ops[s.ip], s.cpu);
    }
  }

  /** Enters native code on 256 fresh registers and the caller's locals. */
  method RunNativeEntry(ops: seq<NOp>, varBuf: array<Value>, fuel: nat) returns (r: Option<Exit>)
    modifies varBuf
    ensures r.Some? ==> NativeEnds(ops, old(varBuf[..]), r.value, varBuf[..])
    ensures r.None? ==> NativeRunsOn(ops, old(varBuf[..]), fuel, varBuf[..])
  {
    hide NativeStep, Run;
    var s := NativeStart(varBuf[..]);
    ghost var start, done := s, 0;
    RunZero(Native(ops), s);
    var left := fuel;
    while left > 0
      invariant |s.cpu.locals| == varBuf.Length && varBuf[..] == old(varBuf[..])
      invariant done >= 0 && done + left == fuel && Run(Native(ops), start, done) == Next(s)
    {
      RunThen(Native(ops), start, done, s);
      NativeStepKeepsLength(ops, s);
      match NativeStep(ops, s) {
        case Next(t) => s := t;
        case Halt(exit, locals) =>
          forall i | 0 <= i < varBuf.Length {
            varBuf[i] := locals[i];
          }
          assert varBuf[..] == locals;
          return Some(exit);
      }
      left, done := left - 1, done + 1;
    }
    ghost var decoded := DecAll(s.cpu.locals);
    forall i | 0 <= i < varBuf.Length {
      varBuf[i] := DecAll(s.cpu.locals)[i];
    }
    assert varBuf[..] == decoded;
    r := None;
  }

  lemma RunZero<S>(step: Machine<S>, s: S)
    ensures Run(step, s, 0) == Next(s)
  {
  }

  /** The process-wide table of native entries. */
  class NativeCache {
    var entries: Table
    const hash: Hasher

    constructor (hash: Hasher)
      ensures entries == map[] && this.hash == hash
    {
      this.hash := hash;
      entries := map[];
    }

    /** One call of the register interpreter. `fuel` bounds each of its runs;
        `None` means one of them has not ended, and the locals are where it
        stands. Either way the table is sound afterwards. */
    method JsRegisterInterpreter(bytecode: Bytecode, varBuf: array<Value>, cpool: seq<Value>, fuel: nat, ghost seen: set<Bytecode>)
      returns (r: Option<Exit>)
      requires TableSound(hash, entries, seen) && bytecode in seen
      modifies this, varBuf
      ensures TableSound(hash, entries, seen)
      ensures r.Some? ==>
        CallEnds(hash, old(entries), bytecode, cpool, old(varBuf[..]), r.value, varBuf[..], entries)
      ensures r.None? ==>
        CallRunsOn(hash, old(entries), bytecode, cpool, old(varBuf[..]), fuel, varBuf[..], entries)
    {
      hide TableSound, NativeFor, CompiledOf, NativeEnds, MissEnds, VmEnds, NativeRunsOn, MissRunsOn, VmRunsOn;
      var key := KeyOf(hash, bytecode);
      if key in entries {
        var ret := RunNativeEntry(entries[key], varBuf, fuel);
        if ret.None? || ret.value != BAIL {
          return ret;
        }
        RemoveSound(hash, entries, seen, key);
        entries := entries - {key};
      }
      r := CompileAndRun(key, bytecode, varBuf, cpool, fuel, seen);
    }

    /** The rest of a call once the table has given no answer. */
    method CompileAndRun(key: Key, bytecode: Bytecode, varBuf: array<Value>, cpool: seq<Value>, fuel: nat, ghost seen: set<Bytecode>)
      returns (r: Option<Exit>)
      requires TableSound(hash, entries, seen) && bytecode in seen && key == KeyOf(hash, bytecode)
      modifies this, varBuf
      ensures TableSound(hash, entries, seen)
      ensures r.Some? ==>
        MissEnds(old(entries), key, bytecode, cpool, old(varBuf[..]), r.value, varBuf[..], entries)
      ensures r.None? ==>
        MissRunsOn(old(entries), key, bytecode, cpool, old(varBuf[..]), fuel, varBuf[..], entries)
    {
      hide TableSound, NativeFor, CompiledOf, NativeEnds, NativeRunsOn, Vm, VmStep, Run, FallsBack, EncodeAll;
      var compiled := CompileBytecode(bytecode);
      if compiled.Err? {
        NotCompiled(bytecode, compiled.error);
        return Some(Aborted);
      }
      var code := compiled.code;
      CompiledIs(bytecode, code);
      var native := CompileToNative(code);
      if native.Some? {
        var entry := NativeFor(code).value;
        InsertSound(hash, entries, seen, bytecode, code, entry);
        entries := Inserted(entries, key, entry);
        var ret := RunNativeEntry(entry, varBuf, fuel);
        if ret.None? || ret.value != BAIL {
          return ret;
        }
        RemoveSound(hash, entries, seen, key);
        entries := entries - {key};
      } else if FallsBack(code) {
        return Some(Aborted);
      }
      ghost var mid := varBuf[..];
      r := RunRegisterVm(code, varBuf, cpool, fuel);
      if r.Some? {
        assert Run(Vm(code, cpool), VmStart(mid), fuel) == Halt(r.value, varBuf[..]);
        assert VmEnds(code, cpool, mid, r.value, varBuf[..]);
      } else {
        assert VmRunsOn(code, cpool, mid, fuel, varBuf[..]);
      }
    }
  }
}
