/** Why the key of the table has to tell bytecodes apart. */
module KeyCollision {
  import opened JsValues
  import opened Machines
  import opened RegisterCode
  import opened RegisterVm
  import opened StackMachine
  import opened Translator
  import opened NativeCode
  import opened Baseline
  import opened BaselineRuns
  import opened CodeGen
  import opened NativeCompiler
  import opened Dispatch
  import opened Assembly
  import opened WrittenCalls

  /** `return v` */
  function ReturnText(v: int32): Text {
    Text([PushInt(v), StackOp.Ret], [0, 1, 0], [0, 1, 2])
  }

  lemma ReturnIsWritten(v: int32)
    ensures WellWritten(ReturnText(v))
  {
    assert LineFits(ReturnText(v), 0) && LineFits(ReturnText(v), 1);
  }

  function ReturnBytes(v: int32): Bytecode {
    ReturnIsWritten(v);
    BytesOf(ReturnText(v))
  }

  function ReturnCode(v: int32): (code: seq<RegInstruction>)
    ensures |code| == 2
  {
    ReturnIsWritten(v);
    CodeOf(ReturnText(v))
  }

  lemma ReturnCodeIs(v: int32)
    ensures PushesInt(ReturnCode(v), 0, v) && ReturnCode(v)[0].dst == 0
    ensures ReturnCode(v)[1].op.Return? && ReturnCode(v)[1].dst == 0
  {
    hide Code, RegI32;
    ReturnIsWritten(v);
    LineBecomes(ReturnText(v), 0);
    LineBecomes(ReturnText(v), 1);
  }

  lemma ReturnNative(v: int32)
    ensures AllSupported(ReturnCode(v), 2) && NativeFor(ReturnCode(v)) == Some(Assemble(ReturnCode(v)))
  {
    hide RegI32, Assemble, Template, ReturnText, CodeOf;
    ReturnCodeIs(v);
    var code := ReturnCode(v);
    assert |code| == 2;
    assert CountedLoop.Recognize(code).None?;
  }

  lemma ReturnEnds(v: int32, locals: seq<Value>)
    ensures NativeFor(ReturnCode(v)).Some? && NativeEnds(NativeFor(ReturnCode(v)).value, locals, Returned(Int(v)), locals)
  {
    hide Assemble, Native, RegI32, NativeFor, AllSupported, ReturnCode;
    ReturnNative(v);
    ReturnCodeIs(v);
    var code, s := ReturnCode(v), VmStart(locals);
    var t := Put(s, 0, Int(v));
    RunOne(Jit(code), s);
    assert JitStep(code, s) == Next(t);
    RunThen(Jit(code), s, 1, t);
    assert JitStep(code, t) == Halt(Returned(Int(v)), locals);
    AssembleIsAssembled(code);
    NativeMatchesJit(code, Assemble(code), Starts(code), locals, Returned(Int(v)), locals);
  }

  lemma ReturnCompiles(v: int32)
    ensures CompiledOf(ReturnBytes(v)) == Some(ReturnCode(v))
  {
    hide ReturnText;
    ReturnIsWritten(v);
    WrittenCompiles(ReturnText(v));
  }

  lemma SameLength()
    ensures |ReturnBytes(1)| == |ReturnBytes(2)|
  {
  }

  /** With a hash that gives both the same key, a call of the second bytecode is
      answered with the first one's code. */
  lemma CollisionShows(hash: Hasher, cpool: seq<Value>, locals: seq<Value>) returns (table: Table)
    requires hash(ReturnBytes(1)) == hash(ReturnBytes(2))
    ensures CallEnds(hash, map[], ReturnBytes(1), cpool, locals, Returned(Int(1)), locals, table)
    ensures CallEnds(hash, table, ReturnBytes(2), cpool, locals, Returned(Int(1)), locals, table)
    ensures DispatchEnds(ReturnBytes(2), cpool, locals, Returned(Int(2)), locals)
  {
    hide ReturnBytes, ReturnCode, NativeFor, CompiledOf, NativeEnds;
    ReturnCompiles(1);
    ReturnCompiles(2);
    ReturnEnds(1, locals);
    ReturnEnds(2, locals);
    var key := KeyOf(hash, ReturnBytes(1));
    assert key == KeyOf(hash, ReturnBytes(2)) by { SameLength(); }
    table := Inserted(map[], key, NativeFor(ReturnCode(1)).value);
  }
}
