/** What a call makes of a written program, and what its bytecode means. */
module WrittenCalls {
  import opened JsValues
  import opened Machines
  import opened RegisterVm
  import opened StackMachine
  import opened Translator
  import opened Simulation
  import opened NativeCode
  import opened Baseline
  import opened NativeCompiler
  import opened Dispatch
  import opened Assembly

  /** The bytecode ends as its register code does. */
  lemma WrittenMeans(t: Text, cpool: seq<Value>, locals: seq<Value>, exit: Exit, final: seq<Value>)
    requires WellWritten(t) && Halts(Vm(CodeOf(t), cpool), VmStart(locals), exit, final)
    ensures Halts(Stack(List(BytesOf(t)), cpool), StackStart(locals), exit, final)
  {
    hide WellWritten, BytesOf, CodeOf, SlotsOf, List, Stack, Vm;
    WrittenIsAccepted(t);
    TranslationPreservesMeaning(List(BytesOf(t)), SlotsOf(t), CodeOf(t), cpool, locals, exit, final);
  }

  lemma WrittenCompiles(t: Text)
    requires WellWritten(t)
    ensures CompiledOf(BytesOf(t)) == Some(CodeOf(t))
  {
    hide WellWritten, BytesOf, CodeOf, SlotsOf, List, CompiledOf;
    WrittenIsAccepted(t);
    CompiledIs(BytesOf(t), CodeOf(t));
  }

  /** Native code that answers is the answer of the call. */
  lemma WrittenAnswers(t: Text, ops: seq<NOp>, cpool: seq<Value>, locals: seq<Value>, exit: Exit, final: seq<Value>)
    requires WellWritten(t) && NativeFor(CodeOf(t)) == Some(ops)
    requires NativeEnds(ops, locals, exit, final) && exit != BAIL
    ensures DispatchEnds(BytesOf(t), cpool, locals, exit, final)
  {
    hide WellWritten, BytesOf, CodeOf, NativeFor, CompiledOf, NativeEnds;
    WrittenCompiles(t);
  }

  /** A folded program is answered with its number. */
  lemma WrittenFolds(t: Text, v: Value, cpool: seq<Value>, locals: seq<Value>)
    requires WellWritten(t) && IsExact(v) && NativeFor(CodeOf(t)) == Some(NumberCode(v))
    ensures DispatchEnds(BytesOf(t), cpool, locals, Returned(v), locals)
  {
    hide WellWritten, BytesOf, CodeOf, NativeFor, NumberCode, Native;
    NumberCodeReturns(v, locals);
    WrittenAnswers(t, NumberCode(v), cpool, locals, Returned(v), locals);
  }
}
