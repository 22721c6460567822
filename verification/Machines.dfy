/** Deterministic step machines: what every interpreter of the project shares. */
module Machines {
  import opened JsValues

  /** How a run ends. `Aborted` is the `JS_UNINITIALIZED` answer that sends the
      call to the C interpreter; `Outside` means the run left the model (a
      rounded float64, or an index past the locals, registers or constants). */
  datatype Exit = Returned(v: Value) | Aborted | Outside

  datatype Progress<S> = Next(s: S) | Halt(exit: Exit, locals: seq<Value>)

  type Machine<!S> = S -> Progress<S>

  /** At most `n` steps: `Next` while still running. */
  function Run<S>(step: Machine<S>, s: S, n: nat): Progress<S>
    decreases n
  {
    if n == 0 then Next(s) else
    match step(s)
    case Next(t) => Run(step, t, n - 1)
    case Halt(exit, locals) => Halt(exit, locals)
  }

  lemma {:induction false} RunAdd<S>(step: Machine<S>, s: S, a: nat, b: nat)
    ensures Run(step, s, a + b)
         == match Run(step, s, a)
            case Next(t) => Run(step, t, b)
            case Halt(exit, locals) => Halt(exit, locals)
    decreases a
  {
    if a > 0 {
      match step(s)
      case Next(t) => RunAdd(step, t, a - 1, b);
      case Halt(_, _) =>
    }
  }

  ghost predicate Halts<S>(step: Machine<S>, s: S, exit: Exit, locals: seq<Value>) {
    exists n: nat :: Run(step, s, n) == Halt(exit, locals)
  }

  lemma HaltsOnce<S>(step: Machine<S>, s: S, e1: Exit, l1: seq<Value>, e2: Exit, l2: seq<Value>)
    requires Halts(step, s, e1, l1) && Halts(step, s, e2, l2)
    ensures e1 == e2 && l1 == l2
  {
    var a: nat :| Run(step, s, a) == Halt(e1, l1);
    var b: nat :| Run(step, s, b) == Halt(e2, l2);
    if a <= b {
      RunAdd(step, s, a, b - a);
    } else {
      RunAdd(step, s, b, a - b);
    }
  }

  /** A run halts exactly as it does from any state it passes through. */
  lemma HaltsFrom<S>(step: Machine<S>, s: S, n: nat, t: S, exit: Exit, locals: seq<Value>)
    requires Run(step, s, n) == Next(t)
    ensures Halts(step, s, exit, locals) <==> Halts(step, t, exit, locals)
  {
    if Halts(step, t, exit, locals) {
      var m: nat :| Run(step, t, m) == Halt(exit, locals);
      RunAdd(step, s, n, m);
    }
    if Halts(step, s, exit, locals) {
      var m: nat :| Run(step, s, m) == Halt(exit, locals);
      if m <= n {
        RunAdd(step, s, m, n - m);
        assert false;
      }
      RunAdd(step, s, n, m - n);
    }
  }

  lemma RunOne<S>(step: Machine<S>, s: S)
    ensures Run(step, s, 1) == step(s)
  {
    match step(s)
    case Next(t) => assert Run(step, t, 0) == Next(t);
    case Halt(_, _) =>
  }

  /** Extends a run by one step. */
  lemma RunThen<S>(step: Machine<S>, s: S, n: nat, t: S)
    requires Run(step, s, n) == Next(t)
    ensures Run(step, s, n + 1) == step(t)
  {
    RunAdd(step, s, n, 1);
    RunOne(step, t);
  }

  lemma RunBoth<S>(step: Machine<S>, s: S, a: nat, t: S, b: nat)
    requires Run(step, s, a) == Next(t)
    ensures Run(step, s, a + b) == Run(step, t, b)
  {
    RunAdd(step, s, a, b);
  }
}
