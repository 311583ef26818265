/** Processing step by step: which states the handlers see, and what q and Q keep and bring back. */
module RunTrace {
  import opened Options
  import opened Symbols
  import opened Wrapping
  import opened Processor

  /** The stacks and states before each operation and after the last, and the calls made for each operation. */
  datatype Trace<S> = Trace(stacks: seq<seq<S>>, states: seq<S>, calls: seq<seq<Event<S>>>)

  ghost predicate Sized<S>(t: Trace<S>, n: nat) {
    |t.stacks| == |t.states| == n + 1 && |t.calls| == n
  }

  /** One operation: q puts the state on the stack, Q takes the last one off, any other operation changes the state only. */
  ghost predicate Stepped<S>(r: Rules<S>, op: Op, stack: seq<S>, s: S, stack': seq<S>, s': S) {
    if op.operand == [0x71] then stack' == stack + [s] && s' == s
    else if op.operand == [0x51] then stack == stack' + [s']
    else stack' == stack && r.update(op, s) == Some(s')
  }

  /** Step k is taken, and then the handlers are called in the new state. */
  ghost predicate StepAt<S>(r: Rules<S>, ops: seq<Op>, t: Trace<S>, k: nat)
    requires Sized(t, |ops|) && k < |ops|
  {
    && Stepped(r, ops[k], t.stacks[k], t.states[k], t.stacks[k + 1], t.states[k + 1])
    && AllCalled(r, ops[k], t.states[k + 1], 0, |r.handlers|, t.calls[k])
  }

  ghost predicate Traces<S>(r: Rules<S>, ops: seq<Op>, t: Trace<S>) {
    Sized(t, |ops|) && forall k :: 0 <= k < |ops| ==> StepAt(r, ops, t, k)
  }

  function Flat<S>(calls: seq<seq<Event<S>>>): seq<Event<S>> {
    if calls == [] then [] else calls[0] + Flat(calls[1..])
  }

  ghost function Extended<S>(stack: seq<S>, s: S, e: seq<Event<S>>, t: Trace<S>): Trace<S> {
    Trace([stack] + t.stacks, [s] + t.states, [e] + t.calls)
  }

  lemma {:induction false} ExtendedTraces<S>(r: Rules<S>, ops: seq<Op>, stack: seq<S>, s: S, e: seq<Event<S>>, t: Trace<S>)
    requires ops != [] && Traces(r, ops[1..], t)
    requires Stepped(r, ops[0], stack, s, t.stacks[0], t.states[0]) && AllCalled(r, ops[0], t.states[0], 0, |r.handlers|, e)
    ensures Traces(r, ops, Extended(stack, s, e, t))
  {
    hide Stepped, AllCalled;
    var t' := Extended(stack, s, e, t);
    forall k | 0 <= k < |ops| ensures StepAt(r, ops, t', k) {
      if k > 0 {
        assert StepAt(r, ops[1..], t, k - 1);
        assert t'.stacks[k] == t.stacks[k - 1] && t'.states[k] == t.states[k - 1] && t'.calls[k] == t.calls[k - 1];
      }
      assert t'.stacks[k + 1] == t.stacks[k] && t'.states[k + 1] == t.states[k];
    }
  }

  /** A run that comes to its end is a chain of such steps, and its calls are theirs in order. */
  lemma {:induction false} RunIsTraced<S>(r: Rules<S>, ops: seq<Op>, stack: seq<S>, s: S) returns (t: Trace<S>)
    requires Run(r, ops, stack, s).Done?
    ensures Traces(r, ops, t) && t.stacks[0] == stack && t.states[0] == s
    ensures Run(r, ops, stack, s) == Done(t.stacks[|ops|], t.states[|ops|], Flat(t.calls))
    decreases |ops|
  {
    if ops == [] {
      t := Trace([stack], [s], []);
    } else {
      var stack', s' := FirstStep(r, ops, stack, s);
      var (_, e) := Handled(r, ops[0], s', 0);
      hide Stepped, Traces, AllCalled, Run;
      var _ := HandlersCalled(r, ops[0], s', 0);
      var rest := RunIsTraced(r, ops[1..], stack', s');
      t := Extended(stack, s, e, rest);
      SizedTrace(r, ops[1..], rest);
      ExtendedTraces(r, ops, stack, s, e, rest);
      assert t.calls[1..] == rest.calls && Flat(t.calls) == e + Flat(rest.calls);
    }
  }

  lemma SizedTrace<S>(r: Rules<S>, ops: seq<Op>, t: Trace<S>)
    requires Traces(r, ops, t)
    ensures Sized(t, |ops|)
  {
  }

  lemma {:induction false} FirstStep<S>(r: Rules<S>, ops: seq<Op>, stack: seq<S>, s: S) returns (stack': seq<S>, s': S)
    requires ops != [] && Run(r, ops, stack, s).Done?
    ensures Stepped(r, ops[0], stack, s, stack', s') && Handled(r, ops[0], s', 0).0
    ensures Run(r, ops, stack, s) == Before(Handled(r, ops[0], s', 0).1, Run(r, ops[1..], stack', s'))
  {
    hide Handled;
    var op := ops[0];
    if op.operand == SAVE {
      stack', s' := stack + [s], s;
    } else if op.operand == RESTORE {
      stack', s' := stack[..|stack| - 1], stack[|stack| - 1];
    } else {
      stack', s' := stack, r.update(op, s).value;
    }
    assert Run(r, ops, stack, s) == After(r, ops, stack', s');
  }

  /** And every such chain is a run that comes to its end, where the chain ends. */
  lemma {:induction false} TraceIsRun<S>(r: Rules<S>, ops: seq<Op>, t: Trace<S>)
    requires Traces(r, ops, t)
    ensures var o := Run(r, ops, t.stacks[0], t.states[0]);
      o.Done? && o.stack == t.stacks[|ops|] && o.state == t.states[|ops|]
    decreases |ops|
  {
    if ops != [] {
      assert StepAt(r, ops, t, 0);
      var rest := Trace(t.stacks[1..], t.states[1..], t.calls[1..]);
      forall k | 0 <= k < |ops[1..]| ensures StepAt(r, ops[1..], rest, k) { assert StepAt(r, ops, t, k + 1); }
      TraceIsRun(r, ops[1..], rest);
      hide Traces, Handled, StepAt;
      AllAccept(r, ops[0], t.states[1], t.calls[0]);
      if ops[0].operand == RESTORE { assert t.stacks[0][..|t.stacks[0]| - 1] == t.stacks[1]; }
      assert Run(r, ops, t.stacks[0], t.states[0]) == After(r, ops, t.stacks[1], t.states[1]);
    }
  }

  lemma {:induction false} AllAccept<S>(r: Rules<S>, op: Op, s: S, calls: seq<Event<S>>)
    requires AllCalled(r, op, s, 0, |r.handlers|, calls)
    ensures Handled(r, op, s, 0).0
  {
    hide Handled;
    var failed := HandlersCalled(r, op, s, 0);
  }
}
