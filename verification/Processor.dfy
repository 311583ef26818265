/**
 Processing content streams with a stack of graphics states. What an operation does to the state, and whether it or a
 handler fails, are parameters; q, Q, the stack and the calls of handlers are as in the processor.
 */
module Processor {
  import opened Options
  import opened Symbols
  import opened Wrapping

  /** A handler for one operand, or for all. */
  datatype Handler = ForOperand(operand: seq<byte>) | ForAll

  /** One call of a handler: which one, for what operation, in what state. */
  datatype Event<S> = Event(handler: nat, op: Op, state: S)

  datatype Outcome<S> =
    | Done(stack: seq<S>, state: S, events: seq<Event<S>>)
    | Failed(events: seq<Event<S>>)
    | PoppedEmpty(events: seq<Event<S>>)

  /** update gives no state where an operation fails; accepts says whether a handler returns without error. */
  datatype Rules<!S> = Rules(update: (Op, S) -> Option<S>, handlers: seq<Handler>, accepts: (nat, Op, S) -> bool)

  predicate Wants(h: Handler, op: Op) {
    h.ForAll? || h.operand == op.operand
  }

  /** The calls of handlers for one operation, from the i-th on, and whether all return without error. */
  function Handled<S>(r: Rules<S>, op: Op, s: S, i: nat): (bool, seq<Event<S>>)
    requires i <= |r.handlers|
    decreases |r.handlers| - i
  {
    if i == |r.handlers| then (true, [])
    else if !Wants(r.handlers[i], op) then Handled(r, op, s, i + 1)
    else if !r.accepts(i, op, s) then (false, [Event(i, op, s)])
    else
      var (ok, more) := Handled(r, op, s, i + 1);
      (ok, [Event(i, op, s)] + more)
  }

  /** The handler is registered for every operand or for that of the operation. */
  predicate IsFor(h: Handler, op: Op) {
    h == ForAll || h == ForOperand(op.operand)
  }

  ghost predicate IsCall<S>(r: Rules<S>, op: Op, s: S, i: nat, e: Event<S>) {
    e.op == op && e.state == s && i <= e.handler < |r.handlers| && IsFor(r.handlers[e.handler], op)
  }

  /** The calls are those of the handlers from the i-th to before the j-th that are for the operation, in order, and all return without error. */
  ghost predicate AllCalled<S>(r: Rules<S>, op: Op, s: S, i: nat, j: nat, events: seq<Event<S>>)
    requires j <= |r.handlers|
  {
    && (forall k :: 0 <= k < |events| ==> IsCall(r, op, s, i, events[k]) && events[k].handler < j && r.accepts(events[k].handler, op, s))
    && (forall k, l :: 0 <= k < l < |events| ==> events[k].handler < events[l].handler)
    && (forall n :: i <= n < j && IsFor(r.handlers[n], op) ==> Event(n, op, s) in events)
  }

  lemma {:induction false} OneMoreCalled<S>(r: Rules<S>, op: Op, s: S, i: nat, j: nat, more: seq<Event<S>>)
    requires i < j <= |r.handlers| && AllCalled(r, op, s, i + 1, j, more) && IsFor(r.handlers[i], op) && r.accepts(i, op, s)
    ensures AllCalled(r, op, s, i, j, [Event(i, op, s)] + more)
  {
    var events := [Event(i, op, s)] + more;
    assert events[0] == Event(i, op, s);
    forall k | 0 < k < |events| ensures events[k].handler > i && IsCall(r, op, s, i, events[k]) {
      assert events[k] == more[k - 1] && IsCall(r, op, s, i + 1, more[k - 1]);
    }
    forall n | i < n < j && IsFor(r.handlers[n], op) ensures Event(n, op, s) in events { assert Event(n, op, s) in more; }
  }

  lemma {:induction false} OneMorePassed<S>(r: Rules<S>, op: Op, s: S, i: nat, j: nat, events: seq<Event<S>>)
    requires i < j <= |r.handlers| && AllCalled(r, op, s, i + 1, j, events) && !IsFor(r.handlers[i], op)
    ensures AllCalled(r, op, s, i, j, events)
  {
    hide IsFor;
    forall k | 0 <= k < |events| ensures IsCall(r, op, s, i, events[k]) { assert IsCall(r, op, s, i + 1, events[k]); }
  }

  /** All handlers for the operation are called, in order, or those up to the first that fails. */
  lemma {:induction false} HandlersCalled<S>(r: Rules<S>, op: Op, s: S, i: nat) returns (failed: nat)
    requires i <= |r.handlers|
    ensures var (ok, events) := Handled(r, op, s, i);
      if ok then AllCalled(r, op, s, i, |r.handlers|, events)
      else
        && i <= failed < |r.handlers| && IsFor(r.handlers[failed], op) && !r.accepts(failed, op, s)
        && events != [] && events[|events| - 1] == Event(failed, op, s) && AllCalled(r, op, s, i, failed, events[..|events| - 1])
    decreases |r.handlers| - i
  {
    hide AllCalled;
    var (ok, events) := Handled(r, op, s, i);
    if i == |r.handlers| {
      NoneCalled(r, op, s, i);
      return i;
    }
    WantsIff(r.handlers[i], op);
    if !Wants(r.handlers[i], op) {
      failed := HandlersCalled(r, op, s, i + 1);
      OneMorePassed(r, op, s, i, if ok then |r.handlers| else failed, if ok then events else events[..|events| - 1]);
    } else if !r.accepts(i, op, s) {
      NoneCalled(r, op, s, i);
      assert events[..|events| - 1] == [];
      failed := i;
    } else {
      failed := HandlersCalled(r, op, s, i + 1);
      var (_, more) := Handled(r, op, s, i + 1);
      if ok {
        OneMoreCalled(r, op, s, i, |r.handlers|, more);
      } else {
        OneMoreCalled(r, op, s, i, failed, more[..|more| - 1]);
        assert events[..|events| - 1] == [Event(i, op, s)] + more[..|more| - 1];
      }
    }
  }

  lemma WantsIff(h: Handler, op: Op)
    ensures Wants(h, op) <==> IsFor(h, op)
  {
  }

  lemma NoneCalled<S>(r: Rules<S>, op: Op, s: S, i: nat)
    requires i <= |r.handlers|
    ensures AllCalled(r, op, s, i, i, [])
  {
  }

  function Before<S>(e: seq<Event<S>>, o: Outcome<S>): Outcome<S> {
    match o
    case Done(stack, state, events) => Done(stack, state, e + events)
    case Failed(events) => Failed(e + events)
    case PoppedEmpty(events) => PoppedEmpty(e + events)
  }

  /** The last state saved is the last of the stack. */
  function Run<S>(r: Rules<S>, ops: seq<Op>, stack: seq<S>, state: S): Outcome<S>
    decreases |ops|, 1
  {
    if ops == [] then Done(stack, state, [])
    else
      var op := ops[0];
      if op.operand == SAVE then After(r, ops, stack + [state], state)
      else if op.operand == RESTORE then
        if stack == [] then PoppedEmpty([]) else After(r, ops, stack[..|stack| - 1], stack[|stack| - 1])
      else
        match r.update(op, state)
        case None => Failed([])
        case Some(s) => After(r, ops, stack, s)
  }

  /** The handlers for the first operation, and then the other operations. */
  function After<S>(r: Rules<S>, ops: seq<Op>, stack: seq<S>, state: S): Outcome<S>
    requires ops != []
    decreases |ops|, 0
  {
    var (ok, events) := Handled(r, ops[0], state, 0);
    if ok then Before(events, Run(r, ops[1..], stack, state)) else Failed(events)
  }

  class ContentStreamProcessor<!S> {
    const operations: seq<Op>
    const rules: Rules<S>
    const initial: S
    var graphicsStack: seq<S>
    var graphicsState: S
    var events: seq<Event<S>>

    constructor (operations: seq<Op>, rules: Rules<S>, initial: S)
      ensures this.operations == operations && this.rules == rules && this.initial == initial
      ensures graphicsStack == [] && events == []
    {
      this.operations := operations;
      this.rules := rules;
      this.initial := initial;
      graphicsStack := [];
      graphicsState := initial;
      events := [];
    }

    method Push(gs: S)
      modifies `graphicsStack
      ensures graphicsStack == old(graphicsStack) + [gs]
    {
      graphicsStack := graphicsStack + [gs];
    }

    method Pop() returns (gs: S)
      requires graphicsStack != []
      modifies `graphicsStack
      ensures old(graphicsStack) == graphicsStack + [gs]
    {
      gs := graphicsStack[|graphicsStack| - 1];
      graphicsStack := graphicsStack[..|graphicsStack| - 1];
    }

    method CallHandlers(op: Op) returns (ok: bool)
      modifies `events
      ensures (ok, old(events) + Handled(rules, op, graphicsState, 0).1) == (Handled(rules, op, graphicsState, 0).0, events)
    {
      ghost var all := events + Handled(rules, op, graphicsState, 0).1;
      ghost var good := Handled(rules, op, graphicsState, 0).0;
      for i := 0 to |rules.handlers|
        invariant all == events + Handled(rules, op, graphicsState, i).1 && good == Handled(rules, op, graphicsState, i).0
      {
        if Wants(rules.handlers[i], op) {
          ghost var more := Handled(rules, op, graphicsState, i + 1).1;
          assert events + ([Event(i, op, graphicsState)] + more) == events + [Event(i, op, graphicsState)] + more;
          events := events + [Event(i, op, graphicsState)];
          if !rules.accepts(i, op, graphicsState) {
            return false;
          }
        }
      }
      assert events + [] == events;
      ok := true;
    }

    /** panicked stands for the index out of range when Pop is called on an empty stack. */
    method Process() returns (ok: bool, panicked: bool)
      modifies this
      ensures Before(old(events), Run(rules, operations, old(graphicsStack), initial)) ==
        if panicked then PoppedEmpty(events) else if ok then Done(graphicsStack, graphicsState, events) else Failed(events)
    {
      graphicsState := initial;
      ghost var goal := Before(events, Run(rules, operations, graphicsStack, initial));
      assert operations[0..] == operations;
      for i := 0 to |operations|
        invariant goal == Before(events, Run(rules, operations[i..], graphicsStack, graphicsState))
      {
        var op := operations[i];
        assert operations[i..][0] == op && operations[i..][1..] == operations[i + 1..];
        if op.operand == SAVE {
          Push(graphicsState);
        } else if op.operand == RESTORE {
          if graphicsStack == [] {
            assert events + [] == events;
            return false, true;
          }
          graphicsState := Pop();
        } else {
          match rules.update(op, graphicsState) {
            case None =>
              assert events + [] == events;
              return false, false;
            case Some(s) => graphicsState := s;
          }
        }
        assert goal == Before(events, After(rules, operations[i..], graphicsStack, graphicsState));
        ghost var was, e := events, Handled(rules, op, graphicsState, 0).1;
        ghost var rest := Run(rules, operations[i + 1..], graphicsStack, graphicsState);
        var good := CallHandlers(op);
        if !good {
          return false, false;
        }
        BeforeTwice(was, e, rest);
      }
      assert events + [] == events;
      return true, false;
    }
  }

  lemma BeforeTwice<S>(a: seq<Event<S>>, b: seq<Event<S>>, o: Outcome<S>)
    ensures Before(a, Before(b, o)) == Before(a + b, o)
  {
    assert a + (b + o.events) == a + b + o.events;
  }
}
