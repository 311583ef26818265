/** Wrapped contents are processed independently of each other. */
module Isolation {
  import opened Options
  import opened Symbols
  import opened Wrapping
  import opened Processor

  function Then<S>(r: Rules<S>, first: Outcome<S>, ops: seq<Op>): Outcome<S> {
    match first
    case Done(stack, state, events) => Before(events, Run(r, ops, stack, state))
    case _ => first
  }

  lemma {:induction false} BeforeThen<S>(r: Rules<S>, e: seq<Event<S>>, o: Outcome<S>, ops: seq<Op>)
    ensures Before(e, Then(r, o, ops)) == Then(r, Before(e, o), ops)
  {
    hide Run;
    if o.Done? { BeforeTwice(e, o.events, Run(r, ops, o.stack, o.state)); }
  }

  lemma {:induction false} RunAppend<S>(r: Rules<S>, a: seq<Op>, b: seq<Op>, stack: seq<S>, s: S)
    ensures Run(r, a + b, stack, s) == Then(r, Run(r, a, stack, s), b)
    decreases |a|, 1
  {
    if a == [] {
      assert a + b == b;
      BeforeNothing(Run(r, b, stack, s));
    } else {
      var op := a[0];
      assert (a + b)[0] == op;
      if op.operand == SAVE {
        AfterAppend(r, a, b, stack + [s], s);
      } else if op.operand == RESTORE {
        if stack != [] { AfterAppend(r, a, b, stack[..|stack| - 1], stack[|stack| - 1]); }
      } else if r.update(op, s).Some? {
        AfterAppend(r, a, b, stack, r.update(op, s).value);
      }
    }
  }

  lemma {:induction false} AfterAppend<S>(r: Rules<S>, a: seq<Op>, b: seq<Op>, stack: seq<S>, s: S)
    requires a != []
    ensures After(r, a + b, stack, s) == Then(r, After(r, a, stack, s), b)
    decreases |a|, 0
  {
    assert (a + b)[1..] == a[1..] + b;
    RunAppend(r, a[1..], b, stack, s);
    BeforeThen(r, Handled(r, a[0], s, 0).1, Run(r, a[1..], stack, s), b);
  }

  lemma {:induction false} BeforeNothing<S>(o: Outcome<S>)
    ensures Before([], o) == o
  {
    assert [] + o.events == o.events;
  }

  /** The outcome with more states at the bottom of the stack. */
  function Above<S>(base: seq<S>, o: Outcome<S>): Outcome<S> {
    match o
    case Done(stack, state, events) => Done(base + stack, state, events)
    case _ => o
  }

  /** States below those that a list pops do not matter to it. */
  lemma {:induction false} BottomDoesNotMatter<S>(r: Rules<S>, ops: seq<Op>, base: seq<S>, stack: seq<S>, s: S)
    requires !Run(r, ops, stack, s).PoppedEmpty?
    ensures Run(r, ops, base + stack, s) == Above(base, Run(r, ops, stack, s))
    decreases |ops|, 1
  {
    if ops != [] {
      var op := ops[0];
      if op.operand == SAVE {
        assert base + stack + [s] == base + (stack + [s]);
        BottomAfter(r, ops, base, stack + [s], s);
      } else if op.operand == RESTORE {
        assert (base + stack)[..|base + stack| - 1] == base + stack[..|stack| - 1];
        BottomAfter(r, ops, base, stack[..|stack| - 1], stack[|stack| - 1]);
      } else if r.update(op, s).Some? {
        BottomAfter(r, ops, base, stack, r.update(op, s).value);
      }
    }
  }

  lemma {:induction false} BottomAfter<S>(r: Rules<S>, ops: seq<Op>, base: seq<S>, stack: seq<S>, s: S)
    requires ops != [] && !After(r, ops, stack, s).PoppedEmpty?
    ensures After(r, ops, base + stack, s) == Above(base, After(r, ops, stack, s))
    decreases |ops|, 0
  {
    if Handled(r, ops[0], s, 0).0 { BottomDoesNotMatter(r, ops[1..], base, stack, s); }
  }

  /** Enclosed contents never pop below where they start, and leave the stack and the state as they were. */
  lemma {:induction false} EnclosedRestores<S>(r: Rules<S>, ops: seq<Op>, stack: seq<S>, s: S, start: S)
    requires Enclosed(ops, |stack|) && (if stack == [] then s else stack[0]) == start
    ensures !Run(r, ops, stack, s).PoppedEmpty?
    ensures Run(r, ops, stack, s).Done? ==> Run(r, ops, stack, s).stack == [] && Run(r, ops, stack, s).state == start
    decreases |ops|, 1
  {
    if ops != [] {
      NotBelow(ops[1..], |stack| + Shift(ops[0]));
      var op := ops[0];
      if op.operand == SAVE {
        EnclosedAfter(r, ops, stack + [s], s, start);
      } else if op.operand == RESTORE {
        EnclosedAfter(r, ops, stack[..|stack| - 1], stack[|stack| - 1], start);
      } else if r.update(op, s).Some? {
        EnclosedAfter(r, ops, stack, r.update(op, s).value, start);
      }
    }
  }

  lemma {:induction false} EnclosedAfter<S>(r: Rules<S>, ops: seq<Op>, stack: seq<S>, s: S, start: S)
    requires ops != [] && Enclosed(ops[1..], |stack|) && (if stack == [] then s else stack[0]) == start
    ensures !After(r, ops, stack, s).PoppedEmpty?
    ensures After(r, ops, stack, s).Done? ==> After(r, ops, stack, s).stack == [] && After(r, ops, stack, s).state == start
    decreases |ops|, 0
  {
    EnclosedRestores(r, ops[1..], stack, s, start);
  }

  /** Each piece wrapped and processed from the initial state and an empty stack, up to the first that fails. */
  function EachAlone<S>(r: Rules<S>, pieces: seq<seq<Op>>, initial: S): Outcome<S> {
    if pieces == [] then Done([], initial, [])
    else
      match Run(r, Wrapped(pieces[0]), [], initial)
      case Done(_, _, events) => Before(events, EachAlone(r, pieces[1..], initial))
      case o => o
  }

  /** Processing what a block has joined is processing each piece alone: no piece sees another. */
  lemma {:induction false} PiecesAreIndependent<S>(r: Rules<S>, pieces: seq<seq<Op>>, initial: S)
    requires forall p :: p in pieces ==> NeverUnder(p)
    ensures Run(r, Joined(pieces), [], initial) == EachAlone(r, pieces, initial)
    ensures !Run(r, Joined(pieces), [], initial).PoppedEmpty?
    ensures var o := Run(r, Joined(pieces), [], initial); o.Done? ==> o.stack == [] && o.state == initial
  {
    hide Wrapped, Enclosed, NeverUnder;
    JoinedIsEnclosed(pieces);
    EnclosedRestores(r, Joined(pieces), [], initial, initial);
    if pieces != [] {
      WrappingEncloses(pieces[0]);
      EnclosedRestores(r, Wrapped(pieces[0]), [], initial, initial);
      RunAppend(r, Wrapped(pieces[0]), Joined(pieces[1..]), [], initial);
      PiecesAreIndependent(r, pieces[1..], initial);
    }
  }

  /** Within its wrapping, a piece shows the handlers the states it shows them when it is processed by itself. */
  lemma {:induction false} WrappingShowsTheSame<S>(r: Rules<S>, ops: seq<Op>, initial: S)
    requires !Run(r, ops, [], initial).PoppedEmpty? && ops != [] && !IsWrapped(ops)
    ensures var (ok, save) := Handled(r, Q_SAVE, initial, 0);
      var alone, wrapped := Run(r, ops, [], initial), Run(r, Wrapped(ops), [], initial);
      && (!ok ==> wrapped == Failed(save))
      && (ok && alone.Failed? ==> wrapped == Failed(save + alone.events))
      && (ok && alone.Done? ==> save + alone.events <= wrapped.events)
  {
    hide Enclosed, NeverUnder, Restores, IsWrapped, Handled;
    var (ok, save) := Handled(r, Q_SAVE, initial, 0);
    var n: nat := if 1 + Depth(ops) > 0 then 1 + Depth(ops) else 0;
    var body := ops + Restores(n);
    assert Wrapped(ops) == [Q_SAVE] + body;
    assert ([Q_SAVE] + body)[1..] == body;
    assert [] + [initial] == [initial] == [initial] + [];
    if ok {
      RunAppend(r, ops, Restores(n), [initial], initial);
      BottomDoesNotMatter(r, ops, [initial], [], initial);
      assert Run(r, Wrapped(ops), [], initial) == Before(save, Run(r, body, [initial], initial));
    }
  }

  // ----- Exactly when

  ghost predicate NothingFails<S(!new)>(r: Rules<S>) {
    (forall op, s :: r.update(op, s).Some?) && (forall i: nat, op, s :: r.accepts(i, op, s))
  }

  lemma {:induction false} NoHandlerFails<S(!new)>(r: Rules<S>, op: Op, s: S, i: nat)
    requires NothingFails(r) && i <= |r.handlers|
    ensures Handled(r, op, s, i).0
    decreases |r.handlers| - i
  {
    if i < |r.handlers| { NoHandlerFails(r, op, s, i + 1); }
  }

  /** An empty stack is popped if and only if some beginning has more Q than q. */
  lemma {:induction false} PopsEmptyIff<S(!new)>(r: Rules<S>, ops: seq<Op>, stack: seq<S>, s: S)
    requires NothingFails(r)
    ensures Run(r, ops, stack, s).PoppedEmpty? <==> exists i :: 0 <= i <= |ops| && |stack| + Depth(ops[..i]) < 0
  {
    if ops == [] {
      assert ops[..0] == [];
    } else {
      var op := ops[0];
      forall i | 0 < i <= |ops| ensures Depth(ops[..i]) == Shift(op) + Depth(ops[1..][..i - 1]) {
        assert ops[..i][1..] == ops[1..][..i - 1];
      }
      forall i | 0 <= i <= |ops[1..]| ensures Depth(ops[..i + 1]) == Shift(op) + Depth(ops[1..][..i]) {
        assert ops[..i + 1][1..] == ops[1..][..i];
      }
      if op.operand == RESTORE && stack == [] {
        assert ops[1..][..0] == [];
        assert |stack| + Depth(ops[..1]) < 0;
      } else {
        var stack', s' := if op.operand == SAVE then stack + [s] else if op.operand == RESTORE then stack[..|stack| - 1] else stack,
          if op.operand == SAVE then s else if op.operand == RESTORE then stack[|stack| - 1] else r.update(op, s).value;
        NoHandlerFails(r, op, s', 0);
        PopsEmptyIff(r, ops[1..], stack', s');
      }
    }
  }

  /** A state that every operation other than q and Q changes for good. */
  function Counting(): Rules<nat> {
    Rules((op, s) => Some(s + 1), [], (i, op, s) => true)
  }

  /** Contents that leave the stack and every kind of state as they were are the enclosed ones and no others. */
  lemma {:induction false} RestoringIsEnclosed(ops: seq<Op>, stack: seq<nat>, s: nat)
    requires Bottom(stack, s) == 0
    ensures var o := Run(Counting(), ops, stack, s); o.Done? && o.stack == [] && o.state == 0 <==> Enclosed(ops, |stack|)
  {
    if ops != [] {
      var op := ops[0];
      if op.operand == SAVE {
        RestoringIsEnclosed(ops[1..], stack + [s], s);
      } else if op.operand == RESTORE {
        if stack == [] { if Enclosed(ops, 0) { NotBelow(ops[1..], -1); } }
        else { RestoringIsEnclosed(ops[1..], stack[..|stack| - 1], stack[|stack| - 1]); }
      } else if stack == [] {
        CountedForGood(ops[1..], stack, s + 1);
      } else {
        RestoringIsEnclosed(ops[1..], stack, s + 1);
      }
    }
  }

  function Bottom(stack: seq<nat>, s: nat): nat {
    if stack == [] then s else stack[0]
  }

  lemma {:induction false} CountedForGood(ops: seq<Op>, stack: seq<nat>, s: nat)
    requires Bottom(stack, s) > 0
    ensures var o := Run(Counting(), ops, stack, s); o.Done? && o.stack == [] ==> o.state > 0
  {
    if ops != [] {
      var op := ops[0];
      if op.operand == SAVE {
        CountedForGood(ops[1..], stack + [s], s);
      } else if op.operand == RESTORE {
        if stack != [] { CountedForGood(ops[1..], stack[..|stack| - 1], stack[|stack| - 1]); }
      } else {
        CountedForGood(ops[1..], stack, s + 1);
      }
    }
  }

  /** A block is filled and processed. */
  method FillAndProcess<S>(pieces: seq<seq<Op>>, rules: Rules<S>, initial: S) returns (ok: bool, panicked: bool, p: ContentStreamProcessor<S>)
    requires forall q :: q in pieces ==> NeverUnder(q)
    ensures !panicked && (ok ==> p.graphicsStack == [] && p.graphicsState == initial)
    ensures EachAlone(rules, pieces, initial) == if ok then Done([], initial, p.events) else Failed(p.events)
  {
    hide NeverUnder, Run, EachAlone, Wrapped;
    var contents := new Operations([]);
    var b := new Block(contents);
    AddAll(b, pieces);
    p := new ContentStreamProcessor(contents.ops, rules, initial);
    PiecesAreIndependent(rules, pieces, initial);
    ok, panicked := p.Process();
    BeforeNothing(Run(rules, Joined(pieces), [], initial));
  }
}
