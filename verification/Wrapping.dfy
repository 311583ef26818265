/** Lists of content stream operations, and wrapping them in q ... Q so that contents do not disturb each other. */
module Wrapping {
  import opened Symbols
  import opened ContentSpec

  type Op = Operation

  const SAVE: seq<byte> := [0x71]
  const RESTORE: seq<byte> := [0x51]

  const Q_SAVE: Op := Operation(SAVE, [])
  const Q_RESTORE: Op := Operation(RESTORE, [])

  function Shift(op: Op): int {
    if op.operand == SAVE then 1 else if op.operand == RESTORE then -1 else 0
  }

  /** How many more q than Q there are. */
  function Depth(ops: seq<Op>): int {
    if ops == [] then 0 else Shift(ops[0]) + Depth(ops[1..])
  }

  /** No beginning of the list has more Q than q. */
  ghost predicate NeverUnder(ops: seq<Op>) {
    forall i :: 0 <= i <= |ops| ==> Depth(ops[..i]) >= 0
  }

  /** From depth d on, operations other than q and Q are inside of a q, none goes below zero, and zero is where it ends. */
  predicate Enclosed(ops: seq<Op>, d: int) {
    if ops == [] then d == 0
    else d >= 0 && (Shift(ops[0]) == 0 ==> d >= 1) && Enclosed(ops[1..], d + Shift(ops[0]))
  }

  /** What isWrapped looks at; it accepts lists that start with Q. */
  predicate EnclosedOrUnder(ops: seq<Op>, d: int) {
    if ops == [] then d == 0
    else (Shift(ops[0]) == 0 ==> d >= 1) && EnclosedOrUnder(ops[1..], d + Shift(ops[0]))
  }

  predicate IsWrapped(ops: seq<Op>) {
    |ops| >= 2 && EnclosedOrUnder(ops, 0)
  }

  function Restores(n: nat): (r: seq<Op>)
    ensures |r| == n
  {
    if n == 0 then [] else [Q_RESTORE] + Restores(n - 1)
  }

  function Wrapped(ops: seq<Op>): seq<Op> {
    if ops == [] || IsWrapped(ops) then ops
    else [Q_SAVE] + ops + Restores(if 1 + Depth(ops) > 0 then 1 + Depth(ops) else 0)
  }

  lemma {:induction false} DepthAppend(a: seq<Op>, b: seq<Op>)
    ensures Depth(a + b) == Depth(a) + Depth(b)
  {
    if a == [] {
      assert a + b == b;
    } else {
      assert (a + b)[1..] == a[1..] + b;
      DepthAppend(a[1..], b);
    }
  }

  lemma {:induction false} EnclosedAppend(a: seq<Op>, b: seq<Op>, d: int)
    requires Enclosed(a, d) && Enclosed(b, 0)
    ensures Enclosed(a + b, d)
  {
    if a == [] {
      assert a + b == b;
    } else {
      assert (a + b)[1..] == a[1..] + b;
      EnclosedAppend(a[1..], b, d + Shift(a[0]));
    }
  }

  lemma {:induction false} EnclosedRestores(n: nat)
    ensures Enclosed(Restores(n), n)
  {
    if n > 0 {
      assert Restores(n)[1..] == Restores(n - 1);
      EnclosedRestores(n - 1);
    }
  }

  /** What has to hold of a list for it to be enclosed once a q is before it. */
  predicate DeepEnough(ops: seq<Op>, d: int) {
    d >= 0 && (ops != [] ==> (Shift(ops[0]) == 0 ==> d >= 1) && DeepEnough(ops[1..], d + Shift(ops[0])))
  }

  lemma {:induction false} EnclosedWithRestores(ops: seq<Op>, n: nat, d: int)
    ensures Enclosed(ops + Restores(n), d) <==> DeepEnough(ops, d) && d + Depth(ops) == n
  {
    if ops == [] {
      assert ops + Restores(n) == Restores(n);
      RestoresEnclosedIff(n, d);
    } else {
      assert (ops + Restores(n))[1..] == ops[1..] + Restores(n);
      EnclosedWithRestores(ops[1..], n, d + Shift(ops[0]));
    }
  }

  lemma {:induction false} RestoresEnclosedIff(n: nat, d: int)
    ensures Enclosed(Restores(n), d) <==> d == n
  {
    if n > 0 {
      assert Restores(n)[1..] == Restores(n - 1);
      RestoresEnclosedIff(n - 1, d - 1);
    }
  }

  lemma {:induction false} DeepEnoughEnds(ops: seq<Op>, d: int)
    requires DeepEnough(ops, d)
    ensures d + Depth(ops) >= 0
  {
    if ops != [] { DeepEnoughEnds(ops[1..], d + Shift(ops[0])); }
  }

  lemma {:induction false} EnclosedIff(ops: seq<Op>, d: nat)
    ensures Enclosed(ops, d) <==> EnclosedOrUnder(ops, d) && forall i :: 0 <= i <= |ops| ==> d + Depth(ops[..i]) >= 0
  {
    if ops == [] {
      assert ops[..0] == [];
    } else {
      var e := d + Shift(ops[0]);
      forall i | 0 < i <= |ops| ensures d + Depth(ops[..i]) == e + Depth(ops[1..][..i - 1]) {
        assert ops[..i][1..] == ops[1..][..i - 1];
      }
      if e >= 0 {
        EnclosedIff(ops[1..], e);
        forall i | 0 <= i < |ops| ensures e + Depth(ops[1..][..i]) == d + Depth(ops[..i + 1]) {
          assert ops[..i + 1][1..] == ops[1..][..i];
        }
      } else {
        assert d + Depth(ops[..1]) == e + Depth(ops[1..][..0]);
        if Enclosed(ops, d) { NotBelow(ops[1..], e); }
      }
    }
  }

  lemma {:induction false} NotBelow(ops: seq<Op>, d: int)
    requires Enclosed(ops, d)
    ensures d >= 0
  {
  }

  lemma {:induction false} NeverUnderIsDeepEnough(ops: seq<Op>, d: nat)
    requires forall i :: 0 <= i <= |ops| ==> d + Depth(ops[..i]) >= 1
    ensures DeepEnough(ops, d)
  {
    assert ops[..0] == [];
    if ops != [] {
      forall i | 0 <= i <= |ops[1..]| ensures d + Shift(ops[0]) + Depth(ops[1..][..i]) >= 1 {
        assert ops[..i + 1][1..] == ops[1..][..i];
        assert d + Depth(ops[..i + 1]) >= 1;
      }
      assert ops[1..][..0] == [];
      NeverUnderIsDeepEnough(ops[1..], d + Shift(ops[0]));
    }
  }

  /** Exactly when wrapping gives an enclosed list. */
  lemma {:induction false} WrappedIsEnclosedIff(ops: seq<Op>)
    ensures Enclosed(Wrapped(ops), 0) <==> if ops == [] || IsWrapped(ops) then NeverUnder(ops) else DeepEnough(ops, 1)
  {
    hide Enclosed, EnclosedOrUnder, DeepEnough, Restores;
    EnclosedIff(ops, 0);
    if ops == [] {
      assert Enclosed(ops, 0) by { EnclosedRestores(0); assert Restores(0) == ops; }
    } else if !IsWrapped(ops) {
      var n: nat := if 1 + Depth(ops) > 0 then 1 + Depth(ops) else 0;
      EnclosedWithRestores(ops, n, 1);
      EnclosedAfterSave(ops + Restores(n));
      assert Wrapped(ops) == [Q_SAVE] + (ops + Restores(n));
      if DeepEnough(ops, 1) { DeepEnoughEnds(ops, 1); }
    }
  }

  lemma {:induction false} EnclosedAfterSave(ops: seq<Op>)
    ensures Enclosed([Q_SAVE] + ops, 0) <==> Enclosed(ops, 1)
  {
    assert ([Q_SAVE] + ops)[1..] == ops;
  }

  /** If no beginning has more Q than q, wrapping encloses, and wrapping again changes nothing. */
  lemma {:induction false} WrappingEncloses(ops: seq<Op>)
    requires NeverUnder(ops)
    ensures Enclosed(Wrapped(ops), 0) && Wrapped(Wrapped(ops)) == Wrapped(ops)
  {
    WrappedIsEnclosedIff(ops);
    NeverUnderIsDeepEnough(ops, 1);
    EnclosedStays(Wrapped(ops));
  }

  lemma {:induction false} EnclosedStays(ops: seq<Op>)
    requires Enclosed(ops, 0)
    ensures Wrapped(ops) == ops && Depth(ops) == 0 && NeverUnder(ops)
  {
    EnclosedIff(ops, 0);
    EnclosedDepth(ops, 0);
  }

  lemma {:induction false} EnclosedDepth(ops: seq<Op>, d: int)
    requires Enclosed(ops, d)
    ensures d + Depth(ops) == 0
  {
    if ops != [] { EnclosedDepth(ops[1..], d + Shift(ops[0])); }
  }

  /** The operations are still there, one after the other. */
  lemma {:induction false} WrappedKeeps(ops: seq<Op>)
    ensures exists i :: 0 <= i && i + |ops| <= |Wrapped(ops)| && Wrapped(ops)[i..][..|ops|] == ops
  {
    var i := if ops == [] || IsWrapped(ops) then 0 else 1;
    assert Wrapped(ops)[i..][..|ops|] == ops;
  }

  /** isWrapped accepts a list that starts by popping, which is then not wrapped. */
  lemma {:induction false} QqIsNotWrapped()
    ensures var ops := [Q_RESTORE, Q_SAVE]; Wrapped(ops) == ops && !NeverUnder(ops) && !Enclosed(ops, 0)
  {
    var ops := [Q_RESTORE, Q_SAVE];
    assert ops[1..] == [Q_SAVE] && ops[1..][1..] == [];
    assert EnclosedOrUnder([], 0);
    assert EnclosedOrUnder([Q_SAVE], -1);
    assert ops[..1] == [Q_RESTORE] && ops[..1][1..] == [];
    assert Depth(ops[..1]) == -1;
  }

  class Operations {
    var ops: seq<Op>

    constructor (ops: seq<Op>)
      ensures this.ops == ops
    {
      this.ops := ops;
    }

    method IsWrappedUp() returns (b: bool)
      ensures b == IsWrapped(ops)
    {
      if |ops| < 2 {
        return false;
      }
      var depth := 0;
      for i := 0 to |ops|
        invariant EnclosedOrUnder(ops, 0) == EnclosedOrUnder(ops[i..], depth)
      {
        assert ops[i..][0] == ops[i] && ops[i..][1..] == ops[i + 1..];
        if ops[i].operand == SAVE {
          depth := depth + 1;
        } else if ops[i].operand == RESTORE {
          depth := depth - 1;
        } else if depth < 1 {
          return false;
        }
      }
      return depth == 0;
    }

    method WrapIfNeeded()
      modifies this
      ensures ops == Wrapped(old(ops))
    {
      if |ops| == 0 {
        return;
      }
      var done := IsWrappedUp();
      if done {
        return;
      }
      ops := [Q_SAVE] + ops;
      var depth := 0;
      assert ops[0..] == ops;
      for i := 0 to |ops|
        invariant depth + Depth(ops[i..]) == Depth(ops)
      {
        assert ops[i..][0] == ops[i] && ops[i..][1..] == ops[i + 1..];
        if ops[i].operand == SAVE {
          depth := depth + 1;
        } else if ops[i].operand == RESTORE {
          depth := depth - 1;
        }
      }
      assert ops[1..] == old(ops);
      assert depth == 1 + Depth(old(ops));
      ghost var all := ops + Restores(if depth > 0 then depth else 0);
      while depth > 0
        invariant all == ops + Restores(if depth > 0 then depth else 0)
      {
        assert ops + Restores(depth) == (ops + [Q_RESTORE]) + Restores(depth - 1);
        ops := ops + [Q_RESTORE];
        depth := depth - 1;
      }
      assert ops + [] == ops;
    }
  }

  /** The part of a block that is drawn. */
  class Block {
    const contents: Operations

    constructor (contents: Operations)
      ensures this.contents == contents
    {
      this.contents := contents;
    }

    method AddContents(operations: Operations)
      modifies contents, operations
      ensures operations != contents ==>
        contents.ops == Wrapped(old(contents.ops)) + Wrapped(old(operations.ops)) && operations.ops == Wrapped(old(operations.ops))
      ensures operations == contents ==> contents.ops == Wrapped(Wrapped(old(contents.ops))) + Wrapped(Wrapped(old(contents.ops)))
    {
      contents.WrapIfNeeded();
      operations.WrapIfNeeded();
      contents.ops := contents.ops + operations.ops;
    }
  }

  function Joined(pieces: seq<seq<Op>>): seq<Op> {
    if pieces == [] then [] else Wrapped(pieces[0]) + Joined(pieces[1..])
  }

  lemma {:induction false} JoinedAppend(pieces: seq<seq<Op>>, p: seq<Op>)
    ensures Joined(pieces + [p]) == Joined(pieces) + Wrapped(p)
  {
    hide Wrapped;
    if pieces == [] {
      assert (pieces + [p])[1..] == [];
      assert [] + Wrapped(p) == Wrapped(p) == Wrapped(p) + [];
    } else {
      assert (pieces + [p])[1..] == pieces[1..] + [p];
      JoinedAppend(pieces[1..], p);
      assert Wrapped(pieces[0]) + (Joined(pieces[1..]) + Wrapped(p)) == Wrapped(pieces[0]) + Joined(pieces[1..]) + Wrapped(p);
    }
  }

  lemma {:induction false} JoinedIsEnclosed(pieces: seq<seq<Op>>)
    requires forall p :: p in pieces ==> NeverUnder(p)
    ensures Enclosed(Joined(pieces), 0)
  {
    hide Wrapped;
    if pieces != [] {
      JoinedIsEnclosed(pieces[1..]);
      WrappingEncloses(pieces[0]);
      EnclosedAppend(Wrapped(pieces[0]), Joined(pieces[1..]), 0);
    }
  }

  /** A block to which pieces are added, one after the other: no piece is wrapped twice. */
  method AddAll(b: Block, pieces: seq<seq<Op>>)
    requires b.contents.ops == [] && forall p :: p in pieces ==> NeverUnder(p)
    modifies b.contents
    ensures b.contents.ops == Joined(pieces) && Enclosed(b.contents.ops, 0)
  {
    hide Wrapped, NeverUnder, Enclosed;
    for i := 0 to |pieces|
      invariant b.contents.ops == Joined(pieces[..i])
    {
      var piece := new Operations(pieces[i]);
      assert pieces[..i + 1] == pieces[..i] + [pieces[i]];
      JoinedAppend(pieces[..i], pieces[i]);
      JoinedIsEnclosed(pieces[..i]);
      EnclosedStays(Joined(pieces[..i]));
      b.AddContents(piece);
    }
    assert pieces[..|pieces|] == pieces;
    JoinedIsEnclosed(pieces);
  }
}
