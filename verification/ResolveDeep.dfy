/** Replacing references by the objects they stand for, throughout an object graph that may have cycles. */
module ResolveDeep {
  type Id = nat

  /** An object of the store; the numbers are pointers into the store. */
  datatype Node =
    | Indirect(target: Id)
    | Stream(dict: Id)
    | Dict(keys: seq<string>, vals: seq<Id>)
    | Array(vals: seq<Id>)
    | Reference
    | Other

  type Heap = map<Id, Node>

  function Children(n: Node): seq<Id> {
    match n
    case Indirect(t) => [t]
    case Stream(d) => [d]
    case Dict(_, vs) => vs
    case Array(vs) => vs
    case _ => []
  }

  ghost predicate Points(h: Heap, n: Id) {
    n in h && forall i :: 0 <= i < |Children(h[n])| ==> Children(h[n])[i] in h
  }

  /** Pointers stay inside the store and the resolver gives an object of the store for every reference. */
  ghost predicate WellFormed(h: Heap, res: map<Id, Id>) {
    && (forall n :: n in h ==> Points(h, n))
    && (forall n :: n in h && h[n].Reference? ==> n in res && res[n] in h)
  }

  function Target(h: Heap, res: map<Id, Id>, c: Id): Id {
    if c in h && h[c].Reference? && c in res then res[c] else c
  }

  function Targets(h: Heap, res: map<Id, Id>, vs: seq<Id>): (r: seq<Id>)
    ensures |r| == |vs| && forall i :: 0 <= i < |vs| ==> r[i] == Target(h, res, vs[i])
  {
    seq(|vs|, i requires 0 <= i < |vs| => Target(h, res, vs[i]))
  }

  /** The object with the references among its values replaced. */
  function Resolved(h: Heap, res: map<Id, Id>, n: Node): Node {
    match n
    case Dict(ks, vs) => Dict(ks, Targets(h, res, vs))
    case Array(vs) => Array(Targets(h, res, vs))
    case _ => n
  }

  /** The objects that a traversal goes to from n. */
  function Next(h: Heap, res: map<Id, Id>, n: Id): seq<Id> {
    if n in h then Children(Resolved(h, res, h[n])) else []
  }

  ghost predicate Inside(h: Heap, res: map<Id, Id>, s: set<Id>, n: Id) {
    forall i :: 0 <= i < |Next(h, res, n)| ==> Next(h, res, n)[i] in s
  }

  /** A set of objects that no traversal leaves. */
  ghost predicate ClosedUnder(h: Heap, res: map<Id, Id>, s: set<Id>) {
    s <= h.Keys && forall n :: n in s ==> Inside(h, res, s, n)
  }

  /** What can be reached from root when references are followed: the smallest closed set with root in it. */
  ghost function Reachable(h: Heap, res: map<Id, Id>, root: Id): set<Id> {
    set n | n in h && forall s: set<Id> :: root in s && ClosedUnder(h, res, s) ==> n in s
  }

  lemma {:induction false} NextStaysInside(h: Heap, res: map<Id, Id>, n: Id)
    requires WellFormed(h, res) && n in h
    ensures Inside(h, res, h.Keys, n)
  {
    assert Points(h, n);
    forall i | 0 <= i < |Next(h, res, n)| ensures Next(h, res, n)[i] in h.Keys {
      assert Children(h[n])[i] in h;
    }
  }

  lemma {:induction false} ReachableIsClosed(h: Heap, res: map<Id, Id>, root: Id)
    requires WellFormed(h, res) && root in h
    ensures root in Reachable(h, res, root) && ClosedUnder(h, res, Reachable(h, res, root))
  {
    hide Next;
    var reach := Reachable(h, res, root);
    forall n | n in reach ensures Inside(h, res, reach, n) {
      NextStaysInside(h, res, n);
      forall i | 0 <= i < |Next(h, res, n)| ensures Next(h, res, n)[i] in reach {
        forall s: set<Id> | root in s && ClosedUnder(h, res, s) ensures Next(h, res, n)[i] in s {
          assert Inside(h, res, s, n);
        }
      }
    }
  }

  class Resolver {
    ghost const original: Heap
    ghost const scope: set<Id>
    const res: map<Id, Id>
    var heap: Heap
    var traversed: set<Id>
    // The dictionaries and arrays whose values are being gone through.
    ghost var active: set<Id>

    /** An object that is finished: its references are replaced, and all it leads to has been gone to. */
    ghost predicate Settled(n: Id)
      reads this
    {
      && n in heap && n in original
      && heap[n] == Resolved(original, res, original[n]) && !heap[n].Reference?
      && Inside(original, res, traversed, n)
    }

    ghost predicate SameKind(n: Id)
      reads this
      requires n in heap && n in original
    {
      match original[n]
      case Dict(ks, vs) => heap[n].Dict? && heap[n].keys == ks && |heap[n].vals| == |vs|
      case Array(vs) => heap[n].Array? && |heap[n].vals| == |vs|
      case _ => heap[n] == original[n]
    }

    ghost predicate Valid()
      reads this
    {
      && WellFormed(original, res) && ClosedUnder(original, res, scope)
      && heap.Keys == original.Keys && active <= traversed <= scope
      && (forall n :: n in heap && n !in traversed ==> heap[n] == original[n])
      && (forall n :: n in heap ==> SameKind(n))
    }

    ghost predicate Sound()
      reads this
    {
      forall n :: n in traversed && n !in active ==> Settled(n)
    }

    constructor (heap: Heap, res: map<Id, Id>, ghost scope: set<Id>)
      requires WellFormed(heap, res) && ClosedUnder(heap, res, scope)
      ensures Valid() && Sound() && this.heap == heap == original && this.res == res && this.scope == scope
      ensures traversed == {} && active == {}
    {
      this.original := heap;
      this.scope := scope;
      this.heap := heap;
      this.res := res;
      traversed := {};
      active := {};
    }

    /** Of the objects gone to before, none is changed. */
    twostate predicate Framed()
      reads this
    {
      && old(traversed) <= traversed && active == old(active)
      && (forall n :: n in old(traversed) && n in old(heap) && n in heap ==> heap[n] == old(heap)[n])
    }

    /** resolveReferencesDeep: on failure, bad is the reference it came upon. */
    method Resolve(o: Id) returns (ok: bool, ghost bad: Id)
      requires Valid() && Sound() && o in scope
      modifies this
      ensures Valid() && Framed() && o in traversed
      ensures ok ==> Sound()
      ensures !ok ==> bad in scope && original[bad].Reference?
      decreases scope - traversed, 1
    {
      hide Next, Resolved, WellFormed, ClosedUnder;
      bad := o;
      if o in traversed {
        return true, bad;
      }
      Enter(o);
      match heap[o] {
        case Indirect(t) => ok, bad := ResolveOnly(o, t);
        case Stream(d) => ok, bad := ResolveOnly(o, d);
        case Dict(keys, vals) => ok, bad := ResolveValues(o);
        case Array(vals) => ok, bad := ResolveValues(o);
        case Reference => ok := false;
        case Other =>
          ok := true;
          NothingBelow(o);
      }
      Leave(o);
    }

    lemma {:induction false} NothingBelow(o: Id)
      requires Entered(o) && original[o].Other?
      ensures Settled(o)
    {
      assert Next(original, res, o) == [];
    }

    /** After an object is finished. */
    method Leave(o: Id)
      requires Valid() && o in active
      modifies `active
      ensures Valid() && active == old(active) - {o}
      ensures old(Sound()) && old(Settled(o)) ==> Sound()
    {
      hide Next, Resolved;
      active := active - {o};
    }

    ghost predicate Entered(o: Id)
      reads this
    {
      o in heap && o in original && o in active && o in traversed && heap[o] == original[o]
    }

    method Enter(o: Id)
      requires Valid() && Sound() && o in scope && o !in traversed
      modifies `traversed, `active
      ensures Valid() && Sound() && Entered(o)
      ensures traversed == old(traversed) + {o} && active == old(active) + {o} && o !in old(active)
    {
      hide Next, Resolved;
      traversed := traversed + {o};
      active := active + {o};
    }

    /** An indirect object leads to the object in it, and a stream to its dictionary. */
    method ResolveOnly(o: Id, c: Id) returns (ok: bool, ghost bad: Id)
      requires Valid() && Sound() && o in scope && Entered(o)
      requires heap[o] == Indirect(c) || heap[o] == Stream(c)
      modifies this
      ensures Valid() && Framed()
      ensures ok ==> Sound() && Settled(o)
      ensures !ok ==> bad in scope && original[bad].Reference?
      decreases scope - traversed, 2
    {
      assert Inside(original, res, scope, o);
      assert Next(original, res, o) == [c];
      assert Next(original, res, o)[0] in scope;
      ok, bad := Resolve(c);
      assert ok ==> Inside(original, res, traversed, o);
    }

    /** The loop over the values of a dictionary or the elements of an array, which are replaced one by one. */
    method ResolveValues(o: Id) returns (ok: bool, ghost bad: Id)
      requires Valid() && Sound() && o in scope && Entered(o)
      requires heap[o].Dict? || heap[o].Array?
      modifies this
      ensures Valid() && FramedBut(o)
      ensures ok ==> Sound() && Settled(o)
      ensures !ok ==> bad in scope && original[bad].Reference?
      decreases scope - traversed, 3
    {
      bad := o;
      ValuesOf(o);
      var count := |heap[o].vals|;
      var i := 0;
      while i < count
        invariant 0 <= i <= count && Going(o, i) && count == |heap[o].vals| && old(traversed) <= traversed
        invariant active == old(active) && FramedBut(o)
      {
        ok, bad := ResolveValue(o, i);
        if !ok {
          return;
        }
        i := i + 1;
      }
      ok := true;
      AllDone(o);
    }

    /** The state in the loop over the values of o, before the one at index i. */
    ghost predicate Going(o: Id, i: nat)
      reads this
    {
      && Valid() && Sound() && o in scope && o in traversed && o in active && HalfWay(o, i)
      && forall k :: 0 <= k < i && k < |Next(original, res, o)| ==> Next(original, res, o)[k] in traversed
    }

    twostate predicate FramedBut(o: Id)
      reads this
    {
      && old(traversed) <= traversed && active == old(active)
      && forall n :: n in old(traversed) && n in old(heap) && n in heap && n != o ==> heap[n] == old(heap)[n]
    }

    method ResolveValue(o: Id, i: nat) returns (ok: bool, ghost bad: Id)
      requires Going(o, i) && i < |heap[o].vals|
      modifies this
      ensures Valid() && FramedBut(o)
      ensures ok ==> Going(o, i + 1) && |heap[o].vals| == old(|heap[o].vals|)
      ensures !ok ==> bad in scope && original[bad].Reference?
      decreases scope - traversed, 2
    {
      hide Next, Resolved, WellFormed, ClosedUnder, Sound, SameKind;
      var v := ReplaceValue(o, i);
      ghost var was := heap[o];
      ok, bad := Resolve(v);
      assert heap[o] == was;
    }

    /** Looks up the i-th value of o when it is a reference, puts the object in its place, and gives it out. */
    method ReplaceValue(o: Id, i: nat) returns (v: Id)
      requires Valid() && Sound() && HalfWay(o, i) && o in active && i < |heap[o].vals|
      modifies `heap
      ensures Valid() && Sound() && HalfWay(o, i + 1) && v in scope && v == Next(original, res, o)[i]
      ensures forall n :: n in heap && n != o ==> heap[n] == old(heap)[n]
    {
      v := heap[o].vals[i];
      assert Points(original, o) && v == Children(original[o])[i];
      assert Inside(original, res, scope, o);
      assert v in heap && SameKind(v);
      assert Next(original, res, o)[i] == Target(original, res, v);
      if heap[v].Reference? {
        v := res[v];
        heap := heap[o := if heap[o].Dict? then heap[o].(vals := heap[o].vals[i := v]) else Array(heap[o].vals[i := v])];
      }
    }

    lemma {:induction false} TraversedIsClosed()
      requires Valid() && Sound() && active == {}
      ensures ClosedUnder(original, res, traversed)
    {
      hide Next, Resolved;
    }

    lemma {:induction false} NoReferences()
      requires Valid() && Sound() && active == {}
      ensures forall n :: n in traversed ==> n in original && !original[n].Reference?
    {
    }

    /** The values of o before index i are replaced where they were references, and the others are as they were. */
    ghost predicate HalfWay(o: Id, i: nat)
      reads this
    {
      && o in heap && o in original && (original[o].Dict? || original[o].Array?) && SameKind(o)
      && |Next(original, res, o)| == |heap[o].vals|
      && forall k :: 0 <= k < |heap[o].vals| ==>
           heap[o].vals[k] == (if k < i then Next(original, res, o)[k] else original[o].vals[k])
    }

    lemma {:induction false} ValuesOf(o: Id)
      requires o in heap && o in original && heap[o] == original[o] && (heap[o].Dict? || heap[o].Array?)
      ensures HalfWay(o, 0)
    {
    }

    lemma {:induction false} AllDone(o: Id)
      requires Valid() && HalfWay(o, |Next(original, res, o)|)
      requires forall k :: 0 <= k < |Next(original, res, o)| ==> Next(original, res, o)[k] in traversed
      ensures Settled(o)
    {
      assert heap[o].vals == Children(Resolved(original, res, original[o]));
    }
  }

  /** The store with the references replaced in all values that can be reached from root, and nothing else changed. */
  ghost function ResolvedFrom(h: Heap, res: map<Id, Id>, root: Id): Heap {
    map n | n in h :: if n in Reachable(h, res, root) then Resolved(h, res, h[n]) else h[n]
  }

  /** ResolveReferencesDeep, from an empty map of traversed objects. */
  method ResolveReferencesDeep(h: Heap, res: map<Id, Id>, root: Id) returns (ok: bool, after: Heap)
    requires WellFormed(h, res) && root in h
    ensures ok <==> forall n :: n in Reachable(h, res, root) ==> !h[n].Reference?
    ensures ok ==> after == ResolvedFrom(h, res, root)
    ensures after.Keys == h.Keys && forall n :: n in h && n !in Reachable(h, res, root) ==> after[n] == h[n]
  {
    hide Resolved, Next, WellFormed;
    ghost var scope := Reachable(h, res, root);
    ReachableIsClosed(h, res, root);
    var r := new Resolver(h, res, scope);
    ghost var bad;
    ok, bad := r.Resolve(root);
    after := r.heap;
    if ok {
      r.TraversedIsClosed();
      SmallestClosed(h, res, root, r.traversed);
      assert forall n :: n in scope ==> r.Settled(n);
      r.NoReferences();
    }
  }

  lemma {:induction false} SmallestClosed(h: Heap, res: map<Id, Id>, root: Id, s: set<Id>)
    requires root in s && ClosedUnder(h, res, s)
    ensures Reachable(h, res, root) <= s
  {
    hide Next;
  }

  /** A walk along the pointers of a store. */
  ghost predicate Walk(h: Heap, p: seq<Id>) {
    && (forall i :: 0 <= i < |p| ==> p[i] in h)
    && forall i :: 0 <= i < |p| - 1 ==> p[i + 1] in Children(h[p[i]])
  }

  /** After it succeeds, no walk along the pointers from the root, however long, comes to a reference. */
  lemma {:induction false} NoReferenceIsLeft(h: Heap, res: map<Id, Id>, root: Id, p: seq<Id>)
    requires WellFormed(h, res) && root in h
    requires forall n :: n in Reachable(h, res, root) ==> !h[n].Reference?
    requires |p| > 0 && p[0] == root && Walk(ResolvedFrom(h, res, root), p)
    ensures forall i :: 0 <= i < |p| ==> p[i] in Reachable(h, res, root) && !ResolvedFrom(h, res, root)[p[i]].Reference?
  {
    ReachableIsClosed(h, res, root);
    if |p| > 1 {
      var before := p[..|p| - 1];
      NoReferenceIsLeft(h, res, root, before);
      var last := p[|p| - 2];
      assert last == before[|p| - 2];
      assert p[|p| - 2 + 1] in Children(ResolvedFrom(h, res, root)[last]);
      assert Inside(h, res, Reachable(h, res, root), last);
      forall i | 0 <= i < |p| ensures p[i] in Reachable(h, res, root) {
        assert i < |before| ==> p[i] == before[i];
        var k :| 0 <= k < |Next(h, res, last)| && Next(h, res, last)[k] == p[|p| - 1];
      }
    }
  }

  /** With each object of the set, the set has the object inside an indirect one, the dictionary of a stream, and each value, looked up if it is a reference. */
  ghost predicate HoldsTogether(h: Heap, res: map<Id, Id>, s: set<Id>) {
    && s <= h.Keys
    && (forall n, t :: n in s && h[n] == Indirect(t) ==> t in s)
    && (forall n, d :: n in s && h[n] == Stream(d) ==> d in s)
    && (forall n, i :: n in s && h[n].Dict? && 0 <= i < |h[n].vals| ==> TakenFor(h, res, s, h[n].vals[i]))
    && (forall n, i :: n in s && h[n].Array? && 0 <= i < |h[n].vals| ==> TakenFor(h, res, s, h[n].vals[i]))
  }

  ghost predicate TakenFor(h: Heap, res: map<Id, Id>, s: set<Id>, v: Id) {
    v in h && if h[v].Reference? then v in res && res[v] in s else v in s
  }

  /** What HoldsTogether asks of one object. */
  ghost predicate Holds(h: Heap, res: map<Id, Id>, s: set<Id>, n: Node) {
    match n
    case Indirect(t) => t in s
    case Stream(d) => d in s
    case Dict(_, vs) => forall i :: 0 <= i < |vs| ==> TakenFor(h, res, s, vs[i])
    case Array(vs) => forall i :: 0 <= i < |vs| ==> TakenFor(h, res, s, vs[i])
    case _ => true
  }

  lemma {:induction false} ValuesTaken(h: Heap, res: map<Id, Id>, s: set<Id>, vs: seq<Id>)
    requires WellFormed(h, res) && forall i :: 0 <= i < |vs| ==> vs[i] in h
    ensures (forall i :: 0 <= i < |vs| ==> TakenFor(h, res, s, vs[i])) <==> forall i :: 0 <= i < |vs| ==> Targets(h, res, vs)[i] in s
  {
    hide WellFormed;
    forall i | 0 <= i < |vs| ensures TakenFor(h, res, s, vs[i]) <==> Targets(h, res, vs)[i] in s { LookedUp(h, res, vs[i]); }
  }

  lemma LookedUp(h: Heap, res: map<Id, Id>, v: Id)
    requires WellFormed(h, res) && v in h
    ensures h[v].Reference? ==> v in res
  {
  }

  lemma PointersStay(h: Heap, res: map<Id, Id>, n: Id)
    requires WellFormed(h, res) && n in h
    ensures forall i :: 0 <= i < |Children(h[n])| ==> Children(h[n])[i] in h
  {
    assert Points(h, n);
  }

  lemma {:induction false} InsideIff(h: Heap, res: map<Id, Id>, s: set<Id>, n: Id)
    requires WellFormed(h, res) && n in h
    ensures Inside(h, res, s, n) <==> Holds(h, res, s, h[n])
  {
    PointersStay(h, res, n);
    hide WellFormed, TakenFor;
    match h[n]
    case Dict(_, vs) =>
      assert Children(h[n]) == vs && Next(h, res, n) == Targets(h, res, vs);
      hide Next, Targets;
      ValuesTaken(h, res, s, vs);
    case Array(vs) =>
      assert Children(h[n]) == vs && Next(h, res, n) == Targets(h, res, vs);
      hide Next, Targets;
      ValuesTaken(h, res, s, vs);
    case Indirect(t) => assert Next(h, res, n) == [t] && (Inside(h, res, s, n) ==> Next(h, res, n)[0] in s);
    case Stream(d) => assert Next(h, res, n) == [d] && (Inside(h, res, s, n) ==> Next(h, res, n)[0] in s);
    case _ => assert Next(h, res, n) == [];
  }

  /** A set that no traversal leaves is one that holds together in these terms. */
  lemma {:induction false} ClosedIff(h: Heap, res: map<Id, Id>, s: set<Id>)
    requires WellFormed(h, res)
    ensures ClosedUnder(h, res, s) <==> HoldsTogether(h, res, s)
  {
    if s <= h.Keys {
      hide Inside, TakenFor, WellFormed;
      forall n | n in s ensures Inside(h, res, s, n) <==> Holds(h, res, s, h[n]) { InsideIff(h, res, s, n); }
      if HoldsTogether(h, res, s) {
        forall n | n in s ensures Holds(h, res, s, h[n]) {}
      }
    }
  }
}
