/** In content streams too, writing is undone by parsing exactly for the objects without a trapped dictionary entry. */
module ContentConverse {
  import opened Options
  import opened Symbols
  import opened Objects
  import PS = ParserSpec
  import RT = RoundTrip
  import RTC = RoundTripConverse
  import opened ContentSpec
  import opened CRT = ContentRoundTrip

  /** Direct objects, trapped entries among them. */
  predicate Written(o: Obj) {
    match o
    case Float(_) => false
    case Ref(_, _) => false
    case Arr(es) => forall i :: 0 <= i < |es| ==> Written(es[i])
    case Dict(d) => DistinctKeys(d) && forall i :: 0 <= i < |d| ==> Written(d[i].val)
    case _ => true
  }

  lemma WrittenIsWritable(o: Obj)
    requires Written(o)
    ensures Writable(o)
  {
  }

  lemma {:induction false} DirectIff(o: Obj)
    ensures Direct(o) <==> Written(o) && RT.TrapFree(o)
  {
    match o
    case Arr(es) => forall i | 0 <= i < |es| ensures Direct(es[i]) <==> Written(es[i]) && RT.TrapFree(es[i]) { DirectIff(es[i]); }
    case Dict(d) => forall i | 0 <= i < |d| ensures Direct(d[i].val) <==> Written(d[i].val) && RT.TrapFree(d[i].val) { DirectIff(d[i].val); }
    case _ =>
  }

  /** If anything is read from written text at all, it is no operand and ends with the text, and it is o only when o is trap-free. */
  ghost predicate ReadsFaithfully(o: Obj, k: seq<byte>)
    requires Writable(o)
  {
    var r := ParseObject(Put(o, k));
    r.Ok? ==> r.rest == k && r.value.Value? && (r.value.o == o <==> RT.TrapFree(o))
  }

  lemma {:induction false} Reads(o: Obj, k: seq<byte>)
    requires Written(o) && MayFollow(k)
    ensures Writable(o) && ReadsFaithfully(o, k)
    decreases o, 2
  {
    WrittenIsWritable(o);
    DirectIff(o);
    if RT.TrapFree(o) {
      ParsesBack(o, k);
    } else if o.Arr? {
      ElemsRead(PutElems(o.elems, k), o.elems, [], k);
      ArrayReads(o.elems, k);
    } else {
      var d := o.entries;
      var i :| 0 <= i < |d| && Spoiled(d[i]);
      RTC.KeysDetermineValues(d, i);
      EntriesReadAtKey(d, [], k, d[i]);
      DictReads(d, i, k);
    }
  }

  lemma {:induction false} ArrayResult(es: seq<Obj>, k: seq<byte>)
    requires Writable(Arr(es)) && k != []
    ensures ParseObject(Put(Arr(es), k)) ==
      match ArrayLoop(PutElems(es, k), []) case Ok(a, t) => Ok(Value(a), t) case Failed(why) => Failed(why)
  {
    hide ArrayLoop;
    var s := Put(Arr(es), k);
    RT.PrintedStartStays(Arr(es), k);
    assert s[1..] == PutElems(es, k);
  }

  lemma {:induction false} DictResult(d: seq<Entry>, k: seq<byte>)
    requires Writable(Dict(d)) && k != []
    ensures ParseObject(Put(Dict(d), k)) ==
      match DictLoop(PutEntries(d, k), []) case Ok(a, t) => Ok(Value(a), t) case Failed(why) => Failed(why)
  {
    hide DictLoop;
    var s := Put(Dict(d), k);
    RT.PrintedStartStays(Dict(d), k);
    assert s[2..] == PutEntries(d, k) && s[0] == LESS && s[1] == LESS;
  }

  lemma {:induction false} ArrayReads(es: seq<Obj>, k: seq<byte>)
    requires Writable(Arr(es)) && k != []
    requires ElemsFaithful(ArrayLoop(PutElems(es, k), []), es, [], k)
    ensures ReadsFaithfully(Arr(es), k)
  {
    hide ArrayLoop, Put, ParseObject;
    ArrayResult(es, k);
    var r := ArrayLoop(PutElems(es, k), []);
    if r.Ok? && RT.TrapFree(Arr(es)) {
      forall i | 0 <= i < |es| ensures r.value.elems[i] == es[i] { var none: seq<Obj> := []; assert r.value.elems[|none| + i] == es[i]; }
    }
  }

  lemma {:induction false} DictReads(d: seq<Entry>, i: nat, k: seq<byte>)
    requires Writable(Dict(d)) && k != [] && DistinctKeys(d) && i < |d| && Spoiled(d[i])
    requires EntryLost(DictLoop(PutEntries(d, k), []), k, d[i])
    ensures ReadsFaithfully(Dict(d), k)
  {
    hide DictLoop, Put, ParseObject;
    DictResult(d, k);
    RT.PresentKey(d, i);
  }

  /** An array is read to its end or not at all, and keeps exactly the trap-free elements. */
  ghost predicate ElemsFaithful(r: Result<Obj>, es: seq<Obj>, arr: seq<Obj>, k: seq<byte>) {
    r.Ok? ==>
      && r.rest == k && r.value.Arr? && |r.value.elems| == |arr| + |es| && arr <= r.value.elems
      && forall i :: 0 <= i < |es| ==> (r.value.elems[|arr| + i] == es[i] <==> RT.TrapFree(es[i]))
  }

  lemma {:induction false} ElemsRead(s: seq<byte>, es: seq<Obj>, arr: seq<Obj>, k: seq<byte>)
    requires forall i :: 0 <= i < |es| ==> Written(es[i]) && Writable(es[i])
    requires s == PutElems(es, k) || s == [SP] + PutElems(es, k)
    ensures ElemsFaithful(ArrayLoop(s, arr), es, arr, k)
    decreases es, 1
  {
    hide ArrayLoop, ParseObject, Put, PutElems, RT.AfterElem, MayFollow, Written, RT.TrapFree, Writable;
    if es == [] {
      ArrayEnd(s, arr, k);
    } else {
      var t := RT.AfterElem(es, k);
      ElemStep(s, es, arr, k);
      AfterElemFollows(es, k);
      Reads(es[0], t);
      var r := ParseObject(Put(es[0], t));
      if r.Ok? {
        var read := AsObject(r.value);
        ElemsRead(t, es[1..], arr + [read], k);
        var q := ArrayLoop(s, arr);
        if q.Ok? {
          var a := q.value.elems;
          assert a[|arr|] == (arr + [read])[|arr|];
          forall i | 0 <= i < |es| ensures a[|arr| + i] == es[i] <==> RT.TrapFree(es[i]) {
            if i > 0 { assert es[1..][i - 1] == es[i] && a[|arr + [read]| + (i - 1)] == a[|arr| + i]; }
          }
        }
      }
    }
  }

  /** An entry that must not be read back: trapped, or with a trap in its value. */
  predicate Spoiled(e: Entry) {
    RT.IsTrap(e) || !RT.TrapFree(e.val)
  }

  lemma {:induction false} SpoiledValue(e: Entry)
    requires Spoiled(e)
    ensures !e.val.Null?
    ensures e.val.Name? ==> PS.HasNullSuffix(e.key)
  {
  }

  /** If dictionary text is read to its end, the dictionary read does not have the spoiled entry. */
  ghost predicate EntryLost(r: Result<Obj>, k: seq<byte>, e: Entry) {
    r.Ok? ==> r.rest == k && r.value.Dict? && Lookup(r.value.entries, e.key) != Some(e.val)
  }

  /** The loop is about to read a key. */
  lemma {:induction false} EntriesReadAtKey(d: seq<Entry>, done: seq<Entry>, k: seq<byte>, e: Entry)
    requires forall i :: 0 <= i < |d| ==> Written(d[i].val) && Writable(d[i].val)
    requires forall i :: 0 <= i < |d| && d[i].key == e.key ==> d[i].val == e.val
    requires Spoiled(e) && Lookup(done, e.key) != Some(e.val)
    ensures EntryLost(DictLoop(PutEntries(d, k), done), k, e)
    decreases d, 1
  {
    hide DictLoop, ParseObject, Put, PutEntries, Lookup, Written, RT.TrapFree, Writable, MayFollow;
    if d == [] {
      DictEnd(done, k);
    } else {
      assert d[0].val < d[0];
      var more := PutEntries(d[1..], k);
      if RT.IsTrap(d[0]) {
        var key := d[0].key[..|d[0].key| - 4];
        TrapStep(d, done, k);
        LookupAfterSet(done, key, Null, e.key);
        SpoiledValue(e);
        EntriesReadAtValue(Put(d[0].val, more), d, SetEntry(done, key, Null), k, e);
      } else {
        EntryStep(d, done, k);
        EntriesFollow(d[1..], k);
        Reads(d[0].val, more);
        var r := ParseObject(Put(d[0].val, more));
        if r.Ok? {
          LookupAfterSet(done, d[0].key, r.value.o, e.key);
          EntriesReadAtKey(d[1..], SetEntry(done, d[0].key, r.value.o), k, e);
        }
      }
    }
  }

  /** One round of the loop on a trapped entry: the key is taken for one without a value. */
  lemma {:induction false} TrapStep(d: seq<Entry>, done: seq<Entry>, k: seq<byte>)
    requires d != [] && RT.IsTrap(d[0]) && forall i :: 0 <= i < |d| ==> Writable(d[i].val)
    ensures DictLoop(PutEntries(d, k), done) ==
      DictLoop(Put(d[0].val, PutEntries(d[1..], k)), SetEntry(done, d[0].key[..|d[0].key| - 4], Null))
  {
    hide ParseObject, NameBody, SkipSpaces;
    var more := PutEntries(d[1..], k);
    RT.FirstByte(d[0].val, more);
    RT.StartIsNotWhite(d[0].val, more);
    KeyReads(d[0].key, Put(d[0].val, more));
  }

  /** One round of the loop when a value is where a key should be. */
  lemma {:induction false} ValueAsKey(s: seq<byte>, o: Obj, more: seq<byte>, done: seq<Entry>)
    requires Writable(o) && MayFollow(more) && |more| >= 2 && SkipSpaces(more) == more
    requires s == Put(o, more) || s == [SP] + Put(o, more)
    ensures o.Name? && PS.HasNullSuffix(o.name) && more[0] == SLASH ==>
      DictLoop(s, done) == DictLoop(more, SetEntry(done, o.name[..|o.name| - 4], Null))
    ensures o.Name? && !(PS.HasNullSuffix(o.name) && more[0] == SLASH) ==>
      DictLoop(s, done) ==
        match ParseObject(more)
        case Ok(v, w) => DictLoop(w, SetEntry(done, o.name, AsObject(v)))
        case Failed(why) => Failed(why)
    ensures !o.Name? ==> DictLoop(s, done).Failed?
  {
    hide ParseObject;
    var x := Put(o, more);
    RT.FirstByte(o, more);
    RT.PrintedStartStays(o, more);
    assert SkipSpaces(s) == x by { assert ([SP] + x)[1..] == x; }
    if o.Name? {
      NameParsesBack(o.name, more);
      assert x[1..] == PutNameBody(o.name, more);
    }
  }

  lemma {:induction false} ClosingIsNoObject(k: seq<byte>)
    ensures ParseObject([GREATER, GREATER] + k).Failed?
  {
    hide ArrayLoop, DictLoop, ScanNumber, HexText, NameBody, PS.LiteralBody;
    var s := [GREATER, GREATER] + k;
    assert SkipComments(s) == s && s[0] == GREATER;
  }

  /** The next key is read as the value of the name before it. */
  lemma {:induction false} KeyAsValue(d: seq<Entry>, k: seq<byte>)
    requires d != [] && forall i :: 0 <= i < |d| ==> Writable(d[i].val)
    ensures ParseObject(PutEntries(d, k)) == Ok(Value(Name(d[0].key)), [SP] + Put(d[0].val, PutEntries(d[1..], k)))
  {
    hide ParseObject, Put;
    var t := [SP] + Put(d[0].val, PutEntries(d[1..], k));
    SimpleParsesBack(Name(d[0].key), t);
    SamePrint(d, k);
  }

  lemma {:induction false} SamePrint(d: seq<Entry>, k: seq<byte>)
    requires d != [] && forall i :: 0 <= i < |d| ==> Writable(d[i].val)
    ensures PutEntries(d, k) == Put(Name(d[0].key), [SP] + Put(d[0].val, PutEntries(d[1..], k)))
  {
  }

  /** The loop has taken a key for a name without value and is about to read the value as a key. */
  lemma {:induction false} EntriesReadAtValue(s: seq<byte>, d: seq<Entry>, done: seq<Entry>, k: seq<byte>, e: Entry)
    requires d != []
    requires forall i :: 0 <= i < |d| ==> Written(d[i].val) && Writable(d[i].val)
    requires forall i :: 0 <= i < |d| && d[i].key == e.key ==> d[i].val == e.val
    requires var x := Put(d[0].val, PutEntries(d[1..], k)); s == x || s == [SP] + x
    requires Spoiled(e) && Lookup(done, e.key) != Some(e.val)
    ensures EntryLost(DictLoop(s, done), k, e)
    decreases d, 0
  {
    hide DictLoop, ParseObject, Put, PutEntries, Lookup, Written, RT.TrapFree, Writable;
    var o, more, rest := d[0].val, PutEntries(d[1..], k), d[1..];
    EntriesFollow(rest, k);
    RTC.MoreStarts(rest, k);
    ValueAsKey(s, o, more, done);
    if o.Name? {
      SpoiledValue(e);
      if rest == [] {
        ClosingIsNoObject(k);
      } else if PS.HasNullSuffix(o.name) {
        var key := o.name[..|o.name| - 4];
        LookupAfterSet(done, key, Null, e.key);
        EntriesReadAtKey(rest, SetEntry(done, key, Null), k, e);
      } else {
        KeyAsValue(rest, k);
        LookupAfterSet(done, o.name, Name(rest[0].key), e.key);
        EntriesReadAtValue([SP] + Put(rest[0].val, PutEntries(rest[1..], k)), rest, SetEntry(done, o.name, Name(rest[0].key)), k, e);
      }
    }
  }

  /** An object written to a content stream is read back from it if and only if it is trap-free. */
  lemma {:induction false} ReadsBackIff(o: Obj, k: seq<byte>)
    requires Written(o) && MayFollow(k)
    ensures Writable(o)
    ensures ParseObject(Put(o, k)) == Ok(Value(o), k) <==> RT.TrapFree(o)
  {
    DirectIff(o);
    if RT.TrapFree(o) { ParsesBack(o, k); }
    Reads(o, k);
  }
}
