/**
 The other direction of the round trip: an object with a trapped dictionary entry, however deep,
 is never read back. So printing is undone by parsing exactly for the trap-free objects.
 */
module RoundTripConverse {
  import opened Options
  import opened Symbols
  import opened Objects
  import opened ParserSpec
  import opened RoundTrip
  import PL = ParserLimits

  /** Objects without fractions, whose dictionaries have distinct keys. */
  predicate Listed(o: Obj) {
    match o
    case Float(_) => false
    case Arr(es) => forall i :: 0 <= i < |es| ==> Listed(es[i])
    case Dict(d) => DistinctKeys(d) && forall i :: 0 <= i < |d| ==> Listed(d[i].val)
    case _ => true
  }

  /** A reference that the look-ahead does not reach over. */
  predicate Far(o: Obj) {
    o.Ref? && !FitsLookAhead(o.objNum, o.genNum)
  }

  /** No far reference, however deep, and no trap. */
  predicate Sound(o: Obj) {
    match o
    case Ref(_, _) => !Far(o)
    case Arr(es) => forall i :: 0 <= i < |es| ==> Sound(es[i])
    case Dict(d) => forall i :: 0 <= i < |d| ==> !IsTrap(d[i]) && Sound(d[i].val)
    case _ => true
  }

  lemma ListedIsWritable(o: Obj)
    requires Listed(o)
    ensures Writable(o)
  {
  }

  lemma {:induction false} SoundIff(o: Obj)
    requires Listed(o)
    ensures Sound(o) <==> Printable(o) && TrapFree(o)
  {
    match o
    case Arr(es) => forall i | 0 <= i < |es| ensures Sound(es[i]) <==> Printable(es[i]) && TrapFree(es[i]) { SoundIff(es[i]); }
    case Dict(d) =>
      forall i | 0 <= i < |d| ensures Sound(d[i].val) <==> Printable(d[i].val) && TrapFree(d[i].val) { SoundIff(d[i].val); }
    case _ =>
  }

  // ----- A far reference is read as an integer, and what is left of it is no object and no key

  function Tail(g: int64, k: seq<byte>): seq<byte> {
    [SP] + (FormatInt(g) + ([SP] + ([UPPER_R] + k)))
  }

  lemma {:induction false} FarReads(n: int64, g: int64, k: seq<byte>)
    requires !FitsLookAhead(n, g)
    ensures ParseObject(Put(Ref(n, g), k)) == Ok(Int(n), Tail(g, k))
  {
    hide MatchReference, ParseObject, FormatInt;
    PrintedReference(n, g, k);
    PL.LongReferenceIsNotMatched(n, g, k);
    IntegerParsesBack(n, Tail(g, k));
  }

  lemma {:induction false} RIsNoObject(k: seq<byte>)
    ensures ParseObject([UPPER_R] + k).Failed? && ParseObject([UPPER_R] + k).why == Syntax
  {
    hide DictLoop, ArrayLoop, LiteralBody;
    var s := [UPPER_R] + k;
    assert SkipComments(s) == s;
    assert Window(s, 15)[0] == UPPER_R;
    assert SkipRegexSpaces(Window(s, 15)) == Window(s, 15);
    assert ParseToken(s) == Failed(Syntax);
  }

  lemma {:induction false} TailFailsArray(g: int64, k: seq<byte>, arr: seq<Obj>)
    ensures ArrayLoop(Tail(g, k), arr) == Failed(Syntax)
  {
    hide ParseObject, FormatInt, MatchReference;
    var r := [SP] + ([UPPER_R] + k);
    var y := Put(Int(g), r);
    FirstByte(Int(g), r);
    PL.SpaceSkipped(y);
    OneSpace([UPPER_R] + k);
    assert EndsAny(r);
    IntegerIsNoReference(g, r);
    IntegerParsesBack(g, r);
    PL.OneElement(Tail(g, k), Int(g), arr, r);
    PL.SpaceSkipped([UPPER_R] + k);
    RIsNoObject(k);
  }

  lemma {:induction false} TailFailsDict(g: int64, k: seq<byte>, d: seq<Entry>)
    ensures DictLoop(Tail(g, k), d) == Failed(Syntax)
  {
    hide FormatInt;
    var y := FormatInt(g) + ([SP] + ([UPPER_R] + k));
    FirstByte(Int(g), [SP] + ([UPPER_R] + k));
    PL.SpaceSkipped(y);
    assert SkipComments(Tail(g, k)) == y;
    assert ParseName(y) == Failed(Syntax);
  }

  // ----- What is read of objects that are not sound

  /** If anything is read from printed text at all, it ends with the text, and it is o only when o is sound. */
  ghost predicate ReadsFaithfully(o: Obj, k: seq<byte>)
    requires Writable(o)
  {
    var p := ParseObject(Put(o, k));
    p.Ok? ==> p.rest == k && (p.value == o <==> Sound(o))
  }

  lemma {:induction false} Reads(o: Obj, k: seq<byte>)
    requires Listed(o) && !Far(o) && MayFollow(o, k)
    ensures Writable(o) && ReadsFaithfully(o, k)
    decreases o, 2
  {
    ListedIsWritable(o);
    SoundIff(o);
    if Sound(o) {
      ParsesBack(o, k);
    } else if o.Arr? {
      ElemsRead(PutElems(o.elems, k), o.elems, [], k);
      ArrayReads(o.elems, k);
    } else {
      var d := o.entries;
      var i :| 0 <= i < |d| && Spoiled(d[i]);
      KeysDetermineValues(d, i);
      EntriesReadAtKey(d, [], k, d[i]);
      DictReads(d, i, k);
    }
  }

  lemma {:induction false} ArrayReads(es: seq<Obj>, k: seq<byte>)
    requires Writable(Arr(es))
    requires ElemsFaithful(ArrayLoop(PutElems(es, k), []), es, [], k)
    ensures ReadsFaithfully(Arr(es), k)
  {
    hide ArrayLoop, Put, ParseObject;
    ArrayDispatch(es, k);
    var p := ArrayLoop(PutElems(es, k), []);
    if p.Ok? && Sound(Arr(es)) {
      forall i | 0 <= i < |es| ensures p.value.elems[i] == es[i] { var none: seq<Obj> := []; assert p.value.elems[|none| + i] == es[i]; }
    }
  }

  lemma {:induction false} DictReads(d: seq<Entry>, i: nat, k: seq<byte>)
    requires Writable(Dict(d)) && DistinctKeys(d) && i < |d| && Spoiled(d[i])
    requires EntryLost(DictLoop(PutEntries(d, k), []), k, d[i])
    ensures ReadsFaithfully(Dict(d), k)
  {
    hide DictLoop, Put, ParseObject;
    DictDispatch(d, k);
    PresentKey(d, i);
  }

  lemma {:induction false} KeysDetermineValues(d: seq<Entry>, i: nat)
    requires DistinctKeys(d) && i < |d|
    ensures forall j :: 0 <= j < |d| && d[j].key == d[i].key ==> d[j].val == d[i].val
  {
    forall j | 0 <= j < |d| && d[j].key == d[i].key ensures d[j].val == d[i].val {
      PresentKey(d, i);
      PresentKey(d, j);
    }
  }

  /** An array is read to its end or not at all, and keeps exactly the sound elements. */
  ghost predicate ElemsFaithful(p: Parsed<Obj>, es: seq<Obj>, arr: seq<Obj>, k: seq<byte>) {
    p.Ok? ==>
      && p.rest == k && p.value.Arr? && |p.value.elems| == |arr| + |es| && arr <= p.value.elems
      && forall i :: 0 <= i < |es| ==> (p.value.elems[|arr| + i] == es[i] <==> Sound(es[i]))
  }

  lemma {:induction false} ElemsRead(s: seq<byte>, es: seq<Obj>, arr: seq<Obj>, k: seq<byte>)
    requires forall i :: 0 <= i < |es| ==> Listed(es[i]) && Writable(es[i])
    requires s == PutElems(es, k) || s == [SP] + PutElems(es, k)
    ensures ElemsFaithful(ArrayLoop(s, arr), es, arr, k)
    decreases es, 1
  {
    hide ArrayLoop, ParseObject, Put, PutElems, AfterElem, MayFollow, EndsAny, Listed, Sound, Writable;
    if es == [] {
      ArrayEnd(s, arr, k);
    } else {
      var t := AfterElem(es, k);
      ElemStep(s, es, arr, k);
      AfterElemFollows(es, k);
      if Far(es[0]) {
        FarReads(es[0].objNum, es[0].genNum, t);
        TailFailsArray(es[0].genNum, t, arr + [Int(es[0].objNum)]);
        return;
      }
      EndsAnyMayFollow(es[0], t);
      Reads(es[0], t);
      var p := ParseObject(Put(es[0], t));
      if p.Ok? {
        ElemsRead(t, es[1..], arr + [p.value], k);
        var q := ArrayLoop(s, arr);
        if q.Ok? {
          var a := q.value.elems;
          assert a[|arr|] == (arr + [p.value])[|arr|];
          forall i | 0 <= i < |es| ensures a[|arr| + i] == es[i] <==> Sound(es[i]) {
            if i > 0 { assert es[1..][i - 1] == es[i] && a[|arr + [p.value]| + (i - 1)] == a[|arr| + i]; }
          }
        }
      }
    }
  }

  /** An entry that must not be read back: trapped, or with a value that is not sound. */
  predicate Spoiled(e: Entry) {
    IsTrap(e) || !Sound(e.val)
  }

  /** If dictionary text is read to its end, the dictionary read does not have the spoiled entry. */
  ghost predicate EntryLost(p: Parsed<Obj>, k: seq<byte>, e: Entry) {
    p.Ok? ==> p.rest == k && p.value.Dict? && Lookup(p.value.entries, e.key) != Some(e.val)
  }

  /** The loop is about to read a key. */
  lemma {:induction false} EntriesReadAtKey(d: seq<Entry>, done: seq<Entry>, k: seq<byte>, e: Entry)
    requires forall i :: 0 <= i < |d| ==> Listed(d[i].val) && Writable(d[i].val)
    requires forall i :: 0 <= i < |d| && d[i].key == e.key ==> d[i].val == e.val
    requires Spoiled(e) && Lookup(done, e.key) != Some(e.val)
    ensures EntryLost(DictLoop(PutEntries(d, k), done), k, e)
    decreases d, 1
  {
    hide DictLoop, ParseObject, Put, PutEntries, Lookup, EndsAny, MayFollow, Listed, Sound, Writable;
    if d == [] {
      DictEnd(done, k);
    } else {
      assert d[0].val < d[0];
      var more := PutEntries(d[1..], k);
      EntryStep(d, done, k);
      if IsTrap(d[0]) {
        var key := d[0].key[..|d[0].key| - 4];
        LookupAfterSet(done, key, Null, e.key);
        SpoiledValue(e);
        EntriesReadAtValue(Put(d[0].val, more), d, SetEntry(done, key, Null), k, e);
      } else {
        if Far(d[0].val) {
          FarReads(d[0].val.objNum, d[0].val.genNum, more);
          TailFailsDict(d[0].val.genNum, more, SetEntry(done, d[0].key, Int(d[0].val.objNum)));
          return;
        }
        EntriesFollow(d[1..], k);
        EndsAnyMayFollow(d[0].val, more);
        Reads(d[0].val, more);
        var p := ParseObject(Put(d[0].val, more));
        if p.Ok? {
          LookupAfterSet(done, d[0].key, p.value, e.key);
          TextGrows(d, k);
          EntriesReadAtKey(d[1..], SetEntry(done, d[0].key, p.value), k, e);
        }
      }
    }
  }

  lemma {:induction false} SpoiledValue(e: Entry)
    requires Spoiled(e)
    ensures !e.val.Null?
    ensures e.val.Name? ==> HasNullSuffix(e.key)
  {
  }

  lemma {:induction false} TextGrows(d: seq<Entry>, k: seq<byte>)
    requires d != [] && forall i :: 0 <= i < |d| ==> Writable(d[i].val)
    ensures |PutEntries(d[1..], k)| < |PutEntries(d, k)|
  {
    var more := PutEntries(d[1..], k);
    PrintedStartStays(d[0].val, more);
    PutNameBodyAppends(d[0].key, [SP] + Put(d[0].val, more));
  }

  /** One round of the loop when a value is where a key should be. */
  lemma {:induction false} ValueAsKey(s: seq<byte>, o: Obj, more: seq<byte>, done: seq<Entry>)
    requires Writable(o) && EndsAny(more) && |more| >= 2 && SkipSpaces(more) == more
    requires s == Put(o, more) || s == [SP] + Put(o, more)
    ensures o.Name? && HasNullSuffix(o.name) && more[0] == SLASH ==>
      DictLoop(s, done) == DictLoop(more, SetEntry(done, o.name[..|o.name| - 4], Null))
    ensures o.Name? && !(HasNullSuffix(o.name) && more[0] == SLASH) ==>
      DictLoop(s, done) ==
        match ParseObject(more)
        case Ok(v, w) => DictLoop(w, SetEntry(done, o.name, v))
        case Failed(why) => Failed(why)
    ensures !o.Name? ==> DictLoop(s, done).Failed?
  {
    hide ParseObject;
    var x := Put(o, more);
    FirstByte(o, more);
    PrintedStartStays(o, more);
    assert SkipComments(s) == x by { assert ([SP] + x)[1..] == x; }
    if o.Name? {
      NameParsesBack(o.name, more);
      assert x[1..] == PutNameBody(o.name, more);
      assert ParseName(x) == Ok(o.name, more);
    }
  }

  lemma {:induction false} ClosingIsNoObject(k: seq<byte>)
    ensures ParseObject([GREATER, GREATER] + k).Failed?
  {
    var s := [GREATER, GREATER] + k;
    assert SkipComments(s) == s && Window(s, 15)[0] == GREATER;
    assert SkipRegexSpaces(Window(s, 15)) == Window(s, 15);
    assert ParseToken(s).Failed?;
  }

  /** The next key is read as the value of the name before it. */
  lemma {:induction false} KeyAsValue(d: seq<Entry>, k: seq<byte>)
    requires d != [] && forall i :: 0 <= i < |d| ==> Writable(d[i].val)
    ensures ParseObject(PutEntries(d, k)) == Ok(Name(d[0].key), [SP] + Put(d[0].val, PutEntries(d[1..], k)))
  {
    var t := [SP] + Put(d[0].val, PutEntries(d[1..], k));
    var s := PutEntries(d, k);
    NameParsesBack(d[0].key, t);
    assert SkipComments(s) == s && s[1..] == PutNameBody(d[0].key, t);
    hide DictLoop, ArrayLoop, ParseToken;
    assert ParseName(s) == Ok(d[0].key, t);
  }

  /** The loop has taken a key for a name without value and is about to read the value as a key. */
  lemma {:induction false} EntriesReadAtValue(s: seq<byte>, d: seq<Entry>, done: seq<Entry>, k: seq<byte>, e: Entry)
    requires d != []
    requires forall i :: 0 <= i < |d| ==> Listed(d[i].val) && Writable(d[i].val)
    requires forall i :: 0 <= i < |d| && d[i].key == e.key ==> d[i].val == e.val
    requires var x := Put(d[0].val, PutEntries(d[1..], k)); s == x || s == [SP] + x
    requires Spoiled(e) && Lookup(done, e.key) != Some(e.val)
    ensures EntryLost(DictLoop(s, done), k, e)
    decreases d, 0
  {
    hide DictLoop, ParseObject, Put, PutEntries, Lookup, EndsAny, MayFollow, Listed, Sound, Writable;
    var o, more, rest := d[0].val, PutEntries(d[1..], k), d[1..];
    EntriesFollow(rest, k);
    MoreStarts(rest, k);
    ValueAsKey(s, o, more, done);
    if o.Name? {
      SpoiledValue(e);
      if rest == [] {
        ClosingIsNoObject(k);
      } else if HasNullSuffix(o.name) {
        var key := o.name[..|o.name| - 4];
        LookupAfterSet(done, key, Null, e.key);
        EntriesReadAtKey(rest, SetEntry(done, key, Null), k, e);
      } else {
        KeyAsValue(rest, k);
        LookupAfterSet(done, o.name, Name(rest[0].key), e.key);
        EntriesReadAtValue([SP] + Put(rest[0].val, PutEntries(rest[1..], k)), rest, SetEntry(done, o.name, Name(rest[0].key)), k, e);
      }
    }
  }

  lemma {:induction false} MoreStarts(d: seq<Entry>, k: seq<byte>)
    requires forall i :: 0 <= i < |d| ==> Writable(d[i].val)
    ensures d == [] ==> PutEntries(d, k) == [GREATER, GREATER] + k
    ensures d != [] ==> PutEntries(d, k)[0] == SLASH
    ensures SkipSpaces(PutEntries(d, k)) == PutEntries(d, k)
    ensures d == [] ==> PutEntries(d, k)[0] == GREATER
  {
  }

  // ----- What stands after the object

  /** A name goes on as long as bytes do that do not end it. */
  lemma {:induction false} NameGoesOn(n: seq<byte>, k: seq<byte>)
    ensures NameBody(PutNameBody(n, k)) == Prepend(n, NameBody(k))
  {
    hide NameBody;
    if n == [] {
      assert PutNameBody(n, k) == k;
      if NameBody(k).Ok? { assert [] + NameBody(k).value == NameBody(k).value; }
    } else {
      OneNameByte(n, k);
      NameGoesOn(n[1..], k);
      if NameBody(k).Ok? { assert [n[0]] + (n[1..] + NameBody(k).value) == n + NameBody(k).value; }
    }
  }

  lemma {:induction false} NameEndsAt(k: seq<byte>)
    ensures NameBody(k).Ok? && |NameBody(k).rest| == |k| ==> NameBody(k).value == []
    ensures NameBody(k).Ok? && |NameBody(k).rest| == |k| <==> k == [] || EndsName(k[0])
  {
  }

  lemma {:induction false} NameReadsBackIff(n: seq<byte>, k: seq<byte>)
    ensures ParseObject(Put(Name(n), k)) == Ok(Name(n), k) <==> MayFollow(Name(n), k)
  {
    hide DictLoop, ArrayLoop, ParseToken, NameBody;
    var s := Put(Name(n), k);
    assert SkipComments(s) == s && s[1..] == PutNameBody(n, k);
    NameGoesOn(n, k);
    NameEndsAt(k);
    assert n + [] == n;
    if MayFollow(Name(n), k) { NameParsesBack(n, k); }
  }

  /** A number goes on as long as bytes do that may belong to it. */
  lemma {:induction false} DigitsGoOn(d: seq<byte>, k: seq<byte>, allowSigns: bool)
    requires AllDigits(d)
    ensures ScanNumber(d + k, allowSigns).rest == ScanNumber(k, allowSigns).rest
  {
    if d == [] {
      assert d + k == k;
    } else {
      DigitsGoOn(d[1..], k, allowSigns);
      assert (d + k)[1..] == d[1..] + k;
    }
  }

  lemma {:induction false} IntegerGoesOn(n: int64, k: seq<byte>)
    ensures ScanNumber(FormatInt(n) + k, true).rest == k ==> EndsNumber(k, n >= 0)
  {
    var t := FormatInt(n);
    FormatIntIsDigits(n);
    if n >= 0 {
      DigitsGoOn(t, k, true);
    } else {
      DigitsGoOn(t[1..], k, false);
      assert (t + k)[1..] == t[1..] + k && (t + k)[0] == MINUS;
    }
    assert |ScanNumber(k, n >= 0).rest| == |k| ==> EndsNumber(k, n >= 0);
  }

  lemma {:induction false} IntegerReadsBackIff(n: int64, k: seq<byte>)
    ensures ParseObject(Put(Int(n), k)) == Ok(Int(n), k) <==> MayFollow(Int(n), k)
  {
    if MayFollow(Int(n), k) {
      IntegerParsesBack(n, k);
    } else {
      hide ParseObject, MatchReference, ScanNumber, FormatInt;
      FirstByte(Int(n), k);
      TokenDispatch(Put(Int(n), k));
      IntegerGoesOn(n, k);
      ReferenceIsNoInteger(Put(Int(n), k));
    }
  }

  /** Where the look-ahead matches a reference, no integer is read. */
  lemma {:induction false} ReferenceIsNoInteger(s: seq<byte>)
    ensures MatchReference(Window(s, 15)).Some? && ParseToken(s).Ok? ==> !ParseToken(s).value.Int?
  {
  }

  /** Printing then parsing gives the object back exactly when there is no far reference or trap in it and what follows does not belong to it. */
  lemma {:induction false} RoundTripIff(o: Obj, k: seq<byte>)
    requires Listed(o)
    ensures Writable(o)
    ensures ParseObject(Text(o) + k) == Ok(o, k) <==> Sound(o) && MayFollow(o, k)
  {
    ListedIsWritable(o);
    PutAppends(o, k);
    SoundIff(o);
    match o
    case Name(n) => NameReadsBackIff(n, k);
    case Int(n) => IntegerReadsBackIff(n, k);
    case Ref(n, g) => PL.ReferenceParsesBackIff(n, g, k);
    case _ =>
      if Sound(o) { ParsesBack(o, k); }
      Reads(o, k);
  }
}
