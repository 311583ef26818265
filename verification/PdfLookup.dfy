/** The parser's lookup of objects by number: a cache of objects, a cache of object streams, and marks. */
module PdfLookup {
  import opened Options
  import opened CachedLookup
  import opened Symbols

  class LookupParser {
    const file: File
    var objCache: map<int, Oid>
    var objstms: map<int, seq<byte>>
    var inProgress: set<int>
    var heap: map<Oid, Item>
    var next: Oid
    var decryptedObjects: set<Oid>
    // How often an object has been decrypted.
    ghost var times: map<Oid, nat>

    /** Numbers for which the caches have to be right whatever happened: those that stand for something. */
    ghost predicate Trusted(n: int)
      requires Accurate(file)
    {
      Stands(file, n) || FiltersKnown(file)
    }

    ghost predicate Finished(n: int, o: Oid)
      reads this
      requires Accurate(file)
    {
      && o in heap && o in times && n in file.xrefs
      && (Trusted(n) ==> Meaning(file, n) == Some(heap[o]) && times[o] == Decryptions(file, n))
      && (file.crypter.Some? ==> IsDecrypted(o))
    }

    ghost predicate GoodStream(c: int)
      reads this
      requires Accurate(file)
    {
      && c in objstms && c in file.xrefs && file.xrefs[c].Direct? && file.opens(c, objstms[c])
      && (Trusted(c) ==> Meaning(file, c).Some? && Meaning(file, c).value.Stream? && Meaning(file, c).value.data == objstms[c])
    }

    ghost predicate Shape()
      reads this
    {
      && Accurate(file) && times.Keys == heap.Keys && decryptedObjects <= heap.Keys
      && (forall o :: o in heap ==> o < next)
      && (forall c :: c in objstms ==> GoodStream(c))
    }

    ghost predicate ValidBut(x: set<int>)
      reads this
    {
      && Shape()
      && (forall n :: n in objCache && n !in x ==> Finished(n, objCache[n]))
    }

    ghost predicate Valid()
      reads this
    {
      ValidBut({})
    }

    /** No lookup is under way. */
    ghost predicate Quiet()
      reads this
      requires Accurate(file)
    {
      forall l :: l in inProgress ==> Hopeless(file, l)
    }

    /** What has been handed out or cached stays as it is; only numbers that no stream can use are left in progress. */
    twostate predicate Extends()
      reads this
      requires Accurate(file)
    {
      && old(next) <= next && old(objCache.Keys) <= objCache.Keys && old(decryptedObjects) <= decryptedObjects
      && (forall o :: o in old(heap) && o in old(times) ==>
            && o in heap && o in times && heap[o] == old(heap)[o] && times[o] == old(times)[o]
            && (o in decryptedObjects ==> o in old(decryptedObjects)))
      && (forall n :: n in old(objCache) && n in objCache ==> objCache[n] == old(objCache)[n])
      && (forall l :: l in inProgress && l !in old(inProgress) ==> Hopeless(file, l))
      && (forall l :: l in old(inProgress) ==> l in inProgress)
    }

    constructor (file: File)
      requires Accurate(file)
      ensures Valid() && Quiet() && this.file == file && objCache == map[] && heap == map[] && times == map[]
    {
      this.file := file;
      objCache := map[];
      objstms := map[];
      inProgress := {};
      heap := map[];
      next := 0;
      decryptedObjects := {};
      times := map[];
    }

    predicate IsDecrypted(o: Oid)
      reads this
    {
      o in decryptedObjects || (o in heap && file.crypter.Some? && Exempt(file.crypter.value, heap[o]))
    }

    method Make(it: Item) returns (o: Oid)
      requires Shape()
      modifies this
      ensures Shape() && Extends() && objCache == old(objCache) && objstms == old(objstms) && inProgress == old(inProgress)
      ensures forall x: set<int> :: old(ValidBut(x)) ==> ValidBut(x)
      ensures o !in old(heap) && o in heap && o in times && heap[o] == it && times[o] == 0 && o !in decryptedObjects
    {
      o := next;
      next := next + 1;
      heap := heap[o := it];
      times := times[o := 0];
    }

    ghost function Lengths(): set<int> {
      set at | at in file.slots && file.slots[at].StreamAt? && file.slots[at].length.Refers? :: file.slots[at].length.num
    }

    /** Objects that are stored directly and can be read, the length of a stream included. */
    ghost predicate IsStored(n: int)
      requires Accurate(file)
    {
      n in file.xrefs && file.xrefs[n].Direct? && RawMeaning(file, file.xrefs[n].offset).Some?
    }

    /** The object as it is in the file. */
    ghost function Stored(n: int): Item
      requires Accurate(file) && IsStored(n)
    {
      RawMeaning(file, file.xrefs[n].offset).value
    }

    ghost function Kind(n: int): nat {
      if n in file.xrefs && file.xrefs[n].Packed? then 1 else 0
    }

    /** The state after an object was read where it is stored: cached, but not yet decrypted. */
    ghost predicate Fetched(n: int, at: int, o: Oid)
      reads this
    {
      && ValidBut({n}) && n in file.xrefs && file.xrefs[n] == Direct(at) && n in objCache && objCache[n] == o
      && o in heap && o !in decryptedObjects && times[o] == 0
      && (forall m :: m in objCache && m != n ==> objCache[m] != o)
      && (Trusted(n) ==> RawMeaning(file, at) == Some(heap[o]))
    }

    /** Objects that are not to be decrypted are finished as they are fetched. */
    lemma {:induction false} ClearAsFetched(n: int, at: int, o: Oid)
      requires Fetched(n, at, o) && (file.crypter.None? || IsDecrypted(o))
      ensures Valid() && Finished(n, o)
    {
      hide RawMeaning, Meaning, Exempt;
      MeaningUnfolds(file, n);
    }

    lemma {:induction false} DecryptedAsMeant(n: int, at: int, o: Oid, raw: Item, ok: bool)
      requires ValidBut({n}) && n in file.xrefs && file.xrefs[n] == Direct(at) && n in objCache && objCache[n] == o
      requires o in heap && o in decryptedObjects && file.crypter.Some? && !Exempt(file.crypter.value, raw)
      requires Trusted(n) ==> RawMeaning(file, at) == Some(raw)
      requires ok <==> DecryptedItem(file.crypter.value, raw).Some?
      requires ok ==> heap[o] == DecryptedItem(file.crypter.value, raw).value && times[o] == 1
      ensures Valid() && Finished(n, o) && (Stands(file, n) ==> ok)
    {
      hide RawMeaning, Meaning, Exempt;
      MeaningUnfolds(file, n);
      if FiltersKnown(file) { assert DecryptedItem(file.crypter.value, raw).Some?; }
    }

    /** DecryptedItem in place: the object is marked first; on failure it stays as it was. */
    method DecryptInPlace(o: Oid, ghost n: int, ghost at: int) returns (ok: bool)
      requires Fetched(n, at, o) && file.crypter.Some? && !IsDecrypted(o)
      modifies `heap, `decryptedObjects, `times
      ensures ValidBut({n}) && heap.Keys == old(heap.Keys) && decryptedObjects == old(decryptedObjects) + {o}
      ensures forall p :: p in heap && p != o ==> heap[p] == old(heap)[p] && times[p] == old(times)[p]
      ensures var it := DecryptedItem(file.crypter.value, old(heap)[o]);
        (ok <==> it.Some?) && (!ok ==> heap == old(heap)) && (ok ==> heap[o] == it.value && times[o] == old(times)[o] + 1)
    {
      hide Exempt, RawMeaning, Meaning;
      decryptedObjects := decryptedObjects + {o};
      match DecryptedItem(file.crypter.value, heap[o])
      case Some(it) =>
        heap := heap[o := it];
        times := times[o := times[o] + 1];
        ok := true;
      case None =>
        ok := false;
    }

    /** Decrypt, for one numbered object that was just read. */
    method Decrypt(o: Oid, ghost n: int, ghost at: int) returns (ok: bool)
      requires Fetched(n, at, o) && file.crypter.Some? && !IsDecrypted(o)
      modifies `heap, `decryptedObjects, `times
      ensures Valid() && Finished(n, o) && (Stands(file, n) ==> ok)
      ensures ok <==> DecryptedItem(file.crypter.value, old(heap)[o]).Some?
      ensures !ok ==> heap == old(heap)
      ensures heap.Keys == old(heap.Keys) && decryptedObjects == old(decryptedObjects) + {o}
      ensures forall p :: p in heap && p != o ==> heap[p] == old(heap)[p] && times[p] == old(times)[p]
    {
      hide Meaning, Exempt, RawMeaning, Trusted, Decryptions, DecryptedItem, FiltersKnown;
      ghost var raw := heap[o];
      ok := DecryptInPlace(o, n, at);
      DecryptedAsMeant(n, at, o, raw, ok);
    }

    /** traceStreamLength: the integer in the object that is referred to, if there is one. */
    method TraceStreamLength(ghost n: int, ghost at: int, l: int) returns (ok: bool, len: Option<int>)
      requires Valid() && Waiting(file, inProgress, n) && HasLength(file, n, at, l)
      modifies this
      ensures Valid() && Extends()
      ensures RawMeaning(file, at).Some? ==> ok && len.Some?
      ensures ok && (Trusted(n) || RawMeaning(file, at).Some?) && len.Some? ==>
        Meaning(file, l).Some? && Meaning(file, l).value.Indirect? && Meaning(file, l).value.body == Integer(len.value)
      decreases Lengths() - inProgress, 0, 1
    {
      hide Want, Meaning, Stands, Gives, RawMeaning;
      len := None;
      LengthIsMeant(file, n, at, l);
      if l in inProgress {
        InProgressIsHopeless(file, inProgress, n, at, l);
        return false, None;
      }
      WaitingForLength(file, inProgress, n, at, l);
      MarkInProgress(l);
      var o;
      ok, o := Lookup(l);
      if !ok {
        HopelessUnlessInteger(file, l);
        return false, None;
      }
      if heap[o].Indirect? && heap[o].body.Pointer? {
        HopelessUnlessInteger(file, l);
        return false, None;
      }
      ClearInProgress(l);
      if heap[o].Indirect? && heap[o].body.Integer? {
        len := Some(heap[o].body.n);
      }
    }

    method MarkInProgress(l: int)
      requires Valid() && l !in inProgress
      modifies `inProgress
      ensures Valid() && inProgress == old(inProgress) + {l}
    {
      inProgress := inProgress + {l};
    }

    method ClearInProgress(l: int)
      requires Valid() && l in inProgress
      modifies `inProgress
      ensures Valid() && inProgress == old(inProgress) - {l}
    {
      inProgress := inProgress - {l};
    }

    /** ParseIndirectObject at the offset of n; the repairs that a failure starts are not modelled. */
    method ParseIndirectObject(n: int, at: int) returns (ok: bool, it: Item)
      requires Valid() && Waiting(file, inProgress, n) && n in file.xrefs && file.xrefs[n] == Direct(at)
      modifies this
      ensures Valid() && Extends()
      ensures Stands(file, n) ==> ok
      ensures ok && Trusted(n) ==> RawMeaning(file, at) == Some(it)
      ensures ok && FiltersKnown(file) ==> RawMeaning(file, at).Some?
      ensures IsStored(n) ==> ok && it == Stored(n)
      decreases Lengths() - inProgress, 0, 2
    {
      ok := false;
      it := Null;
      MeaningUnfolds(file, n);
      match file.slots[at]
      case Unreadable =>
      case ObjectAt(num, gen, body) => return true, Indirect(num, gen, body);
      case StreamAt(num, gen, isXRef, length, rest) =>
        var len: Option<int> := None;
        match length {
          case Given(i) => len := Some(i);
          case NoInteger =>
          case Refers(l) => 
            ok, len := TraceStreamLength(n, at, l);
            if !ok { return; }
        }
        if len.None? || !(0 <= len.value <= |rest|) {
          return false, Null;
        }
        return true, Stream(num, gen, isXRef, rest[..len.value]);
    }

    /** LookupByNumber, which is lookupByNumberWrapper: what is stored directly and still encrypted is decrypted. */
    method Lookup(n: int) returns (ok: bool, o: Oid)
      requires Valid() && Waiting(file, inProgress, n)
      modifies this
      ensures Valid() && Extends()
      ensures Stands(file, n) ==> ok
      ensures ok ==> o in heap && o in times && (Trusted(n) ==> Meaning(file, n) == Some(heap[o]) && times[o] == Decryptions(file, n))
      ensures ok ==> if n in file.xrefs then n in objCache && objCache[n] == o else o !in old(heap)
      ensures n in old(objCache) ==> ok && o == old(objCache)[n]
      ensures n !in old(objCache) && IsStored(n) ==>
        (ok <==> Clear(file, Stored(n)).Some?) && (!ok ==> n in objCache && objCache[n] in heap && heap[objCache[n]] == Stored(n))
      decreases Lengths() - inProgress, Kind(n), 5
    {
      hide Want, Meaning, Stands, RawMeaning, Exempt, DecryptedItem, GoodStream, FiltersKnown;
      var inObjStream;
      ok, o, inObjStream := LookupByNumber(n);
      if !ok { return; }
      if !inObjStream && file.crypter.Some? && !IsDecrypted(o) {
        ok := Decrypt(o, n, file.xrefs[n].offset);
      } else if n in file.xrefs && file.xrefs[n].Direct? && Fetched(n, file.xrefs[n].offset, o) {
        ClearAsFetched(n, file.xrefs[n].offset, o);
      }
    }

    ghost predicate Ready(n: int, o: Oid)
      reads this
      requires Accurate(file)
    {
      n in objCache && objCache[n] == o && Finished(n, o)
    }

    method LookupByNumber(n: int) returns (ok: bool, o: Oid, inObjStream: bool)
      requires Valid() && Waiting(file, inProgress, n)
      modifies this
      ensures Shape() && Extends()
      ensures Stands(file, n) ==> ok
      ensures !ok ==> Valid()
      ensures ok && n !in file.xrefs ==> Valid() && o !in old(heap) && o in heap && heap[o] == Null && o in times && times[o] == 0 && Meaning(file, n) == Some(Null)
      ensures ok && n !in file.xrefs && file.crypter.Some? ==> IsDecrypted(o)
      ensures n in old(objCache) ==> ok && o == old(objCache)[n] && Valid()
      ensures n !in old(objCache) && IsStored(n) ==> ok && !inObjStream && n in objCache && objCache[n] == o && o in heap && heap[o] == Stored(n) && o !in decryptedObjects
      ensures ok && n in file.xrefs ==>
        (Valid() && Ready(n, o)) ||
        (!inObjStream && o !in old(heap) && file.xrefs[n].Direct? && Fetched(n, file.xrefs[n].offset, o) && n !in old(objCache))
      decreases Lengths() - inProgress, Kind(n), 4
    {
      hide Want, Meaning, Stands, RawMeaning;
      ok, o, inObjStream := false, 0, false;
      if n in objCache {
        return true, objCache[n], false;
      }
      if n !in file.xrefs {
        MeaningUnfolds(file, n);
        o := Make(Null);
        return true, o, false;
      }
      match file.xrefs[n]
      case Direct(at) => ok, o := LookupAt(n, at);
      case Packed(c) =>
        inObjStream := true;
        ok, o := LookupPacked(n, c);
    }

    /** The branch of lookupByNumber for objects at an offset. */
    method LookupAt(n: int, at: int) returns (ok: bool, o: Oid)
      requires Valid() && Waiting(file, inProgress, n) && n !in objCache && n in file.xrefs && file.xrefs[n] == Direct(at)
      modifies this
      ensures Shape() && Extends()
      ensures Stands(file, n) ==> ok
      ensures !ok ==> Valid()
      ensures ok ==> o !in old(heap) && Fetched(n, at, o)
      ensures IsStored(n) ==> ok && heap[o] == Stored(n)
      decreases Lengths() - inProgress, 0, 3
    {
      hide Want, Meaning, Stands, RawMeaning, Exempt;
      var it;
      o := 0;
      ok, it := ParseIndirectObject(n, at);
      if ok {
        o := Make(it);
        Cache(n, o);
      }
    }

    method Cache(n: int, o: Oid)
      requires Valid() && n in file.xrefs && o in heap
      modifies `objCache
      ensures ValidBut({n}) && objCache == old(objCache)[n := o]
      ensures Finished(n, o) ==> Valid()
    {
      hide Meaning, Exempt, Stands, Trusted;
      objCache := objCache[n := o];
    }

    /** The branch of lookupByNumber for objects in object streams. */
    method LookupPacked(n: int, c: int) returns (ok: bool, o: Oid)
      requires Valid() && Waiting(file, inProgress, n) && n !in objCache && n in file.xrefs && file.xrefs[n] == Packed(c)
      modifies this
      ensures Valid() && Extends()
      ensures Stands(file, n) ==> ok
      ensures ok ==> Ready(n, o)
      decreases Lengths() - inProgress, 1, 3
    {
      hide Want, Meaning, Stands, RawMeaning, Exempt;
      ok, o := false, 0;
      if c == n || c !in file.xrefs {
        MeaningUnfolds(file, n);
        return;
      }
      ok, o := LookupObjectViaOS(c, n);
      if ok {
        Mark(o, n);
        Cache(n, o);
      }
    }

    /** An object from an object stream is marked as decrypted, for its lookups in the cache. */
    method Mark(o: Oid, ghost n: int)
      requires Valid() && o in heap
      requires forall m :: m in objCache ==> objCache[m] != o
      modifies `decryptedObjects
      ensures Valid() && decryptedObjects == old(decryptedObjects) + (if file.crypter.Some? then {o} else {})
    {
      hide Meaning, Exempt, Stands, Trusted;
      if file.crypter.Some? {
        decryptedObjects := decryptedObjects + {o};
      }
    }

    /** The object stream is looked up, and cached once its offset table is read. */
    method OpenContainer(c: int, ghost n: int) returns (ok: bool)
      requires Valid() && Waiting(file, inProgress, n) && n in file.xrefs && file.xrefs[n] == Packed(c) && c != n && c in file.xrefs
      modifies this
      ensures Valid() && Extends()
      ensures Stands(file, n) ==> ok
      ensures ok ==> c in objstms
      decreases Lengths() - inProgress, 1, 1
    {
      hide Want, Meaning, Stands, RawMeaning, Exempt;
      MeaningUnfolds(file, n);
      MeaningUnfolds(file, c);
      WaitingForContainer(file, inProgress, n, c);
      var so;
      ok, so := Lookup(c);
      if !ok { return; }
      ok := OpenStream(c, so);
    }

    method LookupObjectViaOS(c: int, n: int) returns (ok: bool, o: Oid)
      requires Valid() && Waiting(file, inProgress, n) && n in file.xrefs && file.xrefs[n] == Packed(c) && c != n && c in file.xrefs
      modifies this
      ensures Valid() && Extends()
      ensures Stands(file, n) ==> ok
      ensures ok ==> o !in old(heap) && o in heap && o in times && times[o] == 0 && o !in decryptedObjects
      ensures ok && Trusted(n) ==> Meaning(file, n) == Some(heap[o])
      ensures ok ==> forall m :: m in objCache ==> objCache[m] != o
      decreases Lengths() - inProgress, 1, 2
    {
      hide Want, Meaning, Stands, RawMeaning, Exempt;
      MeaningUnfolds(file, n);
      MeaningUnfolds(file, c);
      ok, o := false, 0;
      if c !in objstms {
        ok := OpenContainer(c, n);
        if !ok { return; }
      }
      match file.member(c, objstms[c], n)
      case None => return false, 0;
      case Some(body) =>
        o := Make(Indirect(n, 0, body));
        ok := true;
    }

    /** Reads the offset table of an object stream, which is then cached. */
    method OpenStream(c: int, so: Oid) returns (ok: bool)
      requires Valid() && Ready(c, so) && file.xrefs[c].Direct?
      modifies `objstms
      ensures Valid() && (ok ==> c in objstms)
      ensures Meaning(file, c).Some? && Meaning(file, c).value.Stream? && file.opens(c, Meaning(file, c).value.data) ==> ok
      ensures forall d :: d in old(objstms) && d != c ==> d in objstms && objstms[d] == old(objstms)[d]
    {
      hide Want, Meaning, RawMeaning, Exempt;
      if !heap[so].Stream? || (file.crypter.Some? && !IsDecrypted(so)) || !file.opens(c, heap[so].data) {
        return false;
      }
      objstms := objstms[c := heap[so].data];
      ok := true;
    }
  }

  /** Every run of lookups, from any state in which none is under way. */
  method Run(p: LookupParser, ns: seq<int>) returns (os: seq<Option<Oid>>)
    requires p.Valid() && p.Quiet()
    modifies p
    ensures p.Valid() && p.Quiet() && |os| == |ns|
    ensures forall i :: 0 <= i < |ns| ==> Answers(p, ns[i], os[i])
    ensures forall i, j :: 0 <= i < j < |ns| && ns[i] == ns[j] && ns[i] in p.file.xrefs && os[i].Some? && os[j].Some? ==> os[i] == os[j]
  {
    os := [];
    for k := 0 to |ns|
      invariant p.Valid() && p.Quiet() && |os| == k
      invariant forall i :: 0 <= i < k ==> Answers(p, ns[i], os[i]) && InCache(p, ns[i], os[i])
    {
      var o := Next(p, ns[k]);
      os := os + [o];
    }
  }

  /** The object handed out is what the number stands for, decrypted as often as it has to be. */
  ghost predicate Answers(p: LookupParser, n: int, o: Option<Oid>)
    reads p
    requires Accurate(p.file)
  {
    && (Stands(p.file, n) ==> o.Some?)
    && (FiltersKnown(p.file) && o.Some? ==> Stands(p.file, n))
    && (o.Some? ==> o.value in p.heap && o.value in p.times)
    && (o.Some? && Stands(p.file, n) ==>
          Meaning(p.file, n) == Some(p.heap[o.value]) && p.times[o.value] == Decryptions(p.file, n))
  }

  ghost predicate InCache(p: LookupParser, n: int, o: Option<Oid>)
    reads p
  {
    o.Some? && n in p.file.xrefs ==> n in p.objCache && p.objCache[n] == o.value
  }

  method Next(p: LookupParser, n: int) returns (o: Option<Oid>)
    requires p.Valid() && p.Quiet()
    modifies p
    ensures p.Valid() && p.Quiet() && Answers(p, n, o) && InCache(p, n, o)
    ensures p.Extends()
  {
    hide Want, Meaning, Stands, RawMeaning, Decryptions;
    var ok, oid := p.Lookup(n);
    o := if ok then Some(oid) else None;
  }

  /** A decryption that failed is forgotten: the second lookup hands the object out as it is in the file. */
  method SecondLookupHandsOutEncrypted(p: LookupParser, n: int) returns (first: bool, second: bool, o: Oid)
    requires p.Valid() && p.Quiet() && n !in p.objCache && p.IsStored(n) && Clear(p.file, p.Stored(n)).None?
    modifies p
    ensures !first && second && o in p.heap && p.heap[o] == p.Stored(n)
  {
    hide Want, Meaning, Stands, RawMeaning, Decryptions;
    first, o := p.Lookup(n);
    second, o := p.Lookup(n);
  }
}
