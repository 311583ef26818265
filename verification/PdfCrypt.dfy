/** The crypt object as it runs: the store and the two sets of marks are updated in place. */
module PdfCrypt {
  import opened Symbols
  import opened CryptSpec
  import opened CryptRoundTrip

  function Before<T>(front: seq<T>, r: Result<seq<T>>): Result<seq<T>> {
    match r
    case Done(h, m, rest) => Done(h, m, front + rest)
    case UnknownFilter => UnknownFilter
  }

  lemma BeforeTwice<T>(a: seq<T>, b: T, r: Result<seq<T>>)
    ensures Before(a, Before([b], r)) == Before(a + [b], r)
  {
    if r.Done? { assert a + ([b] + r.value) == a + [b] + r.value; }
  }

  lemma BeforeNothing<T>(r: Result<seq<T>>)
    ensures Before([], r) == r
  {
    if r.Done? { assert [] + r.value == r.value; }
  }

  class Crypt {
    const cfg: Config
    var heap: Heap
    var encryptedObjects: set<Id>
    var decryptedObjects: set<Id>

    constructor (cfg: Config, heap: Heap)
      ensures this.cfg == cfg && this.heap == heap && encryptedObjects == {} && decryptedObjects == {}
    {
      this.cfg := cfg;
      this.heap := heap;
      encryptedObjects := {};
      decryptedObjects := {};
    }

    method EncryptString(v: seq<byte>, num: int, gen: int) returns (ok: bool, v': seq<byte>)
      ensures EncObj(cfg, heap, encryptedObjects, Str(v), num, gen) ==
        if ok then Done(heap, encryptedObjects, Str(v')) else UnknownFilter
    {
      var stringFilter := STD_CRYPT_FILTER;
      if cfg.v >= 4 {
        if cfg.stringFilter == IDENTITY {
          return true, v;
        }
        stringFilter := cfg.stringFilter;
      }
      if stringFilter !in cfg.filters {
        return false, v;
      }
      var f := cfg.filters[stringFilter];
      return true, f.enc(v, KeyFor(f, num, gen));
    }

    method EncryptArray(es: seq<Obj>, num: int, gen: int) returns (ok: bool, es': seq<Obj>)
      modifies this
      ensures decryptedObjects == old(decryptedObjects)
      ensures match EncElems(cfg, old(heap), old(encryptedObjects), es, num, gen)
        case Done(h, m, v) => ok && heap == h && encryptedObjects == m && es' == v
        case UnknownFilter => !ok
      decreases heap.Keys - encryptedObjects, 1, es
    {
      hide EncObj;
      es' := [];
      ghost var goal := EncElems(cfg, heap, encryptedObjects, es, num, gen);
      BeforeNothing(goal);
      for i := 0 to |es|
        invariant heap.Keys == old(heap.Keys) && old(encryptedObjects) <= encryptedObjects
        invariant decryptedObjects == old(decryptedObjects)
        invariant goal == Before(es', EncElems(cfg, heap, encryptedObjects, es[i..], num, gen))
      {
        assert es[i..][0] == es[i] && es[i..][1..] == es[i + 1..];
        var step, e := Encrypt(es[i], num, gen);
        if !step {
          return false, es';
        }
        BeforeTwice(es', e, EncElems(cfg, heap, encryptedObjects, es[i + 1..], num, gen));
        es' := es' + [e];
      }
      assert es' + [] == es';
      ok := true;
    }

    method EncryptDict(d: seq<Entry>, num: int, gen: int) returns (ok: bool, d': seq<Entry>)
      modifies this
      ensures decryptedObjects == old(decryptedObjects)
      ensures match EncEntries(cfg, old(heap), old(encryptedObjects), d, HasType(d, "Sig"), num, gen)
        case Done(h, m, v) => ok && heap == h && encryptedObjects == m && d' == v
        case UnknownFilter => !ok
      decreases heap.Keys - encryptedObjects, 1, d
    {
      hide EncObj, Skipped, HasType;
      var isSig := HasType(d, "Sig");
      d' := [];
      ghost var goal := EncEntries(cfg, heap, encryptedObjects, d, isSig, num, gen);
      BeforeNothing(goal);
      for i := 0 to |d|
        invariant heap.Keys == old(heap.Keys) && old(encryptedObjects) <= encryptedObjects
        invariant decryptedObjects == old(decryptedObjects)
        invariant goal == Before(d', EncEntries(cfg, heap, encryptedObjects, d[i..], isSig, num, gen))
      {
        assert d[i].val < d[i];
        assert d[i..][0] == d[i] && d[i..][1..] == d[i + 1..];
        var o := d[i].val;
        if !Skipped(d[i].key, isSig) {
          var step, e := Encrypt(o, num, gen);
          if !step {
            return false, d';
          }
          o := e;
        }
        BeforeTwice(d', Entry(d[i].key, o), EncEntries(cfg, heap, encryptedObjects, d[i + 1..], isSig, num, gen));
        d' := d' + [Entry(d[i].key, o)];
      }
      assert d' + [] == d';
      ok := true;
    }

    /** A numbered object, once. */
    method EncryptNumbered(id: Id) returns (ok: bool)
      modifies this
      ensures decryptedObjects == old(decryptedObjects)
      ensures match EncLink(cfg, old(heap), old(encryptedObjects), id)
        case Done(h, m, _) => ok && heap == h && encryptedObjects == m
        case UnknownFilter => !ok
      decreases heap.Keys - encryptedObjects, 0
    {
      hide EncObj, EncEntries, StreamFilterOf, HasType;
      if id in encryptedObjects || id !in heap {
        return true;
      }
      encryptedObjects := encryptedObjects + {id};
      match heap[id] {
        case Indirect(num, gen, o) =>
          var step, o' := Encrypt(o, num, gen);
          if !step {
            return false;
          }
          heap := heap[id := Indirect(num, gen, o')];
        case Stream(num, gen, d, data) =>
          if HasType(d, "XRef") {
            return true;
          }
          var streamFilter := StreamFilterOf(cfg, d);
          if cfg.v >= 4 && streamFilter == IDENTITY {
            return true;
          }
          var step, d' := EncryptDict(d, num, gen);
          if !step || streamFilter !in cfg.filters {
            return false;
          }
          var f := cfg.filters[streamFilter];
          var data' := f.enc(data, KeyFor(f, num, gen));
          heap := heap[id := Stream(num, gen, SetEntry(d', "Length", Int(|data'|)), data')];
      }
      ok := true;
    }

    method Encrypt(o: Obj, parentObjNum: int, parentGenNum: int) returns (ok: bool, o': Obj)
      modifies this
      ensures decryptedObjects == old(decryptedObjects)
      ensures match EncObj(cfg, old(heap), old(encryptedObjects), o, parentObjNum, parentGenNum)
        case Done(h, m, v) => ok && heap == h && encryptedObjects == m && o' == v
        case UnknownFilter => !ok
      decreases heap.Keys - encryptedObjects, 1, o
    {
      hide EncLink, EncElems, EncEntries;
      ok, o' := true, o;
      match o {
        case Link(id) =>
          ok := EncryptNumbered(id);
        case Str(v) =>
          var v';
          ok, v' := EncryptString(v, parentObjNum, parentGenNum);
          o' := Str(v');
        case Arr(es) =>
          var es';
          ok, es' := EncryptArray(es, parentObjNum, parentGenNum);
          o' := Arr(es');
        case Dict(d) =>
          var d';
          ok, d' := EncryptDict(d, parentObjNum, parentGenNum);
          o' := Dict(d');
        case _ =>
      }
    }

    method DecryptString(v: seq<byte>, num: int, gen: int) returns (ok: bool, v': seq<byte>)
      ensures DecObj(cfg, heap, decryptedObjects, Str(v), num, gen) ==
        if ok then Done(heap, decryptedObjects, Str(v')) else UnknownFilter
    {
      var stringFilter := STD_CRYPT_FILTER;
      if cfg.v >= 4 {
        if cfg.stringFilter == IDENTITY {
          return true, v;
        }
        stringFilter := cfg.stringFilter;
      }
      if stringFilter !in cfg.filters {
        return false, v;
      }
      var f := cfg.filters[stringFilter];
      return true, f.dec(v, KeyFor(f, num, gen));
    }

    method DecryptArray(es: seq<Obj>, num: int, gen: int) returns (ok: bool, es': seq<Obj>)
      modifies this
      ensures encryptedObjects == old(encryptedObjects)
      ensures match DecElems(cfg, old(heap), old(decryptedObjects), es, num, gen)
        case Done(h, m, v) => ok && heap == h && decryptedObjects == m && es' == v
        case UnknownFilter => !ok
      decreases heap.Keys - decryptedObjects, 1, es
    {
      hide DecObj;
      es' := [];
      ghost var goal := DecElems(cfg, heap, decryptedObjects, es, num, gen);
      BeforeNothing(goal);
      for i := 0 to |es|
        invariant heap.Keys == old(heap.Keys) && old(decryptedObjects) <= decryptedObjects
        invariant encryptedObjects == old(encryptedObjects)
        invariant goal == Before(es', DecElems(cfg, heap, decryptedObjects, es[i..], num, gen))
      {
        assert es[i..][0] == es[i] && es[i..][1..] == es[i + 1..];
        var step, e := Decrypt(es[i], num, gen);
        if !step {
          return false, es';
        }
        BeforeTwice(es', e, DecElems(cfg, heap, decryptedObjects, es[i + 1..], num, gen));
        es' := es' + [e];
      }
      assert es' + [] == es';
      ok := true;
    }

    method DecryptDict(d: seq<Entry>, num: int, gen: int) returns (ok: bool, d': seq<Entry>)
      modifies this
      ensures encryptedObjects == old(encryptedObjects)
      ensures match DecEntries(cfg, old(heap), old(decryptedObjects), d, HasType(d, "Sig"), num, gen)
        case Done(h, m, v) => ok && heap == h && decryptedObjects == m && d' == v
        case UnknownFilter => !ok
      decreases heap.Keys - decryptedObjects, 1, d
    {
      hide DecObj, Skipped, HasType;
      var isSig := HasType(d, "Sig");
      d' := [];
      ghost var goal := DecEntries(cfg, heap, decryptedObjects, d, isSig, num, gen);
      BeforeNothing(goal);
      for i := 0 to |d|
        invariant heap.Keys == old(heap.Keys) && old(decryptedObjects) <= decryptedObjects
        invariant encryptedObjects == old(encryptedObjects)
        invariant goal == Before(d', DecEntries(cfg, heap, decryptedObjects, d[i..], isSig, num, gen))
      {
        assert d[i].val < d[i];
        assert d[i..][0] == d[i] && d[i..][1..] == d[i + 1..];
        var o := d[i].val;
        if !Skipped(d[i].key, isSig) {
          var step, e := Decrypt(o, num, gen);
          if !step {
            return false, d';
          }
          o := e;
        }
        BeforeTwice(d', Entry(d[i].key, o), DecEntries(cfg, heap, decryptedObjects, d[i + 1..], isSig, num, gen));
        d' := d' + [Entry(d[i].key, o)];
      }
      assert d' + [] == d';
      ok := true;
    }

    /** Marked already, or a kind of object that is not encrypted to begin with. */
    predicate IsDecrypted(id: Id)
      requires id in heap
      reads this
    {
      if id in decryptedObjects then true
      else
        match heap[id]
        case Stream(_, _, d, _) => cfg.r != 5 && HasType(d, "XRef")
        case Indirect(num, _, o) => num in cfg.decryptedObjNum || LooksLikeEncryptDict(o)
    }

    /** A numbered object, once. */
    method DecryptNumbered(id: Id) returns (ok: bool)
      modifies this
      ensures encryptedObjects == old(encryptedObjects)
      ensures match DecLink(cfg, old(heap), old(decryptedObjects), id)
        case Done(h, m, _) => ok && heap == h && decryptedObjects == m
        case UnknownFilter => !ok
      decreases heap.Keys - decryptedObjects, 0
    {
      hide DecObj, DecEntries, StreamFilterOf, HasType;
      if id !in heap || IsDecrypted(id) {
        return true;
      }
      decryptedObjects := decryptedObjects + {id};
      match heap[id] {
        case Indirect(num, gen, o) =>
          var step, o' := Decrypt(o, num, gen);
          if !step {
            return false;
          }
          heap := heap[id := Indirect(num, gen, o')];
        case Stream(num, gen, d, data) =>
          var streamFilter := StreamFilterOf(cfg, d);
          if cfg.v >= 4 && streamFilter == IDENTITY {
            return true;
          }
          var step, d' := DecryptDict(d, num, gen);
          if !step || streamFilter !in cfg.filters {
            return false;
          }
          var f := cfg.filters[streamFilter];
          var data' := f.dec(data, KeyFor(f, num, gen));
          heap := heap[id := Stream(num, gen, SetEntry(d', "Length", Int(|data'|)), data')];
      }
      ok := true;
    }

    method Decrypt(o: Obj, parentObjNum: int, parentGenNum: int) returns (ok: bool, o': Obj)
      modifies this
      ensures encryptedObjects == old(encryptedObjects)
      ensures match DecObj(cfg, old(heap), old(decryptedObjects), o, parentObjNum, parentGenNum)
        case Done(h, m, v) => ok && heap == h && decryptedObjects == m && o' == v
        case UnknownFilter => !ok
      decreases heap.Keys - decryptedObjects, 1, o
    {
      hide DecLink, DecElems, DecEntries;
      ok, o' := true, o;
      match o {
        case Link(id) =>
          ok := DecryptNumbered(id);
        case Str(v) =>
          var v';
          ok, v' := DecryptString(v, parentObjNum, parentGenNum);
          o' := Str(v');
        case Arr(es) =>
          var es';
          ok, es' := DecryptArray(es, parentObjNum, parentGenNum);
          o' := Arr(es');
        case Dict(d) =>
          var d';
          ok, d' := DecryptDict(d, parentObjNum, parentGenNum);
          o' := Dict(d');
        case _ =>
      }
    }

    /** A client: what has been encrypted in the store is there again after decryption. */
    method EncryptThenDecrypt(o: Obj, num: int, gen: int) returns (ok: bool, o': Obj)
      requires encryptedObjects == {} && decryptedObjects == {}
      requires Invertible(cfg)
      requires forall id :: id in heap ==> Accurate(heap[id]) && Symmetric(cfg, heap[id])
      modifies this
      ensures ok ==> heap == old(heap) && o' == o
    {
      DecryptUndoesEncryptWhenDone(cfg, heap, o, num, gen);
      ok, o' := Encrypt(o, num, gen);
      if ok {
        ok, o' := Decrypt(o', num, gen);
      }
    }
  }

  lemma DecryptUndoesEncryptWhenDone(cfg: Config, h: Heap, o: Obj, num: int, gen: int)
    requires Invertible(cfg)
    requires forall id :: id in h ==> Accurate(h[id]) && Symmetric(cfg, h[id])
    ensures var r := EncObj(cfg, h, {}, o, num, gen);
      r.Done? ==> var r' := DecObj(cfg, r.heap, {}, r.value, num, gen); r'.Done? && r'.heap == h && r'.value == o
  {
    if EncObj(cfg, h, {}, o, num, gen).Done? { DecryptUndoesEncrypt(cfg, h, o, num, gen); }
  }
}
