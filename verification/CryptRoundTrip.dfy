/** Decryption with fresh marks undoes encryption on every store of objects, cyclic or not. */
module CryptRoundTrip {
  import opened Options
  import opened Symbols
  import opened CryptSpec

  /** Every filter decrypts what it encrypts. */
  ghost predicate Invertible(cfg: Config) {
    forall name, b, k {:trigger cfg.filters[name].enc(b, k)} ::
      name in cfg.filters ==> cfg.filters[name].dec(cfg.filters[name].enc(b, k), k) == b
  }

  /** The Length entry is the length of the data. */
  predicate Accurate(c: Numbered) {
    c.Stream? ==> Lookup(c.dict, "Length") == Some(Int(|c.data|))
  }

  /** Nothing that decryption passes over but encryption does not, or the other way round. */
  predicate Symmetric(cfg: Config, c: Numbered) {
    if IsXRefStream(c) then cfg.r != 5 else !Exempt(cfg, c)
  }

  /** No string and no pointer in it. */
  predicate Plain(o: Obj) {
    match o
    case Str(_) => false
    case Link(_) => false
    case Arr(es) => forall i :: 0 <= i < |es| ==> Plain(es[i])
    case Dict(d) => forall i :: 0 <= i < |d| ==> Plain(d[i].val)
    case _ => true
  }

  /** No pointer in it. */
  predicate LinkFree(o: Obj) {
    match o
    case Link(_) => false
    case Arr(es) => forall i :: 0 <= i < |es| ==> LinkFree(es[i])
    case Dict(d) => forall i :: 0 <= i < |d| ==> LinkFree(d[i].val)
    case _ => true
  }

  /** A numbered object in which there is nothing to encrypt and nothing to follow. */
  predicate IsLeaf(c: Numbered) {
    c.Indirect? && Plain(c.obj)
  }

  /** The Length of a stream is anything but a pointer to where there is something to encrypt; it may also be missing. */
  predicate MildLength(h: Heap, c: Numbered) {
    c.Stream? ==>
      match Lookup(c.dict, "Length")
      case None => true
      case Some(Link(id)) => id !in h || IsLeaf(h[id])
      case Some(v) => LinkFree(v)
  }

  /** The cross-reference streams of a store, and the objects in which there is nothing to encrypt. */
  datatype Special = Special(xrefs: set<Id>, leaves: set<Id>)

  ghost predicate WellBehaved(cfg: Config, h: Heap, x: Special) {
    forall id :: id in h ==>
      MildLength(h, h[id]) && Symmetric(cfg, h[id]) && (id in x.xrefs <==> IsXRefStream(h[id])) && (id in x.leaves <==> IsLeaf(h[id]))
  }

  /** A stream that passes through the ciphers has the number of its bytes for its Length afterwards. */
  function Restored(cfg: Config, c: Numbered): Numbered {
    if c.Stream? && !IsXRefStream(c) && !PassesStream(cfg, c.dict) then c.(dict := SetEntry(c.dict, "Length", Int(|c.data|))) else c
  }

  // ----- What encryption cannot change: an object without its strings and numbers

  function Shape(o: Obj): Obj {
    match o
    case Str(_) => Str([])
    case Int(_) => Int(0)
    case Arr(es) => Arr(ShapeElems(es))
    case Dict(d) => Dict(ShapeEntries(d))
    case _ => o
  }

  function ShapeElems(es: seq<Obj>): (r: seq<Obj>)
    ensures |r| == |es|
  {
    if es == [] then [] else [Shape(es[0])] + ShapeElems(es[1..])
  }

  function ShapeEntries(d: seq<Entry>): (r: seq<Entry>)
    ensures |r| == |d|
  {
    if d == [] then []
    else
      assert d[0].val < d[0];
      [Entry(d[0].key, Shape(d[0].val))] + ShapeEntries(d[1..])
  }

  lemma {:induction false} LookupShape(d: seq<Entry>, key: string)
    ensures Lookup(ShapeEntries(d), key) ==
      match Lookup(d, key) case None => None case Some(o) => Some(Shape(o))
  {
    if d != [] { LookupShape(d[1..], key); }
  }

  lemma {:induction false} LookupSet(d: seq<Entry>, key: string, val: Obj, other: string)
    ensures Lookup(SetEntry(d, key, val), other) == if other == key then Some(val) else Lookup(d, other)
  {
    if d != [] { LookupSet(d[1..], key, val, other); }
  }

  lemma {:induction false} ShapeOfSet(d: seq<Entry>, key: string, val: Obj)
    ensures ShapeEntries(SetEntry(d, key, val)) == SetEntry(ShapeEntries(d), key, Shape(val))
  {
    if d != [] && d[0].key != key {
      FrontEntry(SetEntry(d, key, val));
      FrontEntry(d);
      ShapeOfSet(d[1..], key, val);
      assert SetEntry(d, key, val)[1..] == SetEntry(d[1..], key, val);
    } else {
      FrontEntry(SetEntry(d, key, val));
      if d != [] {
        FrontEntry(d);
        assert SetEntry(d, key, val)[1..] == d[1..];
      }
    }
  }

  lemma FrontEntry(d: seq<Entry>)
    requires d != []
    ensures ShapeEntries(d) == [Entry(d[0].key, Shape(d[0].val))] + ShapeEntries(d[1..])
  {
  }

  /** The Length of a stream has no say in how it is treated. */
  lemma {:induction false} LengthDecidesNothing(cfg: Config, d: seq<Entry>, n: int)
    ensures var e := SetEntry(d, "Length", Int(n));
      StreamFilterOf(cfg, e) == StreamFilterOf(cfg, d) && HasType(e, "XRef") == HasType(d, "XRef") && HasType(e, "Sig") == HasType(d, "Sig")
  {
    LookupSet(d, "Length", Int(n), "Filter");
    LookupSet(d, "Length", Int(n), "DecodeParms");
    LookupSet(d, "Length", Int(n), "Type");
  }

  /** Objects of one shape are treated alike. */
  lemma {:induction false} ShapeDecidesType(d: seq<Entry>, d': seq<Entry>, t: string)
    requires ShapeEntries(d) == ShapeEntries(d')
    ensures HasType(d, t) == HasType(d', t)
  {
    LookupShape(d, "Type");
    LookupShape(d', "Type");
  }

  lemma {:induction false} ShapeDecidesFilter(cfg: Config, d: seq<Entry>, d': seq<Entry>)
    requires ShapeEntries(d) == ShapeEntries(d')
    ensures StreamFilterOf(cfg, d) == StreamFilterOf(cfg, d')
  {
    FilterOfShape(cfg, d);
    FilterOfShape(cfg, d');
  }

  lemma {:induction false} FilterOfShape(cfg: Config, d: seq<Entry>)
    ensures StreamFilterOf(cfg, d) == StreamFilterOf(cfg, ShapeEntries(d))
  {
    LookupShape(d, "Filter");
    LookupShape(d, "DecodeParms");
    var filter, parms := Lookup(d, "Filter"), Lookup(d, "DecodeParms");
    if filter.Some? && filter.value.Arr? {
      var fs := filter.value.elems;
      assert fs != [] ==> (fs[0] == Name("Crypt") <==> ShapeElems(fs)[0] == Name("Crypt"));
    }
    if parms.Some? && parms.value.Dict? {
      LookupShape(parms.value.entries, "Name");
    }
  }

  lemma {:induction false} ShapeDecidesLookalike(o: Obj, o': Obj)
    requires Shape(o) == Shape(o')
    ensures LooksLikeEncryptDict(o) == LooksLikeEncryptDict(o')
  {
    if o.Dict? && o'.Dict? {
      LookupShape(o.entries, "V");
      LookupShape(o.entries, "R");
      LookupShape(o.entries, "O");
      LookupShape(o.entries, "U");
      LookupShape(o.entries, "P");
      LookupShape(o'.entries, "V");
      LookupShape(o'.entries, "R");
      LookupShape(o'.entries, "O");
      LookupShape(o'.entries, "U");
      LookupShape(o'.entries, "P");
    }
  }

  /** Names, keys, their order, links and everything skipped are never changed by encryption. */
  lemma {:induction false} EncKeepsShape(cfg: Config, h: Heap, m: set<Id>, o: Obj, num: int, gen: int)
    requires EncObj(cfg, h, m, o, num, gen).Done?
    ensures Shape(EncObj(cfg, h, m, o, num, gen).value) == Shape(o)
    decreases o
  {
    hide EncLink;
    match o
    case Arr(es) => EncElemsKeepsShape(cfg, h, m, es, num, gen);
    case Dict(d) => EncEntriesKeepsShape(cfg, h, m, d, HasType(d, "Sig"), num, gen);
    case _ =>
  }

  lemma {:induction false} EncElemsKeepsShape(cfg: Config, h: Heap, m: set<Id>, es: seq<Obj>, num: int, gen: int)
    requires EncElems(cfg, h, m, es, num, gen).Done?
    ensures ShapeElems(EncElems(cfg, h, m, es, num, gen).value) == ShapeElems(es)
    decreases es
  {
    hide EncObj;
    if es != [] {
      EncKeepsShape(cfg, h, m, es[0], num, gen);
      var r := EncObj(cfg, h, m, es[0], num, gen);
      EncElemsKeepsShape(cfg, r.heap, r.marks, es[1..], num, gen);
    }
  }

  lemma {:induction false} EncEntriesKeepsShape(cfg: Config, h: Heap, m: set<Id>, d: seq<Entry>, isSig: bool, num: int, gen: int)
    requires EncEntries(cfg, h, m, d, isSig, num, gen).Done?
    ensures ShapeEntries(EncEntries(cfg, h, m, d, isSig, num, gen).value) == ShapeEntries(d)
    ensures forall key :: Lookup(d, key).Some? && Lookup(d, key).value.Int? ==>
      Lookup(EncEntries(cfg, h, m, d, isSig, num, gen).value, key) == Lookup(d, key)
    decreases d
  {
    if d != [] {
      assert d[0].val < d[0];
      var v := d[0].val;
      if Skipped(d[0].key, isSig) {
        EncEntriesKeepsShape(cfg, h, m, d[1..], isSig, num, gen);
      } else {
        EncKeepsShape(cfg, h, m, v, num, gen);
        var r := EncObj(cfg, h, m, v, num, gen);
        EncEntriesKeepsShape(cfg, r.heap, r.marks, d[1..], isSig, num, gen);
      }
    }
  }

  // ----- What encryption touches

  /** Outside the objects newly marked nothing has changed. */
  ghost predicate Framed(h: Heap, m: set<Id>, h': Heap, m': set<Id>) {
    h.Keys == h'.Keys && m <= m' && forall id :: id in h && (id in m || id !in m') ==> h'[id] == h[id]
  }

  /** Encryption changes only what it marks, and leaves every object decryptable as it was. */
  ghost predicate Sound(cfg: Config, h: Heap, m: set<Id>, x: Special, h': Heap, m': set<Id>) {
    Framed(h, m, h', m') && WellBehaved(cfg, h', x) && forall id :: id in h && (id in x.xrefs || id in x.leaves) ==> h'[id] == h[id]
  }

  lemma {:induction false} SoundTwice(cfg: Config, h: Heap, m: set<Id>, x: Special, h1: Heap, m1: set<Id>, h2: Heap, m2: set<Id>)
    requires Sound(cfg, h, m, x, h1, m1) && Sound(cfg, h1, m1, x, h2, m2)
    ensures Sound(cfg, h, m, x, h2, m2)
  {
  }

  lemma {:induction false} EncObjSound(cfg: Config, h: Heap, m: set<Id>, x: Special, o: Obj, num: int, gen: int)
    requires WellBehaved(cfg, h, x)
    ensures var r := EncObj(cfg, h, m, o, num, gen); r.Done? ==> Sound(cfg, h, m, x, r.heap, r.marks)
    decreases h.Keys - m, 1, o
  {
    hide WellBehaved, Sound;
    SoundRefl(cfg, h, m, x);
    match o
    case Link(id) => EncLinkSound(cfg, h, m, x, id);
    case Arr(es) => EncElemsSound(cfg, h, m, x, es, num, gen);
    case Dict(d) => EncEntriesSound(cfg, h, m, x, d, HasType(d, "Sig"), num, gen);
    case _ =>
  }

  lemma SoundRefl(cfg: Config, h: Heap, m: set<Id>, x: Special)
    requires WellBehaved(cfg, h, x)
    ensures Sound(cfg, h, m, x, h, m)
  {
  }

  lemma SoundWell(cfg: Config, h: Heap, m: set<Id>, x: Special, h': Heap, m': set<Id>)
    requires Sound(cfg, h, m, x, h', m')
    ensures WellBehaved(cfg, h', x)
  {
  }

  lemma {:induction false} EncElemsSound(cfg: Config, h: Heap, m: set<Id>, x: Special, es: seq<Obj>, num: int, gen: int)
    requires WellBehaved(cfg, h, x)
    ensures var r := EncElems(cfg, h, m, es, num, gen); r.Done? ==> Sound(cfg, h, m, x, r.heap, r.marks)
    decreases h.Keys - m, 1, es
  {
    hide WellBehaved, Sound;
    SoundRefl(cfg, h, m, x);
    if es != [] {
      EncObjSound(cfg, h, m, x, es[0], num, gen);
      var r := EncObj(cfg, h, m, es[0], num, gen);
      if r.Done? {
        SoundWell(cfg, h, m, x, r.heap, r.marks);
        EncElemsSound(cfg, r.heap, r.marks, x, es[1..], num, gen);
        var r2 := EncElems(cfg, r.heap, r.marks, es[1..], num, gen);
        if r2.Done? { SoundTwice(cfg, h, m, x, r.heap, r.marks, r2.heap, r2.marks); }
      }
    }
  }

  lemma {:induction false} EncEntriesSound(cfg: Config, h: Heap, m: set<Id>, x: Special, d: seq<Entry>, isSig: bool, num: int, gen: int)
    requires WellBehaved(cfg, h, x)
    ensures var r := EncEntries(cfg, h, m, d, isSig, num, gen); r.Done? ==> Sound(cfg, h, m, x, r.heap, r.marks)
    decreases h.Keys - m, 1, d
  {
    hide WellBehaved, Sound;
    SoundRefl(cfg, h, m, x);
    if d != [] {
      assert d[0].val < d[0];
      if Skipped(d[0].key, isSig) {
        EncEntriesSound(cfg, h, m, x, d[1..], isSig, num, gen);
      } else {
        EncObjSound(cfg, h, m, x, d[0].val, num, gen);
        var r := EncObj(cfg, h, m, d[0].val, num, gen);
        if r.Done? {
          SoundWell(cfg, h, m, x, r.heap, r.marks);
          EncEntriesSound(cfg, r.heap, r.marks, x, d[1..], isSig, num, gen);
          var r2 := EncEntries(cfg, r.heap, r.marks, d[1..], isSig, num, gen);
          if r2.Done? { SoundTwice(cfg, h, m, x, r.heap, r.marks, r2.heap, r2.marks); }
        }
      }
    }
  }

  lemma MarkedOnly(cfg: Config, h: Heap, m: set<Id>, x: Special, m': set<Id>)
    requires WellBehaved(cfg, h, x) && m <= m'
    ensures Sound(cfg, h, m, x, h, m')
  {
  }

  // ----- Objects without pointers

  lemma {:induction false} LinkFreeEnc(cfg: Config, h: Heap, m: set<Id>, o: Obj, num: int, gen: int)
    requires LinkFree(o)
    ensures var r := EncObj(cfg, h, m, o, num, gen); r.Done? ==> r.heap == h && r.marks == m
    ensures Plain(o) ==> EncObj(cfg, h, m, o, num, gen) == Done(h, m, o)
    decreases o, 1
  {
    match o
    case Arr(es) => LinkFreeElems(cfg, h, m, es, num, gen);
    case Dict(d) => LinkFreeEntries(cfg, h, m, d, HasType(d, "Sig"), num, gen);
    case _ =>
  }

  lemma {:induction false} LinkFreeElems(cfg: Config, h: Heap, m: set<Id>, es: seq<Obj>, num: int, gen: int)
    requires forall i :: 0 <= i < |es| ==> LinkFree(es[i])
    ensures var r := EncElems(cfg, h, m, es, num, gen); r.Done? ==> r.heap == h && r.marks == m
    ensures (forall i :: 0 <= i < |es| ==> Plain(es[i])) ==> EncElems(cfg, h, m, es, num, gen) == Done(h, m, es)
    decreases es, 0
  {
    hide EncObj, Plain, LinkFree;
    if es != [] {
      LinkFreeEnc(cfg, h, m, es[0], num, gen);
      LinkFreeElems(cfg, h, m, es[1..], num, gen);
      assert [es[0]] + es[1..] == es;
    }
  }

  lemma {:induction false} LinkFreeEntries(cfg: Config, h: Heap, m: set<Id>, d: seq<Entry>, isSig: bool, num: int, gen: int)
    requires forall i :: 0 <= i < |d| ==> LinkFree(d[i].val)
    ensures var r := EncEntries(cfg, h, m, d, isSig, num, gen); r.Done? ==> r.heap == h && r.marks == m
    ensures (forall i :: 0 <= i < |d| ==> Plain(d[i].val)) ==> EncEntries(cfg, h, m, d, isSig, num, gen) == Done(h, m, d)
    decreases d, 0
  {
    hide EncObj, Plain, LinkFree, Skipped;
    if d != [] {
      assert d[0].val < d[0];
      LinkFreeEnc(cfg, h, m, d[0].val, num, gen);
      LinkFreeEntries(cfg, h, m, d[1..], isSig, num, gen);
      assert [Entry(d[0].key, d[0].val)] + d[1..] == d;
    }
  }

  lemma {:induction false} PlainIsLinkFree(o: Obj)
    requires Plain(o)
    ensures LinkFree(o)
  {
    match o
    case Arr(es) => forall i | 0 <= i < |es| ensures LinkFree(es[i]) { PlainIsLinkFree(es[i]); }
    case Dict(d) => forall i | 0 <= i < |d| ensures LinkFree(d[i].val) { PlainIsLinkFree(d[i].val); }
    case _ =>
  }

  /** A leaf is marked and nothing more. */
  lemma {:induction false} EncLeaf(cfg: Config, h: Heap, m: set<Id>, id: Id)
    requires id in h && IsLeaf(h[id])
    ensures EncLink(cfg, h, m, id) == Done(h, m + {id}, ())
  {
    var o := h[id].obj;
    PlainIsLinkFree(o);
    hide EncObj, Plain, LinkFree;
    LinkFreeEnc(cfg, h, m + {id}, o, h[id].num, h[id].gen);
    assert id in m ==> m + {id} == m;
    assert h[id := h[id]] == h;
  }

  lemma {:induction false} DecLeaf(cfg: Config, h: Heap, m: set<Id>, id: Id)
    requires id in h && IsLeaf(h[id])
    ensures var r := DecLink(cfg, h, m, id); r.Done? && r.heap == h && m <= r.marks <= m + {id}
  {
    var o := h[id].obj;
    hide DecObj, Plain, Exempt;
    PlainObjIsLeft(cfg, h, m + {id}, o, h[id].num, h[id].gen);
    assert h[id := h[id]] == h;
  }

  lemma {:induction false} EncLinkSound(cfg: Config, h: Heap, m: set<Id>, x: Special, id: Id)
    requires WellBehaved(cfg, h, x)
    ensures var r := EncLink(cfg, h, m, id); r.Done? ==> Sound(cfg, h, m, x, r.heap, r.marks)
    decreases h.Keys - m, 0
  {
    var r := EncLink(cfg, h, m, id);
    if id in m || id !in h || r.UnknownFilter? {
      SoundRefl(cfg, h, m, x);
    } else if IsLeaf(h[id]) {
      EncLeaf(cfg, h, m, id);
      MarkedOnly(cfg, h, m, x, r.marks);
    } else {
      var m1 := m + {id};
      match h[id]
      case Indirect(num, gen, o) =>
        hide StreamFilterOf, WellBehaved, Sound;
        EncObjSound(cfg, h, m1, x, o, num, gen);
        EncKeepsShape(cfg, h, m1, o, num, gen);
        var r1 := EncObj(cfg, h, m1, o, num, gen);
        SoundReplace(cfg, h, m, x, id, r1.heap, r1.marks, Indirect(num, gen, r1.value));
      case Stream(num, gen, d, data) =>
        if IsXRefStream(h[id]) || PassesStream(cfg, d) {
          SoundRefl(cfg, h, m, x);
        } else {
          EncEntriesSound(cfg, h, m1, x, d, HasType(d, "Sig"), num, gen);
          var r1 := EncEntries(cfg, h, m1, d, HasType(d, "Sig"), num, gen);
          EncryptedStream(cfg, h, m1, x, id);
          hide StreamFilterOf, WellBehaved, Sound, SetEntry;
          SoundReplace(cfg, h, m, x, id, r1.heap, r1.marks, r.heap[id]);
        }
    }
  }

  /** An object like the one it replaces, in a store where encryption has gone before it. */
  ghost predicate SameKind(c: Numbered, c': Numbered) {
    match c
    case Indirect(num, gen, o) => c'.Indirect? && c'.num == num && c'.gen == gen && Shape(c'.obj) == Shape(o)
    case Stream(num, gen, d, _) =>
      c'.Stream? && c'.num == num && c'.gen == gen && ShapeEntries(c'.dict) == ShapeEntries(SetEntry(d, "Length", Int(0))) && Lookup(c'.dict, "Length").Some? && Lookup(c'.dict, "Length").value.Int?
  }

  lemma {:induction false} ShapeDecidesPlain(o: Obj, o': Obj)
    requires Shape(o) == Shape(o')
    ensures Plain(o) <==> Plain(o')
  {
    match o
    case Arr(es) => ShapesDecidePlain(es, o'.elems);
    case Dict(d) => EntryShapesDecidePlain(d, o'.entries);
    case _ =>
  }

  lemma {:induction false} ShapesDecidePlain(es: seq<Obj>, es': seq<Obj>)
    requires ShapeElems(es) == ShapeElems(es')
    ensures (forall i :: 0 <= i < |es| ==> Plain(es[i])) <==> (forall i :: 0 <= i < |es'| ==> Plain(es'[i]))
  {
    hide Plain, Shape;
    assert |es| == |es'|;
    if es != [] {
      assert ShapeElems(es)[0] == ShapeElems(es')[0] && ShapeElems(es)[1..] == ShapeElems(es')[1..];
      assert ShapeElems(es)[1..] == ShapeElems(es[1..]) && ShapeElems(es')[1..] == ShapeElems(es'[1..]);
      ShapeDecidesPlain(es[0], es'[0]);
      ShapesDecidePlain(es[1..], es'[1..]);
    }
  }

  lemma {:induction false} EntryShapesDecidePlain(d: seq<Entry>, d': seq<Entry>)
    requires ShapeEntries(d) == ShapeEntries(d')
    ensures (forall i :: 0 <= i < |d| ==> Plain(d[i].val)) <==> (forall i :: 0 <= i < |d'| ==> Plain(d'[i].val))
  {
    hide Plain, Shape;
    assert |d| == |d'|;
    if d != [] {
      FrontEntry(d);
      FrontEntry(d');
      assert d[0].val < d[0];
      assert ShapeEntries(d)[0] == ShapeEntries(d')[0] && ShapeEntries(d)[1..] == ShapeEntries(d')[1..];
      assert ShapeEntries(d)[1..] == ShapeEntries(d[1..]) && ShapeEntries(d')[1..] == ShapeEntries(d'[1..]);
      ShapeDecidesPlain(d[0].val, d'[0].val);
      EntryShapesDecidePlain(d[1..], d'[1..]);
    }
  }

  lemma {:induction false} SoundReplace(cfg: Config, h: Heap, m: set<Id>, x: Special, id: Id, h': Heap, m': set<Id>, c: Numbered)
    requires WellBehaved(cfg, h, x) && id in h && id !in m && !IsXRefStream(h[id]) && !IsLeaf(h[id])
    requires Sound(cfg, h, m + {id}, x, h', m')
    requires SameKind(h[id], c)
    ensures Sound(cfg, h, m, x, h'[id := c], m')
  {
    assert Symmetric(cfg, c) && !IsXRefStream(c) && !IsLeaf(c) by {
      match h[id]
      case Indirect(_, _, o) => ShapeDecidesLookalike(o, c.obj); ShapeDecidesPlain(o, c.obj);
      case Stream(_, _, d, _) =>
        ShapeDecidesType(SetEntry(d, "Length", Int(0)), c.dict, "XRef");
        LengthDecidesNothing(cfg, d, 0);
    }
  }

  lemma {:induction false} EncryptedStream(cfg: Config, h: Heap, m1: set<Id>, x: Special, id: Id)
    requires WellBehaved(cfg, h, x) && id in h && h[id].Stream?
    requires var c := h[id]; EncEntries(cfg, h, m1, c.dict, HasType(c.dict, "Sig"), c.num, c.gen).Done?
    ensures var c := h[id]; var d' := EncEntries(cfg, h, m1, c.dict, HasType(c.dict, "Sig"), c.num, c.gen).value;
      forall data: seq<byte> :: SameKind(c, Stream(c.num, c.gen, SetEntry(d', "Length", Int(|data|)), data))
  {
    var c := h[id];
    EncEntriesKeepsShape(cfg, h, m1, c.dict, HasType(c.dict, "Sig"), c.num, c.gen);
    var d' := EncEntries(cfg, h, m1, c.dict, HasType(c.dict, "Sig"), c.num, c.gen).value;
    forall data: seq<byte> ensures SameKind(c, Stream(c.num, c.gen, SetEntry(d', "Length", Int(|data|)), data)) {
      ShapeOfSet(d', "Length", Int(|data|));
      ShapeOfSet(c.dict, "Length", Int(0));
      LookupSet(d', "Length", Int(|data|), "Length");
    }
  }

  // ----- Decryption undoes encryption

  /** The marks of decryption are those of encryption, but for cross-reference streams, which have none, and for leaves. */
  ghost predicate Agree(md: set<Id>, m: set<Id>, x: Special) {
    forall id :: id !in x.leaves ==> (id in md <==> id in m && id !in x.xrefs)
  }

  /**
   hd is a store in which everything that encryption marked between m and m' is as encryption left it,
   and the cross-reference streams and the leaves are as they were.
   */
  ghost predicate Ready(h: Heap, hd: Heap, x: Special, m: set<Id>, h': Heap, m': set<Id>) {
    && h.Keys == hd.Keys == h'.Keys
    && (forall id :: id in h && id in m' && id !in m ==> hd[id] == h'[id])
    && (forall id :: id in h && (id in x.xrefs || id in x.leaves) ==> hd[id] == h[id])
  }

  /** What encryption marked is restored, nothing else has changed, and the marks agree. */
  ghost predicate Undone(cfg: Config, h: Heap, hd: Heap, x: Special, m: set<Id>, m': set<Id>, hr: Heap, mr: set<Id>) {
    && hr.Keys == hd.Keys == h.Keys && Agree(mr, m', x)
    && forall id :: id in h ==> hr[id] == if id in m' && id !in m then Restored(cfg, h[id]) else hd[id]
  }

  lemma UndoneRefl(cfg: Config, h: Heap, hd: Heap, x: Special, m: set<Id>, md: set<Id>)
    requires h.Keys == hd.Keys && Agree(md, m, x)
    ensures Undone(cfg, h, hd, x, m, m, hd, md)
  {
  }

  /** The second part of a traversal after the first: its encryption left the first part alone, and so does its decryption. */
  lemma {:induction false} UndoneTwice(cfg: Config, h: Heap, x: Special, m: set<Id>, h1: Heap, m1: set<Id>, h2: Heap, m2: set<Id>,
                                       hd: Heap, hr1: Heap, mr1: set<Id>, hr2: Heap, mr2: set<Id>)
    requires Sound(cfg, h, m, x, h1, m1) && Sound(cfg, h1, m1, x, h2, m2)
    requires Ready(h, hd, x, m, h2, m2)
    ensures Ready(h, hd, x, m, h1, m1)
    ensures WellBehaved(cfg, h, x) && Undone(cfg, h, hd, x, m, m1, hr1, mr1) ==> Ready(h1, hr1, x, m1, h2, m2)
    ensures Undone(cfg, h, hd, x, m, m1, hr1, mr1) && Undone(cfg, h1, hr1, x, m1, m2, hr2, mr2) ==>
      Undone(cfg, h, hd, x, m, m2, hr2, mr2)
  {
    hide Restored;
    if WellBehaved(cfg, h, x) {
      forall id | id in h && (id in x.xrefs || id in x.leaves) ensures Restored(cfg, h[id]) == h[id] { SpecialStays(cfg, h, x, id); }
    }
  }

  lemma SpecialStays(cfg: Config, h: Heap, x: Special, id: Id)
    requires WellBehaved(cfg, h, x) && id in h && (id in x.xrefs || id in x.leaves)
    ensures Restored(cfg, h[id]) == h[id]
  {
  }

  lemma {:induction false} UndoObj(cfg: Config, h: Heap, m: set<Id>, x: Special, o: Obj, num: int, gen: int, hd: Heap, md: set<Id>)
    requires Invertible(cfg) && WellBehaved(cfg, h, x) && Agree(md, m, x)
    requires var r := EncObj(cfg, h, m, o, num, gen); r.Done? && Ready(h, hd, x, m, r.heap, r.marks)
    ensures var r := EncObj(cfg, h, m, o, num, gen);
      var r' := DecObj(cfg, hd, md, r.value, num, gen);
      r'.Done? && r'.value == o && Undone(cfg, h, hd, x, m, r.marks, r'.heap, r'.marks)
    decreases h.Keys - m, 2, o
  {
    hide WellBehaved, Ready, Undone, Agree, StreamFilterOf;
    assert h.Keys == hd.Keys by { ReadyKeys(h, hd, x, m, EncObj(cfg, h, m, o, num, gen).heap, EncObj(cfg, h, m, o, num, gen).marks); }
    UndoneRefl(cfg, h, hd, x, m, md);
    match o
    case Link(id) =>
      UndoLink(cfg, h, m, x, id, hd, md);
    case Arr(es) =>
      UndoElems(cfg, h, m, x, es, num, gen, hd, md);
    case Dict(d) =>
      var isSig := HasType(d, "Sig");
      UndoEntries(cfg, h, m, x, d, isSig, num, gen, hd, md);
      EncEntriesKeepsShape(cfg, h, m, d, isSig, num, gen);
      ShapeDecidesType(d, EncEntries(cfg, h, m, d, isSig, num, gen).value, "Sig");
    case Str(v) =>
      if !PassesStrings(cfg) {
        FilterUndone(cfg, StringFilter(cfg), v, KeyFor(cfg.filters[StringFilter(cfg)], num, gen));
      }
    case _ =>
  }

  lemma ReadyKeys(h: Heap, hd: Heap, x: Special, m: set<Id>, h': Heap, m': set<Id>)
    requires Ready(h, hd, x, m, h', m')
    ensures h.Keys == hd.Keys
  {
  }

  lemma UndoneMarks(cfg: Config, h: Heap, hd: Heap, x: Special, m: set<Id>, m': set<Id>, hr: Heap, mr: set<Id>)
    requires Undone(cfg, h, hd, x, m, m', hr, mr)
    ensures Agree(mr, m', x)
  {
  }

  lemma {:induction false} UndoElems(cfg: Config, h: Heap, m: set<Id>, x: Special, es: seq<Obj>, num: int, gen: int, hd: Heap, md: set<Id>)
    requires Invertible(cfg) && WellBehaved(cfg, h, x) && Agree(md, m, x)
    requires var r := EncElems(cfg, h, m, es, num, gen); r.Done? && Ready(h, hd, x, m, r.heap, r.marks)
    ensures var r := EncElems(cfg, h, m, es, num, gen);
      var r' := DecElems(cfg, hd, md, r.value, num, gen);
      r'.Done? && r'.value == es && Undone(cfg, h, hd, x, m, r.marks, r'.heap, r'.marks)
    decreases h.Keys - m, 2, es
  {
    hide WellBehaved, Ready, Undone, Agree, Sound, EncObj, DecObj;
    var r := EncElems(cfg, h, m, es, num, gen);
    ReadyKeys(h, hd, x, m, r.heap, r.marks);
    UndoneRefl(cfg, h, hd, x, m, md);
    if es != [] {
      var r1 := EncObj(cfg, h, m, es[0], num, gen);
      EncObjSound(cfg, h, m, x, es[0], num, gen);
      SoundWell(cfg, h, m, x, r1.heap, r1.marks);
      EncElemsSound(cfg, r1.heap, r1.marks, x, es[1..], num, gen);
      UndoneTwice(cfg, h, x, m, r1.heap, r1.marks, r.heap, r.marks, hd, hd, md, hd, md);
      UndoObj(cfg, h, m, x, es[0], num, gen, hd, md);
      var d1 := DecObj(cfg, hd, md, r1.value, num, gen);
      UndoneMarks(cfg, h, hd, x, m, r1.marks, d1.heap, d1.marks);
      UndoneTwice(cfg, h, x, m, r1.heap, r1.marks, r.heap, r.marks, hd, d1.heap, d1.marks, hd, md);
      UndoElems(cfg, r1.heap, r1.marks, x, es[1..], num, gen, d1.heap, d1.marks);
      var d2 := DecElems(cfg, d1.heap, d1.marks, r.value[1..], num, gen);
      UndoneTwice(cfg, h, x, m, r1.heap, r1.marks, r.heap, r.marks, hd, d1.heap, d1.marks, d2.heap, d2.marks);
      assert [es[0]] + es[1..] == es;
    }
  }

  lemma {:induction false} UndoEntries(cfg: Config, h: Heap, m: set<Id>, x: Special, d: seq<Entry>, isSig: bool, num: int, gen: int, hd: Heap, md: set<Id>)
    requires Invertible(cfg) && WellBehaved(cfg, h, x) && Agree(md, m, x)
    requires var r := EncEntries(cfg, h, m, d, isSig, num, gen); r.Done? && Ready(h, hd, x, m, r.heap, r.marks)
    ensures var r := EncEntries(cfg, h, m, d, isSig, num, gen);
      var r' := DecEntries(cfg, hd, md, r.value, isSig, num, gen);
      r'.Done? && r'.value == d && Undone(cfg, h, hd, x, m, r.marks, r'.heap, r'.marks)
    decreases h.Keys - m, 2, d
  {
    hide WellBehaved, Ready, Undone, Agree, Sound, EncObj, DecObj, Skipped;
    var r := EncEntries(cfg, h, m, d, isSig, num, gen);
    ReadyKeys(h, hd, x, m, r.heap, r.marks);
    UndoneRefl(cfg, h, hd, x, m, md);
    if d != [] {
      assert d[0].val < d[0];
      if Skipped(d[0].key, isSig) {
        UndoEntries(cfg, h, m, x, d[1..], isSig, num, gen, hd, md);
        assert r.value[1..] == EncEntries(cfg, h, m, d[1..], isSig, num, gen).value;
      } else {
        var r1 := EncObj(cfg, h, m, d[0].val, num, gen);
        EncObjSound(cfg, h, m, x, d[0].val, num, gen);
        SoundWell(cfg, h, m, x, r1.heap, r1.marks);
        EncEntriesSound(cfg, r1.heap, r1.marks, x, d[1..], isSig, num, gen);
        UndoneTwice(cfg, h, x, m, r1.heap, r1.marks, r.heap, r.marks, hd, hd, md, hd, md);
        UndoObj(cfg, h, m, x, d[0].val, num, gen, hd, md);
        var d1 := DecObj(cfg, hd, md, r1.value, num, gen);
        UndoneMarks(cfg, h, hd, x, m, r1.marks, d1.heap, d1.marks);
        UndoneTwice(cfg, h, x, m, r1.heap, r1.marks, r.heap, r.marks, hd, d1.heap, d1.marks, hd, md);
        UndoEntries(cfg, r1.heap, r1.marks, x, d[1..], isSig, num, gen, d1.heap, d1.marks);
        var d2 := DecEntries(cfg, d1.heap, d1.marks, r.value[1..], isSig, num, gen);
        UndoneTwice(cfg, h, x, m, r1.heap, r1.marks, r.heap, r.marks, hd, d1.heap, d1.marks, d2.heap, d2.marks);
      }
      assert [d[0]] + d[1..] == d;
    }
  }

  // ----- The dictionary of a stream, whose Length is a number when it is decrypted, whatever it was before

  /** What a dictionary has for the Length of its stream, if it has one. */
  predicate MildEntry(h: Heap, d: seq<Entry>) {
    match Lookup(d, "Length")
    case None => true
    case Some(Link(id)) => id !in h || IsLeaf(h[id])
    case Some(v) => LinkFree(v)
  }

  /** Encryption of such a Length leaves the store as it is, and marks no more than a leaf. */
  lemma {:induction false} MildLengthEnc(cfg: Config, h: Heap, m: set<Id>, x: Special, v: Obj, num: int, gen: int, md: set<Id>)
    requires WellBehaved(cfg, h, x) && EncObj(cfg, h, m, v, num, gen).Done?
    requires if v.Link? then v.id !in h || IsLeaf(h[v.id]) else LinkFree(v)
    requires Agree(md, m, x)
    ensures var r := EncObj(cfg, h, m, v, num, gen); r.heap == h && m <= r.marks && Agree(md, r.marks, x)
    ensures forall id :: id in EncObj(cfg, h, m, v, num, gen).marks && id !in m ==> id in x.leaves && id in h && IsLeaf(h[id])
  {
    hide IsLeaf, LinkFree;
    if v.Link? {
      if v.id in h { EncLeaf(cfg, h, m, v.id); }
    } else {
      LinkFreeEnc(cfg, h, m, v, num, gen);
    }
  }

  /** An entry that decryption does not look at. */
  lemma {:induction false} NumberEntry(cfg: Config, h: Heap, m: set<Id>, key: string, n: int, rest: seq<Entry>, isSig: bool, num: int, gen: int)
    ensures DecEntries(cfg, h, m, [Entry(key, Int(n))] + rest, isSig, num, gen) ==
      match DecEntries(cfg, h, m, rest, isSig, num, gen)
      case Done(h', m', v) => Done(h', m', [Entry(key, Int(n))] + v)
      case UnknownFilter => UnknownFilter
  {
    hide Skipped;
    assert ([Entry(key, Int(n))] + rest)[1..] == rest;
  }

  /** What is marked between m and m' was marked before already, but for leaves, which are as they were. */
  lemma {:induction false} OnlyLeavesMarked(cfg: Config, h: Heap, x: Special, m: set<Id>, m1: set<Id>, h': Heap, m': set<Id>, hd: Heap, hr: Heap, mr: set<Id>)
    requires WellBehaved(cfg, h, x) && m <= m1 && (forall id :: id in m1 && id !in m ==> id in x.leaves && id in h && IsLeaf(h[id]))
    requires Ready(h, hd, x, m, h', m') && m1 <= m'
    ensures Ready(h, hd, x, m1, h', m')
    ensures Undone(cfg, h, hd, x, m1, m', hr, mr) ==> Undone(cfg, h, hd, x, m, m', hr, mr)
  {
    hide IsXRefStream, PassesStream, Agree;
  }

  lemma {:induction false} UndoEntriesButLength(cfg: Config, h: Heap, m: set<Id>, x: Special, d: seq<Entry>, isSig: bool, num: int, gen: int,
                                                hd: Heap, md: set<Id>, n: int)
    requires Invertible(cfg) && WellBehaved(cfg, h, x) && Agree(md, m, x) && MildEntry(h, d)
    requires var r := EncEntries(cfg, h, m, d, isSig, num, gen); r.Done? && Ready(h, hd, x, m, r.heap, r.marks)
    ensures var r := EncEntries(cfg, h, m, d, isSig, num, gen);
      var r' := DecEntries(cfg, hd, md, SetEntry(r.value, "Length", Int(n)), isSig, num, gen);
      r'.Done? && r'.value == SetEntry(d, "Length", Int(n)) && Undone(cfg, h, hd, x, m, r.marks, r'.heap, r'.marks)
    decreases h.Keys - m, 3, d, 1
  {
    hide *;
    if d == [] {
      NoEntries(cfg, h, m, hd, md, n, isSig, num, gen);
      ReadyKeys(h, hd, x, m, h, m);
      UndoneRefl(cfg, h, hd, x, m, md);
    } else if d[0].key == "Length" {
      UndoLengthFirst(cfg, h, m, x, d, isSig, num, gen, hd, md, n);
    } else if Skipped(d[0].key, isSig) {
      UndoAfterSkipped(cfg, h, m, x, d, isSig, num, gen, hd, md, n);
    } else {
      UndoAfterOther(cfg, h, m, x, d, isSig, num, gen, hd, md, n);
    }
  }

  lemma {:induction false} UndoAfterSkipped(cfg: Config, h: Heap, m: set<Id>, x: Special, d: seq<Entry>, isSig: bool, num: int, gen: int,
                                                hd: Heap, md: set<Id>, n: int)
    requires Invertible(cfg) && WellBehaved(cfg, h, x) && Agree(md, m, x) && MildEntry(h, d) && d != [] && d[0].key != "Length" && Skipped(d[0].key, isSig)
    requires var r := EncEntries(cfg, h, m, d, isSig, num, gen); r.Done? && Ready(h, hd, x, m, r.heap, r.marks)
    ensures var r := EncEntries(cfg, h, m, d, isSig, num, gen);
      var r' := DecEntries(cfg, hd, md, SetEntry(r.value, "Length", Int(n)), isSig, num, gen);
      r'.Done? && r'.value == SetEntry(d, "Length", Int(n)) && Undone(cfg, h, hd, x, m, r.marks, r'.heap, r'.marks)
    decreases h.Keys - m, 3, d, 0
  {
    hide WellBehaved, Ready, Undone, Agree, EncObj, DecObj, Skipped, MildEntry;
    var r := EncEntries(cfg, h, m, d, isSig, num, gen);
    MildRest(h, d);
    UndoEntriesButLength(cfg, h, m, x, d[1..], isSig, num, gen, hd, md, n);
    assert r.value[1..] == EncEntries(cfg, h, m, d[1..], isSig, num, gen).value;
    FrontSet(r.value, "Length", Int(n));
    FrontSet(d, "Length", Int(n));
    assert SetEntry(d, "Length", Int(n)) == [d[0]] + SetEntry(d[1..], "Length", Int(n));
  }

  lemma {:induction false} UndoAfterOther(cfg: Config, h: Heap, m: set<Id>, x: Special, d: seq<Entry>, isSig: bool, num: int, gen: int,
                                                hd: Heap, md: set<Id>, n: int)
    requires Invertible(cfg) && WellBehaved(cfg, h, x) && Agree(md, m, x) && MildEntry(h, d) && d != [] && d[0].key != "Length" && !Skipped(d[0].key, isSig)
    requires var r := EncEntries(cfg, h, m, d, isSig, num, gen); r.Done? && Ready(h, hd, x, m, r.heap, r.marks)
    ensures var r := EncEntries(cfg, h, m, d, isSig, num, gen);
      var r' := DecEntries(cfg, hd, md, SetEntry(r.value, "Length", Int(n)), isSig, num, gen);
      r'.Done? && r'.value == SetEntry(d, "Length", Int(n)) && Undone(cfg, h, hd, x, m, r.marks, r'.heap, r'.marks)
    decreases h.Keys - m, 3, d, 0
  {
    hide WellBehaved, Ready, Undone, Agree, Sound, EncObj, DecObj, Skipped, MildEntry;
    var r := EncEntries(cfg, h, m, d, isSig, num, gen);
    MildRest(h, d);
    assert d[0].val < d[0];
    var r1 := EncObj(cfg, h, m, d[0].val, num, gen);
    EncObjSound(cfg, h, m, x, d[0].val, num, gen);
    SoundWell(cfg, h, m, x, r1.heap, r1.marks);
    SoundMild(cfg, h, m, x, r1.heap, r1.marks, d[1..]);
    EncEntriesSound(cfg, r1.heap, r1.marks, x, d[1..], isSig, num, gen);
    UndoneTwice(cfg, h, x, m, r1.heap, r1.marks, r.heap, r.marks, hd, hd, md, hd, md);
    UndoObj(cfg, h, m, x, d[0].val, num, gen, hd, md);
    var d1 := DecObj(cfg, hd, md, r1.value, num, gen);
    UndoneMarks(cfg, h, hd, x, m, r1.marks, d1.heap, d1.marks);
    UndoneTwice(cfg, h, x, m, r1.heap, r1.marks, r.heap, r.marks, hd, d1.heap, d1.marks, hd, md);
    assert r.value[1..] == EncEntries(cfg, r1.heap, r1.marks, d[1..], isSig, num, gen).value;
    UndoEntriesButLength(cfg, r1.heap, r1.marks, x, d[1..], isSig, num, gen, d1.heap, d1.marks, n);
    FrontSet(r.value, "Length", Int(n));
    FrontSet(d, "Length", Int(n));
    assert SetEntry(d, "Length", Int(n)) == [d[0]] + SetEntry(d[1..], "Length", Int(n));
    hide SetEntry;
    var d2 := DecEntries(cfg, d1.heap, d1.marks, SetEntry(r.value[1..], "Length", Int(n)), isSig, num, gen);
    UndoneTwice(cfg, h, x, m, r1.heap, r1.marks, r.heap, r.marks, hd, d1.heap, d1.marks, d2.heap, d2.marks);
  }

  lemma {:induction false} UndoLengthFirst(cfg: Config, h: Heap, m: set<Id>, x: Special, d: seq<Entry>, isSig: bool, num: int, gen: int,
                                           hd: Heap, md: set<Id>, n: int)
    requires Invertible(cfg) && WellBehaved(cfg, h, x) && Agree(md, m, x) && MildEntry(h, d) && d != [] && d[0].key == "Length"
    requires var r := EncEntries(cfg, h, m, d, isSig, num, gen); r.Done? && Ready(h, hd, x, m, r.heap, r.marks)
    ensures var r := EncEntries(cfg, h, m, d, isSig, num, gen);
      var r' := DecEntries(cfg, hd, md, SetEntry(r.value, "Length", Int(n)), isSig, num, gen);
      r'.Done? && r'.value == SetEntry(d, "Length", Int(n)) && Undone(cfg, h, hd, x, m, r.marks, r'.heap, r'.marks)
    decreases h.Keys - m, 2, d, 1
  {
    hide WellBehaved, Ready, Undone, Agree, EncObj, DecObj, IsLeaf, LinkFree;
    assert d[0].val < d[0];
    var r, r1 := EncEntries(cfg, h, m, d, isSig, num, gen), EncObj(cfg, h, m, d[0].val, num, gen);
    MildLengthEnc(cfg, h, m, x, d[0].val, num, gen, md);
    var rest := EncEntries(cfg, h, r1.marks, d[1..], isSig, num, gen);
    assert rest.Done? && r.heap == rest.heap && r.marks == rest.marks && r.value[1..] == rest.value && r.value[0].key == "Length";
    OnlyLeavesMarked(cfg, h, x, m, r1.marks, r.heap, r.marks, hd, hd, md);
    UndoEntries(cfg, h, r1.marks, x, d[1..], isSig, num, gen, hd, md);
    var u := DecEntries(cfg, hd, md, rest.value, isSig, num, gen);
    NumberEntry(cfg, hd, md, "Length", n, rest.value, isSig, num, gen);
    OnlyLeavesMarked(cfg, h, x, m, r1.marks, r.heap, r.marks, hd, u.heap, u.marks);
  }

  lemma {:induction false} NoEntries(cfg: Config, h: Heap, m: set<Id>, hd: Heap, md: set<Id>, n: int, isSig: bool, num: int, gen: int)
    ensures EncEntries(cfg, h, m, [], isSig, num, gen) == Done(h, m, [])
    ensures DecEntries(cfg, hd, md, SetEntry([], "Length", Int(n)), isSig, num, gen) == Done(hd, md, SetEntry([], "Length", Int(n)))
  {
    var none: seq<Entry> := [];
    assert SetEntry(none, "Length", Int(n)) == [Entry("Length", Int(n))] + none;
    NumberEntry(cfg, hd, md, "Length", n, none, isSig, num, gen);
  }

  lemma {:induction false} MildRest(h: Heap, d: seq<Entry>)
    requires MildEntry(h, d) && d != [] && d[0].key != "Length"
    ensures MildEntry(h, d[1..])
  {
  }

  lemma {:induction false} SoundMild(cfg: Config, h: Heap, m: set<Id>, x: Special, h': Heap, m': set<Id>, d: seq<Entry>)
    requires WellBehaved(cfg, h, x) && Sound(cfg, h, m, x, h', m') && MildEntry(h, d)
    ensures MildEntry(h', d)
  {
  }

  lemma {:induction false} FrontSet(d: seq<Entry>, key: string, val: Obj)
    requires d != [] && d[0].key != key
    ensures var e := SetEntry(d, key, val); e != [] && e[0] == d[0] && e[1..] == SetEntry(d[1..], key, val)
  {
  }

  lemma {:induction false} SetLengthTwice(d: seq<Entry>, n: int, k: int)
    ensures SetEntry(SetEntry(d, "Length", Int(n)), "Length", Int(k)) == SetEntry(d, "Length", Int(k))
    ensures Lookup(d, "Length") == Some(Int(k)) ==> SetEntry(d, "Length", Int(k)) == d
  {
    if d != [] && d[0].key != "Length" { SetLengthTwice(d[1..], n, k); }
  }

  // ----- Following pointers

  lemma {:induction false} UndoLink(cfg: Config, h: Heap, m: set<Id>, x: Special, id: Id, hd: Heap, md: set<Id>)
    requires Invertible(cfg) && WellBehaved(cfg, h, x) && Agree(md, m, x)
    requires var r := EncLink(cfg, h, m, id); r.Done? && Ready(h, hd, x, m, r.heap, r.marks)
    ensures var r := EncLink(cfg, h, m, id);
      var r' := DecLink(cfg, hd, md, id);
      r'.Done? && Undone(cfg, h, hd, x, m, r.marks, r'.heap, r'.marks)
    decreases h.Keys - m, 1
  {
    if id !in h {
      UndoneRefl(cfg, h, hd, x, m, md);
    } else if IsLeaf(h[id]) {
      UndoLeaf(cfg, h, m, x, id, hd, md);
    } else if id in m || (h[id].Stream? && (IsXRefStream(h[id]) || PassesStream(cfg, h[id].dict))) {
      UndoPassed(cfg, h, m, x, id, hd, md);
    } else if h[id].Indirect? {
      UndoIndirect(cfg, h, m, x, id, hd, md);
    } else {
      UndoStream(cfg, h, m, x, id, hd, md);
    }
  }

  lemma {:induction false} UndoLeaf(cfg: Config, h: Heap, m: set<Id>, x: Special, id: Id, hd: Heap, md: set<Id>)
    requires WellBehaved(cfg, h, x) && Agree(md, m, x) && id in h && IsLeaf(h[id])
    requires var r := EncLink(cfg, h, m, id); r.Done? && Ready(h, hd, x, m, r.heap, r.marks)
    ensures var r := EncLink(cfg, h, m, id);
      var r' := DecLink(cfg, hd, md, id);
      r'.Done? && Undone(cfg, h, hd, x, m, r.marks, r'.heap, r'.marks)
  {
    hide EncLink, DecLink, IsLeaf, IsXRefStream, PassesStream, Symmetric, MildLength;
    EncLeaf(cfg, h, m, id);
    assert id in x.leaves && hd[id] == h[id];
    DecLeaf(cfg, hd, md, id);
    SpecialStays(cfg, h, x, id);
  }

  /** Objects that are marked already, and streams that pass unchanged. */
  lemma {:induction false} UndoPassed(cfg: Config, h: Heap, m: set<Id>, x: Special, id: Id, hd: Heap, md: set<Id>)
    requires WellBehaved(cfg, h, x) && Agree(md, m, x) && id in h && !IsLeaf(h[id])
    requires id in m || (h[id].Stream? && (IsXRefStream(h[id]) || PassesStream(cfg, h[id].dict)))
    requires var r := EncLink(cfg, h, m, id); r.Done? && Ready(h, hd, x, m, r.heap, r.marks)
    ensures var r := EncLink(cfg, h, m, id);
      var r' := DecLink(cfg, hd, md, id);
      r'.Done? && Undone(cfg, h, hd, x, m, r.marks, r'.heap, r'.marks)
  {
    hide EncObj, DecObj, EncEntries, DecEntries, IsLeaf, StreamFilterOf, HasType, MildLength;
    assert Symmetric(cfg, h[id]);
    if id in x.xrefs {
      assert hd[id] == h[id] && Exempt(cfg, h[id]);
    }
  }

  lemma {:induction false} UndoIndirect(cfg: Config, h: Heap, m: set<Id>, x: Special, id: Id, hd: Heap, md: set<Id>)
    requires Invertible(cfg) && WellBehaved(cfg, h, x) && Agree(md, m, x)
    requires id in h && id !in m && h[id].Indirect? && !IsLeaf(h[id])
    requires var r := EncLink(cfg, h, m, id); r.Done? && Ready(h, hd, x, m, r.heap, r.marks)
    ensures var r := EncLink(cfg, h, m, id);
      var r' := DecLink(cfg, hd, md, id);
      r'.Done? && Undone(cfg, h, hd, x, m, r.marks, r'.heap, r'.marks)
    decreases h.Keys - m, 0
  {
    var m1 := m + {id};
    var num, gen, o := h[id].num, h[id].gen, h[id].obj;
    var r, r1 := EncLink(cfg, h, m, id), EncObj(cfg, h, m1, o, num, gen);
    hide DecObj, EncObj, IsLeaf, MildLength;
    assert id in r.marks && hd[id] == Indirect(num, gen, r1.value);
    EncKeepsShape(cfg, h, m1, o, num, gen);
    ShapeDecidesLookalike(o, r1.value);
    assert !Exempt(cfg, hd[id]) && id !in x.xrefs && id !in x.leaves && id !in md;
    assert Agree(md + {id}, m1, x);
    assert Ready(h, hd, x, m1, r1.heap, r1.marks);
    UndoObj(cfg, h, m1, x, o, num, gen, hd, md + {id});
    var u := DecObj(cfg, hd, md + {id}, r1.value, num, gen);
    assert DecLink(cfg, hd, md, id) == Done(u.heap[id := h[id]], u.marks, ());
    hide Agree;
    UndoneReplace(cfg, h, hd, x, m, id, r.marks, u.heap, u.marks);
  }

  /** The stream as encryption leaves it: of the same kind, with the same filter, and decryption does not pass it over. */
  lemma {:induction false} StreamAfterEnc(cfg: Config, h: Heap, m: set<Id>, x: Special, id: Id)
    requires WellBehaved(cfg, h, x)
    requires id in h && id !in m && h[id].Stream? && !IsXRefStream(h[id]) && !PassesStream(cfg, h[id].dict)
    requires EncLink(cfg, h, m, id).Done?
    ensures var r, c := EncLink(cfg, h, m, id), h[id];
      var r1 := EncEntries(cfg, h, m + {id}, c.dict, HasType(c.dict, "Sig"), c.num, c.gen);
      var name := StreamFilterOf(cfg, c.dict);
      r1.Done? && name in cfg.filters && id in r.marks && r.marks == r1.marks &&
      (var data' := cfg.filters[name].enc(c.data, KeyFor(cfg.filters[name], c.num, c.gen));
       var c' := Stream(c.num, c.gen, SetEntry(r1.value, "Length", Int(|data'|)), data');
       r.heap == r1.heap[id := c'] && !Exempt(cfg, c') && StreamFilterOf(cfg, c'.dict) == name &&
       HasType(c'.dict, "Sig") == HasType(c.dict, "Sig"))
    ensures MildEntry(h, h[id].dict)
  {
    EncryptedStream(cfg, h, m + {id}, x, id);
    var r, c := EncLink(cfg, h, m, id), h[id];
    var c' := r.heap[id];
    assert MildLength(h, c);
    hide EncEntries, StreamFilterOf;
    assert SameKind(c, c');
    var e := SetEntry(c.dict, "Length", Int(0));
    ShapeDecidesFilter(cfg, e, c'.dict);
    ShapeDecidesType(e, c'.dict, "Sig");
    ShapeDecidesType(e, c'.dict, "XRef");
    LengthDecidesNothing(cfg, c.dict, 0);
  }

  /** One stream is decrypted: its dictionary, its bytes and its length. */
  lemma {:induction false} DecStreamStep(cfg: Config, hd: Heap, md: set<Id>, id: Id, h': Heap, m': set<Id>, dr: seq<Entry>, name: string)
    requires id in hd && hd[id].Stream? && id !in md && !Exempt(cfg, hd[id]) && !PassesStream(cfg, hd[id].dict)
    requires name == StreamFilterOf(cfg, hd[id].dict) && name in cfg.filters
    requires var c := hd[id]; DecEntries(cfg, hd, md + {id}, c.dict, HasType(c.dict, "Sig"), c.num, c.gen) == Done(h', m', dr)
    ensures var c := hd[id];
      var data := cfg.filters[name].dec(c.data, KeyFor(cfg.filters[name], c.num, c.gen));
      DecLink(cfg, hd, md, id) ==
        Done(h'[id := Stream(c.num, c.gen, SetEntry(dr, "Length", Int(|data|)), data)], m', ())
  {
    hide DecEntries, StreamFilterOf, Exempt;
  }

  lemma UndoneReplace(cfg: Config, h: Heap, hd: Heap, x: Special, m: set<Id>, id: Id, m': set<Id>, hr: Heap, mr: set<Id>)
    requires Undone(cfg, h, hd, x, m + {id}, m', hr, mr) && id in h && id !in m && id in m'
    ensures Undone(cfg, h, hd, x, m, m', hr[id := Restored(cfg, h[id])], mr)
  {
    hide Restored, Agree;
  }

  lemma {:induction false} UndoStream(cfg: Config, h: Heap, m: set<Id>, x: Special, id: Id, hd: Heap, md: set<Id>)
    requires Invertible(cfg) && WellBehaved(cfg, h, x) && Agree(md, m, x)
    requires id in h && id !in m && h[id].Stream? && !IsXRefStream(h[id]) && !PassesStream(cfg, h[id].dict)
    requires var r := EncLink(cfg, h, m, id); r.Done? && Ready(h, hd, x, m, r.heap, r.marks)
    ensures var r := EncLink(cfg, h, m, id);
      var r' := DecLink(cfg, hd, md, id);
      r'.Done? && Undone(cfg, h, hd, x, m, r.marks, r'.heap, r'.marks)
    decreases h.Keys - m, 0
  {
    StreamAfterEnc(cfg, h, m, x, id);
    var m1, md1 := m + {id}, md + {id};
    var num, gen, d, data := h[id].num, h[id].gen, h[id].dict, h[id].data;
    var isSig, name := HasType(d, "Sig"), StreamFilterOf(cfg, d);
    var r, r1 := EncLink(cfg, h, m, id), EncEntries(cfg, h, m1, d, isSig, num, gen);
    hide EncEntries, DecEntries, EncLink, DecLink, StreamFilterOf, SetEntry, Lookup, HasType, Exempt, Undone, MildEntry, MildLength, IsLeaf;
    assert id !in x.xrefs && id !in x.leaves && id !in md by { StreamIsNotSpecial(cfg, h, x, id); }
    assert Agree(md1, m1, x);
    assert Ready(h, hd, x, m1, r1.heap, r1.marks);
    var c := hd[id];
    assert c == r.heap[id];
    hide WellBehaved, Ready, Agree;
    UndoEntriesButLength(cfg, h, m1, x, d, isSig, num, gen, hd, md1, |c.data|);
    var u := DecEntries(cfg, hd, md1, c.dict, isSig, num, gen);
    hide Invertible, Restored;
    DecStreamStep(cfg, hd, md, id, u.heap, u.marks, SetEntry(d, "Length", Int(|c.data|)), name);
    SetLengthTwice(d, |c.data|, |data|);
    FilterUndone(cfg, name, data, KeyFor(cfg.filters[name], num, gen));
    RestoredStream(cfg, h[id]);
    UndoneReplace(cfg, h, hd, x, m, id, r.marks, u.heap, u.marks);
  }

  lemma StreamIsNotSpecial(cfg: Config, h: Heap, x: Special, id: Id)
    requires WellBehaved(cfg, h, x) && id in h && h[id].Stream? && !IsXRefStream(h[id])
    ensures id !in x.xrefs && id !in x.leaves
  {
  }

  lemma RestoredStream(cfg: Config, c: Numbered)
    requires c.Stream? && !IsXRefStream(c) && !PassesStream(cfg, c.dict)
    ensures Restored(cfg, c) == Stream(c.num, c.gen, SetEntry(c.dict, "Length", Int(|c.data|)), c.data)
  {
  }

  lemma FilterUndone(cfg: Config, name: string, b: seq<byte>, k: Key)
    requires Invertible(cfg) && name in cfg.filters
    ensures cfg.filters[name].dec(cfg.filters[name].enc(b, k), k) == b
  {
  }

  /**
   Encrypting an object and everything it reaches, then decrypting it with fresh marks, restores the whole store,
   whatever the streams have for their Length: those that passed through the ciphers have their number of bytes.
   */
  lemma {:induction false} DecryptRestores(cfg: Config, h: Heap, o: Obj, num: int, gen: int)
    requires Invertible(cfg)
    requires forall id :: id in h ==> MildLength(h, h[id]) && Symmetric(cfg, h[id])
    requires EncObj(cfg, h, {}, o, num, gen).Done?
    ensures var r := EncObj(cfg, h, {}, o, num, gen);
      var r' := DecObj(cfg, r.heap, {}, r.value, num, gen);
      r'.Done? && r'.value == o && r'.heap.Keys == h.Keys &&
      forall id :: id in h ==> r'.heap[id] == if id in r.marks then Restored(cfg, h[id]) else h[id]
  {
    var x := Special(set id | id in h && IsXRefStream(h[id]), set id | id in h && IsLeaf(h[id]));
    var r := EncObj(cfg, h, {}, o, num, gen);
    EncObjSound(cfg, h, {}, x, o, num, gen);
    hide EncObj, DecObj, Restored, MildLength, Symmetric, IsLeaf, IsXRefStream;
    UndoObj(cfg, h, {}, x, o, num, gen, r.heap, {});
  }

  lemma {:induction false} AccurateStays(cfg: Config, h: Heap, c: Numbered)
    requires Accurate(c)
    ensures MildLength(h, c) && Restored(cfg, c) == c
  {
    if c.Stream? { SetLengthTwice(c.dict, 0, |c.data|); }
  }

  /** With accurate lengths, the store is what it was. */
  lemma {:induction false} DecryptUndoesEncrypt(cfg: Config, h: Heap, o: Obj, num: int, gen: int)
    requires Invertible(cfg)
    requires forall id :: id in h ==> Accurate(h[id]) && Symmetric(cfg, h[id])
    requires EncObj(cfg, h, {}, o, num, gen).Done?
    ensures var r := EncObj(cfg, h, {}, o, num, gen);
      var r' := DecObj(cfg, r.heap, {}, r.value, num, gen);
      r'.Done? && r'.heap == h && r'.value == o
  {
    hide EncObj, DecObj, Accurate, MildLength, Restored, Symmetric;
    forall id | id in h ensures MildLength(h, h[id]) && Restored(cfg, h[id]) == h[id] { AccurateStays(cfg, h, h[id]); }
    DecryptRestores(cfg, h, o, num, gen);
  }

  lemma {:induction false} EncOnePointer(cfg: Config, h: Heap, m: set<Id>, j: Id, num: int, gen: int)
    ensures EncEntries(cfg, h, m, [Entry("Length", Link(j))], false, num, gen) ==
      match EncLink(cfg, h, m, j)
      case Done(h', m', _) => Done(h', m', [Entry("Length", Link(j))])
      case UnknownFilter => UnknownFilter
  {
    var none: seq<Entry> := [];
    var d := [Entry("Length", Link(j))];
    assert d[1..] == none && d[0].val == Link(j);
    hide EncLink;
    match EncLink(cfg, h, m, j)
    case Done(h', m', _) =>
      assert EncEntries(cfg, h', m', none, false, num, gen) == Done(h', m', none);
      assert [Entry("Length", Link(j))] + none == d;
    case UnknownFilter =>
  }

  lemma {:induction false} EncString(cfg: Config, h: Heap, m: set<Id>, j: Id, t: seq<byte>)
    requires j in h && j !in m && h[j].Indirect? && h[j].obj == Str(t) && !PassesStrings(cfg)
    ensures EncLink(cfg, h, m, j) ==
      if StringFilter(cfg) !in cfg.filters then UnknownFilter
      else
        var f := cfg.filters[StringFilter(cfg)];
        Done(h[j := Indirect(h[j].num, h[j].gen, Str(f.enc(t, KeyFor(f, h[j].num, h[j].gen))))], m + {j}, ())
  {
  }

  /** A string that only the Length of a stream points to is encrypted, and then out of reach of decryption. */
  lemma {:induction false} LengthTargetIsLost(cfg: Config, h: Heap, id: Id, j: Id, t: seq<byte>)
    requires id in h && j in h && id != j && h[id].Stream? && h[j].Indirect? && h[j].obj == Str(t)
    requires h[id].dict == [Entry("Length", Link(j))] && EncLink(cfg, h, {}, id).Done? && !PassesStream(cfg, h[id].dict) && !PassesStrings(cfg)
    ensures StringFilter(cfg) in cfg.filters
    ensures var r := EncLink(cfg, h, {}, id);
      var r' := DecLink(cfg, r.heap, {}, id);
      var f := cfg.filters[StringFilter(cfg)];
      r'.Done? && (r'.heap[j] == h[j] <==> f.enc(t, KeyFor(f, h[j].num, h[j].gen)) == t)
  {
    var c, d := h[id], h[id].dict;
    var none: seq<Entry> := [];
    assert d[1..] == none && Lookup(d, "Type") == None;
    assert {} + {id} == {id};
    hide StreamFilterOf, PassesStrings, StringFilter;
    EncString(cfg, h, {id}, j, t);
    EncOnePointer(cfg, h, {id}, j, c.num, c.gen);
    hide EncEntries;
    var r := EncLink(cfg, h, {}, id);
    var n := |r.heap[id].data|;
    assert r.heap[id].dict == SetEntry(d, "Length", Int(n)) == [Entry("Length", Int(n))] + none;
    LengthDecidesNothing(cfg, d, n);
    NumberEntry(cfg, r.heap, {id}, "Length", n, none, false, c.num, c.gen);
  }

  /** Skipped entries come out as they went in. */
  lemma {:induction false} SkippedUnchanged(cfg: Config, h: Heap, m: set<Id>, d: seq<Entry>, isSig: bool, num: int, gen: int, i: nat)
    requires i < |d| && Skipped(d[i].key, isSig) && EncEntries(cfg, h, m, d, isSig, num, gen).Done?
    ensures var v := EncEntries(cfg, h, m, d, isSig, num, gen).value; |v| == |d| && v[i] == d[i]
    decreases d
  {
    EncEntriesKeepsShape(cfg, h, m, d, isSig, num, gen);
    hide EncObj, Skipped;
    if i > 0 {
      var r := if Skipped(d[0].key, isSig) then Done(h, m, d[0].val) else EncObj(cfg, h, m, d[0].val, num, gen);
      SkippedUnchanged(cfg, r.heap, r.marks, d[1..], isSig, num, gen, i - 1);
    }
  }

  // ----- Cross-reference streams

  /** Whether decryption passes over a cross-reference stream as encryption does. */
  predicate PassesXRefStream(cfg: Config, c: Numbered)
    requires c.Stream?
  {
    cfg.r != 5 || PassesStream(cfg, c.dict)
  }

  function DecryptedData(cfg: Config, c: Numbered): seq<byte>
    requires c.Stream? && StreamFilterOf(cfg, c.dict) in cfg.filters
  {
    var f := cfg.filters[StreamFilterOf(cfg, c.dict)];
    f.dec(c.data, KeyFor(f, c.num, c.gen))
  }

  /** A cross-reference stream is passed over by encryption; with revision 5 it is decrypted nevertheless, unless its filter is the identity. */
  lemma {:induction false} XRefStreamUnderRevision5(cfg: Config, h: Heap, m: set<Id>, id: Id)
    requires id in h && id !in m && IsXRefStream(h[id])
    ensures EncLink(cfg, h, m, id) == Done(h, m + {id}, ())
    ensures var c, r := h[id], DecLink(cfg, h, m, id);
      && (PassesXRefStream(cfg, c) ==> r.Done? && r.heap == h)
      && (!PassesXRefStream(cfg, c) && r.Done? ==>
            && StreamFilterOf(cfg, c.dict) in cfg.filters
            && r.heap[id].Stream? && r.heap[id].data == DecryptedData(cfg, c))
  {
    hide DecEntries, StreamFilterOf, HasType, SetEntry;
  }

  lemma {:induction false} PlainObjIsLeft(cfg: Config, h: Heap, m: set<Id>, o: Obj, num: int, gen: int)
    requires Plain(o)
    ensures DecObj(cfg, h, m, o, num, gen) == Done(h, m, o)
    decreases o, 1
  {
    match o
    case Arr(es) => PlainElemsAreLeft(cfg, h, m, es, num, gen);
    case Dict(d) => PlainEntriesAreLeft(cfg, h, m, d, HasType(d, "Sig"), num, gen);
    case _ =>
  }

  lemma {:induction false} PlainElemsAreLeft(cfg: Config, h: Heap, m: set<Id>, es: seq<Obj>, num: int, gen: int)
    requires forall i :: 0 <= i < |es| ==> Plain(es[i])
    ensures DecElems(cfg, h, m, es, num, gen) == Done(h, m, es)
    decreases es, 0
  {
    hide DecObj, Plain;
    if es != [] {
      PlainObjIsLeft(cfg, h, m, es[0], num, gen);
      PlainElemsAreLeft(cfg, h, m, es[1..], num, gen);
      assert [es[0]] + es[1..] == es;
    }
  }

  lemma {:induction false} PlainEntriesAreLeft(cfg: Config, h: Heap, m: set<Id>, d: seq<Entry>, isSig: bool, num: int, gen: int)
    requires forall i :: 0 <= i < |d| ==> Plain(d[i].val)
    ensures DecEntries(cfg, h, m, d, isSig, num, gen) == Done(h, m, d)
    decreases d, 0
  {
    hide DecObj, Plain, Skipped;
    if d != [] {
      assert d[0].val < d[0];
      PlainObjIsLeft(cfg, h, m, d[0].val, num, gen);
      PlainEntriesAreLeft(cfg, h, m, d[1..], isSig, num, gen);
      assert [Entry(d[0].key, d[0].val)] + d[1..] == d;
    }
  }

  /** So a cross-reference stream without strings comes back if and only if decryption passes over it or does nothing to its bytes. */
  lemma {:induction false} XRefStreamComesBackIff(cfg: Config, h: Heap, m: set<Id>, id: Id)
    requires id in h && id !in m && IsXRefStream(h[id]) && Accurate(h[id]) && Plain(Dict(h[id].dict))
    requires PassesXRefStream(cfg, h[id]) || StreamFilterOf(cfg, h[id].dict) in cfg.filters
    ensures EncLink(cfg, h, m, id) == Done(h, m + {id}, ())
    ensures var c, r := h[id], DecLink(cfg, h, m, id);
      r.Done? && (r.heap == h <==> PassesXRefStream(cfg, c) || DecryptedData(cfg, c) == c.data)
  {
    XRefStreamUnderRevision5(cfg, h, m, id);
    var c := h[id];
    if !PassesXRefStream(cfg, c) {
      assert forall i :: 0 <= i < |c.dict| ==> Plain(c.dict[i].val);
      hide EncLink, DecEntries, StreamFilterOf, HasType, SetEntry, Plain, Lookup;
      PlainEntriesAreLeft(cfg, h, m + {id}, c.dict, HasType(c.dict, "Sig"), c.num, c.gen);
      var data := DecryptedData(cfg, c);
      var after := Stream(c.num, c.gen, SetEntry(c.dict, "Length", Int(|data|)), data);
      assert DecLink(cfg, h, m, id) == Done(h[id := after], m + {id}, ());
      assert h[id := after][id] == after;
      SetLengthAgain(c.dict, |c.data|);
    }
  }

  lemma {:induction false} SetLengthAgain(d: seq<Entry>, n: int)
    ensures Lookup(d, "Length") == Some(Int(n)) ==> SetEntry(d, "Length", Int(n)) == d
  {
    if d != [] && d[0].key != "Length" { SetLengthAgain(d[1..], n); }
  }

  /** A dictionary that has the keys of an Encrypt dictionary is encrypted, and then taken for one that is not. */
  lemma {:induction false} LookalikeStaysEncrypted(cfg: Config, h: Heap, id: Id)
    requires id in h && h[id].Indirect? && LooksLikeEncryptDict(h[id].obj)
    requires EncLink(cfg, h, {}, id).Done?
    ensures var r := EncLink(cfg, h, {}, id);
      DecLink(cfg, r.heap, {}, id) == Done(r.heap, {}, ())
  {
    var num, gen, o := h[id].num, h[id].gen, h[id].obj;
    assert {} + {id} == {id};
    EncKeepsShape(cfg, h, {id}, o, num, gen);
    ShapeDecidesLookalike(o, EncObj(cfg, h, {id}, o, num, gen).value);
    hide EncObj;
  }
}
