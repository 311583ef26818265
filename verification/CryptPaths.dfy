/**
 Which strings and bytes are enciphered, and with which key: those of every numbered object that is come upon with the key
 of its own number and generation, and those of a direct object with the key of the numbers it is given.
 */
module CryptPaths {
  import opened Options
  import opened Symbols
  import opened CryptSpec

  // ----- Paths through arrays and dictionaries

  /** Places of elements and entries, from the outermost on. */
  type Path = seq<nat>

  function At(o: Obj, path: Path): Option<Obj>
    decreases |path|
  {
    if path == [] then Some(o)
    else
      match o
      case Arr(es) => if path[0] < |es| then At(es[path[0]], path[1..]) else None
      case Dict(d) => if path[0] < |d| then At(d[path[0]].val, path[1..]) else None
      case _ => None
  }

  /** The first entry with the key Type is the name given. */
  ghost predicate Typed(d: seq<Entry>, name: string) {
    exists k :: 0 <= k < |d| && d[k] == Entry("Type", Name(name)) && forall j :: 0 <= j < k ==> d[j].key != "Type"
  }

  /** Entries that are passed over: Parent, Prev, Last, and the Contents of a signature. */
  ghost predicate PassedOver(d: seq<Entry>, key: string) {
    key == "Parent" || key == "Prev" || key == "Last" || (key == "Contents" && Typed(d, "Sig"))
  }

  /** The path leads to an object without going through an entry that is passed over. */
  ghost predicate Leads(o: Obj, path: Path, x: Obj)
    decreases |path|
  {
    if path == [] then x == o
    else
      match o
      case Arr(es) => path[0] < |es| && Leads(es[path[0]], path[1..], x)
      case Dict(d) => path[0] < |d| && !PassedOver(d, d[path[0]].key) && Leads(d[path[0]].val, path[1..], x)
      case _ => false
  }

  // ----- What becomes of what is there

  datatype Way = Encrypting | Decrypting

  /** The bytes are run through a filter, with the key of the object; its numbers are cut to 32 bits. */
  ghost predicate Ciphered(cfg: Config, way: Way, filter: string, v: seq<byte>, w: seq<byte>, num: int, gen: int) {
    filter in cfg.filters &&
    var f := cfg.filters[filter];
    var key := f.makeKey(num % 0x1_0000_0000, gen % 0x1_0000_0000);
    w == if way.Encrypting? then f.enc(v, key) else f.dec(v, key)
  }

  /** Strings go through StdCF before version 4, and then through the filter for strings, if it is not Identity. */
  ghost predicate StringDone(cfg: Config, way: Way, v: seq<byte>, w: seq<byte>, num: int, gen: int) {
    if cfg.v < 4 then Ciphered(cfg, way, "StdCF", v, w, num, gen)
    else if cfg.stringFilter == "Identity" then w == v
    else Ciphered(cfg, way, cfg.stringFilter, v, w, num, gen)
  }

  ghost predicate HasKey(d: seq<Entry>, key: string) {
    exists k :: 0 <= k < |d| && d[k].key == key
  }

  /** What decryption takes for clear: numbers it is told, old Encrypt dictionaries, and cross-reference streams but in revision 5. */
  ghost predicate Clear(cfg: Config, c: Numbered) {
    match c
    case Stream(_, _, d, _) => Typed(d, "XRef") && cfg.r != 5
    case Indirect(num, _, o) =>
      num in cfg.decryptedObjNum
      || (o.Dict? && HasKey(o.entries, "V") && HasKey(o.entries, "R") && HasKey(o.entries, "O") && HasKey(o.entries, "U") && HasKey(o.entries, "P"))
  }

  /** A pointer was followed, unless to what is clear. */
  ghost predicate Followed(cfg: Config, way: Way, h: Heap, m: set<Id>, id: Id) {
    id in h ==> id in m || (way.Decrypting? && Clear(cfg, h[id]))
  }

  /** What an object has become, and what has been marked by then. */
  ghost predicate Became(cfg: Config, way: Way, h: Heap, m: set<Id>, x: Obj, r: Option<Obj>, num: int, gen: int) {
    match x
    case Str(v) => r.Some? && r.value.Str? && StringDone(cfg, way, v, r.value.val, num, gen)
    case Link(id) => r == Some(x) && Followed(cfg, way, h, m, id)
    case Arr(es) => r.Some? && r.value.Arr? && |r.value.elems| == |es|
    case Dict(d) => r.Some? && r.value.Dict? && KeysKept(d, r.value.entries)
    case _ => r == Some(x)
  }

  ghost predicate KeysKept(d: seq<Entry>, d': seq<Entry>) {
    && |d'| == |d|
    && forall i :: 0 <= i < |d| ==> d'[i].key == d[i].key && (PassedOver(d, d[i].key) ==> d'[i] == d[i])
  }

  ghost predicate ObjDone(cfg: Config, way: Way, h: Heap, m: set<Id>, o: Obj, o': Obj, num: int, gen: int) {
    forall path, x :: Leads(o, path, x) ==> Became(cfg, way, h, m, x, At(o', path), num, gen)
  }

  /** The filter of a stream: a first filter of Crypt names it or stands for Identity. */
  ghost predicate StreamFiltered(cfg: Config, d: seq<Entry>, name: string) {
    if cfg.v < 4 then name == "StdCF"
    else if !CryptFirst(d) then name == cfg.streamFilter
    else (name in cfg.filters && CryptNames(d, name)) || (name == "Identity" && forall n :: n in cfg.filters ==> !CryptNames(d, n))
  }

  ghost predicate CryptFirst(d: seq<Entry>) {
    var fs := Lookup(d, "Filter");
    fs.Some? && fs.value.Arr? && fs.value.elems != [] && fs.value.elems[0] == Name("Crypt")
  }

  ghost predicate CryptNames(d: seq<Entry>, name: string) {
    var ps := Lookup(d, "DecodeParms");
    ps.Some? && ps.value.Dict? && Lookup(ps.value.entries, "Name") == Some(Name(name))
  }

  /** What a numbered object has become: a stream has the length of its new bytes for its Length. */
  ghost predicate NumberedDone(cfg: Config, way: Way, h: Heap, m: set<Id>, c: Numbered, c': Numbered) {
    match c
    case Indirect(num, gen, o) => c'.Indirect? && c'.num == num && c'.gen == gen && ObjDone(cfg, way, h, m, o, c'.obj, num, gen)
    case Stream(num, gen, d, data) =>
      if (way.Encrypting? && Typed(d, "XRef")) || (cfg.v >= 4 && StreamFiltered(cfg, d, "Identity")) then c' == c
      else c'.Stream? && c'.num == num && c'.gen == gen && StreamDone(cfg, way, h, m, d, data, c'.dict, c'.data, num, gen)
  }

  ghost predicate StreamDone(cfg: Config, way: Way, h: Heap, m: set<Id>, d: seq<Entry>, data: seq<byte>, d': seq<Entry>, data': seq<byte>, num: int, gen: int) {
    && (exists name :: StreamFiltered(cfg, d, name) && Ciphered(cfg, way, name, data, data', num, gen))
    && exists e :: ObjDone(cfg, way, h, m, Dict(d), Dict(e), num, gen) && d' == SetEntry(e, "Length", Int(|data'|))
  }

  /** What was marked before or is not marked now is as it was; what is newly marked has been done. */
  ghost predicate StoreDone(cfg: Config, way: Way, h: Heap, m: set<Id>, h': Heap, m': set<Id>) {
    && h'.Keys == h.Keys && m <= m'
    && (forall id :: id in h && (id in m || id !in m') ==> h'[id] == h[id])
    && (forall id :: id in h && id in m' && id !in m ==> NumberedDone(cfg, way, h, m', h[id], h'[id]))
  }

  // ----- The literal conditions are those of the traversals

  lemma {:induction false} TypedIff(d: seq<Entry>, name: string)
    ensures Typed(d, name) <==> HasType(d, name)
  {
    if d != [] && d[0].key != "Type" {
      TypedIff(d[1..], name);
      if Typed(d, name) {
        var k :| 0 <= k < |d| && d[k] == Entry("Type", Name(name)) && forall j :: 0 <= j < k ==> d[j].key != "Type";
        assert d[1..][k - 1] == d[k] && forall j :: 0 <= j < k - 1 ==> d[1..][j] == d[j + 1];
      }
      if Typed(d[1..], name) {
        var k :| 0 <= k < |d[1..]| && d[1..][k] == Entry("Type", Name(name)) && forall j :: 0 <= j < k ==> d[1..][j].key != "Type";
        assert d[k + 1] == d[1..][k];
        assert forall j :: 0 < j < k + 1 ==> d[j] == d[1..][j - 1];
      }
    }
  }

  lemma {:induction false} PassedOverIff(d: seq<Entry>, key: string)
    ensures PassedOver(d, key) <==> Skipped(key, HasType(d, "Sig"))
  {
    TypedIff(d, "Sig");
  }

  lemma {:induction false} HasKeyIff(d: seq<Entry>, key: string)
    ensures HasKey(d, key) <==> Lookup(d, key).Some?
  {
    if d != [] {
      HasKeyIff(d[1..], key);
      if HasKey(d, key) && d[0].key != key {
        var k :| 0 <= k < |d| && d[k].key == key;
        assert d[1..][k - 1] == d[k];
      }
      if HasKey(d[1..], key) {
        var k :| 0 <= k < |d[1..]| && d[1..][k].key == key;
        assert d[k + 1].key == key;
      }
    }
  }

  lemma {:induction false} ClearIff(cfg: Config, c: Numbered)
    ensures Clear(cfg, c) <==> Exempt(cfg, c)
  {
    hide HasKey, Typed;
    match c
    case Stream(_, _, d, _) => TypedIff(d, "XRef");
    case Indirect(_, _, o) =>
      if o.Dict? {
        HasKeyIff(o.entries, "V");
        HasKeyIff(o.entries, "R");
        HasKeyIff(o.entries, "O");
        HasKeyIff(o.entries, "U");
        HasKeyIff(o.entries, "P");
      }
  }

  lemma {:induction false} StreamFilteredIff(cfg: Config, d: seq<Entry>, name: string)
    ensures StreamFiltered(cfg, d, name) <==> name == StreamFilterOf(cfg, d)
  {
    var ps := Lookup(d, "DecodeParms");
    if ps.Some? && ps.value.Dict? {
      var n := Lookup(ps.value.entries, "Name");
      if n.Some? && n.value.Name? { assert CryptNames(d, n.value.name); }
    }
  }

  // ----- Putting objects together

  ghost predicate ElemsDone(cfg: Config, way: Way, h: Heap, m: set<Id>, es: seq<Obj>, es': seq<Obj>, num: int, gen: int) {
    |es'| == |es| && forall i :: 0 <= i < |es| ==> ObjDone(cfg, way, h, m, es[i], es'[i], num, gen)
  }

  ghost predicate EntriesDone(cfg: Config, way: Way, h: Heap, m: set<Id>, d: seq<Entry>, d': seq<Entry>, isSig: bool, num: int, gen: int) {
    |d'| == |d| && forall i :: 0 <= i < |d| ==> EntryDone(cfg, way, h, m, d[i], d'[i], isSig, num, gen)
  }

  ghost predicate EntryDone(cfg: Config, way: Way, h: Heap, m: set<Id>, e: Entry, e': Entry, isSig: bool, num: int, gen: int) {
    e'.key == e.key && if Skipped(e.key, isSig) then e' == e else ObjDone(cfg, way, h, m, e.val, e'.val, num, gen)
  }

  lemma {:induction false} ArrayDone(cfg: Config, way: Way, h: Heap, m: set<Id>, es: seq<Obj>, es': seq<Obj>, num: int, gen: int)
    requires ElemsDone(cfg, way, h, m, es, es', num, gen)
    ensures ObjDone(cfg, way, h, m, Arr(es), Arr(es'), num, gen)
  {
    forall path, x | Leads(Arr(es), path, x) ensures Became(cfg, way, h, m, x, At(Arr(es'), path), num, gen) {
      if path != [] {
        hide Became, Leads;
        LeadsOn(Arr(es), path, x);
        assert ObjDone(cfg, way, h, m, es[path[0]], es'[path[0]], num, gen);
      }
    }
  }

  lemma LeadsOn(o: Obj, path: Path, x: Obj)
    requires Leads(o, path, x) && path != []
    ensures o.Arr? ==> path[0] < |o.elems| && Leads(o.elems[path[0]], path[1..], x)
    ensures o.Dict? ==> path[0] < |o.entries| && !PassedOver(o.entries, o.entries[path[0]].key) && Leads(o.entries[path[0]].val, path[1..], x)
    ensures o.Arr? || o.Dict?
  {
  }

  lemma {:induction false} DictDone(cfg: Config, way: Way, h: Heap, m: set<Id>, d: seq<Entry>, d': seq<Entry>, num: int, gen: int)
    requires EntriesDone(cfg, way, h, m, d, d', HasType(d, "Sig"), num, gen)
    ensures ObjDone(cfg, way, h, m, Dict(d), Dict(d'), num, gen)
  {
    hide PassedOver, Skipped, ObjDone;
    forall i | 0 <= i < |d|
      ensures d'[i].key == d[i].key && if PassedOver(d, d[i].key) then d'[i] == d[i] else ObjDone(cfg, way, h, m, d[i].val, d'[i].val, num, gen)
    {
      PassedOverIff(d, d[i].key);
      assert EntryDone(cfg, way, h, m, d[i], d'[i], HasType(d, "Sig"), num, gen);
    }
    DictPaths(cfg, way, h, m, d, d', num, gen);
  }

  lemma {:induction false} DictPaths(cfg: Config, way: Way, h: Heap, m: set<Id>, d: seq<Entry>, d': seq<Entry>, num: int, gen: int)
    requires KeysKept(d, d')
    requires forall i :: 0 <= i < |d| && !PassedOver(d, d[i].key) ==> ObjDone(cfg, way, h, m, d[i].val, d'[i].val, num, gen)
    ensures ObjDone(cfg, way, h, m, Dict(d), Dict(d'), num, gen)
  {
    hide PassedOver;
    forall path, x | Leads(Dict(d), path, x) ensures Became(cfg, way, h, m, x, At(Dict(d'), path), num, gen) {
      if path != [] {
        hide Became, Leads, KeysKept;
        LeadsOn(Dict(d), path, x);
        assert ObjDone(cfg, way, h, m, d[path[0]].val, d'[path[0]].val, num, gen);
      }
    }
  }

  lemma {:induction false} LeafDone(cfg: Config, way: Way, h: Heap, m: set<Id>, o: Obj, o': Obj, num: int, gen: int)
    requires !o.Arr? && !o.Dict? && Became(cfg, way, h, m, o, Some(o'), num, gen)
    ensures ObjDone(cfg, way, h, m, o, o', num, gen)
  {
    hide Became;
    forall path, x | Leads(o, path, x) ensures path == [] && x == o {}
  }

  // ----- As more is marked

  lemma {:induction false} FollowedLater(cfg: Config, way: Way, h: Heap, m: set<Id>, h1: Heap, m1: set<Id>, m2: set<Id>, id: Id)
    requires StoreDone(cfg, way, h, m, h1, m1) && m1 <= m2
    ensures Followed(cfg, way, h, m1, id) ==> Followed(cfg, way, h, m2, id)
    ensures Followed(cfg, way, h1, m2, id) ==> Followed(cfg, way, h, m2, id)
  {
    hide Clear, NumberedDone;
  }

  lemma {:induction false} BecameLater(cfg: Config, way: Way, h: Heap, m: set<Id>, h1: Heap, m1: set<Id>, m2: set<Id>, x: Obj, r: Option<Obj>, num: int, gen: int)
    requires StoreDone(cfg, way, h, m, h1, m1) && m1 <= m2
    ensures Became(cfg, way, h, m1, x, r, num, gen) || Became(cfg, way, h1, m2, x, r, num, gen) ==> Became(cfg, way, h, m2, x, r, num, gen)
  {
    hide StoreDone, Followed, StringDone, KeysKept;
    if x.Link? { FollowedLater(cfg, way, h, m, h1, m1, m2, x.id); }
  }

  lemma {:induction false} ObjLater(cfg: Config, way: Way, h: Heap, m: set<Id>, h1: Heap, m1: set<Id>, m2: set<Id>, o: Obj, o': Obj, num: int, gen: int)
    requires StoreDone(cfg, way, h, m, h1, m1) && m1 <= m2
    ensures ObjDone(cfg, way, h, m1, o, o', num, gen) || ObjDone(cfg, way, h1, m2, o, o', num, gen) ==> ObjDone(cfg, way, h, m2, o, o', num, gen)
  {
    hide StoreDone, Became, Leads, At;
    if ObjDone(cfg, way, h, m1, o, o', num, gen) || ObjDone(cfg, way, h1, m2, o, o', num, gen) {
      forall path, x | Leads(o, path, x) ensures Became(cfg, way, h, m2, x, At(o', path), num, gen) {
        BecameLater(cfg, way, h, m, h1, m1, m2, x, At(o', path), num, gen);
      }
    }
  }

  lemma {:induction false} StreamLater(cfg: Config, way: Way, h: Heap, m: set<Id>, h1: Heap, m1: set<Id>, m2: set<Id>,
                                       d: seq<Entry>, data: seq<byte>, d': seq<Entry>, data': seq<byte>, num: int, gen: int)
    requires StoreDone(cfg, way, h, m, h1, m1) && m1 <= m2
    requires StreamDone(cfg, way, h, m1, d, data, d', data', num, gen) || StreamDone(cfg, way, h1, m2, d, data, d', data', num, gen)
    ensures StreamDone(cfg, way, h, m2, d, data, d', data', num, gen)
  {
    hide StoreDone, ObjDone, StreamFiltered, Ciphered;
    var e :| (ObjDone(cfg, way, h, m1, Dict(d), Dict(e), num, gen) || ObjDone(cfg, way, h1, m2, Dict(d), Dict(e), num, gen))
      && d' == SetEntry(e, "Length", Int(|data'|));
    ObjLater(cfg, way, h, m, h1, m1, m2, Dict(d), Dict(e), num, gen);
  }

  lemma {:induction false} NumberedLater(cfg: Config, way: Way, h: Heap, m: set<Id>, h1: Heap, m1: set<Id>, m2: set<Id>, c: Numbered, c': Numbered)
    requires StoreDone(cfg, way, h, m, h1, m1) && m1 <= m2
    requires NumberedDone(cfg, way, h, m1, c, c') || NumberedDone(cfg, way, h1, m2, c, c')
    ensures NumberedDone(cfg, way, h, m2, c, c')
  {
    hide StoreDone, ObjDone, StreamDone, StreamFiltered, Typed;
    match c
    case Indirect(num, gen, o) => ObjLater(cfg, way, h, m, h1, m1, m2, o, c'.obj, num, gen);
    case Stream(num, gen, d, data) =>
      if c'.Stream? && c' != c { StreamLater(cfg, way, h, m, h1, m1, m2, d, data, c'.dict, c'.data, num, gen); }
      if c' == c && (StreamDone(cfg, way, h, m1, d, data, d, data, num, gen) || StreamDone(cfg, way, h1, m2, d, data, d, data, num, gen)) {
        StreamLater(cfg, way, h, m, h1, m1, m2, d, data, d, data, num, gen);
      }
  }

  lemma StoreRefl(cfg: Config, way: Way, h: Heap, m: set<Id>)
    ensures StoreDone(cfg, way, h, m, h, m)
  {
  }

  lemma {:induction false} StoreTwice(cfg: Config, way: Way, h: Heap, m: set<Id>, h1: Heap, m1: set<Id>, h2: Heap, m2: set<Id>)
    requires StoreDone(cfg, way, h, m, h1, m1) && StoreDone(cfg, way, h1, m1, h2, m2)
    ensures StoreDone(cfg, way, h, m, h2, m2)
  {
    hide NumberedDone;
    forall id | id in h && id in m2 && id !in m ensures NumberedDone(cfg, way, h, m2, h[id], h2[id]) {
      NumberedLater(cfg, way, h, m, h1, m1, m2, h[id], h2[id]);
    }
  }

  /** The object itself is put in its place after all that it leads to. */
  lemma {:induction false} StorePut(cfg: Config, way: Way, h: Heap, m: set<Id>, id: Id, h': Heap, m': set<Id>, c: Numbered)
    requires id in h && id !in m && StoreDone(cfg, way, h, m + {id}, h', m') && NumberedDone(cfg, way, h, m', h[id], c)
    ensures StoreDone(cfg, way, h, m, h'[id := c], m')
  {
    hide NumberedDone;
  }

  lemma {:induction false} FirstElem(cfg: Config, way: Way, h: Heap, m: set<Id>, h1: Heap, m1: set<Id>, m2: set<Id>, es: seq<Obj>, es': seq<Obj>, num: int, gen: int)
    requires StoreDone(cfg, way, h, m, h1, m1) && m1 <= m2 && es != [] && es' != []
    requires ObjDone(cfg, way, h, m1, es[0], es'[0], num, gen) && ElemsDone(cfg, way, h1, m2, es[1..], es'[1..], num, gen)
    ensures ElemsDone(cfg, way, h, m2, es, es', num, gen)
  {
    hide ObjDone, StoreDone;
    forall i | 0 <= i < |es| ensures ObjDone(cfg, way, h, m2, es[i], es'[i], num, gen) {
      ObjLater(cfg, way, h, m, h1, m1, m2, es[i], es'[i], num, gen);
      if i > 0 { assert es[1..][i - 1] == es[i] && es'[1..][i - 1] == es'[i]; }
    }
  }

  lemma {:induction false} FirstEntry(cfg: Config, way: Way, h: Heap, m: set<Id>, h1: Heap, m1: set<Id>, m2: set<Id>, d: seq<Entry>, d': seq<Entry>,
                                      isSig: bool, num: int, gen: int)
    requires StoreDone(cfg, way, h, m, h1, m1) && m1 <= m2 && d != [] && d' != []
    requires EntryDone(cfg, way, h, m1, d[0], d'[0], isSig, num, gen) && EntriesDone(cfg, way, h1, m2, d[1..], d'[1..], isSig, num, gen)
    ensures EntriesDone(cfg, way, h, m2, d, d', isSig, num, gen)
  {
    hide ObjDone, StoreDone, Skipped;
    forall i | 0 <= i < |d| ensures EntryDone(cfg, way, h, m2, d[i], d'[i], isSig, num, gen) {
      ObjLater(cfg, way, h, m, h1, m1, m2, d[i].val, d'[i].val, num, gen);
      if i > 0 { assert d[1..][i - 1] == d[i] && d'[1..][i - 1] == d'[i]; }
    }
  }

  lemma IndirectDone(cfg: Config, way: Way, h: Heap, m: set<Id>, c: Numbered, c': Numbered)
    requires c.Indirect? && c'.Indirect? && c'.num == c.num && c'.gen == c.gen && ObjDone(cfg, way, h, m, c.obj, c'.obj, c.num, c.gen)
    ensures NumberedDone(cfg, way, h, m, c, c')
  {
  }

  lemma {:induction false} Untouched(cfg: Config, way: Way, h: Heap, m: set<Id>, c: Numbered)
    requires c.Stream? && ((way.Encrypting? && Typed(c.dict, "XRef")) || PassesStream(cfg, c.dict))
    ensures NumberedDone(cfg, way, h, m, c, c)
  {
    hide Typed, StreamFiltered;
    StreamFilteredIff(cfg, c.dict, IDENTITY);
  }

  lemma {:induction false} DataDone(cfg: Config, way: Way, h: Heap, m: set<Id>, c: Numbered, e: seq<Entry>, c': Numbered)
    requires c.Stream? && c'.Stream? && c'.num == c.num && c'.gen == c.gen
    requires !(way.Encrypting? && Typed(c.dict, "XRef")) && !PassesStream(cfg, c.dict)
    requires ObjDone(cfg, way, h, m, Dict(c.dict), Dict(e), c.num, c.gen) && c'.dict == SetEntry(e, "Length", Int(|c'.data|))
    requires Ciphered(cfg, way, StreamFilterOf(cfg, c.dict), c.data, c'.data, c.num, c.gen)
    ensures NumberedDone(cfg, way, h, m, c, c')
  {
    hide Typed, StreamFiltered, Ciphered, ObjDone;
    StreamFilteredIff(cfg, c.dict, IDENTITY);
    StreamFilteredIff(cfg, c.dict, StreamFilterOf(cfg, c.dict));
  }

  // ----- Encryption

  lemma {:induction false} EncObjIsDone(cfg: Config, h: Heap, m: set<Id>, o: Obj, num: int, gen: int)
    requires EncObj(cfg, h, m, o, num, gen).Done?
    ensures var r := EncObj(cfg, h, m, o, num, gen);
      StoreDone(cfg, Encrypting, h, m, r.heap, r.marks) && ObjDone(cfg, Encrypting, h, r.marks, o, r.value, num, gen)
    decreases h.Keys - m, 1, o
  {
    hide EncLink, EncElems, EncEntries, StoreDone, ObjDone, HasType, Clear, Ciphered;
    var r := EncObj(cfg, h, m, o, num, gen);
    match o
    case Link(id) =>
      EncLinkIsDone(cfg, h, m, id);
      LeafDone(cfg, Encrypting, h, r.marks, o, r.value, num, gen);
    case Str(v) =>
      StoreRefl(cfg, Encrypting, h, m);
      EncString(cfg, h, m, v, num, gen);
      LeafDone(cfg, Encrypting, h, r.marks, o, r.value, num, gen);
    case Arr(es) =>
      EncElemsAreDone(cfg, h, m, es, num, gen);
      ArrayDone(cfg, Encrypting, h, r.marks, es, r.value.elems, num, gen);
    case Dict(d) =>
      EncEntriesAreDone(cfg, h, m, d, HasType(d, "Sig"), num, gen);
      DictDone(cfg, Encrypting, h, r.marks, d, r.value.entries, num, gen);
    case _ =>
      StoreRefl(cfg, Encrypting, h, m);
      LeafDone(cfg, Encrypting, h, r.marks, o, r.value, num, gen);
  }

  lemma {:induction false} EncString(cfg: Config, h: Heap, m: set<Id>, v: seq<byte>, num: int, gen: int)
    requires EncObj(cfg, h, m, Str(v), num, gen).Done?
    ensures var r := EncObj(cfg, h, m, Str(v), num, gen);
      r.heap == h && r.marks == m && Became(cfg, Encrypting, h, m, Str(v), Some(r.value), num, gen)
  {
  }

  lemma {:induction false} EncElemsAreDone(cfg: Config, h: Heap, m: set<Id>, es: seq<Obj>, num: int, gen: int)
    requires EncElems(cfg, h, m, es, num, gen).Done?
    ensures var r := EncElems(cfg, h, m, es, num, gen);
      StoreDone(cfg, Encrypting, h, m, r.heap, r.marks) && ElemsDone(cfg, Encrypting, h, r.marks, es, r.value, num, gen)
    decreases h.Keys - m, 1, es
  {
    hide EncObj, StoreDone, ObjDone;
    if es == [] {
      StoreRefl(cfg, Encrypting, h, m);
    } else {
      var r1 := EncObj(cfg, h, m, es[0], num, gen);
      EncObjIsDone(cfg, h, m, es[0], num, gen);
      var r2 := EncElems(cfg, r1.heap, r1.marks, es[1..], num, gen);
      EncElemsAreDone(cfg, r1.heap, r1.marks, es[1..], num, gen);
      StoreTwice(cfg, Encrypting, h, m, r1.heap, r1.marks, r2.heap, r2.marks);
      FirstElem(cfg, Encrypting, h, m, r1.heap, r1.marks, r2.marks, es, [r1.value] + r2.value, num, gen);
    }
  }

  lemma {:induction false} EncEntriesAreDone(cfg: Config, h: Heap, m: set<Id>, d: seq<Entry>, isSig: bool, num: int, gen: int)
    requires EncEntries(cfg, h, m, d, isSig, num, gen).Done?
    ensures var r := EncEntries(cfg, h, m, d, isSig, num, gen);
      StoreDone(cfg, Encrypting, h, m, r.heap, r.marks) && EntriesDone(cfg, Encrypting, h, r.marks, d, r.value, isSig, num, gen)
    decreases h.Keys - m, 1, d
  {
    hide EncObj, StoreDone, ObjDone, Skipped;
    if d == [] {
      StoreRefl(cfg, Encrypting, h, m);
    } else {
      assert d[0].val < d[0];
      var r1 := if Skipped(d[0].key, isSig) then Done(h, m, d[0].val) else EncObj(cfg, h, m, d[0].val, num, gen);
      if Skipped(d[0].key, isSig) { StoreRefl(cfg, Encrypting, h, m); } else { EncObjIsDone(cfg, h, m, d[0].val, num, gen); }
      var r2 := EncEntries(cfg, r1.heap, r1.marks, d[1..], isSig, num, gen);
      EncEntriesAreDone(cfg, r1.heap, r1.marks, d[1..], isSig, num, gen);
      StoreTwice(cfg, Encrypting, h, m, r1.heap, r1.marks, r2.heap, r2.marks);
      FirstEntry(cfg, Encrypting, h, m, r1.heap, r1.marks, r2.marks, d, [Entry(d[0].key, r1.value)] + r2.value, isSig, num, gen);
    }
  }

  lemma {:induction false} EncLinkIsDone(cfg: Config, h: Heap, m: set<Id>, id: Id)
    requires EncLink(cfg, h, m, id).Done?
    ensures var r := EncLink(cfg, h, m, id);
      StoreDone(cfg, Encrypting, h, m, r.heap, r.marks) && Followed(cfg, Encrypting, h, r.marks, id)
    decreases h.Keys - m, 0
  {
    hide EncObj, EncEntries, StoreDone, ObjDone, HasType, PassesStream, Clear, StreamDone, NumberedDone;
    var r := EncLink(cfg, h, m, id);
    if id in m || id !in h {
      StoreRefl(cfg, Encrypting, h, m);
    } else {
      var m1 := m + {id};
      match h[id]
      case Indirect(num, gen, o) =>
        EncObjIsDone(cfg, h, m1, o, num, gen);
        IndirectDone(cfg, Encrypting, h, r.marks, h[id], r.heap[id]);
        StorePut(cfg, Encrypting, h, m, id, EncObj(cfg, h, m1, o, num, gen).heap, r.marks, r.heap[id]);
      case Stream(num, gen, d, data) =>
        TypedIff(d, "XRef");
        if HasType(d, "XRef") || PassesStream(cfg, d) {
          Untouched(cfg, Encrypting, h, m1, h[id]);
          StoreRefl(cfg, Encrypting, h, m1);
          StorePut(cfg, Encrypting, h, m, id, h, m1, h[id]);
          assert h[id := h[id]] == h;
        } else {
          var s := EncEntries(cfg, h, m1, d, HasType(d, "Sig"), num, gen);
          EncEntriesAreDone(cfg, h, m1, d, HasType(d, "Sig"), num, gen);
          DictDone(cfg, Encrypting, h, s.marks, d, s.value, num, gen);
          DataDone(cfg, Encrypting, h, s.marks, h[id], s.value, r.heap[id]);
          StorePut(cfg, Encrypting, h, m, id, s.heap, r.marks, r.heap[id]);
        }
    }
  }

  // ----- Decryption

  lemma {:induction false} DecObjIsDone(cfg: Config, h: Heap, m: set<Id>, o: Obj, num: int, gen: int)
    requires DecObj(cfg, h, m, o, num, gen).Done?
    ensures var r := DecObj(cfg, h, m, o, num, gen);
      StoreDone(cfg, Decrypting, h, m, r.heap, r.marks) && ObjDone(cfg, Decrypting, h, r.marks, o, r.value, num, gen)
    decreases h.Keys - m, 1, o
  {
    hide DecLink, DecElems, DecEntries, StoreDone, ObjDone, HasType, Clear, Ciphered;
    var r := DecObj(cfg, h, m, o, num, gen);
    match o
    case Link(id) =>
      DecLinkIsDone(cfg, h, m, id);
      LeafDone(cfg, Decrypting, h, r.marks, o, r.value, num, gen);
    case Str(v) =>
      StoreRefl(cfg, Decrypting, h, m);
      DecString(cfg, h, m, v, num, gen);
      LeafDone(cfg, Decrypting, h, r.marks, o, r.value, num, gen);
    case Arr(es) =>
      DecElemsAreDone(cfg, h, m, es, num, gen);
      ArrayDone(cfg, Decrypting, h, r.marks, es, r.value.elems, num, gen);
    case Dict(d) =>
      DecEntriesAreDone(cfg, h, m, d, HasType(d, "Sig"), num, gen);
      DictDone(cfg, Decrypting, h, r.marks, d, r.value.entries, num, gen);
    case _ =>
      StoreRefl(cfg, Decrypting, h, m);
      LeafDone(cfg, Decrypting, h, r.marks, o, r.value, num, gen);
  }

  lemma {:induction false} DecString(cfg: Config, h: Heap, m: set<Id>, v: seq<byte>, num: int, gen: int)
    requires DecObj(cfg, h, m, Str(v), num, gen).Done?
    ensures var r := DecObj(cfg, h, m, Str(v), num, gen);
      r.heap == h && r.marks == m && Became(cfg, Decrypting, h, m, Str(v), Some(r.value), num, gen)
  {
  }

  lemma {:induction false} DecElemsAreDone(cfg: Config, h: Heap, m: set<Id>, es: seq<Obj>, num: int, gen: int)
    requires DecElems(cfg, h, m, es, num, gen).Done?
    ensures var r := DecElems(cfg, h, m, es, num, gen);
      StoreDone(cfg, Decrypting, h, m, r.heap, r.marks) && ElemsDone(cfg, Decrypting, h, r.marks, es, r.value, num, gen)
    decreases h.Keys - m, 1, es
  {
    hide DecObj, StoreDone, ObjDone;
    if es == [] {
      StoreRefl(cfg, Decrypting, h, m);
    } else {
      var r1 := DecObj(cfg, h, m, es[0], num, gen);
      DecObjIsDone(cfg, h, m, es[0], num, gen);
      var r2 := DecElems(cfg, r1.heap, r1.marks, es[1..], num, gen);
      DecElemsAreDone(cfg, r1.heap, r1.marks, es[1..], num, gen);
      StoreTwice(cfg, Decrypting, h, m, r1.heap, r1.marks, r2.heap, r2.marks);
      FirstElem(cfg, Decrypting, h, m, r1.heap, r1.marks, r2.marks, es, [r1.value] + r2.value, num, gen);
    }
  }

  lemma {:induction false} DecEntriesAreDone(cfg: Config, h: Heap, m: set<Id>, d: seq<Entry>, isSig: bool, num: int, gen: int)
    requires DecEntries(cfg, h, m, d, isSig, num, gen).Done?
    ensures var r := DecEntries(cfg, h, m, d, isSig, num, gen);
      StoreDone(cfg, Decrypting, h, m, r.heap, r.marks) && EntriesDone(cfg, Decrypting, h, r.marks, d, r.value, isSig, num, gen)
    decreases h.Keys - m, 1, d
  {
    hide DecObj, StoreDone, ObjDone, Skipped;
    if d == [] {
      StoreRefl(cfg, Decrypting, h, m);
    } else {
      assert d[0].val < d[0];
      var r1 := if Skipped(d[0].key, isSig) then Done(h, m, d[0].val) else DecObj(cfg, h, m, d[0].val, num, gen);
      if Skipped(d[0].key, isSig) { StoreRefl(cfg, Decrypting, h, m); } else { DecObjIsDone(cfg, h, m, d[0].val, num, gen); }
      var r2 := DecEntries(cfg, r1.heap, r1.marks, d[1..], isSig, num, gen);
      DecEntriesAreDone(cfg, r1.heap, r1.marks, d[1..], isSig, num, gen);
      StoreTwice(cfg, Decrypting, h, m, r1.heap, r1.marks, r2.heap, r2.marks);
      FirstEntry(cfg, Decrypting, h, m, r1.heap, r1.marks, r2.marks, d, [Entry(d[0].key, r1.value)] + r2.value, isSig, num, gen);
    }
  }

  lemma {:induction false} DecLinkIsDone(cfg: Config, h: Heap, m: set<Id>, id: Id)
    requires DecLink(cfg, h, m, id).Done?
    ensures var r := DecLink(cfg, h, m, id);
      StoreDone(cfg, Decrypting, h, m, r.heap, r.marks) && Followed(cfg, Decrypting, h, r.marks, id)
    decreases h.Keys - m, 0
  {
    hide DecObj, DecEntries, StoreDone, ObjDone, HasType, PassesStream, Clear, StreamDone, NumberedDone, Exempt;
    var r := DecLink(cfg, h, m, id);
    if id in h { ClearIff(cfg, h[id]); }
    if id in m || id !in h || Exempt(cfg, h[id]) {
      StoreRefl(cfg, Decrypting, h, m);
    } else {
      var m1 := m + {id};
      match h[id]
      case Indirect(num, gen, o) =>
        DecObjIsDone(cfg, h, m1, o, num, gen);
        IndirectDone(cfg, Decrypting, h, r.marks, h[id], r.heap[id]);
        StorePut(cfg, Decrypting, h, m, id, DecObj(cfg, h, m1, o, num, gen).heap, r.marks, r.heap[id]);
      case Stream(num, gen, d, data) =>
        if PassesStream(cfg, d) {
          Untouched(cfg, Decrypting, h, m1, h[id]);
          StoreRefl(cfg, Decrypting, h, m1);
          StorePut(cfg, Decrypting, h, m, id, h, m1, h[id]);
          assert h[id := h[id]] == h;
        } else {
          var s := DecEntries(cfg, h, m1, d, HasType(d, "Sig"), num, gen);
          DecEntriesAreDone(cfg, h, m1, d, HasType(d, "Sig"), num, gen);
          DictDone(cfg, Decrypting, h, s.marks, d, s.value, num, gen);
          DataDone(cfg, Decrypting, h, s.marks, h[id], s.value, r.heap[id]);
          StorePut(cfg, Decrypting, h, m, id, s.heap, r.marks, r.heap[id]);
        }
    }
  }

  // ----- What comes of it

  /** A string in a numbered object that is newly marked is run through the filter with the object's own key. */
  lemma {:induction false} StringInNumbered(cfg: Config, way: Way, h: Heap, m: set<Id>, h': Heap, m': set<Id>, id: Id, path: Path, v: seq<byte>)
    requires StoreDone(cfg, way, h, m, h', m') && id in h && id in m' && id !in m && h[id].Indirect? && Leads(h[id].obj, path, Str(v))
    requires 0 <= h[id].num < 0x1_0000_0000 && 0 <= h[id].gen < 0x1_0000_0000
    ensures h'[id].Indirect? && At(h'[id].obj, path).Some? && At(h'[id].obj, path).value.Str?
    ensures var w := At(h'[id].obj, path).value.val;
      if cfg.v >= 4 && cfg.stringFilter == "Identity" then w == v
      else
        var name := if cfg.v < 4 then "StdCF" else cfg.stringFilter;
        && name in cfg.filters
        && var f := cfg.filters[name];
           w == if way.Encrypting? then f.enc(v, f.makeKey(h[id].num, h[id].gen)) else f.dec(v, f.makeKey(h[id].num, h[id].gen))
  {
    hide Leads, At;
    assert NumberedDone(cfg, way, h, m', h[id], h'[id]);
    assert Became(cfg, way, h, m', Str(v), At(h'[id].obj, path), h[id].num, h[id].gen);
  }

  /** The bytes of a stream that is newly marked too, and the strings in its dictionary. */
  lemma {:induction false} BytesOfStream(cfg: Config, way: Way, h: Heap, m: set<Id>, h': Heap, m': set<Id>, id: Id, name: string)
    requires StoreDone(cfg, way, h, m, h', m') && id in h && id in m' && id !in m && h[id].Stream?
    requires !(way.Encrypting? && Typed(h[id].dict, "XRef")) && StreamFiltered(cfg, h[id].dict, name) && (cfg.v < 4 || name != "Identity")
    requires 0 <= h[id].num < 0x1_0000_0000 && 0 <= h[id].gen < 0x1_0000_0000
    ensures name in cfg.filters && h'[id].Stream?
    ensures var f := cfg.filters[name];
      var key := f.makeKey(h[id].num, h[id].gen);
      && h'[id].data == (if way.Encrypting? then f.enc(h[id].data, key) else f.dec(h[id].data, key))
      && Lookup(h'[id].dict, "Length") == Some(Int(|h'[id].data|))
  {
    hide Typed, StreamFiltered, ObjDone, Lookup, SetEntry;
    StreamFilteredIff(cfg, h[id].dict, name);
    StreamFilteredIff(cfg, h[id].dict, "Identity");
    assert NumberedDone(cfg, way, h, m', h[id], h'[id]);
    assert StreamDone(cfg, way, h, m', h[id].dict, h[id].data, h'[id].dict, h'[id].data, h[id].num, h[id].gen);
    var other :| StreamFiltered(cfg, h[id].dict, other) && Ciphered(cfg, way, other, h[id].data, h'[id].data, h[id].num, h[id].gen);
    StreamFilteredIff(cfg, h[id].dict, other);
    var e :| h'[id].dict == SetEntry(e, "Length", Int(|h'[id].data|));
    LookupLength(e, Int(|h'[id].data|));
  }

  lemma {:induction false} LookupLength(d: seq<Entry>, v: Obj)
    ensures Lookup(SetEntry(d, "Length", v), "Length") == Some(v)
  {
    if d != [] { LookupLength(d[1..], v); }
  }

  ghost predicate PointsTo(o: Obj, id: Id) {
    exists path :: Leads(o, path, Link(id))
  }

  function Body(c: Numbered): Obj {
    match c case Indirect(_, _, o) => o case Stream(_, _, d, _) => Dict(d)
  }

  /** Whether the pointers in a numbered object are followed. */
  ghost predicate Entered(cfg: Config, way: Way, c: Numbered) {
    && (way.Decrypting? ==> !Clear(cfg, c))
    && (c.Stream? ==> !(way.Encrypting? && Typed(c.dict, "XRef")) && !(cfg.v >= 4 && StreamFiltered(cfg, c.dict, "Identity")))
  }

  /** Starting with no marks, whatever a chain of pointers leads to is marked. */
  lemma {:induction false} ChainsAreFollowed(cfg: Config, way: Way, h: Heap, h': Heap, m': set<Id>, o: Obj, o': Obj, num: int, gen: int, ids: seq<Id>)
    requires StoreDone(cfg, way, h, {}, h', m') && ObjDone(cfg, way, h, m', o, o', num, gen)
    requires ids != [] && (forall i :: 0 <= i < |ids| ==> ids[i] in h && Entered(cfg, way, h[ids[i]]))
    requires PointsTo(o, ids[0]) && forall i :: 0 <= i < |ids| - 1 ==> PointsTo(Body(h[ids[i]]), ids[i + 1])
    ensures ids[|ids| - 1] in m'
  {
    hide Leads, Typed, StreamFiltered, Clear;
    var last := |ids| - 1;
    if last == 0 {
      var path :| Leads(o, path, Link(ids[0]));
      assert Became(cfg, way, h, m', Link(ids[0]), At(o', path), num, gen);
    } else {
      ChainsAreFollowed(cfg, way, h, h', m', o, o', num, gen, ids[..last]);
      PointerFollowed(cfg, way, h, h', m', ids[last - 1], ids[last]);
    }
  }

  lemma {:induction false} PointerFollowed(cfg: Config, way: Way, h: Heap, h': Heap, m': set<Id>, id: Id, next: Id)
    requires StoreDone(cfg, way, h, {}, h', m') && id in h && id in m' && next in h
    requires Entered(cfg, way, h[id]) && Entered(cfg, way, h[next]) && PointsTo(Body(h[id]), next)
    ensures next in m'
  {
    hide Leads, Typed, StreamFiltered, Clear, Ciphered;
    assert NumberedDone(cfg, way, h, m', h[id], h'[id]);
    var path :| Leads(Body(h[id]), path, Link(next));
    var (c, c') := (h[id], h'[id]);
    var e: Obj := match c
      case Indirect(_, _, _) => c'.obj
      case Stream(_, _, d, data) => var es :| ObjDone(cfg, way, h, m', Dict(d), Dict(es), c.num, c.gen); Dict(es);
    assert ObjDone(cfg, way, h, m', Body(c), e, c.num, c.gen);
    assert Became(cfg, way, h, m', Link(next), At(e, path), c.num, c.gen);
  }
}
