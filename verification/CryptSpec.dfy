/**
 What encrypting and decrypting an object does, as functions of the store of numbered objects and the set of
 objects marked as done. Direct objects are values; numbered objects are reached by pointer and may form cycles.
 */
module CryptSpec {
  import opened Options
  import opened Symbols

  type Id = nat

  datatype Obj =
    | Name(name: string)
    | Str(val: seq<byte>)
    | Int(n: int)
    | Other(text: string)
    | Arr(elems: seq<Obj>)
    | Dict(entries: seq<Entry>)
    | Link(id: Id)

  datatype Entry = Entry(key: string, val: Obj)

  datatype Numbered =
    | Indirect(num: int, gen: int, obj: Obj)
    | Stream(num: int, gen: int, dict: seq<Entry>, data: seq<byte>)

  type Heap = map<Id, Numbered>

  type Key = seq<byte>

  /** A crypt filter: a key for each object, and the two directions. */
  datatype Filter = Filter(makeKey: (int, int) -> Key, enc: (seq<byte>, Key) -> seq<byte>, dec: (seq<byte>, Key) -> seq<byte>)

  datatype Config = Config(v: int, r: int, streamFilter: string, stringFilter: string, filters: map<string, Filter>, decryptedObjNum: set<int>)

  const STD_CRYPT_FILTER := "StdCF"
  const IDENTITY := "Identity"

  function Lookup(d: seq<Entry>, key: string): Option<Obj> {
    if d == [] then None else if d[0].key == key then Some(d[0].val) else Lookup(d[1..], key)
  }

  function SetEntry(d: seq<Entry>, key: string, val: Obj): (r: seq<Entry>)
    ensures |r| > 0
  {
    if d == [] then [Entry(key, val)]
    else if d[0].key == key then [Entry(key, val)] + d[1..]
    else [d[0]] + SetEntry(d[1..], key, val)
  }

  // ----- What the traversals look at

  predicate HasType(d: seq<Entry>, t: string) {
    Lookup(d, "Type") == Some(Name(t))
  }

  predicate IsXRefStream(c: Numbered) {
    c.Stream? && HasType(c.dict, "XRef")
  }

  /** Entries that are passed over: references upwards and sideways, and the contents of a signature. */
  predicate Skipped(key: string, isSig: bool) {
    key == "Parent" || key == "Prev" || key == "Last" || (isSig && key == "Contents")
  }

  /** A first filter of "Crypt" overrides the filter of streams, by the identity or by the filter it names. */
  function StreamFilterOf(cfg: Config, d: seq<Entry>): string {
    if cfg.v < 4 then STD_CRYPT_FILTER
    else
      match Lookup(d, "Filter")
      case Some(Arr(fs)) =>
        if fs != [] && fs[0] == Name("Crypt") then
          match Lookup(d, "DecodeParms")
          case Some(Dict(ps)) =>
            (match Lookup(ps, "Name")
             case Some(Name(n)) => if n in cfg.filters then n else IDENTITY
             case _ => IDENTITY)
          case _ => IDENTITY
        else cfg.streamFilter
      case _ => cfg.streamFilter
  }

  /** Streams that pass unchanged, their dictionaries too. */
  predicate PassesStream(cfg: Config, d: seq<Entry>) {
    cfg.v >= 4 && StreamFilterOf(cfg, d) == IDENTITY
  }

  predicate PassesStrings(cfg: Config) {
    cfg.v >= 4 && cfg.stringFilter == IDENTITY
  }

  function StringFilter(cfg: Config): string {
    if cfg.v >= 4 then cfg.stringFilter else STD_CRYPT_FILTER
  }

  /** The fingerprint of an old Encrypt dictionary. */
  predicate LooksLikeEncryptDict(o: Obj) {
    o.Dict? && Lookup(o.entries, "V").Some? && Lookup(o.entries, "R").Some? && Lookup(o.entries, "O").Some? &&
    Lookup(o.entries, "U").Some? && Lookup(o.entries, "P").Some?
  }

  // ----- Encryption

  datatype Result<+T> = Done(heap: Heap, marks: set<Id>, value: T) | UnknownFilter

  /** Object numbers are cut to 32 bits where the key is made. */
  function KeyFor(f: Filter, num: int, gen: int): Key {
    f.makeKey(num % 0x1_0000_0000, gen % 0x1_0000_0000)
  }

  function EncObj(cfg: Config, h: Heap, m: set<Id>, o: Obj, num: int, gen: int): (r: Result<Obj>)
    ensures r.Done? ==> r.heap.Keys == h.Keys && m <= r.marks
    decreases h.Keys - m, 1, o
  {
    match o
    case Link(id) =>
      (match EncLink(cfg, h, m, id)
       case Done(h', m', _) => Done(h', m', o)
       case UnknownFilter => UnknownFilter)
    case Str(v) =>
      if PassesStrings(cfg) then Done(h, m, o)
      else if StringFilter(cfg) !in cfg.filters then UnknownFilter
      else
        var f := cfg.filters[StringFilter(cfg)];
        Done(h, m, Str(f.enc(v, KeyFor(f, num, gen))))
    case Arr(es) =>
      (match EncElems(cfg, h, m, es, num, gen)
       case Done(h', m', es') => Done(h', m', Arr(es'))
       case UnknownFilter => UnknownFilter)
    case Dict(d) =>
      (match EncEntries(cfg, h, m, d, HasType(d, "Sig"), num, gen)
       case Done(h', m', d') => Done(h', m', Dict(d'))
       case UnknownFilter => UnknownFilter)
    case _ => Done(h, m, o)
  }

  function EncElems(cfg: Config, h: Heap, m: set<Id>, es: seq<Obj>, num: int, gen: int): (r: Result<seq<Obj>>)
    ensures r.Done? ==> r.heap.Keys == h.Keys && m <= r.marks
    decreases h.Keys - m, 1, es
  {
    if es == [] then Done(h, m, [])
    else
      match EncObj(cfg, h, m, es[0], num, gen)
      case UnknownFilter => UnknownFilter
      case Done(h1, m1, e) =>
        match EncElems(cfg, h1, m1, es[1..], num, gen)
        case UnknownFilter => UnknownFilter
        case Done(h2, m2, rest) => Done(h2, m2, [e] + rest)
  }

  function EncEntries(cfg: Config, h: Heap, m: set<Id>, d: seq<Entry>, isSig: bool, num: int, gen: int): (r: Result<seq<Entry>>)
    ensures r.Done? ==> r.heap.Keys == h.Keys && m <= r.marks
    decreases h.Keys - m, 1, d
  {
    if d == [] then Done(h, m, [])
    else
      assert d[0].val < d[0];
      match if Skipped(d[0].key, isSig) then Done(h, m, d[0].val) else EncObj(cfg, h, m, d[0].val, num, gen)
      case UnknownFilter => UnknownFilter
      case Done(h1, m1, v) =>
        match EncEntries(cfg, h1, m1, d[1..], isSig, num, gen)
        case UnknownFilter => UnknownFilter
        case Done(h2, m2, rest) => Done(h2, m2, [Entry(d[0].key, v)] + rest)
  }

  /** Following a pointer: a marked object is left alone, any other is marked first. */
  function EncLink(cfg: Config, h: Heap, m: set<Id>, id: Id): (r: Result<()>)
    ensures r.Done? ==> r.heap.Keys == h.Keys && m <= r.marks
    decreases h.Keys - m, 0
  {
    if id in m || id !in h then Done(h, m, ())
    else
      var m1 := m + {id};
      match h[id]
      case Indirect(num, gen, o) =>
        (match EncObj(cfg, h, m1, o, num, gen)
         case UnknownFilter => UnknownFilter
         case Done(h', m', o') => Done(h'[id := Indirect(num, gen, o')], m', ()))
      case Stream(num, gen, d, data) =>
        if IsXRefStream(h[id]) || PassesStream(cfg, d) then Done(h, m1, ())
        else
          match EncEntries(cfg, h, m1, d, HasType(d, "Sig"), num, gen)
          case UnknownFilter => UnknownFilter
          case Done(h', m', d') =>
            if StreamFilterOf(cfg, d) !in cfg.filters then UnknownFilter
            else
              var f := cfg.filters[StreamFilterOf(cfg, d)];
              var data' := f.enc(data, KeyFor(f, num, gen));
              Done(h'[id := Stream(num, gen, SetEntry(d', "Length", Int(|data'|)), data')], m', ())
  }

  // ----- Decryption

  /** What counts as decrypted without a mark. */
  predicate Exempt(cfg: Config, c: Numbered) {
    match c
    case Stream(_, _, _, _) => cfg.r != 5 && IsXRefStream(c)
    case Indirect(num, _, o) => num in cfg.decryptedObjNum || LooksLikeEncryptDict(o)
  }

  function DecObj(cfg: Config, h: Heap, m: set<Id>, o: Obj, num: int, gen: int): (r: Result<Obj>)
    ensures r.Done? ==> r.heap.Keys == h.Keys && m <= r.marks
    decreases h.Keys - m, 1, o
  {
    match o
    case Link(id) =>
      (match DecLink(cfg, h, m, id)
       case Done(h', m', _) => Done(h', m', o)
       case UnknownFilter => UnknownFilter)
    case Str(v) =>
      if PassesStrings(cfg) then Done(h, m, o)
      else if StringFilter(cfg) !in cfg.filters then UnknownFilter
      else
        var f := cfg.filters[StringFilter(cfg)];
        Done(h, m, Str(f.dec(v, KeyFor(f, num, gen))))
    case Arr(es) =>
      (match DecElems(cfg, h, m, es, num, gen)
       case Done(h', m', es') => Done(h', m', Arr(es'))
       case UnknownFilter => UnknownFilter)
    case Dict(d) =>
      (match DecEntries(cfg, h, m, d, HasType(d, "Sig"), num, gen)
       case Done(h', m', d') => Done(h', m', Dict(d'))
       case UnknownFilter => UnknownFilter)
    case _ => Done(h, m, o)
  }

  function DecElems(cfg: Config, h: Heap, m: set<Id>, es: seq<Obj>, num: int, gen: int): (r: Result<seq<Obj>>)
    ensures r.Done? ==> r.heap.Keys == h.Keys && m <= r.marks
    decreases h.Keys - m, 1, es
  {
    if es == [] then Done(h, m, [])
    else
      match DecObj(cfg, h, m, es[0], num, gen)
      case UnknownFilter => UnknownFilter
      case Done(h1, m1, e) =>
        match DecElems(cfg, h1, m1, es[1..], num, gen)
        case UnknownFilter => UnknownFilter
        case Done(h2, m2, rest) => Done(h2, m2, [e] + rest)
  }

  function DecEntries(cfg: Config, h: Heap, m: set<Id>, d: seq<Entry>, isSig: bool, num: int, gen: int): (r: Result<seq<Entry>>)
    ensures r.Done? ==> r.heap.Keys == h.Keys && m <= r.marks
    decreases h.Keys - m, 1, d
  {
    if d == [] then Done(h, m, [])
    else
      assert d[0].val < d[0];
      match if Skipped(d[0].key, isSig) then Done(h, m, d[0].val) else DecObj(cfg, h, m, d[0].val, num, gen)
      case UnknownFilter => UnknownFilter
      case Done(h1, m1, v) =>
        match DecEntries(cfg, h1, m1, d[1..], isSig, num, gen)
        case UnknownFilter => UnknownFilter
        case Done(h2, m2, rest) => Done(h2, m2, [Entry(d[0].key, v)] + rest)
  }

  function DecLink(cfg: Config, h: Heap, m: set<Id>, id: Id): (r: Result<()>)
    ensures r.Done? ==> r.heap.Keys == h.Keys && m <= r.marks
    decreases h.Keys - m, 0
  {
    if id in m || id !in h || Exempt(cfg, h[id]) then Done(h, m, ())
    else
      var m1 := m + {id};
      match h[id]
      case Indirect(num, gen, o) =>
        (match DecObj(cfg, h, m1, o, num, gen)
         case UnknownFilter => UnknownFilter
         case Done(h', m', o') => Done(h'[id := Indirect(num, gen, o')], m', ()))
      case Stream(num, gen, d, data) =>
        if PassesStream(cfg, d) then Done(h, m1, ())
        else
          match DecEntries(cfg, h, m1, d, HasType(d, "Sig"), num, gen)
          case UnknownFilter => UnknownFilter
          case Done(h', m', d') =>
            if StreamFilterOf(cfg, d) !in cfg.filters then UnknownFilter
            else
              var f := cfg.filters[StreamFilterOf(cfg, d)];
              var data' := f.dec(data, KeyFor(f, num, gen));
              Done(h'[id := Stream(num, gen, SetEntry(d', "Length", Int(|data'|)), data')], m', ())
  }
}
