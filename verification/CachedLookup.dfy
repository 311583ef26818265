/**
 Looking up numbered objects. The specification Want says what each object number stands for in the file, with no
 state at all; the parser looks objects up with three caches, marks and nested lookups.
 */
module CachedLookup {
  import opened Options
  import opened Symbols
  type Oid = nat

  datatype Body =
    | Integer(n: int)
    | Text(s: seq<byte>)
    | EncryptDict(s: seq<byte>)
    | Pointer

  datatype Item =
    | Null
    | Indirect(num: int, gen: int, body: Body)
    | Stream(num: int, gen: int, isXRef: bool, data: seq<byte>)

  /** The Length entry of a stream: an integer, a reference to another object, or neither. */
  datatype Length = Given(n: int) | Refers(num: int) | NoInteger

  /** What the file holds at an offset; the data of a stream is the first part of rest. */
  datatype Slot =
    | Unreadable
    | ObjectAt(num: int, gen: int, body: Body)
    | StreamAt(num: int, gen: int, isXRef: bool, length: Length, rest: seq<byte>)

  datatype XrefObject = Direct(offset: int) | Packed(container: int)

  /** dec may fail (an unknown crypt filter); decryptedObjNum are the numbers known to be clear. */
  datatype Crypter = Crypter(r: int, dec: (seq<byte>, int, int) -> Option<seq<byte>>, decryptedObjNum: set<int>)

  /**
   opens says whether the entries of the object stream with a number are right and its offset table can be read from
   the data; member reads one object of it.
   */
  datatype File = File(xrefs: map<int, XrefObject>, slots: map<int, Slot>, crypter: Option<Crypter>,
                       opens: (int, seq<byte>) -> bool, member: (int, seq<byte>, int) -> Option<Body>)

  /** The table is accurate, and containers of objects are stored directly (section 7.5.7 of PDF 32000-1). */
  ghost predicate Accurate(f: File) {
    forall n :: n in f.xrefs ==>
      match f.xrefs[n]
      case Direct(at) => at in f.slots && (f.slots[at].Unreadable? || f.slots[at].num == n)
      case Packed(c) => c in f.xrefs ==> f.xrefs[c].Direct?
  }

  // ----- What an object number stands for

  /** Objects that are never encrypted: listed numbers, cross-reference streams, copies of the Encrypt dictionary. */
  predicate Exempt(c: Crypter, it: Item) {
    match it
    case Null => true
    case Indirect(num, _, body) => num in c.decryptedObjNum || body.EncryptDict?
    case Stream(_, _, isXRef, _) => isXRef && c.r != 5
  }

  function DecryptedItem(c: Crypter, it: Item): Option<Item> {
    match it
    case Null => Some(it)
    case Indirect(num, gen, Text(s)) =>
      (match c.dec(s, num, gen)
       case Some(t) => Some(Indirect(num, gen, Text(t)))
       case None => None)
    case Indirect(_, _, _) => Some(it)
    case Stream(num, gen, isXRef, data) =>
      match c.dec(data, num, gen)
      case Some(t) => Some(Stream(num, gen, isXRef, t))
      case None => None
  }

  function Clear(f: File, it: Item): Option<Item> {
    if f.crypter.None? || Exempt(f.crypter.value, it) then Some(it) else DecryptedItem(f.crypter.value, it)
  }

  function Cut(s: Slot, len: int): Option<Item>
    requires s.StreamAt?
  {
    if 0 <= len <= |s.rest| then Some(Stream(s.num, s.gen, s.isXRef, s.rest[..len])) else None
  }

  /** The object at an offset as it is in the file; at most k lengths of streams are looked up one inside the other. */
  function WantRaw(f: File, at: int, k: nat): Option<Item>
    requires Accurate(f)
    decreases k, 0
  {
    if at !in f.slots then None
    else
      var s := f.slots[at];
      match s
      case Unreadable => None
      case ObjectAt(num, gen, body) => Some(Indirect(num, gen, body))
      case StreamAt(_, _, _, Given(len), _) => Cut(s, len)
      case StreamAt(_, _, _, NoInteger, _) => None
      case StreamAt(_, _, _, Refers(l), _) =>
        if k == 0 then None
        else
          match Want(f, l, k - 1)
          case Some(Indirect(_, _, Integer(len))) => Cut(s, len)
          case _ => None
  }

  function WantDirect(f: File, at: int, k: nat): Option<Item>
    requires Accurate(f)
    decreases k, 1
  {
    match WantRaw(f, at, k)
    case None => None
    case Some(it) => Clear(f, it)
  }

  /** What the object number n stands for: objects stored directly are decrypted, those in object streams are not. */
  function Want(f: File, n: int, k: nat): Option<Item>
    requires Accurate(f)
    decreases k, 2
  {
    if n !in f.xrefs then Some(Null)
    else
      match f.xrefs[n]
      case Direct(at) => WantDirect(f, at, k)
      case Packed(c) =>
        if c == n || c !in f.xrefs then None
        else
          match WantDirect(f, f.xrefs[c].offset, k)
          case Some(Stream(_, _, _, data)) => Unpacked(f, c, data, n)
          case _ => None
  }

  function Unpacked(f: File, c: int, data: seq<byte>, n: int): Option<Item> {
    if !f.opens(c, data) then None
    else
      match f.member(c, data, n)
      case Some(body) => Some(Indirect(n, 0, body))
      case None => None
  }

  lemma {:induction false} WantRawGrows(f: File, at: int, k: nat, j: nat)
    requires Accurate(f) && k <= j && WantRaw(f, at, k).Some?
    ensures WantRaw(f, at, j) == WantRaw(f, at, k)
    decreases k, 0
  {
    var s := f.slots[at];
    if s.StreamAt? && s.length.Refers? {
      WantGrows(f, s.length.num, k - 1, j - 1);
    }
  }

  lemma {:induction false} WantGrows(f: File, n: int, k: nat, j: nat)
    requires Accurate(f) && k <= j && Want(f, n, k).Some?
    ensures Want(f, n, j) == Want(f, n, k)
    decreases k, 1
  {
    if n in f.xrefs {
      match f.xrefs[n]
      case Direct(at) => WantRawGrows(f, at, k, j);
      case Packed(c) => WantRawGrows(f, f.xrefs[c].offset, k, j);
    }
  }

  ghost predicate Stands(f: File, n: int)
    requires Accurate(f)
  {
    exists k: nat :: Want(f, n, k).Some?
  }

  /** What n stands for, however deep the lengths have to be followed. */
  ghost function Meaning(f: File, n: int): (r: Option<Item>)
    requires Accurate(f)
    ensures r.Some? <==> Stands(f, n)
  {
    if Stands(f, n) then
      var k: nat :| Want(f, n, k).Some?;
      Want(f, n, k)
    else None
  }

  lemma {:induction false} MeaningIs(f: File, n: int, k: nat)
    requires Accurate(f) && Want(f, n, k).Some?
    ensures Meaning(f, n) == Want(f, n, k)
  {
    var j: nat :| Want(f, n, j).Some? && Meaning(f, n) == Want(f, n, j);
    if j <= k { WantGrows(f, n, j, k); } else { WantGrows(f, n, k, j); }
  }

  /** The object at an offset as it is in the file. */
  ghost function RawMeaning(f: File, at: int): Option<Item>
    requires Accurate(f)
  {
    if at !in f.slots then None
    else
      var s := f.slots[at];
      match s
      case Unreadable => None
      case ObjectAt(num, gen, body) => Some(Indirect(num, gen, body))
      case StreamAt(_, _, _, Given(len), _) => Cut(s, len)
      case StreamAt(_, _, _, NoInteger, _) => None
      case StreamAt(_, _, _, Refers(l), _) =>
        match Meaning(f, l)
        case Some(Indirect(_, _, Integer(len))) => Cut(s, len)
        case _ => None
  }

  ghost function DirectMeaning(f: File, at: int): Option<Item>
    requires Accurate(f)
  {
    match RawMeaning(f, at)
    case None => None
    case Some(it) => Clear(f, it)
  }

  lemma {:induction false} RawMeaningIs(f: File, at: int)
    requires Accurate(f)
    ensures forall k: nat :: WantRaw(f, at, k).Some? ==> RawMeaning(f, at) == WantRaw(f, at, k)
    ensures RawMeaning(f, at).Some? ==> exists k: nat :: WantRaw(f, at, k).Some?
  {
    forall k: nat | WantRaw(f, at, k).Some? ensures RawMeaning(f, at) == WantRaw(f, at, k) {
      var s := f.slots[at];
      if s.StreamAt? && s.length.Refers? {
        MeaningIs(f, s.length.num, k - 1);
      }
    }
    if RawMeaning(f, at).Some? {
      var s := f.slots[at];
      if s.StreamAt? && s.length.Refers? {
        var k: nat :| Want(f, s.length.num, k).Some?;
        MeaningIs(f, s.length.num, k);
        assert WantRaw(f, at, k + 1).Some?;
      } else {
        assert WantRaw(f, at, 0).Some?;
      }
    }
  }

  lemma {:induction false} DirectMeaningIs(f: File, at: int)
    requires Accurate(f)
    ensures forall k: nat :: WantDirect(f, at, k).Some? ==> DirectMeaning(f, at) == WantDirect(f, at, k)
    ensures DirectMeaning(f, at).Some? ==> exists k: nat :: WantDirect(f, at, k).Some?
  {
    hide Meaning, WantRaw, RawMeaning, Clear;
    RawMeaningIs(f, at);
    if DirectMeaning(f, at).Some? {
      var k: nat :| WantRaw(f, at, k).Some?;
      assert WantDirect(f, at, k).Some?;
    }
  }

  /** One step of what a number stands for, in terms of what other numbers stand for. */
  ghost function Step(f: File, n: int): Option<Item>
    requires Accurate(f)
  {
    if n !in f.xrefs then Some(Null)
    else
      match f.xrefs[n]
      case Direct(at) => DirectMeaning(f, at)
      case Packed(c) =>
        if c == n || c !in f.xrefs then None
        else
          match DirectMeaning(f, f.xrefs[c].offset)
          case Some(Stream(_, _, _, data)) => Unpacked(f, c, data, n)
          case _ => None
  }

  lemma {:induction false} MeaningUnfolds(f: File, n: int)
    requires Accurate(f)
    ensures Meaning(f, n) == Step(f, n)
  {
    hide Meaning, WantDirect, DirectMeaning, Unpacked;
    if n in f.xrefs {
      var c := match f.xrefs[n] case Direct(_) => n case Packed(c) => c;
      if c in f.xrefs { DirectMeaningIs(f, f.xrefs[c].offset); }
      if Stands(f, n) {
        var k: nat :| Want(f, n, k).Some?;
        MeaningIs(f, n, k);
      }
      if Step(f, n).Some? {
        var k: nat :| WantDirect(f, f.xrefs[c].offset, k).Some?;
        MeaningIs(f, n, k);
      }
    } else {
      MeaningIs(f, n, 0);
    }
  }

  // ----- Lookups of lengths that are under way

  ghost predicate Gives(f: File, l: int, k: nat)
    requires Accurate(f)
  {
    match Want(f, l, k)
    case Some(Indirect(_, _, Integer(_))) => true
    case _ => false
  }

  /** No stream that has l for its length can be read. */
  ghost predicate Hopeless(f: File, l: int)
    requires Accurate(f)
  {
    forall k: nat :: !Gives(f, l, k)
  }

  /** A length that needs itself is hopeless. */
  lemma {:induction false} CycleIsHopeless(f: File, l: int, k: nat)
    requires Accurate(f)
    requires forall j: nat :: Gives(f, l, j) ==> j > 0 && Gives(f, l, j - 1)
    ensures !Gives(f, l, k)
  {
    if k > 0 && Gives(f, l, k) { CycleIsHopeless(f, l, k - 1); }
  }

  /** Whatever waits for one of the numbers in progress needs n. */
  ghost predicate Waiting(f: File, inProgress: set<int>, n: int)
    requires Accurate(f)
  {
    forall m, k: nat :: m in inProgress && Gives(f, m, k) ==> Want(f, n, k).Some?
  }

  /** The object n is a stream with the length l, stored at an offset. */
  ghost predicate HasLength(f: File, n: int, at: int, l: int)
    requires Accurate(f)
  {
    && n in f.xrefs && f.xrefs[n] == Direct(at)
    && f.slots[at].StreamAt? && f.slots[at].length == Refers(l)
  }

  lemma {:induction false} NeedsLength(f: File, n: int, at: int, l: int, k: nat)
    requires Accurate(f) && HasLength(f, n, at, l) && Want(f, n, k).Some?
    ensures k > 0 && Gives(f, l, k - 1)
  {
    assert WantDirect(f, at, k).Some?;
    assert WantRaw(f, at, k).Some?;
    assert k > 0;
    if !Gives(f, l, k - 1) {
      assert false;
    }
  }

  lemma {:induction false} InProgressIsHopeless(f: File, inProgress: set<int>, n: int, at: int, l: int)
    requires Accurate(f) && Waiting(f, inProgress, n) && HasLength(f, n, at, l) && l in inProgress
    ensures Hopeless(f, l) && !Stands(f, n)
  {
    hide Want, Gives;
    forall k: nat | Want(f, n, k).Some? ensures k > 0 && Gives(f, l, k - 1) { NeedsLength(f, n, at, l, k); }
    forall k: nat ensures !Gives(f, l, k) { CycleIsHopeless(f, l, k); }
  }

  lemma {:induction false} WaitingForLength(f: File, inProgress: set<int>, n: int, at: int, l: int)
    requires Accurate(f) && Waiting(f, inProgress, n) && HasLength(f, n, at, l)
    ensures Waiting(f, inProgress + {l}, l)
  {
    hide WantRaw, WantDirect;
    forall m, k: nat | m in inProgress + {l} && Gives(f, m, k) ensures Want(f, l, k).Some? {
      if m in inProgress {
        NeedsLength(f, n, at, l, k);
        WantGrows(f, l, k - 1, k);
      }
    }
  }

  /** A container is needed by the objects in it. */
  lemma {:induction false} WaitingForContainer(f: File, inProgress: set<int>, n: int, c: int)
    requires Accurate(f) && Waiting(f, inProgress, n)
    requires n in f.xrefs && f.xrefs[n] == Packed(c) && c in f.xrefs
    ensures Waiting(f, inProgress, c)
  {
    hide WantDirect;
  }

  lemma {:induction false} HopelessUnlessInteger(f: File, l: int)
    requires Accurate(f)
    requires !(Meaning(f, l).Some? && Meaning(f, l).value.Indirect? && Meaning(f, l).value.body.Integer?)
    ensures Hopeless(f, l)
  {
    hide Want, Meaning;
    forall k: nat ensures !Gives(f, l, k) {
      if Gives(f, l, k) { MeaningIs(f, l, k); }
    }
  }

  /** A stream that can be read has an integer for its length, which is then not hopeless. */
  lemma {:induction false} LengthIsMeant(f: File, n: int, at: int, l: int)
    requires Accurate(f) && HasLength(f, n, at, l)
    ensures RawMeaning(f, at).Some? ==>
      Stands(f, l) && Meaning(f, l).value.Indirect? && Meaning(f, l).value.body.Integer? && !Hopeless(f, l)
    ensures Stands(f, n) ==> RawMeaning(f, at).Some?
  {
    hide Want, Meaning;
    MeaningUnfolds(f, n);
    if RawMeaning(f, at).Some? {
      var k: nat :| Want(f, l, k).Some?;
      MeaningIs(f, l, k);
      assert Gives(f, l, k);
    }
  }

  /** Whether no decryption fails. */
  ghost predicate FiltersKnown(f: File) {
    f.crypter.Some? ==> forall s, num, gen :: f.crypter.value.dec(s, num, gen).Some?
  }

  /** How often the object that n stands for has to be decrypted: once, unless it is exempt or in an object stream. */
  ghost function Decryptions(f: File, n: int): nat
    requires Accurate(f)
  {
    if f.crypter.None? || n !in f.xrefs || f.xrefs[n].Packed? then 0
    else
      match RawMeaning(f, f.xrefs[n].offset)
      case None => 0
      case Some(it) => if Exempt(f.crypter.value, it) then 0 else 1
  }

  // ----- Decryption by an object's own numbers

  function Opened(r: Option<seq<byte>>, num: int, gen: int): Option<Item> {
    if r.Some? then Some(Indirect(num, gen, Text(r.value))) else None
  }

  /** A text that is stored directly is decrypted with its number and generation, unless its number is known to be clear. */
  lemma {:induction false} TextIsDecrypted(f: File, n: int, at: int, gen: int, s: seq<byte>)
    requires Accurate(f) && n in f.xrefs && f.xrefs[n] == Direct(at) && f.slots[at] == ObjectAt(n, gen, Text(s))
    ensures f.crypter.Some? && n !in f.crypter.value.decryptedObjNum ==> Meaning(f, n) == Opened(f.crypter.value.dec(s, n, gen), n, gen)
    ensures f.crypter.None? || n in f.crypter.value.decryptedObjNum ==> Meaning(f, n) == Some(Indirect(n, gen, Text(s)))
  {
    hide Meaning;
    MeaningUnfolds(f, n);
  }

  /** The length of a stream, given or looked up. */
  ghost predicate HasLengthOf(f: File, s: Slot, len: int)
    requires Accurate(f) && s.StreamAt?
  {
    s.length == Given(len) || (s.length.Refers? &&
      exists num, gen :: Meaning(f, s.length.num) == Some(Indirect(num, gen, Integer(len))))
  }

  /** So are the bytes of a stream, its first ones by its length, unless it is a cross-reference stream and the revision is not 5. */
  lemma {:induction false} StreamIsDecrypted(f: File, n: int, at: int, len: int)
    requires Accurate(f) && n in f.xrefs && f.xrefs[n] == Direct(at) && f.slots[at].StreamAt?
    requires HasLengthOf(f, f.slots[at], len) && 0 <= len <= |f.slots[at].rest|
    ensures var s := f.slots[at];
      var bytes := s.rest[..len];
      if f.crypter.None? || (s.isXRef && f.crypter.value.r != 5) then Meaning(f, n) == Some(Stream(n, s.gen, s.isXRef, bytes))
      else
        match f.crypter.value.dec(bytes, n, s.gen)
        case Some(clear) => Meaning(f, n) == Some(Stream(n, s.gen, s.isXRef, clear))
        case None => Meaning(f, n) == None
  {
    hide Meaning;
    MeaningUnfolds(f, n);
  }

  /** Other objects are handed out as they are, and a number without an entry is null. */
  lemma {:induction false} OthersAreLeft(f: File, n: int, at: int, gen: int, body: Body)
    requires Accurate(f)
    ensures n !in f.xrefs ==> Meaning(f, n) == Some(Null)
    ensures n in f.xrefs && f.xrefs[n] == Direct(at) && f.slots[at] == ObjectAt(n, gen, body) && !body.Text? ==>
      Meaning(f, n) == Some(Indirect(n, gen, body))
  {
    hide Meaning;
    MeaningUnfolds(f, n);
  }

  /** An object in an object stream is read from the clear bytes of the stream, and is not decrypted once more. */
  lemma {:induction false} PackedIsRead(f: File, n: int, c: int)
    requires Accurate(f) && n in f.xrefs && f.xrefs[n] == Packed(c)
    ensures Meaning(f, n) ==
      if c == n || c !in f.xrefs || Meaning(f, c).None? || !Meaning(f, c).value.Stream? then None
      else
        var data := Meaning(f, c).value.data;
        if f.opens(c, data) && f.member(c, data, n).Some? then Some(Indirect(n, 0, f.member(c, data, n).value)) else None
  {
    hide Meaning, DirectMeaning;
    MeaningUnfolds(f, n);
    if c in f.xrefs { MeaningUnfolds(f, c); }
  }
}
