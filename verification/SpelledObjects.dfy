/** Arrays and dictionaries, with any white space and comments in them, are read as what their parts are read as. */
module SpelledObjects {
  import opened Options
  import opened Symbols
  import opened Objects
  import opened ParserSpec
  import opened Spellings

  // ----- Arrays

  predicate Blanks(s: seq<byte>) {
    forall i :: 0 <= i < |s| ==> IsBlank(s[i])
  }

  lemma {:induction false} BlanksSkipped(b: seq<byte>, s: seq<byte>)
    requires Blanks(b)
    ensures SkipSpaces(b + s) == SkipSpaces(s)
  {
    if b == [] {
      assert b + s == s;
    } else {
      assert (b + s)[1..] == b[1..] + s && (b + s)[0] == b[0];
      BlanksSkipped(b[1..], s);
    }
  }

  lemma {:induction false} SpacesFirst(s: seq<byte>)
    ensures SkipComments(SkipSpaces(s)) == SkipComments(s)
  {
    SpacesTwice(s);
  }

  lemma {:induction false} SpacesTwice(s: seq<byte>)
    ensures SkipSpaces(SkipSpaces(s)) == SkipSpaces(s)
  {
    if s != [] && IsWhiteSpace(s[0]) { SpacesTwice(s[1..]); }
  }

  lemma {:induction false} SameObject(s: seq<byte>)
    ensures ParseObject(SkipSpaces(s)) == ParseObject(s)
  {
    hide SkipComments, ArrayLoop, DictLoop, ParseToken, LiteralBody, ParseHexString, ParseName;
    SpacesFirst(s);
  }

  lemma {:induction false} BracketIsNoObject(s: seq<byte>)
    requires s != [] && s[0] == 0x5D
    ensures ParseObject(s) == Failed(Syntax)
  {
    assert SkipComments(s) == s && Window(s, 15)[0] == 0x5D;
  }

  /** Whatever is read as an object is an element of an array, if reading it moves on past the white space. */
  lemma {:induction false} ElementIsRead(s: seq<byte>, o: Obj, rest: seq<byte>, arr: seq<Obj>)
    requires ParseObject(s) == Ok(o, rest) && |rest| < |SkipSpaces(s)|
    ensures ArrayLoop(s, arr) == ArrayLoop(rest, arr + [o])
  {
    hide SkipSpaces;
    var t := SkipSpaces(s);
    SameObject(s);
    if t[0] == 0x5D { BracketIsNoObject(t); }
  }

  function Joined(texts: seq<seq<byte>>): seq<byte> {
    if texts == [] then [] else texts[0] + Joined(texts[1..])
  }

  /** Each text is read as an object before what comes after it. */
  ghost predicate ElementsRead(texts: seq<seq<byte>>, os: seq<Obj>, tail: seq<byte>) {
    |texts| == |os| && forall i :: 0 <= i < |texts| ==> ElementReadAt(texts, os, tail, i)
  }

  ghost predicate ElementReadAt(texts: seq<seq<byte>>, os: seq<Obj>, tail: seq<byte>, i: nat)
    requires |texts| == |os| && i < |texts|
  {
    var rest := Joined(texts[i + 1..]) + tail;
    !Blanks(texts[i]) && ParseObject(texts[i] + rest) == Ok(os[i], rest)
  }

  lemma {:induction false} MovesOn(text: seq<byte>, rest: seq<byte>)
    requires !Blanks(text)
    ensures |SkipSpaces(text + rest)| > |rest|
  {
    assert (text + rest)[0] == text[0] && (text + rest)[1..] == text[1..] + rest;
    var i :| 0 <= i < |text| && !IsBlank(text[i]);
    if IsBlank(text[0]) {
      assert text[1..][i - 1] == text[i];
      MovesOn(text[1..], rest);
    }
  }

  lemma {:induction false} OthersRead(texts: seq<seq<byte>>, os: seq<Obj>, tail: seq<byte>)
    requires ElementsRead(texts, os, tail) && texts != []
    ensures ElementReadAt(texts, os, tail, 0) && ElementsRead(texts[1..], os[1..], tail)
  {
    hide ParseObject, Blanks, Joined;
    forall i | 0 <= i < |texts[1..]| ensures ElementReadAt(texts[1..], os[1..], tail, i) {
      assert ElementReadAt(texts, os, tail, i + 1) && texts[1..][i + 1..] == texts[i + 2..];
    }
  }

  lemma {:induction false} FirstRead(texts: seq<seq<byte>>, os: seq<Obj>, tail: seq<byte>, arr: seq<Obj>)
    requires |os| == |texts| > 0 && ElementReadAt(texts, os, tail, 0)
    ensures ArrayLoop(Joined(texts) + tail, arr) == ArrayLoop(Joined(texts[1..]) + tail, arr + [os[0]])
  {
    hide ArrayLoop, ParseObject, Blanks, SkipSpaces;
    var rest := Joined(texts[1..]) + tail;
    assert Joined(texts) + tail == texts[0] + rest;
    MovesOn(texts[0], rest);
    ElementIsRead(texts[0] + rest, os[0], rest, arr);
  }

  lemma {:induction false} ElementsAreRead(texts: seq<seq<byte>>, os: seq<Obj>, gaps: seq<byte>, k: seq<byte>, arr: seq<Obj>)
    requires Blanks(gaps) && ElementsRead(texts, os, gaps + ([0x5D] + k))
    ensures ArrayLoop(Joined(texts) + (gaps + ([0x5D] + k)), arr) == Ok(Arr(arr + os), k)
    decreases |texts|
  {
    var tail := gaps + ([0x5D] + k);
    if texts == [] {
      assert Joined(texts) + tail == tail && arr + os == arr;
      EndIsRead(gaps, k, arr);
    } else {
      assert |os| == |texts|;
      hide ArrayLoop, Blanks, Joined, ElementsRead, ElementReadAt;
      OthersRead(texts, os, tail);
      FirstRead(texts, os, tail, arr);
      ElementsAreRead(texts[1..], os[1..], gaps, k, arr + [os[0]]);
      assert arr + [os[0]] + os[1..] == arr + os;
    }
  }

  lemma {:induction false} EndIsRead(gaps: seq<byte>, k: seq<byte>, arr: seq<Obj>)
    requires Blanks(gaps)
    ensures ArrayLoop(gaps + ([0x5D] + k), arr) == Ok(Arr(arr), k)
  {
    BlanksSkipped(gaps, [0x5D] + k);
    assert SkipSpaces([0x5D] + k) == [0x5D] + k;
  }

  /** Every spelling of an array is read as the array of its elements. */
  lemma {:induction false} ArraySpellingIsRead(texts: seq<seq<byte>>, os: seq<Obj>, gaps: seq<byte>, k: seq<byte>)
    requires Blanks(gaps) && ElementsRead(texts, os, gaps + ([0x5D] + k))
    ensures ParseObject([0x5B] + (Joined(texts) + (gaps + ([0x5D] + k)))) == Ok(Arr(os), k)
  {
    hide ArrayLoop, ElementsRead;
    ElementsAreRead(texts, os, gaps, k, []);
    var s := [0x5B] + (Joined(texts) + (gaps + ([0x5D] + k)));
    assert SkipComments(s) == s && s[1..] == Joined(texts) + (gaps + ([0x5D] + k)) && [] + os == os;
  }

  /** But a comment before the closing bracket is not passed over: the bracket is taken for an element. */
  lemma {:induction false} CommentBeforeBracketFails(gaps: seq<byte>, text: seq<byte>, end: byte, fs: seq<Fill>, k: seq<byte>, arr: seq<Obj>)
    requires Blanks(gaps) && LegalFill(Remark(text, end)) && forall i :: 0 <= i < |fs| ==> LegalFill(fs[i])
    ensures ArrayLoop(gaps + ([0x25] + text + [end] + (FillText(fs) + ([0x5D] + k))), arr) == Failed(Syntax)
  {
    hide LegalFill;
    var after := FillText(fs) + ([0x5D] + k);
    var t := [0x25] + text + [end] + after;
    BlanksSkipped(gaps, t);
    assert SkipSpaces(t) == t;
    RemarkSkipped(text, end, after);
    FillSkipped(fs, [0x5D] + k);
    assert SkipComments([0x5D] + k) == [0x5D] + k;
    BracketIsNoObject([0x5D] + k);
    SameAfterSkipping(t, [0x5D] + k);
  }

  lemma {:induction false} SameAfterSkipping(s: seq<byte>, t: seq<byte>)
    requires SkipComments(s) == SkipComments(t)
    ensures ParseObject(s) == ParseObject(t)
  {
    hide SkipComments, ArrayLoop, DictLoop, ParseToken, LiteralBody, ParseHexString, ParseName;
  }

  // ----- Dictionaries

  /** White space and comments, a key, and the text of the value, with what comes before it. */
  datatype Pair = Pair(fill: seq<Fill>, key: seq<NamePiece>, text: seq<byte>, value: Obj)

  predicate LegalPair(p: Pair) {
    && (forall i :: 0 <= i < |p.fill| ==> LegalFill(p.fill[i]))
    && (forall i :: 0 <= i < |p.key| ==> LegalName(p.key[i]))
    && p.text != [] && EndsNames(p.text[0])
  }

  function KeyOf(p: Pair): seq<byte>
    requires LegalPair(p)
  {
    NameMeaning(p.key)
  }

  function PairText(p: Pair): seq<byte> {
    FillText(p.fill) + ([0x2F] + (NameSpelling(p.key) + p.text))
  }

  function PairsText(ps: seq<Pair>): seq<byte> {
    if ps == [] then [] else PairText(ps[0]) + PairsText(ps[1..])
  }

  /** A key of more than four bytes that ends in null is a case of its own. */
  predicate EndsInNull(key: seq<byte>) {
    |key| > 4 && key[|key| - 4..] == [0x6E, 0x75, 0x6C, 0x6C]
  }

  ghost predicate PairRead(p: Pair, rest: seq<byte>) {
    LegalPair(p) && !EndsInNull(KeyOf(p)) && ParseObject(p.text + rest) == Ok(p.value, rest)
  }

  ghost predicate PairsRead(ps: seq<Pair>, tail: seq<byte>) {
    ps != [] ==> PairRead(ps[0], PairsText(ps[1..]) + tail) && PairsRead(ps[1..], tail)
  }

  /** A later value of a key takes the place of an earlier one. */
  ghost function Collected(ps: seq<Pair>, d: seq<Entry>): seq<Entry>
    requires forall i :: 0 <= i < |ps| ==> LegalPair(ps[i])
  {
    if ps == [] then d else Collected(ps[1..], SetEntry(d, KeyOf(ps[0]), ps[0].value))
  }

  lemma {:induction false} PairsAreLegal(ps: seq<Pair>, tail: seq<byte>)
    requires PairsRead(ps, tail)
    ensures forall i :: 0 <= i < |ps| ==> LegalPair(ps[i])
  {
    if ps != [] {
      PairsAreLegal(ps[1..], tail);
      assert forall i :: 0 < i < |ps| ==> ps[i] == ps[1..][i - 1];
    }
  }

  lemma {:induction false} FillInDict(fs: seq<Fill>, s: seq<byte>, d: seq<Entry>)
    requires forall i :: 0 <= i < |fs| ==> LegalFill(fs[i])
    ensures DictLoop(FillText(fs) + s, d) == DictLoop(s, d)
  {
    hide SkipComments, FillText, DictEntry;
    FillSkipped(fs, s);
  }

  /** The key and its value at the beginning of the rest of a dictionary. */
  lemma {:induction false} EntryIsRead(p: Pair, rest: seq<byte>, d: seq<Entry>)
    requires PairRead(p, rest)
    ensures DictEntry([0x2F] + (NameSpelling(p.key) + (p.text + rest)), d) == Ok(SetEntry(d, KeyOf(p), p.value), rest)
  {
    var t := [0x2F] + (NameSpelling(p.key) + (p.text + rest));
    assert t[1..] == NameSpelling(p.key) + (p.text + rest) && (p.text + rest)[0] == p.text[0];
    assert HasNullSuffix(KeyOf(p)) <==> EndsInNull(KeyOf(p));
    hide NameBody, ParseObject, LegalName, LegalFill, EndsNames, NameSpelling, NameMeaning, SkipSpaces;
    NameTextIsRead(p.key, p.text + rest);
    SameObject(p.text + rest);
    assert ParseName(t) == Ok(KeyOf(p), p.text + rest);
  }

  lemma {:induction false} PairIsRead(p: Pair, rest: seq<byte>, d: seq<Entry>)
    requires PairRead(p, rest)
    ensures DictLoop(PairText(p) + rest, d) == DictLoop(rest, SetEntry(d, KeyOf(p), p.value))
  {
    var t := [0x2F] + (NameSpelling(p.key) + (p.text + rest));
    assert PairText(p) + rest == FillText(p.fill) + t;
    assert SkipComments(t) == t && |t| >= 2;
    hide SkipComments, DictEntry, ParseObject, NameSpelling, FillText, LegalName, LegalFill, EndsNames, NameMeaning;
    EntryIsRead(p, rest, d);
    FillInDict(p.fill, t, d);
  }

  lemma {:induction false} DictEnds(fs: seq<Fill>, k: seq<byte>, d: seq<Entry>)
    requires forall i :: 0 <= i < |fs| ==> LegalFill(fs[i])
    ensures DictLoop(FillText(fs) + ([0x3E, 0x3E] + k), d) == Ok(Dict(d), k)
  {
    hide FillText, LegalFill;
    FillInDict(fs, [0x3E, 0x3E] + k, d);
    assert SkipComments([0x3E, 0x3E] + k) == [0x3E, 0x3E] + k && ([0x3E, 0x3E] + k)[2..] == k;
  }

  lemma {:induction false} PairsAreRead(ps: seq<Pair>, fs: seq<Fill>, k: seq<byte>, d: seq<Entry>)
    requires (forall i :: 0 <= i < |fs| ==> LegalFill(fs[i])) && PairsRead(ps, FillText(fs) + ([0x3E, 0x3E] + k))
    ensures forall i :: 0 <= i < |ps| ==> LegalPair(ps[i])
    ensures DictLoop(PairsText(ps) + (FillText(fs) + ([0x3E, 0x3E] + k)), d) == Ok(Dict(Collected(ps, d)), k)
    decreases |ps|
  {
    hide DictLoop, PairRead, LegalPair, PairText, FillText, LegalFill, KeyOf;
    var tail := FillText(fs) + ([0x3E, 0x3E] + k);
    PairsAreLegal(ps, tail);
    if ps == [] {
      assert PairsText(ps) + tail == tail;
      DictEnds(fs, k, d);
    } else {
      var rest := PairsText(ps[1..]) + tail;
      assert PairsText(ps) + tail == PairText(ps[0]) + rest;
      PairIsRead(ps[0], rest, d);
      PairsAreRead(ps[1..], fs, k, SetEntry(d, KeyOf(ps[0]), ps[0].value));
    }
  }

  /** Every spelling of a dictionary is read as the dictionary of its entries. */
  lemma {:induction false} DictSpellingIsRead(ps: seq<Pair>, fs: seq<Fill>, k: seq<byte>)
    requires (forall i :: 0 <= i < |fs| ==> LegalFill(fs[i])) && PairsRead(ps, FillText(fs) + ([0x3E, 0x3E] + k))
    ensures forall i :: 0 <= i < |ps| ==> LegalPair(ps[i])
    ensures ParseObject([0x3C, 0x3C] + (PairsText(ps) + (FillText(fs) + ([0x3E, 0x3E] + k)))) == Ok(Dict(Collected(ps, [])), k)
  {
    hide DictLoop, PairsRead, LegalPair, FillText, LegalFill, PairsText;
    PairsAreRead(ps, fs, k, []);
    var u := PairsText(ps) + (FillText(fs) + ([0x3E, 0x3E] + k));
    var s := [0x3C, 0x3C] + u;
    assert SkipComments(s) == s && s[2..] == u;
  }
}
