/** Parsing a content stream undoes writing it. */
module ContentRoundTrip {
  import opened Options
  import opened Symbols
  import opened Objects
  import PS = ParserSpec
  import RT = RoundTrip
  import opened ContentSpec
  import opened InlineData
  import opened ContentPrint

  /** What may be written in a content stream: no fraction, no reference, no long "...null" key with a name for its value. */
  predicate Direct(o: Obj) {
    match o
    case Float(_) => false
    case Ref(_, _) => false
    case Arr(es) => forall i :: 0 <= i < |es| ==> Direct(es[i])
    case Dict(d) => DistinctKeys(d) && forall i :: 0 <= i < |d| ==> !RT.IsTrap(d[i]) && Direct(d[i].val)
    case _ => true
  }

  lemma DirectIsWritable(o: Obj)
    requires Direct(o)
    ensures Writable(o)
  {
  }

  /** What may stand after a written object. */
  predicate MayFollow(k: seq<byte>) {
    k != [] && PS.EndsName(k[0])
  }

  // ----- Tokens

  lemma {:induction false} OneNameByte(n: seq<byte>, k: seq<byte>)
    requires n != []
    ensures NameBody(PutNameBody(n, k)) == Prepend([n[0]], NameBody(PutNameBody(n[1..], k)))
  {
    var s, t := PutNameBody(n, k), PutNameBody(n[1..], k);
    if NeedsHexEscape(n[0]) {
      assert s[3..] == t;
    } else {
      assert s[1..] == t;
    }
  }

  lemma {:induction false} NameParsesBack(n: seq<byte>, k: seq<byte>)
    requires k == [] || PS.EndsName(k[0])
    ensures NameBody(PutNameBody(n, k)) == Ok(n, k)
  {
    if n != [] {
      hide NameBody, PutNameBody;
      OneNameByte(n, k);
      NameParsesBack(n[1..], k);
      assert [n[0]] + n[1..] == n;
    }
  }

  lemma {:induction false} HexParsesBack(v: seq<byte>, k: seq<byte>)
    ensures var p := HexText(PutHexBody(v, k));
      p.Ok? && p.rest == k && |p.value| % 2 == 0 && PS.HexDecode(p.value) == v
  {
    if v != [] {
      HexParsesBack(v[1..], k);
      var s, t := PutHexBody(v, k), PutHexBody(v[1..], k);
      assert s[1..] == [s[1]] + t && s[1..][1..] == t;
      var h := HexText(t).value;
      assert HexText(s[1..]) == Ok([s[1]] + h, k);
      assert HexText(s) == Ok([s[0]] + ([s[1]] + h), k);
      assert ([s[0]] + ([s[1]] + h))[2..] == h;
      assert [v[0]] + v[1..] == v;
    }
  }

  lemma {:induction false} ScanDigits(d: seq<byte>, k: seq<byte>, allowSigns: bool)
    requires PS.AllDigits(d) && (k == [] || PS.EndsName(k[0]))
    ensures ScanNumber(d + k, allowSigns) == PS.NumberText(d, false, k)
  {
    if d == [] {
      assert d + k == k;
      assert ScanNumber(k, allowSigns) == PS.NumberText([], false, k);
    } else {
      ScanDigits(d[1..], k, allowSigns);
      assert (d + k)[1..] == d[1..] + k;
      assert [d[0]] + d[1..] == d;
    }
  }

  lemma {:induction false} ScanFormatInt(n: int64, k: seq<byte>)
    requires k == [] || PS.EndsName(k[0])
    ensures ScanNumber(FormatInt(n) + k, true) == PS.NumberText(FormatInt(n), false, k)
  {
    var t := FormatInt(n);
    RT.FormatIntIsDigits(n);
    if n >= 0 {
      ScanDigits(t, k, true);
    } else {
      ScanDigits(t[1..], k, false);
      assert (t + k)[1..] == t[1..] + k && (t + k)[0] == MINUS;
      assert [MINUS] + t[1..] == t;
    }
  }

  lemma {:induction false} IntegerParsesBack(n: int64, k: seq<byte>)
    requires MayFollow(k)
    ensures ParseObject(Put(Int(n), k)) == Ok(Value(Int(n)), k)
  {
    hide ScanNumber, PS.ParseIntOrZero, ArrayLoop, DictLoop;
    var s := Put(Int(n), k);
    RT.FirstByte(Int(n), k);
    RT.PrintedStartStays(Int(n), k);
    RT.FormatIntIsDigits(n);
    if n < 0 {
      assert s[1] == FormatInt(n)[1] == Digits(-(n as int))[0];
    }
    ScanFormatInt(n, k);
    RT.ParseIntOfFormatInt(n);
  }

  lemma {:induction false} SimpleParsesBack(o: Obj, k: seq<byte>)
    requires o.Null? || o.Bool? || o.Name? || o.Str?
    requires MayFollow(k)
    ensures ParseObject(Put(o, k)) == Ok(Value(o), k)
  {
    hide ArrayLoop, DictLoop, ScanNumber, OperandText;
    var s := Put(o, k);
    RT.FirstByte(o, k);
    RT.PrintedStartStays(o, k);
    match o
    case Null => assert NULL_TEXT <= s && s[4..] == k;
    case Bool(b) => if b { assert TRUE_TEXT <= s && s[4..] == k; } else { assert FALSE_TEXT <= s && s[5..] == k; }
    case Name(n) =>
      NameParsesBack(n, k);
      assert s[1..] == PutNameBody(n, k);
    case Str(v, isHex) =>
      RT.LiteralParsesBack(v, k);
      HexParsesBack(v, k);
      assert s[1..] == if isHex then PutHexBody(v, k) else PutLiteralBody(v, k);
      if isHex { HexBodyStart(v, k); }
  }

  lemma {:induction false} HexBodyStart(v: seq<byte>, k: seq<byte>)
    ensures PutHexBody(v, k) != [] && PutHexBody(v, k)[0] != LESS
  {
  }

  // ----- Arrays and dictionaries

  lemma {:induction false} ArrayDispatch(es: seq<Obj>, k: seq<byte>)
    requires Writable(Arr(es)) && k != []
    ensures forall a, t :: ArrayLoop(PutElems(es, k), []) == Ok(a, t) ==> ParseObject(Put(Arr(es), k)) == Ok(Value(a), t)
  {
    hide ArrayLoop;
    var s := Put(Arr(es), k);
    RT.PrintedStartStays(Arr(es), k);
    assert s[1..] == PutElems(es, k);
  }

  lemma {:induction false} DictDispatch(d: seq<Entry>, k: seq<byte>)
    requires Writable(Dict(d)) && k != []
    ensures forall a, t :: DictLoop(PutEntries(d, k), []) == Ok(a, t) ==> ParseObject(Put(Dict(d), k)) == Ok(Value(a), t)
  {
    hide DictLoop;
    var s := Put(Dict(d), k);
    RT.PrintedStartStays(Dict(d), k);
    assert s[2..] == PutEntries(d, k) && s[0] == LESS && s[1] == LESS;
  }

  lemma {:induction false} ElemStep(s: seq<byte>, es: seq<Obj>, arr: seq<Obj>, k: seq<byte>)
    requires es != [] && forall i :: 0 <= i < |es| ==> Writable(es[i])
    requires s == PutElems(es, k) || s == [SP] + PutElems(es, k)
    ensures ArrayLoop(s, arr) ==
      match ParseObject(Put(es[0], RT.AfterElem(es, k)))
      case Ok(v, u) => ArrayLoop(u, arr + [AsObject(v)])
      case Failed(why) => Failed(why)
  {
    hide ParseObject;
    var x := PutElems(es, k);
    RT.PrintedStartStays(es[0], RT.AfterElem(es, k));
    RT.FirstByte(es[0], RT.AfterElem(es, k));
    assert SkipSpaces(s) == x by { assert ([SP] + x)[1..] == x; }
  }

  lemma ArrayEnd(s: seq<byte>, arr: seq<Obj>, k: seq<byte>)
    requires s == PutElems([], k) || s == [SP] + PutElems([], k)
    ensures ArrayLoop(s, arr) == Ok(Arr(arr), k)
  {
    hide ParseObject;
    var x := [RBRACKET] + k;
    assert SkipSpaces(s) == x by { assert ([SP] + x)[1..] == x; }
    assert x[1..] == k;
  }

  lemma {:induction false} AfterElemFollows(es: seq<Obj>, k: seq<byte>)
    requires es != [] && forall i :: 0 <= i < |es| ==> Writable(es[i])
    ensures MayFollow(RT.AfterElem(es, k))
    ensures RT.AfterElem(es, k) == PutElems(es[1..], k) || RT.AfterElem(es, k) == [SP] + PutElems(es[1..], k)
  {
  }

  lemma {:induction false} ElemsParseBack(s: seq<byte>, es: seq<Obj>, arr: seq<Obj>, k: seq<byte>)
    requires forall i :: 0 <= i < |es| ==> Direct(es[i]) && Writable(es[i])
    requires s == PutElems(es, k) || s == [SP] + PutElems(es, k)
    ensures ArrayLoop(s, arr) == Ok(Arr(arr + es), k)
    decreases es, 0
  {
    hide ArrayLoop, ParseObject, Put, PutElems, RT.AfterElem, MayFollow, Direct, Writable;
    if es == [] {
      ArrayEnd(s, arr, k);
      assert arr + es == arr;
    } else {
      var t := RT.AfterElem(es, k);
      ElemStep(s, es, arr, k);
      AfterElemFollows(es, k);
      ParsesBack(es[0], t);
      ElemsParseBack(t, es[1..], arr + [es[0]], k);
      assert arr + [es[0]] + es[1..] == arr + es;
    }
  }

  lemma {:induction false} EntriesFollow(d: seq<Entry>, k: seq<byte>)
    requires forall i :: 0 <= i < |d| ==> Writable(d[i].val)
    ensures MayFollow(PutEntries(d, k)) && SkipSpaces(PutEntries(d, k)) == PutEntries(d, k) && |PutEntries(d, k)| >= 2
  {
    RT.EntriesFollow(d, k);
    if d != [] { assert d[0].val < d[0]; }
  }

  lemma {:induction false} KeyReads(n: seq<byte>, u: seq<byte>)
    requires u != [] && !IsWhiteSpace(u[0])
    ensures var s := Put(Name(n), [SP] + u);
      |s| >= 2 && s[0] == SLASH && SkipSpaces(s) == s && NameBody(s[1..]) == Ok(n, [SP] + u) && SkipSpaces([SP] + u) == u
  {
    var s := Put(Name(n), [SP] + u);
    NameParsesBack(n, [SP] + u);
    PutNameBodyAppends(n, [SP] + u);
    assert s[1..] == PutNameBody(n, [SP] + u);
    assert ([SP] + u)[1..] == u;
  }

  /** One round of the dictionary loop on a written entry that is no trap, with any text after it. */
  lemma {:induction false} KeyStep(e: Entry, more: seq<byte>, done: seq<Entry>)
    requires Writable(e.val) && !RT.IsTrap(e)
    ensures var u := Put(e.val, more);
      DictLoop(Put(Name(e.key), [SP] + u), done) ==
        match ParseObject(u)
        case Ok(v, w) => DictLoop(w, SetEntry(done, e.key, AsObject(v)))
        case Failed(why) => Failed(why)
  {
    hide ParseObject, NameBody, Put, SkipSpaces;
    var u := Put(e.val, more);
    RT.FirstByte(e.val, more);
    RT.StartIsNotWhite(e.val, more);
    KeyReads(e.key, u);
  }

  lemma {:induction false} EntryStep(d: seq<Entry>, done: seq<Entry>, k: seq<byte>)
    requires d != [] && forall i :: 0 <= i < |d| ==> Writable(d[i].val)
    requires !RT.IsTrap(d[0])
    ensures var u := Put(d[0].val, PutEntries(d[1..], k));
      DictLoop(PutEntries(d, k), done) ==
        match ParseObject(u)
        case Ok(v, w) => DictLoop(w, SetEntry(done, d[0].key, AsObject(v)))
        case Failed(why) => Failed(why)
  {
    hide ParseObject, DictLoop, RT.IsTrap;
    KeyStep(d[0], PutEntries(d[1..], k), done);
  }

  lemma DictEnd(done: seq<Entry>, k: seq<byte>)
    ensures DictLoop(PutEntries([], k), done) == Ok(Dict(done), k)
  {
    hide ParseObject;
    var s := [GREATER, GREATER] + k;
    assert s[2..] == k;
  }

  lemma {:induction false} EntriesParseBack(d: seq<Entry>, done: seq<Entry>, k: seq<byte>)
    requires forall i :: 0 <= i < |d| ==> !RT.IsTrap(d[i]) && Direct(d[i].val) && Writable(d[i].val)
    requires DistinctKeys(d) && forall i :: 0 <= i < |d| ==> Lookup(done, d[i].key) == None
    ensures DictLoop(PutEntries(d, k), done) == Ok(Dict(done + d), k)
    decreases d, 0
  {
    hide DictLoop, ParseObject, Put, PutEntries, Lookup, RT.IsTrap, Direct, Writable;
    if d == [] {
      DictEnd(done, k);
      assert done + d == done;
    } else {
      assert d[0].val < d[0];
      EntriesFollow(d[1..], k);
      ParsesBack(d[0].val, PutEntries(d[1..], k));
      EntryStep(d, done, k);
      SetOfNewKeyAppends(done, d[0].key, d[0].val);
      RT.StillNewKeys(d, done);
      assert DistinctKeys(d[1..]);
      EntriesParseBack(d[1..], done + [d[0]], k);
      assert done + [d[0]] + d[1..] == done + d;
    }
  }

  /** A direct object is read back from its text in a content stream. */
  lemma {:induction false} ParsesBack(o: Obj, k: seq<byte>)
    requires Direct(o) && MayFollow(k)
    ensures Writable(o)
    ensures ParseObject(Put(o, k)) == Ok(Value(o), k)
    decreases o, 1
  {
    DirectIsWritable(o);
    match o
    case Int(n) => IntegerParsesBack(n, k);
    case Arr(es) =>
      ElemsParseBack(PutElems(es, k), es, [], k);
      ArrayDispatch(es, k);
      assert [] + es == es;
    case Dict(d) =>
      EntriesParseBack(d, [], k);
      DictDispatch(d, k);
      assert [] + d == d;
    case _ => SimpleParsesBack(o, k);
  }

  // ----- Operands

  /** An operand: no white space, no delimiters, and not to be taken for a number or a keyword. */
  predicate Regular(t: seq<byte>) {
    && t != [] && (forall i :: 0 <= i < |t| ==> !IsDelimiter(t[i]) && !IsWhiteSpace(t[i]))
    && !StartsNumber(t) && !StartsKeyword(t)
  }

  lemma {:induction false} OperandTextOf(t: seq<byte>, k: seq<byte>)
    requires forall i :: 0 <= i < |t| ==> !IsDelimiter(t[i]) && !IsWhiteSpace(t[i])
    requires k != [] && IsWhiteSpace(k[0])
    ensures OperandText(t + k) == Ok(t, k)
  {
    if t == [] {
      assert t + k == k;
    } else {
      assert (t + k)[1..] == t[1..] + k;
      OperandTextOf(t[1..], k);
      assert [t[0]] + t[1..] == t;
    }
  }

  /** A keyword has no white space in it, so it is at the front of t already when it is at the front of t and more. */
  lemma {:induction false} KeywordInFront(w: seq<byte>, t: seq<byte>, k: seq<byte>)
    requires k != [] && IsWhiteSpace(k[0]) && forall i :: 0 <= i < |w| ==> !IsWhiteSpace(w[i])
    ensures w <= t + k <==> w <= t
  {
    assert |t| < |w| ==> !IsWhiteSpace(w[|t|]);
    assert (t + k)[|t|] == k[0];
    if |w| <= |t| { assert (t + k)[..|w|] == t[..|w|]; }
  }

  lemma {:induction false} KeywordsInFront(t: seq<byte>, k: seq<byte>)
    requires k != [] && IsWhiteSpace(k[0])
    ensures StartsKeyword(t + k) <==> StartsKeyword(t)
    ensures t != [] ==> (StartsNumber(t + k) <==> StartsNumber(t))
  {
    KeywordInFront(NULL_TEXT, t, k);
    KeywordInFront(TRUE_TEXT, t, k);
    KeywordInFront(FALSE_TEXT, t, k);
  }

  /** A text before white space is read back as an operand if and only if it is regular. */
  lemma {:induction false} OperandReadsBackIff(t: seq<byte>, k: seq<byte>)
    requires k != [] && IsWhiteSpace(k[0])
    ensures ParseObject(t + k) == Ok(Operand(t), k) <==> Regular(t)
  {
    hide ArrayLoop, DictLoop, ScanNumber, HexText, NameBody, PS.LiteralBody, OperandText;
    var s := t + k;
    if Regular(t) {
      assert SkipComments(s) == s;
      KeywordsInFront(t, k);
      OperandTextOf(t, k);
    } else if ParseObject(s) == Ok(Operand(t), k) {
      OperandComesFromWord(s, t, k);
      NothingSkipped(s);
      KeywordsInFront(t, k);
      assert false;
    }
  }

  lemma {:induction false} OperandComesFromWord(s: seq<byte>, t: seq<byte>, k: seq<byte>)
    requires ParseObject(s) == Ok(Operand(t), k)
    ensures var x := SkipComments(s);
      t != [] && !StartsNumber(x) && !StartsKeyword(x) && |x| == |t| + |k|
    ensures forall i :: 0 <= i < |t| ==> !IsDelimiter(t[i]) && !IsWhiteSpace(t[i])
  {
    hide ArrayLoop, DictLoop, ScanNumber, HexText, NameBody, PS.LiteralBody, OperandText;
  }

  lemma {:induction false} NothingSkipped(s: seq<byte>)
    requires |SkipComments(s)| == |s|
    ensures SkipComments(s) == s
  {
  }

  // ----- Inline images

  /** No abbreviation is another name of an entry. */
  lemma {:induction false} AbbreviationsDiffer(f: Field, g: Field)
    ensures Abbreviation(f) == Abbreviation(g) || Abbreviation(f) == FullName(g) <==> f == g
  {
  }

  lemma {:induction false} AbbreviationNames(f: Field)
    ensures FieldOf(Ascii(Abbreviation(f))) == Some(f)
  {
    assert Characters(Ascii(Abbreviation(f))) == Abbreviation(f) by { AbbreviationIsAscii(f); }
    hide Abbreviation, FullName, Ascii, Characters;
    forall g: Field ensures Names(g, Ascii(Abbreviation(f))) <==> f == g { AbbreviationsDiffer(f, g); }
    hide Names;
  }

  lemma {:induction false} AbbreviationIsAscii(f: Field)
    ensures forall i :: 0 <= i < |Abbreviation(f)| ==> Abbreviation(f)[i] < 128 as char
  {
  }

  predicate IsLetter(c: byte) {
    0x41 <= c <= 0x5A || 0x61 <= c <= 0x7A
  }

  lemma {:induction false} AbbreviationIsLetters(f: Field)
    ensures forall i :: 0 <= i < |Ascii(Abbreviation(f))| ==> IsLetter(Ascii(Abbreviation(f))[i])
  {
  }

  lemma {:induction false} LetterIsNotEscaped(c: byte)
    requires IsLetter(c)
    ensures !NeedsHexEscape(c)
  {
  }

  /** A name of letters is written as it is. */
  lemma {:induction false} LettersWritten(n: seq<byte>, k: seq<byte>)
    requires forall i :: 0 <= i < |n| ==> IsLetter(n[i])
    ensures PutNameBody(n, k) == n + k
  {
    hide NeedsHexEscape, IsLetter;
    if n != [] {
      LettersWritten(n[1..], k);
      LetterIsNotEscaped(n[0]);
      assert [n[0]] + (n[1..] + k) == n + k;
    }
  }

  /** White space before an object changes nothing. */
  lemma {:induction false} SpaceBefore(c: byte, s: seq<byte>)
    requires IsWhiteSpace(c)
    ensures SkipSpaces([c] + s) == SkipSpaces(s) && ParseObject([c] + s) == ParseObject(s)
    ensures forall params :: ParseImage([c] + s, params) == ParseImage(s, params)
    ensures forall params :: ParseOps([c] + s, params) == ParseOps(s, params)
  {
    assert ([c] + s)[1..] == s;
  }

  ghost predicate DirectImage(im: Image) {
    (forall f :: f in im.params ==> Direct(im.params[f])) && Clean(im.data)
  }

  /** What the entries written from fs on add to those read before. */
  function Added(fs: seq<Field>, params: map<Field, Obj>, done: map<Field, Obj>): map<Field, Obj> {
    if fs == [] then done else Added(fs[1..], params, if fs[0] in params then done[fs[0] := params[fs[0]]] else done)
  }

  lemma {:induction false} AddedHas(fs: seq<Field>, params: map<Field, Obj>, done: map<Field, Obj>, f: Field)
    ensures f in Added(fs, params, done) <==> f in done || (f in fs && f in params)
    ensures f in fs && f in params ==> Added(fs, params, done)[f] == params[f]
    ensures f in done && !(f in fs && f in params) ==> Added(fs, params, done)[f] == done[f]
  {
    if fs != [] {
      AddedHas(fs[1..], params, if fs[0] in params then done[fs[0] := params[fs[0]]] else done, f);
      assert f in fs <==> f == fs[0] || f in fs[1..];
    }
  }

  lemma {:induction false} AllFieldsWritten(params: map<Field, Obj>)
    ensures Added(FIELDS, params, map[]) == params
  {
    hide Added;
    forall f: Field ensures f in FIELDS { FieldIsWritten(f); }
    forall f: Field ensures f in Added(FIELDS, params, map[]) <==> f in params { AddedHas(FIELDS, params, map[], f); }
    forall f: Field | f in params ensures Added(FIELDS, params, map[])[f] == params[f] { AddedHas(FIELDS, params, map[], f); }
  }

  lemma {:induction false} FieldIsWritten(f: Field)
    ensures f in FIELDS
  {
    var i := match f case BPC => 0 case CS => 1 case D => 2 case DP => 3 case F => 4 case H => 5 case IM => 6 case Intent => 7 case I => 8 case W => 9;
    assert FIELDS[i] == f;
  }

  lemma {:induction false} IdAndEiAreRegular()
    ensures Regular(ID_TEXT) && Regular(BI_TEXT) && ID_TEXT != EI_TEXT
  {
    assert ID_TEXT[0] != EI_TEXT[0];
  }

  lemma {:induction false} DataParsesBack(data: seq<byte>, params: map<Field, Obj>, k: seq<byte>)
    requires Clean(data)
    ensures ParseImage(PutData(data, k), params) == Ok(Image(params, data), k)
  {
    hide ScanData, Clean, ParseObject, Regular;
    IdAndEiAreRegular();
    var t := [SP] + (data + (END_OF_IMAGE + k));
    OperandReadsBackIff(ID_TEXT, t);
    var s := PutData(data, k);
    assert s == ID_TEXT + t && SkipSpaces(s) == s;
    assert t[1..] == data + (END_OF_IMAGE + k);
    DataReadsBackIff(data, k);
  }

  lemma {:induction false} FieldsParseBack(fs: seq<Field>, params: map<Field, Obj>, data: seq<byte>, done: map<Field, Obj>, k: seq<byte>)
    requires Clean(data) && forall f :: f in params ==> Direct(params[f]) && Writable(params[f])
    ensures ParseImage(PutFields(fs, params, PutData(data, k)), done) == Ok(Image(Added(fs, params, done), data), k)
  {
    hide ParseImage, ParseObject, Clean, Put, Writable, Direct, PutData, Regular;
    if fs == [] {
      DataParsesBack(data, done, k);
    } else if fs[0] !in params {
      FieldsParseBack(fs[1..], params, data, done, k);
    } else {
      var f := fs[0];
      var rest := PutFields(fs[1..], params, PutData(data, k));
      FieldsParseBack(fs[1..], params, data, done[f := params[f]], k);
      FieldStep(f, params[f], rest, done);
    }
  }

  /** One entry is read. */
  lemma {:induction false} FieldStep(f: Field, v: Obj, rest: seq<byte>, done: map<Field, Obj>)
    requires Direct(v) && Writable(v)
    ensures ParseImage([SLASH] + (Ascii(Abbreviation(f)) + ([SP] + Put(v, [LF] + rest))), done) == ParseImage(rest, done[f := v])
  {
    hide ParseObject, Ascii, Abbreviation, FieldOf, Direct;
    var n := Ascii(Abbreviation(f));
    var u := Put(v, [LF] + rest);
    var s := [SLASH] + (n + ([SP] + u));
    AbbreviationIsLetters(f);
    LettersWritten(n, [SP] + u);
    SimpleParsesBack(Name(n), [SP] + u);
    assert s == Put(Name(n), [SP] + u) && SkipSpaces(s) == s;
    SpaceBefore(SP, u);
    ParsesBack(v, [LF] + rest);
    AbbreviationNames(f);
    SpaceBefore(LF, rest);
  }

  // ----- Operations

  /** Operations that can be read back; BI has an inline image for its parameter, and no other operation has one. */
  ghost predicate DirectOperation(op: Operation) {
    if op.operand == BI_TEXT then |op.params| == 1 && op.params[0].InlineImage? && DirectImage(op.params[0].im)
    else Regular(op.operand) && forall i :: 0 <= i < |op.params| ==> op.params[i].Object? && Direct(op.params[i].o)
  }

  lemma {:induction false} DirectOperationIsWritable(op: Operation)
    requires DirectOperation(op)
    ensures WritableOperation(op)
  {
    forall i | 0 <= i < |op.params| ensures WritableArg(op.params[i]) {
      match op.params[i]
      case Object(o) => DirectIsWritable(o);
      case InlineImage(im) => forall f | f in im.params ensures Writable(im.params[f]) { DirectIsWritable(im.params[f]); }
    }
  }

  lemma {:induction false} ParamsParseBack(ps: seq<Arg>, done: seq<Arg>, t: seq<byte>, k: seq<byte>)
    requires forall i :: 0 <= i < |ps| ==> ps[i].Object? && Direct(ps[i].o) && WritableArg(ps[i])
    requires Regular(t) && t != BI_TEXT
    ensures ParseOps(PutParams(ps, t + ([LF] + k)), done) == Cons(Operation(t, done + ps), ParseOps(k, []))
  {
    hide ParseObject, Put, Direct, Regular;
    if ps == [] {
      OperandReadsBackIff(t, [LF] + k);
      SpaceBefore(LF, k);
      assert done + ps == done;
    } else {
      var rest := PutParams(ps[1..], t + ([LF] + k));
      ParsesBack(ps[0].o, [SP] + rest);
      SpaceBefore(SP, rest);
      ParamsParseBack(ps[1..], done + [ps[0]], t, k);
      assert done + [ps[0]] + ps[1..] == done + ps;
    }
  }

  lemma {:induction false} OperationParsesBack(op: Operation, k: seq<byte>)
    requires DirectOperation(op)
    ensures WritableOperation(op)
    ensures ParseOps(PutOperation(op, k), []) == Cons(op, ParseOps(k, []))
  {
    DirectOperationIsWritable(op);
    if op.operand == BI_TEXT {
      hide ParseOps, Regular, DirectImage, PutFields, WritableArg;
      ImageParsesBack(op.params[0].im, k);
      assert [InlineImage(op.params[0].im)] == op.params;
    } else {
      ParamsParseBack(op.params, [], op.operand, k);
      assert [] + op.params == op.params;
    }
  }

  lemma {:induction false} ImageParsesBack(im: Image, k: seq<byte>)
    requires DirectImage(im)
    ensures WritableArg(InlineImage(im))
    ensures ParseOps(BI_TEXT + ([LF] + PutArg(InlineImage(im), k)), []) == Cons(Operation(BI_TEXT, [InlineImage(im)]), ParseOps(k, []))
  {
    hide ParseObject, ParseImage, Regular, PutFields, PutData, Added, Clean;
    forall f | f in im.params ensures Writable(im.params[f]) { DirectIsWritable(im.params[f]); }
    var text := PutArg(InlineImage(im), k);
    IdAndEiAreRegular();
    OperandReadsBackIff(BI_TEXT, [LF] + text);
    SpaceBefore(LF, text);
    FieldsParseBack(FIELDS, im.params, im.data, map[], k);
    AllFieldsWritten(im.params);
    assert [] + [InlineImage(im)] == [InlineImage(im)];
  }

  /** Parsing what is written for a list of operations, inline images among them, gives the list. */
  lemma {:induction false} ContentParsesBack(ops: seq<Operation>)
    requires forall i :: 0 <= i < |ops| ==> DirectOperation(ops[i])
    ensures forall i :: 0 <= i < |ops| ==> WritableOperation(ops[i])
    ensures Parse(Bytes(ops)) == Parsed(ops)
  {
    hide ParseOps, PutOperations, WritableOperation, DirectOperation;
    forall i | 0 <= i < |ops| ensures WritableOperation(ops[i]) { DirectOperationIsWritable(ops[i]); }
    PutOperationsAppends(ops, [LF]);
    OperationsParseBack(ops);
  }

  lemma {:induction false} OperationsParseBack(ops: seq<Operation>)
    requires forall i :: 0 <= i < |ops| ==> DirectOperation(ops[i]) && WritableOperation(ops[i])
    ensures ParseOps(PutOperations(ops, [LF]), []) == Parsed(ops)
  {
    hide ParseOps, WritableOperation, DirectOperation, PutOperation;
    if ops == [] {
      NothingLeft();
    } else {
      OperationsParseBack(ops[1..]);
      OperationParsesBack(ops[0], PutOperations(ops[1..], [LF]));
      assert [ops[0]] + ops[1..] == ops;
    }
  }

  lemma {:induction false} NothingLeft()
    ensures ParseOps([LF], []) == Parsed([])
  {
    assert [LF][1..] == [];
  }

  /** A reference is not read back from a content stream: its R is taken for an operand. */
  lemma {:induction false} ReferenceIsNotReadBack(n: int64, g: int64)
    ensures ParseOps(Put(Ref(n, g), [SP]), []) == Parsed([Operation([UPPER_R], [Object(Int(n)), Object(Int(g))])])
  {
    hide ParseObject, Regular, FormatInt, ParseOps;
    var t := [UPPER_R] + [SP];
    RT.PrintedReference(n, g, [SP]);
    assert [SP] + ([UPPER_R] + [SP]) == [SP] + t;
    var s1 := Put(Int(g), [SP] + t);
    assert Put(Ref(n, g), [SP]) == Put(Int(n), [SP] + s1);
    ValueStep(Int(n), s1, []);
    ValueStep(Int(g), t, [Object(Int(n))]);
    RIsRegular();
    ROperand([Object(Int(n)), Object(Int(g))]);
    assert [] + [Object(Int(n))] == [Object(Int(n))];
    assert [Object(Int(n))] + [Object(Int(g))] == [Object(Int(n)), Object(Int(g))];
  }

  lemma {:induction false} ValueStep(o: Obj, rest: seq<byte>, params: seq<Arg>)
    requires Direct(o) && Writable(o)
    ensures ParseOps(Put(o, [SP] + rest), params) == ParseOps(rest, params + [Object(o)])
  {
    hide ParseObject, Put, Direct;
    ParsesBack(o, [SP] + rest);
    SpaceBefore(SP, rest);
  }

  lemma {:induction false} ROperand(params: seq<Arg>)
    ensures ParseOps([UPPER_R] + [SP], params) == Parsed([Operation([UPPER_R], params)])
  {
    hide ParseObject, Regular;
    RIsRegular();
    OperandReadsBackIff([UPPER_R], [SP]);
    NothingAfter();
    assert [Operation([UPPER_R], params)] + [] == [Operation([UPPER_R], params)];
  }

  lemma {:induction false} RIsRegular()
    ensures Regular([UPPER_R]) && [UPPER_R] != BI_TEXT
  {
    assert |[UPPER_R]| != |BI_TEXT|;
  }

  lemma {:induction false} NothingAfter()
    ensures ParseOps([SP], []) == Parsed([])
  {
    assert [SP][1..] == [];
  }
}
