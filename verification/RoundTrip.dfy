/** Parsing undoes printing: section 7.3 of PDF 32000-1, both directions of the condition under which it does. */
module RoundTrip {
  import opened Options
  import opened Symbols
  import opened Objects
  import opened ParserSpec

  /** The parser looks 15 bytes ahead for a reference. */
  predicate FitsLookAhead(objNum: int64, genNum: int64) {
    0 <= objNum && 0 <= genNum && |FormatInt(objNum)| + |FormatInt(genNum)| + 3 <= 15
  }

  /** Objects that the property speaks of: no fraction, references in reach, dictionaries with distinct keys. */
  predicate Printable(o: Obj) {
    match o
    case Float(_) => false
    case Ref(n, g) => FitsLookAhead(n, g)
    case Arr(es) => forall i :: 0 <= i < |es| ==> Printable(es[i])
    case Dict(d) => DistinctKeys(d) && forall i :: 0 <= i < |d| ==> Printable(d[i].val)
    case _ => true
  }

  lemma PrintableIsWritable(o: Obj)
    requires Printable(o)
    ensures Writable(o)
  {
  }

  /** A long key that ends in "null", mapped to a name: the parser takes it for a key without a value. */
  predicate IsTrap(e: Entry) {
    HasNullSuffix(e.key) && e.val.Name?
  }

  predicate TrapFree(o: Obj) {
    match o
    case Arr(es) => forall i :: 0 <= i < |es| ==> TrapFree(es[i])
    case Dict(d) => forall i :: 0 <= i < |d| ==> !IsTrap(d[i]) && TrapFree(d[i].val)
    case _ => true
  }

  /** Text that would make an integer before it the object number of a reference. */
  predicate ContinuesReference(k: seq<byte>) {
    var c := SkipRegexSpaces(k);
    var g := DigitRun(c);
    var d := c[|g|..];
    var e := SkipRegexSpaces(d);
    |c| < |k| && g != [] && |e| < |d| && e != [] && e[0] == UPPER_R
  }

  /** Nothing, or a byte that ends every token, and no rest of a reference. */
  predicate EndsAny(k: seq<byte>) {
    k == [] || (EndsName(k[0]) && !ContinuesReference(k))
  }

  /** A number ends here: no digit, no exponent, and no sign if the number has none yet. */
  predicate EndsNumber(k: seq<byte>, allowSigns: bool) {
    k == [] || (!IsFloatDigit(k[0]) && k[0] != LOWER_E && k[0] != UPPER_E && (allowSigns ==> k[0] != MINUS && k[0] != PLUS))
  }

  /** What may stand after a printed object: only names and integers are not closed by their own text. */
  predicate MayFollow(o: Obj, k: seq<byte>) {
    match o
    case Name(_) => k == [] || EndsName(k[0])
    case Int(n) => EndsNumber(k, n >= 0) && MatchReference(Window(FormatInt(n) + k, 15)).None?
    case _ => true
  }

  lemma {:induction false} EndsAnyMayFollow(o: Obj, k: seq<byte>)
    requires EndsAny(k)
    ensures MayFollow(o, k)
  {
    match o
    case Int(n) => IntegerIsNoReference(n, k);
    case _ =>
  }

  predicate StartsObject(c: byte) {
    c == 0x6E || c == 0x74 || c == 0x66 || IsDecimalDigit(c) || c == MINUS ||
    c == SLASH || c == LPAREN || c == LESS || c == LBRACKET
  }

  lemma {:induction false} FirstByte(o: Obj, k: seq<byte>)
    requires Writable(o)
    ensures Put(o, k) != [] && StartsObject(Put(o, k)[0])
    ensures Put(o, k)[0] == SLASH <==> o.Name?
    ensures IsDecimalDigit(Put(o, k)[0]) ==> o.Int? || o.Ref?
  {
    match o
    case Int(n) => FormatIntIsDigits(n);
    case Ref(n, g) => FormatIntIsDigits(n);
    case _ =>
  }

  lemma {:induction false} FormatIntIsDigits(n: int64)
    ensures n >= 0 ==> FormatInt(n) == Digits(n)
    ensures n < 0 ==> FormatInt(n)[0] == MINUS && FormatInt(n)[1..] == Digits(-(n as int))
  {
  }

  // ----- Integers

  lemma {:induction false} DigitsValueOfDigits(n: nat)
    ensures DigitsValue(Digits(n)) == n
  {
    if n < 10 {
      assert [ZERO + n][..0] == [];
    } else {
      DigitsValueOfDigits(n / 10);
      assert Digits(n)[..|Digits(n)| - 1] == Digits(n / 10);
    }
  }

  lemma {:induction false} ParseIntOfFormatInt(n: int64)
    ensures ParseIntOrZero(FormatInt(n)) == n
  {
    FormatIntIsDigits(n);
    var m: int := n;
    DigitsValueOfDigits(if m < 0 then -m else m);
  }

  lemma {:induction false} ScanDigits(d: seq<byte>, k: seq<byte>, allowSigns: bool)
    requires AllDigits(d) && EndsNumber(k, allowSigns)
    ensures ScanNumber(d + k, allowSigns) == NumberText(d, false, k)
  {
    if d == [] {
      assert d + k == k;
      assert ScanNumber(k, allowSigns) == NumberText([], false, k);
    } else {
      ScanDigits(d[1..], k, allowSigns);
      assert (d + k)[1..] == d[1..] + k;
      assert [d[0]] + d[1..] == d;
    }
  }

  lemma {:induction false} ScanFormatInt(n: int64, k: seq<byte>)
    requires EndsNumber(k, n >= 0)
    ensures ScanNumber(FormatInt(n) + k, true) == NumberText(FormatInt(n), false, k)
  {
    var t := FormatInt(n);
    FormatIntIsDigits(n);
    if n >= 0 {
      ScanDigits(t, k, true);
    } else {
      ScanDigits(t[1..], k, false);
      assert (t + k)[1..] == t[1..] + k && (t + k)[0] == MINUS;
      assert [MINUS] + t[1..] == t;
    }
  }

  // ----- The look-ahead for references

  lemma {:induction false} DigitRunOf(d: seq<byte>, k: seq<byte>)
    requires AllDigits(d)
    requires k == [] || !IsDecimalDigit(k[0])
    ensures DigitRun(d + k) == d
  {
    if d == [] {
      assert d + k == k;
    } else {
      DigitRunOf(d[1..], k);
      assert (d + k)[1..] == d[1..] + k;
      assert [d[0]] + d[1..] == d;
    }
  }

  /** Reading more text does not undo what was found in less. */
  lemma {:induction false} RunsInPrefix(p: seq<byte>, x: seq<byte>)
    ensures SkipRegexSpaces(p) != [] ==> SkipRegexSpaces(p + x) == SkipRegexSpaces(p) + x
    ensures |DigitRun(p)| < |p| ==> DigitRun(p + x) == DigitRun(p)
  {
    if p != [] {
      RunsInPrefix(p[1..], x);
      assert (p + x)[1..] == p[1..] + x;
    }
  }

  lemma {:induction false} ReferenceInPrefix(p: seq<byte>, x: seq<byte>)
    requires ContinuesReference(p)
    ensures ContinuesReference(p + x)
  {
    var c := SkipRegexSpaces(p);
    var g := DigitRun(c);
    var d := c[|g|..];
    RunsInPrefix(p, x);
    RunsInPrefix(c, x);
    assert (c + x)[|g|..] == d + x;
    RunsInPrefix(d, x);
  }

  /** Digits alone, or a minus sign first: no reference. */
  lemma {:induction false} NoNumberPair(w: seq<byte>)
    requires w != [] && !IsRegexSpace(w[0]) && (AllDigits(w) || !IsDecimalDigit(w[0]))
    ensures MatchReference(w) == None
  {
    if AllDigits(w) {
      DigitRunOf(w, []);
      assert w + [] == w;
    }
  }

  lemma {:induction false} DigitsAndNoRest(t: seq<byte>, p: seq<byte>)
    requires AllDigits(t) && t != [] && !ContinuesReference(p) && (p == [] || !IsDecimalDigit(p[0]))
    ensures MatchReference(t + p) == None
  {
    var w := t + p;
    assert w[0] == t[0];
    DigitRunOf(t, p);
    assert w[|t|..] == p;
  }

  /** A window that ends within k continues no reference that k does not. */
  lemma {:induction false} WindowContinuesNone(k: seq<byte>, n: nat)
    requires !ContinuesReference(k)
    ensures !ContinuesReference(Window(k, n))
  {
    hide ContinuesReference;
    var p := Window(k, n);
    assert p + k[|p|..] == k;
    if ContinuesReference(p) { ReferenceInPrefix(p, k[|p|..]); }
  }

  lemma {:induction false} IntegerIsNoReference(n: int64, k: seq<byte>)
    requires EndsAny(k)
    ensures MatchReference(Window(FormatInt(n) + k, 15)) == None
  {
    hide MatchReference, ContinuesReference, Digits;
    var t := FormatInt(n);
    var w := Window(t + k, 15);
    FormatIntIsDigits(n);
    assert w[0] == t[0];
    if n < 0 {
      NoNumberPair(w);
    } else if |t| >= 15 {
      assert w == t[..15];
      NoNumberPair(w);
    } else {
      var p := Window(k, 15 - |t|);
      assert w == t + p;
      NothingContinues();
      WindowContinuesNone(k, 15 - |t|);
      DigitsAndNoRest(t, p);
    }
  }

  lemma NothingContinues()
    ensures !ContinuesReference([])
  {
  }

  lemma {:induction false} AfterRSkips(d: seq<byte>, k: seq<byte>)
    requires UPPER_R !in d
    ensures AfterR(d + [UPPER_R] + k) == k
  {
    var s := d + [UPPER_R] + k;
    if d != [] {
      AfterRSkips(d[1..], k);
      assert s[1..] == d[1..] + [UPPER_R] + k;
    }
  }

  /** One space, then text that starts with no space: the space is skipped. */
  lemma {:induction false} OneSpace(c: seq<byte>)
    requires c != [] && !IsRegexSpace(c[0])
    ensures SkipRegexSpaces([SP] + c) == c
  {
    assert ([SP] + c)[1..] == c;
  }

  lemma {:induction false} MatchPrintedReference(n: int64, g: int64, x: seq<byte>)
    requires 0 <= n && 0 <= g
    ensures MatchReference(FormatInt(n) + ([SP] + (FormatInt(g) + ([SP] + ([UPPER_R] + x))))) == Some(Ref(n, g))
  {
    var a, b, e := FormatInt(n), FormatInt(g), [UPPER_R] + x;
    var d := [SP] + e;
    var c := b + d;
    var t := [SP] + c;
    var s := a + t;
    FormatIntIsDigits(n);
    FormatIntIsDigits(g);
    assert s[0] == a[0] && c[0] == b[0] && e[0] == UPPER_R;
    DigitRunOf(a, t);
    DigitRunOf(b, d);
    OneSpace(c);
    OneSpace(e);
    assert s[|a|..] == t && c[|b|..] == d;
    DigitsValueOfDigits(n);
    DigitsValueOfDigits(g);
  }

  lemma {:induction false} PrintedReference(n: int64, g: int64, k: seq<byte>)
    ensures Put(Ref(n, g), k) == FormatInt(n) + ([SP] + (FormatInt(g) + ([SP] + ([UPPER_R] + k))))
    ensures Put(Ref(n, g), k) == FormatInt(n) + [SP] + FormatInt(g) + [SP] + [UPPER_R] + k
  {
    assert [SP, UPPER_R] + k == [SP] + ([UPPER_R] + k);
    Regroup(FormatInt(n), [SP], FormatInt(g), [SP], [UPPER_R] + k);
    assert FormatInt(n) + [SP] + FormatInt(g) + [SP] + [UPPER_R] + k
        == FormatInt(n) + [SP] + FormatInt(g) + [SP] + ([UPPER_R] + k);
  }

  predicate StartsToken(c: byte) {
    c == 0x6E || c == 0x74 || c == 0x66 || IsDecimalDigit(c) || c == MINUS
  }

  lemma {:induction false} TokenDispatch(s: seq<byte>)
    requires s != [] && StartsToken(s[0])
    ensures ParseObject(s) == ParseToken(s)
  {
    hide ParseToken;
  }

  lemma {:induction false} ReferenceInWindow(n: int64, g: int64, k: seq<byte>)
    requires FitsLookAhead(n, g)
    ensures var peek := Window(Put(Ref(n, g), k), 15);
      Put(Ref(n, g), k) != [] && IsDecimalDigit(Put(Ref(n, g), k)[0]) && MatchReference(peek) == Some(Ref(n, g))
  {
    var s, head := Put(Ref(n, g), k), FormatInt(n) + [SP] + FormatInt(g) + [SP];
    PrintedReference(n, g, k);
    var near := Window(k, 14 - |head|);
    assert Window(s, 15) == head + [UPPER_R] + near;
    PrintedReference(n, g, near);
    MatchPrintedReference(n, g, near);
    FormatIntIsDigits(n);
  }

  lemma {:induction false} ReferenceReread(n: int64, g: int64, k: seq<byte>)
    requires 0 <= n && 0 <= g
    ensures var s := Put(Ref(n, g), k);
      AfterR(s) == k && |k| <= |s| && MatchReference(s[..|s| - |k|]) == Some(Ref(n, g))
  {
    var s, head := Put(Ref(n, g), k), FormatInt(n) + [SP] + FormatInt(g) + [SP];
    PrintedReference(n, g, k);
    FormatIntIsDigits(n);
    FormatIntIsDigits(g);
    AfterRSkips(head, k);
    PrintedReference(n, g, []);
    assert s[..|s| - |k|] == head + [UPPER_R] + [];
    MatchPrintedReference(n, g, []);
  }

  lemma {:induction false} ReferenceToken(s: seq<byte>, ref: Obj, k: seq<byte>)
    requires s != [] && IsDecimalDigit(s[0])
    requires MatchReference(Window(s, 15)).Some?
    requires AfterR(s) == k && |k| <= |s| && MatchReference(s[..|s| - |k|]) == Some(ref)
    ensures ParseObject(s) == Ok(ref, k)
  {
    hide ParseObject, MatchReference, AfterR;
    assert Window(s, 15)[0] == s[0];
    TokenDispatch(s);
    assert ParseToken(s) == Ok(ref, k);
  }

  lemma {:induction false} ReferenceParsesBack(n: int64, g: int64, k: seq<byte>)
    requires FitsLookAhead(n, g)
    ensures ParseObject(Put(Ref(n, g), k)) == Ok(Ref(n, g), k)
  {
    hide ParseObject, MatchReference, AfterR, Window, FormatInt;
    ReferenceInWindow(n, g, k);
    ReferenceReread(n, g, k);
    ReferenceToken(Put(Ref(n, g), k), Ref(n, g), k);
  }

  lemma {:induction false} IntegerParsesBack(n: int64, k: seq<byte>)
    requires MayFollow(Int(n), k)
    ensures ParseObject(Put(Int(n), k)) == Ok(Int(n), k)
  {
    hide ParseObject, MatchReference, ScanNumber, ParseIntOrZero;
    var s := Put(Int(n), k);
    FirstByte(Int(n), k);
    FormatIntIsDigits(n);
    var w := Window(s, 15);
    assert w[0] == s[0];
    if n < 0 {
      assert w[1] == FormatInt(n)[1] == Digits(-(n as int))[0];
    }
    assert MatchesNumeric(w);
    TokenDispatch(s);
    ScanFormatInt(n, k);
    ParseIntOfFormatInt(n);
  }

  // ----- Names and strings

  lemma {:induction false} OneNameByte(n: seq<byte>, k: seq<byte>)
    requires n != []
    ensures NameBody(PutNameBody(n, k)) == Prepend([n[0]], NameBody(PutNameBody(n[1..], k)))
  {
    var s, t := PutNameBody(n, k), PutNameBody(n[1..], k);
    if NeedsHexEscape(n[0]) {
      assert s[3..] == t;
    } else {
      assert s[1..] == t;
    }
  }

  lemma {:induction false} NameParsesBack(n: seq<byte>, k: seq<byte>)
    requires k == [] || EndsName(k[0])
    ensures NameBody(PutNameBody(n, k)) == Ok(n, k)
  {
    if n != [] {
      hide NameBody, PutNameBody;
      OneNameByte(n, k);
      NameParsesBack(n[1..], k);
      assert [n[0]] + n[1..] == n;
    }
  }

  lemma {:induction false} OneLiteralByte(v: seq<byte>, k: seq<byte>)
    requires v != []
    ensures LiteralBody(PutLiteralBody(v, k), 1) == Prepend([v[0]], LiteralBody(PutLiteralBody(v[1..], k), 1))
  {
    var s, t := PutLiteralBody(v, k), PutLiteralBody(v[1..], k);
    if EscapeLetter(v[0]) != [] {
      assert s[2..] == t;
    } else {
      assert s[1..] == t;
    }
  }

  lemma {:induction false} LiteralParsesBack(v: seq<byte>, k: seq<byte>)
    ensures LiteralBody(PutLiteralBody(v, k), 1) == Ok(v, k)
  {
    if v == [] {
      assert PutLiteralBody(v, k)[1..] == k;
    } else {
      hide LiteralBody, PutLiteralBody;
      OneLiteralByte(v, k);
      LiteralParsesBack(v[1..], k);
      assert [v[0]] + v[1..] == v;
    }
  }

  lemma {:induction false} TwoHexDigits(c: byte, t: seq<byte>)
    ensures var two := [HexDigit(c / 16), HexDigit(c % 16)];
      HexText(two + t) == Prepend(two, HexText(t)) && forall h :: HexDecode(two + h) == [c] + HexDecode(h)
  {
    var a, b := HexDigit(c / 16), HexDigit(c % 16);
    var s := [a, b] + t;
    assert s[1..] == [b] + t && s[1..][1..] == t;
    assert HexText(s[1..]) == Prepend([b], HexText(t));
    if HexText(t).Ok? { assert [a] + ([b] + HexText(t).value) == [a, b] + HexText(t).value; }
    forall h ensures HexDecode([a, b] + h) == [c] + HexDecode(h) { assert ([a, b] + h)[2..] == h; }
  }

  lemma {:induction false} HexBodyOf(v: seq<byte>, k: seq<byte>)
    ensures v == [] ==> HexText(PutHexBody(v, k)) == Ok([], k) && HexDecode([]) == []
    ensures v != [] ==> PutHexBody(v, k) == [HexDigit(v[0] / 16), HexDigit(v[0] % 16)] + PutHexBody(v[1..], k)
  {
    if v == [] { assert PutHexBody(v, k)[1..] == k; }
  }

  lemma {:induction false} HexParsesBack(v: seq<byte>, k: seq<byte>)
    ensures var p := HexText(PutHexBody(v, k));
      p.Ok? && p.rest == k && |p.value| % 2 == 0 && HexDecode(p.value) == v
  {
    hide HexText, HexDecode, PutHexBody, HexDigit;
    HexBodyOf(v, k);
    if v != [] {
      HexParsesBack(v[1..], k);
      TwoHexDigits(v[0], PutHexBody(v[1..], k));
      assert [v[0]] + v[1..] == v;
    }
  }

  lemma {:induction false} SimpleParsesBack(o: Obj, k: seq<byte>)
    requires o.Null? || o.Bool? || o.Name? || o.Str?
    requires MayFollow(o, k)
    ensures ParseObject(Put(o, k)) == Ok(o, k)
  {
    var s := Put(o, k);
    FirstByte(o, k);
    match o
    case Null => assert NULL_TEXT <= Window(s, 15);
    case Bool(b) =>
      if b {
        assert TRUE_TEXT <= Window(s, 15);
      } else {
        assert FALSE_TEXT <= Window(s, 15);
      }
    case Name(n) =>
      NameParsesBack(n, k);
      assert s[1..] == PutNameBody(n, k);
    case Str(v, isHex) =>
      LiteralParsesBack(v, k);
      HexParsesBack(v, k);
      assert s[1..] == if isHex then PutHexBody(v, k) else PutLiteralBody(v, k);
  }

  // ----- Arrays and dictionaries

  lemma {:induction false} IntegerContinuesNoReference(n: int64, t: seq<byte>)
    requires t == [] || !IsDecimalDigit(t[0])
    requires SkipRegexSpaces(t) == [] || SkipRegexSpaces(t)[0] != UPPER_R
    ensures !ContinuesReference([SP] + (FormatInt(n) + t))
  {
    var x := FormatInt(n) + t;
    FormatIntIsDigits(n);
    assert x[0] == FormatInt(n)[0];
    OneSpace(x);
    if n >= 0 {
      DigitRunOf(FormatInt(n), t);
      assert x[|FormatInt(n)|..] == t;
    }
  }

  /** What follows an element of an array starts with no R, white space left out. */
  lemma {:induction false} NoRAfterElement(es: seq<Obj>, k: seq<byte>)
    requires es != [] && forall i :: 0 <= i < |es| ==> Writable(es[i])
    ensures var t := AfterElem(es, k); t != [] && !IsDecimalDigit(t[0]) && SkipRegexSpaces(t) != [] && SkipRegexSpaces(t)[0] != UPPER_R
  {
    if |es| > 1 {
      FirstByte(es[1], AfterElem(es[1..], k));
      assert PutElems(es[1..], k) == Put(es[1], AfterElem(es[1..], k));
      OneSpace(PutElems(es[1..], k));
    }
  }

  /** An element of an array is no tail of a reference whatever stands before it. */
  lemma {:induction false} ElementContinuesNoReference(o: Obj, t: seq<byte>)
    requires Writable(o)
    requires t != [] && !IsDecimalDigit(t[0]) && SkipRegexSpaces(t) != [] && SkipRegexSpaces(t)[0] != UPPER_R
    ensures !ContinuesReference([SP] + Put(o, t))
  {
    hide Digits, FormatInt;
    var x := Put(o, t);
    FirstByte(o, t);
    match o
    case Int(n) => IntegerContinuesNoReference(n, t);
    case Ref(n, g) =>
      PrintedReference(n, g, t);
      var y := FormatInt(g) + ([SP] + ([UPPER_R] + t));
      FormatIntIsDigits(g);
      FirstByte(Int(g), [SP] + ([UPPER_R] + t));
      OneSpace(y);
      assert ([SP] + y)[0] == SP;
      IntegerContinuesNoReference(n, [SP] + y);
    case _ => OneSpace(x);
  }

  lemma {:induction false} ElementsContinueNoReference(es: seq<Obj>, k: seq<byte>)
    requires es != [] && forall i :: 0 <= i < |es| ==> Writable(es[i])
    ensures !ContinuesReference([SP] + PutElems(es, k))
  {
    hide Writable, Put, ContinuesReference;
    NoRAfterElement(es, k);
    assert PutElems(es, k) == Put(es[0], AfterElem(es, k));
    ElementContinuesNoReference(es[0], AfterElem(es, k));
  }

  lemma {:induction false} PrintedStartStays(o: Obj, k: seq<byte>)
    requires Writable(o)
    ensures SkipSpaces(Put(o, k)) == SkipComments(Put(o, k)) == Put(o, k)
    ensures |k| < |Put(o, k)|
  {
    FirstByte(o, k);
    FirstByte(o, []);
    PutAppends(o, k);
  }

  /** A trap-free object is read back from its text, and reading stops exactly at the end of the text. */
  lemma {:induction false} ParsesBack(o: Obj, k: seq<byte>)
    requires Printable(o) && TrapFree(o) && MayFollow(o, k)
    ensures Writable(o)
    ensures ParseObject(Put(o, k)) == Ok(o, k)
    decreases o, 1
  {
    PrintableIsWritable(o);
    match o
    case Int(n) => IntegerParsesBack(n, k);
    case Ref(n, g) => ReferenceParsesBack(n, g, k);
    case Arr(es) =>
      ElemsParseBack(PutElems(es, k), es, [], k);
      ArrayDispatch(es, k);
      assert [] + es == es;
    case Dict(d) =>
      EntriesParseBack(d, [], k);
      DictDispatch(d, k);
      assert [] + d == d;
    case _ => SimpleParsesBack(o, k);
  }

  lemma {:induction false} ArrayDispatch(es: seq<Obj>, k: seq<byte>)
    requires Writable(Arr(es))
    ensures ParseObject(Put(Arr(es), k)) == ArrayLoop(PutElems(es, k), [])
  {
    hide ArrayLoop;
    var s := Put(Arr(es), k);
    assert SkipComments(s) == s && s[1..] == PutElems(es, k);
  }

  lemma {:induction false} DictDispatch(d: seq<Entry>, k: seq<byte>)
    requires Writable(Dict(d))
    ensures ParseObject(Put(Dict(d), k)) == DictLoop(PutEntries(d, k), [])
  {
    hide DictLoop;
    var s := Put(Dict(d), k);
    assert SkipComments(s) == s && s[2..] == PutEntries(d, k);
  }

  function AfterElem(es: seq<Obj>, k: seq<byte>): seq<byte>
    requires es != [] && forall i :: 0 <= i < |es| ==> Writable(es[i])
  {
    if |es| == 1 then [RBRACKET] + k else [SP] + PutElems(es[1..], k)
  }

  /** One round of the array loop on printed elements. */
  lemma {:induction false} ElemStep(s: seq<byte>, es: seq<Obj>, arr: seq<Obj>, k: seq<byte>)
    requires es != [] && forall i :: 0 <= i < |es| ==> Writable(es[i])
    requires s == PutElems(es, k) || s == [SP] + PutElems(es, k)
    ensures PutElems(es, k) == Put(es[0], AfterElem(es, k))
    ensures ArrayLoop(s, arr) ==
      match ParseObject(Put(es[0], AfterElem(es, k)))
      case Ok(v, u) => if |u| == |PutElems(es, k)| then Failed(NoProgress) else ArrayLoop(u, arr + [v])
      case Failed(why) => Failed(why)
  {
    hide ParseObject;
    var x := PutElems(es, k);
    PrintedStartStays(es[0], AfterElem(es, k));
    FirstByte(es[0], AfterElem(es, k));
    assert SkipSpaces(s) == x by { assert ([SP] + x)[1..] == x; }
  }

  lemma ArrayEnd(s: seq<byte>, arr: seq<Obj>, k: seq<byte>)
    requires s == PutElems([], k) || s == [SP] + PutElems([], k)
    ensures ArrayLoop(s, arr) == Ok(Arr(arr), k)
  {
    hide ParseObject;
    var x := [RBRACKET] + k;
    assert SkipSpaces(s) == x by { assert ([SP] + x)[1..] == x; }
    assert x[1..] == k;
  }

  lemma {:induction false} AfterElemFollows(es: seq<Obj>, k: seq<byte>)
    requires es != [] && forall i :: 0 <= i < |es| ==> Writable(es[i])
    ensures EndsAny(AfterElem(es, k))
    ensures AfterElem(es, k) == PutElems(es[1..], k) || AfterElem(es, k) == [SP] + PutElems(es[1..], k)
  {
    if |es| > 1 { ElementsContinueNoReference(es[1..], k); }
  }

  lemma {:induction false} ElemsParseBack(s: seq<byte>, es: seq<Obj>, arr: seq<Obj>, k: seq<byte>)
    requires forall i :: 0 <= i < |es| ==> Printable(es[i]) && TrapFree(es[i]) && Writable(es[i])
    requires s == PutElems(es, k) || s == [SP] + PutElems(es, k)
    ensures ArrayLoop(s, arr) == Ok(Arr(arr + es), k)
    decreases es, 0
  {
    hide ArrayLoop, ParseObject, Put, PutElems, AfterElem, MayFollow, EndsAny, Printable, TrapFree, Writable;
    if es == [] {
      ArrayEnd(s, arr, k);
      assert arr + es == arr;
    } else {
      var t := AfterElem(es, k);
      ElemStep(s, es, arr, k);
      PrintedStartStays(es[0], t);
      AfterElemFollows(es, k);
      EndsAnyMayFollow(es[0], t);
      ParsesBack(es[0], t);
      ElemsParseBack(t, es[1..], arr + [es[0]], k);
      assert arr + [es[0]] + es[1..] == arr + es;
    }
  }

  lemma {:induction false} EntriesFollow(d: seq<Entry>, k: seq<byte>)
    requires forall i :: 0 <= i < |d| ==> Writable(d[i].val)
    ensures EndsAny(PutEntries(d, k)) && SkipComments(PutEntries(d, k)) == PutEntries(d, k)
    ensures |PutEntries(d, k)| >= 2
  {
    if d != [] {
      assert d[0].val < d[0];
      FirstByte(d[0].val, PutEntries(d[1..], k));
      PutNameBodyAppends(d[0].key, [SP] + Put(d[0].val, PutEntries(d[1..], k)));
    }
  }

  lemma {:induction false} KeyReads(n: seq<byte>, u: seq<byte>)
    requires u != [] && !IsWhiteSpace(u[0])
    ensures var s := Put(Name(n), [SP] + u);
      |s| >= 2 && s[0] == SLASH && SkipComments(s) == s && ParseName(s) == Ok(n, [SP] + u) && SkipSpaces([SP] + u) == u && |u| < |s|
  {
    var s := Put(Name(n), [SP] + u);
    NameParsesBack(n, [SP] + u);
    PutNameBodyAppends(n, [SP] + u);
    assert s[1..] == PutNameBody(n, [SP] + u);
    assert ([SP] + u)[1..] == u;
  }

  lemma {:induction false} StartIsNotWhite(o: Obj, k: seq<byte>)
    requires Writable(o)
    ensures Put(o, k) != [] && !IsWhiteSpace(Put(o, k)[0])
  {
    hide Put;
    FirstByte(o, k);
  }

  /** One round of the dictionary loop on a printed entry with any text after it: the key is read, and the value is next. */
  lemma {:induction false} KeyStep(e: Entry, more: seq<byte>, done: seq<Entry>)
    requires Writable(e.val)
    ensures var u := Put(e.val, more);
      var s := Put(Name(e.key), [SP] + u);
      DictLoop(s, done) ==
        if IsTrap(e) then DictLoop(u, SetEntry(done, e.key[..|e.key| - 4], Null))
        else match ParseObject(u)
          case Ok(v, w) => if |w| < |s| then DictLoop(w, SetEntry(done, e.key, v)) else Failed(Syntax)
          case Failed(why) => Failed(why)
  {
    hide ParseObject, ParseName, Put, SkipComments, SkipSpaces;
    FirstByte(e.val, more);
    StartIsNotWhite(e.val, more);
    KeyReads(e.key, Put(e.val, more));
  }

  lemma {:induction false} EntryStep(d: seq<Entry>, done: seq<Entry>, k: seq<byte>)
    requires d != [] && forall i :: 0 <= i < |d| ==> Writable(d[i].val)
    ensures var u := Put(d[0].val, PutEntries(d[1..], k));
      DictLoop(PutEntries(d, k), done) ==
        if IsTrap(d[0]) then DictLoop(u, SetEntry(done, d[0].key[..|d[0].key| - 4], Null))
        else match ParseObject(u)
          case Ok(v, w) => if |w| < |PutEntries(d, k)| then DictLoop(w, SetEntry(done, d[0].key, v)) else Failed(Syntax)
          case Failed(why) => Failed(why)
  {
    hide ParseObject, DictLoop, IsTrap;
    KeyStep(d[0], PutEntries(d[1..], k), done);
  }

  /** An entry whose value is read back is added to the entries read before it. */
  lemma {:induction false} EntryParsesBack(d: seq<Entry>, done: seq<Entry>, k: seq<byte>)
    requires d != [] && forall i :: 0 <= i < |d| ==> Writable(d[i].val)
    requires !IsTrap(d[0]) && Lookup(done, d[0].key) == None
    requires var more := PutEntries(d[1..], k); ParseObject(Put(d[0].val, more)) == Ok(d[0].val, more)
    ensures DictLoop(PutEntries(d, k), done) == DictLoop(PutEntries(d[1..], k), done + [d[0]])
  {
    hide DictLoop, ParseObject;
    var more := PutEntries(d[1..], k);
    PrintedStartStays(d[0].val, more);
    PutNameBodyAppends(d[0].key, [SP] + Put(d[0].val, more));
    EntryStep(d, done, k);
    SetOfNewKeyAppends(done, d[0].key, d[0].val);
  }

  lemma {:induction false} StillNewKeys(d: seq<Entry>, done: seq<Entry>)
    requires d != [] && DistinctKeys(d) && forall i :: 0 <= i < |d| ==> Lookup(done, d[i].key) == None
    ensures forall i :: 0 <= i < |d[1..]| ==> Lookup(done + [d[0]], d[1..][i].key) == None
  {
    SetOfNewKeyAppends(done, d[0].key, d[0].val);
    forall i | 0 <= i < |d[1..]| ensures Lookup(done + [d[0]], d[1..][i].key) == None {
      assert d[1..][i] == d[i + 1];
      LookupAfterSet(done, d[0].key, d[0].val, d[1..][i].key);
      PresentKey(d[1..], i);
    }
  }

  lemma DictEnd(done: seq<Entry>, k: seq<byte>)
    ensures DictLoop(PutEntries([], k), done) == Ok(Dict(done), k)
  {
    hide ParseObject;
    var s := [GREATER, GREATER] + k;
    assert s[2..] == k;
  }

  lemma {:induction false} EntriesParseBack(d: seq<Entry>, done: seq<Entry>, k: seq<byte>)
    requires forall i :: 0 <= i < |d| ==> !IsTrap(d[i]) && Printable(d[i].val) && TrapFree(d[i].val)
    requires forall i :: 0 <= i < |d| ==> Writable(d[i].val)
    requires DistinctKeys(d) && forall i :: 0 <= i < |d| ==> Lookup(done, d[i].key) == None
    ensures DictLoop(PutEntries(d, k), done) == Ok(Dict(done + d), k)
    decreases d, 0
  {
    hide DictLoop, ParseObject, Put, PutEntries, Lookup, IsTrap, EndsAny, MayFollow, Printable, TrapFree, Writable;
    if d == [] {
      DictEnd(done, k);
      assert done + d == done;
    } else {
      assert d[0].val < d[0];
      EntriesFollow(d[1..], k);
      EndsAnyMayFollow(d[0].val, PutEntries(d[1..], k));
      ParsesBack(d[0].val, PutEntries(d[1..], k));
      EntryParsesBack(d, done, k);
      StillNewKeys(d, done);
      assert DistinctKeys(d[1..]);
      EntriesParseBack(d[1..], done + [d[0]], k);
      assert done + [d[0]] + d[1..] == done + d;
    }
  }

  lemma {:induction false} PresentKey(d: seq<Entry>, i: nat)
    requires i < |d|
    ensures Lookup(d, d[i].key).Some?
    ensures DistinctKeys(d) ==> Lookup(d, d[i].key) == Some(d[i].val)
  {
    if i > 0 {
      PresentKey(d[1..], i - 1);
    }
  }
}
