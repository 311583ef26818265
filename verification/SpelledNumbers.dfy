/** Every spelling of a number with a fraction or an exponent is read as the number, in files and in content streams. */
module SpelledNumbers {
  import opened Options
  import opened Symbols
  import opened Objects
  import opened ParserSpec
  import opened Spellings
  import RT = RoundTrip

  /** A letter, a sign if there is one, and digits. */
  datatype Exponent = NoExponent | Exponent(letter: byte, sign: Sign, digits: seq<nat>)

  /** Digits, a point with more digits or none, and an exponent or none. */
  datatype Real = Real(whole: seq<nat>, dotted: bool, fraction: seq<nat>, exponent: Exponent)

  predicate LegalReal(r: Real) {
    && Decimal(r.whole) && Decimal(r.fraction) && (r.whole != [] || r.dotted) && (r.dotted || r.fraction == [])
    && (r.dotted || r.exponent.Exponent?)
    && (r.exponent.Exponent? ==> (r.exponent.letter == 0x65 || r.exponent.letter == 0x45) && Decimal(r.exponent.digits))
  }

  function ExponentText(e: Exponent): seq<byte>
    requires e.Exponent? ==> Decimal(e.digits)
  {
    if e.NoExponent? then [] else [e.letter] + SignText(e.sign) + DecimalText(e.digits)
  }

  function PointText(r: Real): seq<byte>
    requires Decimal(r.fraction)
  {
    if r.dotted then [0x2E] + DecimalText(r.fraction) else []
  }

  function RealText(sign: Sign, r: Real): seq<byte>
    requires LegalReal(r)
  {
    SignText(sign) + (DecimalText(r.whole) + (PointText(r) + ExponentText(r.exponent)))
  }

  /** Whether a sign could still follow. */
  predicate SignOpen(sign: Sign, e: Exponent) {
    if e.NoExponent? then sign.NoSign? else e.sign.NoSign?
  }

  // ----- In files

  lemma {:induction false} DigitsThen(ds: seq<nat>, t: seq<byte>, allowSigns: bool)
    requires Decimal(ds)
    ensures ScanNumber(DecimalText(ds) + t, allowSigns) == PrependText(DecimalText(ds), false, ScanNumber(t, allowSigns))
  {
    var d := DecimalText(ds);
    if ds == [] {
      assert d + t == t && [] + ScanNumber(t, allowSigns).text == ScanNumber(t, allowSigns).text;
    } else {
      DigitsThen(ds[1..], t, allowSigns);
      assert (d + t)[1..] == DecimalText(ds[1..]) + t && d == [d[0]] + DecimalText(ds[1..]) && (d + t)[0] == d[0];
      Twice([d[0]], false, DecimalText(ds[1..]), false, ScanNumber(t, allowSigns));
    }
  }

  lemma Twice(a: seq<byte>, f: bool, b: seq<byte>, g: bool, t: NumberText)
    ensures PrependText(a, f, PrependText(b, g, t)) == PrependText(a + b, f || g, t)
  {
    assert a + (b + t.text) == a + b + t.text;
  }

  lemma {:induction false} ByteThen(c: byte, t: seq<byte>, allowSigns: bool)
    ensures c == 0x2E ==> ScanNumber([c] + t, allowSigns) == PrependText([c], true, ScanNumber(t, allowSigns))
    ensures c == 0x65 || c == 0x45 ==> ScanNumber([c] + t, allowSigns) == PrependText([c], true, ScanNumber(t, true))
    ensures (c == 0x2B || c == 0x2D) && allowSigns ==> ScanNumber([c] + t, allowSigns) == PrependText([c], false, ScanNumber(t, false))
  {
    assert ([c] + t)[1..] == t;
  }

  lemma {:induction false} SignThen(sign: Sign, t: seq<byte>)
    ensures ScanNumber(SignText(sign) + t, true) == PrependText(SignText(sign), false, ScanNumber(t, sign.NoSign?))
  {
    hide ScanNumber;
    if sign.NoSign? {
      assert [] + t == t && [] + ScanNumber(t, true).text == ScanNumber(t, true).text;
    } else {
      ByteThen(SignText(sign)[0], t, true);
    }
  }

  lemma NumberEnds(k: seq<byte>, allowSigns: bool)
    requires RT.EndsNumber(k, allowSigns)
    ensures ScanNumber(k, allowSigns) == NumberText([], false, k)
  {
  }

  lemma {:induction false} PointThen(r: Real, t: seq<byte>, allowSigns: bool)
    requires Decimal(r.fraction)
    ensures ScanNumber(PointText(r) + t, allowSigns) == PrependText(PointText(r), r.dotted, ScanNumber(t, allowSigns))
  {
    hide ScanNumber;
    if r.dotted {
      var d := DecimalText(r.fraction);
      DigitsThen(r.fraction, t, allowSigns);
      ByteThen(0x2E, d + t, allowSigns);
      Twice([0x2E], true, d, false, ScanNumber(t, allowSigns));
      assert [0x2E] + d + t == [0x2E] + (d + t);
    } else {
      assert [] + t == t && [] + ScanNumber(t, allowSigns).text == ScanNumber(t, allowSigns).text;
    }
  }

  lemma {:induction false} ExponentThen(e: Exponent, k: seq<byte>, allowSigns: bool)
    requires e.Exponent? ==> (e.letter == 0x65 || e.letter == 0x45) && Decimal(e.digits)
    requires RT.EndsNumber(k, if e.NoExponent? then allowSigns else e.sign.NoSign?)
    ensures ScanNumber(ExponentText(e) + k, allowSigns) == NumberText(ExponentText(e), e.Exponent?, k)
  {
    hide ScanNumber, RT.EndsNumber;
    if e.NoExponent? {
      assert [] + k == k;
      NumberEnds(k, allowSigns);
    } else {
      var d := DecimalText(e.digits);
      NumberEnds(k, e.sign.NoSign?);
      DigitsThen(e.digits, k, e.sign.NoSign?);
      SignThen(e.sign, d + k);
      ByteThen(e.letter, SignText(e.sign) + (d + k), allowSigns);
      assert ExponentText(e) + k == [e.letter] + (SignText(e.sign) + (d + k));
      assert [e.letter] + (SignText(e.sign) + (d + [])) == ExponentText(e);
    }
  }

  lemma {:induction false} FractionIsScanned(sign: Sign, r: Real, k: seq<byte>)
    requires LegalReal(r) && RT.EndsNumber(k, SignOpen(sign, r.exponent))
    ensures var p, e := PointText(r), ExponentText(r.exponent);
      ScanNumber(p + (e + k), sign.NoSign?) == NumberText(p + e, true, k)
  {
    hide ScanNumber, RT.EndsNumber, PointText, ExponentText;
    ExponentThen(r.exponent, k, sign.NoSign?);
    PointThen(r, ExponentText(r.exponent) + k, sign.NoSign?);
  }

  lemma {:induction false} RealIsScanned(sign: Sign, r: Real, k: seq<byte>)
    requires LegalReal(r) && RT.EndsNumber(k, SignOpen(sign, r.exponent))
    ensures ScanNumber(RealText(sign, r) + k, true) == NumberText(RealText(sign, r), true, k)
  {
    hide ScanNumber, RT.EndsNumber, SignOpen, PointText, ExponentText, SignText, DecimalText;
    var w, p, e := DecimalText(r.whole), PointText(r), ExponentText(r.exponent);
    FractionIsScanned(sign, r, k);
    DigitsThen(r.whole, p + (e + k), sign.NoSign?);
    SignThen(sign, w + (p + (e + k)));
    assert RealText(sign, r) + k == SignText(sign) + (w + (p + (e + k)));
  }

  lemma {:induction false} DigitsStart(r: Real)
    requires LegalReal(r)
    ensures var rest := DecimalText(r.whole) + (PointText(r) + ExponentText(r.exponent));
      rest != [] && IsFloatDigit(rest[0]) && (r.whole == [] ==> rest[0] == 0x2E)
  {
    hide ExponentText;
    var d, t := DecimalText(r.whole), PointText(r) + ExponentText(r.exponent);
    if r.whole != [] {
      assert (d + t)[0] == d[0];
    } else {
      assert d + t == t && t[0] == PointText(r)[0];
    }
  }

  lemma {:induction false} RealStarts(sign: Sign, r: Real, k: seq<byte>)
    requires LegalReal(r)
    ensures var s := RealText(sign, r) + k;
      && |s| >= |SignText(sign)| + 1
      && (sign.NoSign? ==> IsFloatDigit(s[0]) && (r.whole == [] ==> s[0] == 0x2E))
      && (!sign.NoSign? ==> s[0] == SignText(sign)[0] && IsFloatDigit(s[1]))
  {
    DigitsStart(r);
    hide LegalReal, PointText, ExponentText, DecimalText;
    var rest := DecimalText(r.whole) + (PointText(r) + ExponentText(r.exponent));
    assert RealText(sign, r) == SignText(sign) + rest;
  }

  lemma {:induction false} RealIsNoReference(sign: Sign, r: Real, k: seq<byte>)
    requires LegalReal(r)
    ensures MatchReference(Window(RealText(sign, r) + k, 15)) == None
  {
    hide MatchReference;
    var s := RealText(sign, r) + k;
    var w := Window(s, 15);
    RealStarts(sign, r, k);
    assert w[0] == s[0];
    if !sign.NoSign? || r.whole == [] {
      RT.NoNumberPair(w);
    } else {
      var d := DecimalText(r.whole);
      var t := PointText(r) + ExponentText(r.exponent) + k;
      assert s == d + t && !IsRegexSpace(t[0]) && !IsDecimalDigit(t[0]);
      if |d| >= 15 {
        assert w == d[..15];
        RT.NoNumberPair(w);
      } else {
        var p := Window(t, 15 - |d|);
        assert w == d + p && p[0] == t[0];
        NoSpaceNoReference(d, p);
      }
    }
  }

  lemma {:induction false} NoSpaceNoReference(d: seq<byte>, p: seq<byte>)
    requires AllDigits(d) && d != [] && p != [] && !IsRegexSpace(p[0]) && !IsDecimalDigit(p[0])
    ensures MatchReference(d + p) == None
  {
    assert (d + p)[0] == d[0] && IsDecimalDigit(d[0]);
    RT.DigitRunOf(d, p);
    assert (d + p)[|d|..] == p;
  }

  /** Read as the text it is; what it is worth is left to the conversion of floats. */
  lemma {:induction false} RealSpellingIsRead(sign: Sign, r: Real, k: seq<byte>)
    requires LegalReal(r) && RT.EndsNumber(k, SignOpen(sign, r.exponent))
    ensures ParseObject(RealText(sign, r) + k) == Ok(Float(RealText(sign, r)), k)
  {
    var s := RealText(sign, r) + k;
    RealStarts(sign, r, k);
    RealIsNoReference(sign, r, k);
    RealIsScanned(sign, r, k);
    assert Window(s, 15)[0] == s[0] && (!sign.NoSign? ==> Window(s, 15)[1] == s[1]);
    hide MatchReference, ScanNumber, RealText, LegalReal, RT.EndsNumber, ArrayLoop, DictLoop, LiteralBody, HexText;
    assert MatchesNumeric(Window(s, 15));
    NumberToken(s);
  }

  lemma {:induction false} NumberToken(s: seq<byte>)
    requires s != [] && (s[0] == 0x2B || s[0] == 0x2D || IsFloatDigit(s[0]))
    requires MatchReference(Window(s, 15)) == None && MatchesNumeric(Window(s, 15))
    ensures ParseObject(s) == ParseNumber(s)
  {
    hide MatchReference, MatchesNumeric, ParseNumber, ArrayLoop, DictLoop, LiteralBody, HexText;
    assert Window(s, 15)[0] == s[0];
    assert SkipComments(s) == s;
    assert ParseToken(s) == ParseNumber(s);
  }
}
