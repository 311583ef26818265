/** Numbers in content streams: as in files, but with a minus for the only sign at the front and a small e for the only exponent. */
module ContentNumbers {
  import opened Options
  import opened Symbols
  import opened Objects
  import opened ContentSpec
  import opened Spellings
  import opened SpelledNumbers
  import PS = ParserSpec
  import RT = RoundTrip
  import CRT = ContentRoundTrip

  /** As long as no capital E is met, both parsers collect the same bytes. */
  lemma {:induction false} SameScan(s: seq<byte>, allowSigns: bool)
    requires 0x45 !in PS.ScanNumber(s, allowSigns).text
    ensures ScanNumber(s, allowSigns) == PS.ScanNumber(s, allowSigns)
  {
    if s != [] {
      var c := s[0];
      var t := PS.ScanNumber(s, allowSigns).text;
      if t != [] {
        var again := if c == 0x65 || c == 0x45 then true else if c == 0x2B || c == 0x2D then false else allowSigns;
        assert t == [c] + PS.ScanNumber(s[1..], again).text;
        assert t[0] == c && forall x :: x in PS.ScanNumber(s[1..], again).text ==> x in t;
        SameScan(s[1..], again);
      }
    }
  }

  lemma {:induction false} NumberIsRead(sign: Sign, text: seq<byte>, isFloat: bool, k: seq<byte>)
    requires sign != Plus && text != [] && IsFloatDigit(text[0]) && k != [] && 0x45 !in text
    requires PS.ScanNumber(SignText(sign) + text + k, true) == PS.NumberText(SignText(sign) + text, isFloat, k)
    ensures ParseObject(SignText(sign) + text + k) ==
      Ok(Value(if isFloat then Float(SignText(sign) + text) else Int(PS.ParseIntOrZero(SignText(sign) + text))), k)
  {
    var s := SignText(sign) + text + k;
    SameScan(s, true);
    assert s[0] == if sign.NoSign? then text[0] else 0x2D;
    assert !sign.NoSign? ==> s[1] == text[0];
    hide ScanNumber, PS.ScanNumber, PS.ParseIntOrZero, ArrayLoop, DictLoop, NameBody, HexText, PS.LiteralBody, Word;
    assert |s| >= 2 && StartsNumber(s) && SkipComments(s) == s;
  }

  /** Every spelling of an integer but one with a plus is read as its value. */
  lemma {:induction false} IntegerSpellingIsRead(sign: Sign, ds: seq<nat>, k: seq<byte>)
    requires sign != Plus && Decimal(ds) && ds != [] && k != [] && RT.EndsNumber(k, sign.NoSign?)
    ensures var v := Signed(sign, Spellings.Value(ds));
      var p := ParseObject(SignText(sign) + DecimalText(ds) + k);
      p.Ok? && p.rest == k && p.value.Value? && p.value.o.Int? &&
      p.value.o.n as int == if -0x8000_0000_0000_0000 <= v < 0x8000_0000_0000_0000 then v else 0
  {
    SignedTextIsScanned(sign, ds, k);
    IntegerText(sign, ds);
    assert DecimalText(ds)[0] as int == 0x30 + ds[0];
    hide PS.ScanNumber, PS.ParseIntOrZero, ParseObject, Signed, Spellings.Value, RT.EndsNumber;
    NumberIsRead(sign, DecimalText(ds), false, k);
  }

  lemma {:induction false} NoCapital(r: Real)
    requires LegalReal(r) && (r.exponent.Exponent? ==> r.exponent.letter == 0x65)
    ensures 0x45 !in DecimalText(r.whole) + (PointText(r) + ExponentText(r.exponent))
  {
    hide LegalReal;
    assert Decimal(r.whole) && Decimal(r.fraction) && (r.exponent.Exponent? ==> Decimal(r.exponent.digits)) by { LegalParts(r); }
    assert 0x45 !in DecimalText(r.whole) && 0x45 !in PointText(r) && 0x45 !in ExponentText(r.exponent);
  }

  lemma LegalParts(r: Real)
    requires LegalReal(r)
    ensures Decimal(r.whole) && Decimal(r.fraction) && (r.exponent.Exponent? ==> Decimal(r.exponent.digits))
  {
  }

  /** Every spelling of a number with a fraction or a small exponent, but for one with a plus at the front, is read as its text. */
  lemma {:induction false} RealSpellingIsRead(sign: Sign, r: Real, k: seq<byte>)
    requires sign != Plus && LegalReal(r) && (r.exponent.Exponent? ==> r.exponent.letter == 0x65)
    requires k != [] && RT.EndsNumber(k, SignOpen(sign, r.exponent))
    ensures ParseObject(RealText(sign, r) + k) == Ok(Value(Float(RealText(sign, r))), k)
  {
    var text := DecimalText(r.whole) + (PointText(r) + ExponentText(r.exponent));
    RealIsScanned(sign, r, k);
    NoCapital(r);
    DigitsStart(r);
    hide PS.ScanNumber, ParseObject, LegalReal, SignOpen, PointText, ExponentText, RT.EndsNumber;
    assert RealText(sign, r) == SignText(sign) + text;
    NumberIsRead(sign, text, true, k);
  }

  lemma {:induction false} DigitsThen(ds: seq<nat>, t: seq<byte>, allowSigns: bool)
    requires Decimal(ds)
    ensures ScanNumber(DecimalText(ds) + t, allowSigns) == PS.PrependText(DecimalText(ds), false, ScanNumber(t, allowSigns))
  {
    var d := DecimalText(ds);
    if ds == [] {
      assert d + t == t && [] + ScanNumber(t, allowSigns).text == ScanNumber(t, allowSigns).text;
    } else {
      DigitsThen(ds[1..], t, allowSigns);
      assert (d + t)[1..] == DecimalText(ds[1..]) + t && d == [d[0]] + DecimalText(ds[1..]) && (d + t)[0] == d[0];
      Twice([d[0]], false, DecimalText(ds[1..]), false, ScanNumber(t, allowSigns));
    }
  }

  /** A capital E is not read as part of a number: what is before it is a number by itself, and it begins the next token. */
  lemma {:induction false} CapitalExponentIsCutOff(ds: seq<nat>, k: seq<byte>)
    requires Decimal(ds) && ds != []
    ensures ParseObject(DecimalText(ds) + ([0x45] + k)) == Ok(Value(Int(PS.ParseIntOrZero(DecimalText(ds)))), [0x45] + k)
  {
    var e: byte := 0x45;
    var t := [e] + k;
    var s := DecimalText(ds) + t;
    DigitsThen(ds, t, true);
    assert ScanNumber(t, true) == PS.NumberText([], false, t);
    assert s[0] == DecimalText(ds)[0] && DecimalText(ds)[0] as int == 0x30 + ds[0] && |s| >= 2;
    assert DecimalText(ds) + [] == DecimalText(ds);
    hide ScanNumber, PS.ParseIntOrZero, ArrayLoop, DictLoop, NameBody, HexText, PS.LiteralBody, Word;
    assert StartsNumber(s) && SkipComments(s) == s;
  }

  /** And a number with a plus at the front is taken for an operand. */
  lemma {:induction false} PlusIsOperand(ds: seq<nat>, k: seq<byte>)
    requires Decimal(ds)
    ensures ParseObject([0x2B] + DecimalText(ds) + ([0x20] + k)) == Ok(Operand([0x2B] + DecimalText(ds)), [0x20] + k)
  {
    var plus: byte := 0x2B;
    var t := [plus] + DecimalText(ds);
    var s := t + ([0x20] + k);
    assert s[0] == 0x2B && |s| >= 2;
    assert SkipComments(s) == s;
    forall i | 0 <= i < |t| ensures !IsDelimiter(t[i]) && !IsWhiteSpace(t[i]) {
      if i > 0 { assert t[i] == DecimalText(ds)[i - 1]; }
    }
    CRT.OperandTextOf(t, [0x20] + k);
    hide OperandText, ArrayLoop, DictLoop, NameBody, HexText, PS.LiteralBody, ScanNumber;
    assert Word(s) == Ok(Operand(t), [0x20] + k);
  }
}
