/**
 Every spelling of a name, a string, a number or a reference is read as what it stands for. The printer chooses one
 spelling; other programs choose others (section 7.3 of PDF 32000-1).
 */
module Spellings {
  import opened Options
  import opened Symbols
  import opened Objects
  import opened ParserSpec
  import RT = RoundTrip

  // ----- Digits, in their own terms

  predicate IsHexDigitFor(c: byte, v: nat) {
    (v < 10 && c as int == 0x30 + v) || (10 <= v < 16 && (c as int == 0x41 + (v - 10) || c as int == 0x61 + (v - 10)))
  }

  lemma {:induction false} HexDigitFor(c: byte, v: nat)
    requires IsHexDigitFor(c, v)
    ensures IsHexDigit(c) && HexValue(c) == v
  {
  }

  predicate IsBlank(c: byte) {
    c == 0x00 || c == 0x09 || c == 0x0A || c == 0x0C || c == 0x0D || c == 0x20
  }

  // ----- Literal strings

  /** A byte that stands for itself, a backslash and a letter, or a backslash and one to three octal digits. */
  datatype Piece = Raw(c: byte) | Escaped(letter: byte) | Octal(digits: seq<nat>)

  predicate Legal(p: Piece) {
    match p
    case Raw(c) => c != 0x5C
    case Escaped(letter) => !(0x30 <= letter <= 0x37)
    case Octal(ds) => 1 <= |ds| <= 3 && forall i :: 0 <= i < |ds| ==> ds[i] < 8
  }

  function Spelt(p: Piece): seq<byte>
    requires Legal(p)
  {
    match p
    case Raw(c) => [c]
    case Escaped(letter) => [0x5C, letter]
    case Octal(ds) => [0x5C] + seq(|ds|, i requires 0 <= i < |ds| => 0x30 + ds[i])
  }

  /** Table 3 of section 7.3.4.2 of PDF 32000-1; a backslash before another letter is left out, and here the letter with it. */
  function Meant(p: Piece): seq<byte>
    requires Legal(p)
  {
    match p
    case Raw(c) => [c]
    case Escaped(letter) =>
      if letter == 0x6E then [0x0A] else if letter == 0x72 then [0x0D] else if letter == 0x74 then [0x09]
      else if letter == 0x62 then [0x08] else if letter == 0x66 then [0x0C]
      else if letter == 0x28 || letter == 0x29 || letter == 0x5C then [letter] else []
    case Octal(ds) =>
      if |ds| == 1 then [ds[0]] else if |ds| == 2 then [ds[0] * 8 + ds[1]] else [(ds[0] * 64 + ds[1] * 8 + ds[2]) % 256]
  }

  predicate AllLegal(ps: seq<Piece>) {
    forall i :: 0 <= i < |ps| ==> Legal(ps[i])
  }

  function Spelling(ps: seq<Piece>): seq<byte>
    requires AllLegal(ps)
  {
    if ps == [] then [] else Spelt(ps[0]) + Spelling(ps[1..])
  }

  function Meaning(ps: seq<Piece>): seq<byte>
    requires AllLegal(ps)
  {
    if ps == [] then [] else Meant(ps[0]) + Meaning(ps[1..])
  }

  /** Parentheses that stand for themselves are balanced. */
  predicate Balanced(ps: seq<Piece>, open: nat) {
    if ps == [] then open == 0
    else if ps[0] == Raw(0x28) then Balanced(ps[1..], open + 1)
    else if ps[0] == Raw(0x29) then open > 0 && Balanced(ps[1..], open - 1)
    else Balanced(ps[1..], open)
  }

  /** An octal escape with fewer than three digits ends at a byte that is no octal digit. */
  predicate Separate(ps: seq<Piece>)
    requires AllLegal(ps)
  {
    forall i :: 0 <= i < |ps| - 1 && ps[i].Octal? && |ps[i].digits| < 3 ==> !(0x30 <= Spelt(ps[i + 1])[0] <= 0x37)
  }

  /** A single octal digit right before the end of the data: the parser looks two bytes ahead for more of them. */
  predicate EndsInOneDigit(ps: seq<Piece>) {
    ps != [] && ps[|ps| - 1].Octal? && |ps[|ps| - 1].digits| == 1
  }

  lemma {:induction false} SpeltStarts(p: Piece)
    requires Legal(p)
    ensures Spelt(p) != [] && (p.Raw? || Spelt(p)[0] == 0x5C)
  {
  }

  /** An octal escape is read as its value, before anything that does not go on with it. */
  lemma {:induction false} OctalIsRead(ds: seq<nat>, t: seq<byte>, count: int)
    requires Legal(Octal(ds)) && (|ds| < 3 ==> t != [] && !(0x30 <= t[0] <= 0x37))
    ensures |ds| + |t| >= 3 ==> LiteralBody(Spelt(Octal(ds)) + t, count) == Prepend(Meant(Octal(ds)), LiteralBody(t, count))
    ensures |ds| + |t| < 3 ==> LiteralBody(Spelt(Octal(ds)) + t, count).Failed?
  {
    hide LiteralBody;
    var digits := Spelt(Octal(ds))[1..];
    var s := Spelt(Octal(ds)) + t;
    assert s[1..] == digits + t && |digits| == |ds|;
    assert forall i :: 0 <= i < |ds| ==> s[1 + i] == digits[i] && digits[i] as int == 0x30 + ds[i];
    if |ds| + |t| >= 3 {
      OctalEscape(ds, s, t);
    }
    EscapeStep(s, count);
  }

  lemma {:induction false} EscapeStep(s: seq<byte>, count: int)
    requires s != [] && s[0] == 0x5C
    ensures LiteralBody(s, count) == match Escape(s) case Ok(v, t) => Prepend(v, LiteralBody(t, count)) case Failed(why) => Failed(why)
  {
    hide Escape;
  }

  lemma {:induction false} OctalEscape(ds: seq<nat>, s: seq<byte>, t: seq<byte>)
    requires Legal(Octal(ds)) && |s| == 1 + |ds| + |t| >= 4 && s[1 + |ds|..] == t && s[0] == 0x5C
    requires forall i :: 0 <= i < |ds| ==> s[1 + i] as int == 0x30 + ds[i]
    requires |ds| < 3 ==> t != [] && !(0x30 <= t[0] <= 0x37)
    ensures Escape(s) == Ok(Meant(Octal(ds)), t)
  {
    assert s[1] as int == 0x30 + ds[0];
    assert |ds| < 3 ==> s[1 + |ds|] == t[0];
  }

  lemma ThreeDigits(n: int)
    requires 0 <= n < 256
    ensures 0 <= n / 64 < 4 && n / 64 * 64 + n / 8 % 8 * 8 + n % 8 == n
  {
  }

  /** In particular, the three digits of any byte are read as the byte. */
  lemma {:induction false} ThreeDigitsAreRead(v: byte, t: seq<byte>, count: int)
    ensures LiteralBody([0x5C, 0x30 + v / 64, 0x30 + v / 8 % 8, 0x30 + v % 8] + t, count) == Prepend([v], LiteralBody(t, count))
  {
    hide LiteralBody;
    var n: int := v;
    var ds: seq<nat> := [n / 64, n / 8 % 8, n % 8];
    ThreeDigits(n);
    assert Meant(Octal(ds)) == [v];
    assert Spelt(Octal(ds)) == [0x5C, 0x30 + v / 64, 0x30 + v / 8 % 8, 0x30 + v % 8];
    hide Meant, Spelt;
    OctalIsRead(ds, t, count);
  }

  lemma {:induction false} PieceIsRead(p: Piece, t: seq<byte>, open: nat)
    requires Legal(p) && !p.Octal? && t != []
    requires p == Raw(0x29) ==> open > 0
    ensures var after := if p == Raw(0x28) then open + 1 else if p == Raw(0x29) then open - 1 else open;
      LiteralBody(Spelt(p) + t, open + 1) == Prepend(Meant(p), LiteralBody(t, after + 1))
  {
    var s := Spelt(p) + t;
    match p
    case Raw(c) => assert s[1..] == t;
    case Escaped(letter) => assert s[2..] == t && s[1] == letter;
  }

  function Opened(p: Piece, open: nat): int {
    if p == Raw(0x28) then open + 1 else if p == Raw(0x29) then open - 1 else open
  }

  /** One piece, with more after it. */
  lemma {:induction false} OnePiece(p: Piece, t: seq<byte>, open: nat)
    requires Legal(p) && t != [] && (p == Raw(0x29) ==> open > 0)
    requires p.Octal? && |p.digits| < 3 ==> !(0x30 <= t[0] <= 0x37)
    ensures if p.Octal? && |p.digits| == 1 && |t| == 1 then LiteralBody(Spelt(p) + t, open + 1).Failed?
      else LiteralBody(Spelt(p) + t, open + 1) == Prepend(Meant(p), LiteralBody(t, Opened(p, open) + 1))
  {
    hide LiteralBody, Spelt, Meant;
    if p.Octal? {
      OctalLegal(p.digits);
      OctalIsRead(p.digits, t, open + 1);
    } else {
      PieceIsRead(p, t, open);
    }
  }

  /** The pieces after the first. */
  lemma {:induction false} RestOf(ps: seq<Piece>, open: nat)
    requires AllLegal(ps) && Balanced(ps, open) && ps != []
    ensures AllLegal(ps[1..])
    ensures (ps[0] == Raw(0x29) ==> open > 0) && Opened(ps[0], open) >= 0 && Balanced(ps[1..], Opened(ps[0], open))
    ensures EndsInOneDigit(ps) <==> if ps[1..] == [] then ps[0].Octal? && |ps[0].digits| == 1 else EndsInOneDigit(ps[1..])
  {
    hide Legal;
    assert forall i :: 0 <= i < |ps[1..]| ==> ps[1..][i] == ps[i + 1];
  }

  lemma {:induction false} Unfolded(ps: seq<Piece>, tail: seq<byte>)
    requires AllLegal(ps)
    ensures ps == [] ==> Spelling(ps) + tail == tail && Meaning(ps) == []
    ensures ps != [] ==> Spelling(ps) + tail == Spelt(ps[0]) + (Spelling(ps[1..]) + tail) && Meaning(ps) == Meant(ps[0]) + Meaning(ps[1..])
  {
    hide Legal, Spelt, Meant;
    if ps != [] { assert Spelling(ps) + tail == Spelt(ps[0]) + (Spelling(ps[1..]) + tail); }
  }

  ghost predicate IsRead(ps: seq<Piece>, open: nat, k: seq<byte>)
    requires AllLegal(ps)
  {
    var r := LiteralBody(Spelling(ps) + ([0x29] + k), open + 1);
    if EndsInOneDigit(ps) && k == [] then r.Failed? else r == Ok(Meaning(ps), k)
  }

  lemma {:induction false} NothingIsRead(k: seq<byte>)
    ensures IsRead([], 0, k)
  {
    var tail := [0x29] + k;
    assert [] + tail == tail && tail[1..] == k;
  }

  /** What the first piece makes of what follows. */
  lemma {:induction false} FirstIsRead(ps: seq<Piece>, open: nat, tail: seq<byte>)
    requires AllLegal(ps) && Balanced(ps, open) && Separate(ps) && ps != [] && tail != [] && tail[0] == 0x29
    ensures AllLegal(ps[1..]) && Opened(ps[0], open) >= 0
    ensures var t := Spelling(ps[1..]) + tail;
      var r := LiteralBody(Spelling(ps) + tail, open + 1);
      if ps[0].Octal? && |ps[0].digits| == 1 && |t| == 1 then r.Failed?
      else r == Prepend(Meant(ps[0]), LiteralBody(t, Opened(ps[0], open) + 1))
  {
    hide LiteralBody, AllLegal, Legal, Spelt, Meant, Balanced, Separate, Opened, Spelling, Meaning;
    FirstLegal(ps);
    Unfolded(ps, tail);
    RestOf(ps, open);
    StartsAfter(ps, tail);
    OnePiece(ps[0], Spelling(ps[1..]) + tail, open);
  }

  lemma FirstLegal(ps: seq<Piece>)
    requires AllLegal(ps) && ps != []
    ensures Legal(ps[0])
  {
  }

  lemma {:induction false} MoreIsRead(ps: seq<Piece>, open: nat, k: seq<byte>)
    requires AllLegal(ps) && Balanced(ps, open) && Separate(ps) && ps != []
    requires AllLegal(ps[1..]) && Opened(ps[0], open) >= 0 && IsRead(ps[1..], Opened(ps[0], open), k)
    ensures IsRead(ps, open, k)
  {
    var tail := [0x29] + k;
    hide LiteralBody, AllLegal, Legal, Spelt, Meant, Balanced, Separate, EndsInOneDigit, Opened, Spelling, Meaning;
    FirstLegal(ps);
    FirstIsRead(ps, open, tail);
    Unfolded(ps, tail);
    RestOf(ps, open);
    StartsAfter(ps, tail);
    OneDigitLast(ps[1..]);
    if ps[1..] == [] { Unfolded(ps[1..], tail); }
  }

  lemma {:induction false} TextIsRead(ps: seq<Piece>, open: nat, k: seq<byte>)
    requires AllLegal(ps) && Balanced(ps, open) && Separate(ps)
    ensures IsRead(ps, open, k)
    decreases ps
  {
    if ps == [] {
      NothingIsRead(k);
    } else {
      hide IsRead, Legal, Separate, Balanced;
      RestOf(ps, open);
      StartsAfter(ps, [0x29] + k);
      TextIsRead(ps[1..], Opened(ps[0], open), k);
      MoreIsRead(ps, open, k);
    }
  }

  lemma OneDigitLast(ps: seq<Piece>)
    ensures EndsInOneDigit(ps) ==> ps != []
  {
  }

  lemma OctalLegal(ds: seq<nat>)
    requires Legal(Octal(ds))
    ensures 1 <= |ds| <= 3
  {
  }

  /** What comes after the first piece. */
  lemma {:induction false} StartsAfter(ps: seq<Piece>, tail: seq<byte>)
    requires AllLegal(ps) && Separate(ps) && ps != [] && tail != [] && tail[0] == 0x29
    ensures var t := Spelling(ps[1..]) + tail;
      && t != [] && |t| >= |tail| && (ps[0].Octal? && |ps[0].digits| < 3 ==> !(0x30 <= t[0] <= 0x37))
      && (ps[1..] != [] ==> |t| > |tail|)
    ensures Separate(ps[1..])
  {
    var rest := ps[1..];
    assert forall i :: 0 <= i < |rest| ==> rest[i] == ps[i + 1];
    if rest != [] {
      SpeltStarts(rest[0]);
      assert (Spelling(rest) + tail)[0] == Spelt(rest[0])[0];
    } else {
      assert Spelling(rest) + tail == tail;
    }
  }

  /** Every spelling of a literal string is read as the string, unless it is cut off after a single octal digit. */
  lemma {:induction false} LiteralSpellingIsRead(ps: seq<Piece>, k: seq<byte>)
    requires AllLegal(ps) && Balanced(ps, 0) && Separate(ps)
    ensures ParseObject([0x28] + (Spelling(ps) + ([0x29] + k))) == Ok(Str(Meaning(ps), false), k) <==> !(EndsInOneDigit(ps) && k == [])
  {
    hide LiteralBody, Spelling, Legal, Balanced, Separate;
    TextIsRead(ps, 0, k);
    var s := [0x28] + (Spelling(ps) + ([0x29] + k));
    assert SkipComments(s) == s && s[1..] == Spelling(ps) + ([0x29] + k);
  }

  // ----- Hexadecimal strings

  /** White space, or a digit in either case. */
  datatype HexPiece = Blank(c: byte) | Digit(c: byte, v: nat)

  predicate LegalHex(p: HexPiece) {
    match p
    case Blank(c) => IsBlank(c)
    case Digit(c, v) => IsHexDigitFor(c, v)
  }

  function HexSpelling(ps: seq<HexPiece>): (s: seq<byte>)
    ensures |s| == |ps|
  {
    seq(|ps|, i requires 0 <= i < |ps| => ps[i].c)
  }

  function Values(ps: seq<HexPiece>): seq<nat> {
    if ps == [] then [] else (if ps[0].Digit? then [ps[0].v] else []) + Values(ps[1..])
  }

  /** Two digits make a byte, and a last one alone is followed by a zero. */
  function Paired(vs: seq<nat>): seq<byte>
    requires forall i :: 0 <= i < |vs| ==> vs[i] < 16
  {
    if vs == [] then [] else if |vs| == 1 then [16 * vs[0]] else [16 * vs[0] + vs[1]] + Paired(vs[2..])
  }

  function DigitBytes(ps: seq<HexPiece>): seq<byte> {
    if ps == [] then [] else (if ps[0].Digit? then [ps[0].c] else []) + DigitBytes(ps[1..])
  }

  lemma {:induction false} HexTextIsRead(ps: seq<HexPiece>, k: seq<byte>)
    requires forall i :: 0 <= i < |ps| ==> LegalHex(ps[i])
    ensures HexText(HexSpelling(ps) + ([0x3E] + k)) == Ok(DigitBytes(ps), k)
  {
    var s := HexSpelling(ps) + ([0x3E] + k);
    if ps == [] {
      assert s == [0x3E] + k && s[1..] == k;
    } else {
      HexTextIsRead(ps[1..], k);
      assert s[0] == ps[0].c && s[1..] == HexSpelling(ps[1..]) + ([0x3E] + k);
      assert LegalHex(ps[0]);
      if ps[0].Digit? { HexDigitFor(ps[0].c, ps[0].v); } else { assert [] + DigitBytes(ps[1..]) == DigitBytes(ps[1..]); }
    }
  }

  ghost predicate Digits16(h: seq<byte>, vs: seq<nat>) {
    |h| == |vs| && forall i :: 0 <= i < |h| ==> IsHexDigitFor(h[i], vs[i])
  }

  lemma {:induction false} ValuesOfDigits(ps: seq<HexPiece>)
    requires forall i :: 0 <= i < |ps| && ps[i].Digit? ==> LegalHex(ps[i])
    ensures Digits16(DigitBytes(ps), Values(ps)) && forall i :: 0 <= i < |Values(ps)| ==> Values(ps)[i] < 16
  {
    if ps != [] {
      ValuesOfDigits(ps[1..]);
      assert ps[0].Digit? ==> LegalHex(ps[0]);
    }
  }

  lemma {:induction false} PairIsRead(h: seq<byte>, vs: seq<nat>)
    requires Digits16(h, vs) && |h| >= 2 && vs[0] < 16 && vs[1] < 16
    ensures HexDecode(PadHex(h)) == [16 * vs[0] + vs[1]] + HexDecode(PadHex(h[2..]))
  {
    HexDigitFor(h[0], vs[0]);
    HexDigitFor(h[1], vs[1]);
    assert PadHex(h)[2..] == PadHex(h[2..]) && PadHex(h)[0] == h[0] && PadHex(h)[1] == h[1];
  }

  lemma {:induction false} PairsAreRead(h: seq<byte>, vs: seq<nat>)
    requires Digits16(h, vs) && forall i :: 0 <= i < |vs| ==> vs[i] < 16
    ensures HexDecode(PadHex(h)) == Paired(vs)
  {
    if h == [] {
    } else if |h| == 1 {
      HexDigitFor(h[0], vs[0]);
      assert PadHex(h) == [h[0], 0x30] && PadHex(h)[2..] == [];
    } else {
      PairIsRead(h, vs);
      hide HexDecode, PadHex, IsHexDigitFor;
      PairsAreRead(h[2..], vs[2..]);
    }
  }

  /** Every spelling of a hexadecimal string is read as the string. */
  lemma {:induction false} HexSpellingIsRead(ps: seq<HexPiece>, k: seq<byte>)
    requires forall i :: 0 <= i < |ps| ==> LegalHex(ps[i])
    ensures forall i :: 0 <= i < |Values(ps)| ==> Values(ps)[i] < 16
    ensures ParseObject([0x3C] + (HexSpelling(ps) + ([0x3E] + k))) == Ok(Str(Paired(Values(ps)), true), k)
  {
    ValuesOfDigits(ps);
    HexTextIsRead(ps, k);
    PairsAreRead(DigitBytes(ps), Values(ps));
    hide HexText, HexDecode, Values, DigitBytes, Digits16, Paired;
    var s := [0x3C] + (HexSpelling(ps) + ([0x3E] + k));
    NotAnOpening(ps, k);
    assert SkipComments(s) == s && s[1..] == HexSpelling(ps) + ([0x3E] + k);
  }

  lemma {:induction false} NotAnOpening(ps: seq<HexPiece>, k: seq<byte>)
    requires forall i :: 0 <= i < |ps| ==> LegalHex(ps[i])
    ensures var t := HexSpelling(ps) + ([0x3E] + k); t != [] && t[0] != 0x3C
  {
    if ps != [] { assert LegalHex(ps[0]) && (HexSpelling(ps) + ([0x3E] + k))[0] == ps[0].c; }
  }

  // ----- Names

  /** A byte that stands for itself, a hash with two digits in either case, or a hash that is no such thing and hides two bytes. */
  datatype NamePiece = Plain(c: byte) | Coded(a: byte, b: byte, v: nat, w: nat) | Bare(a: byte, b: byte)

  predicate EndsNames(c: byte) {
    IsBlank(c) || c == 0x2F || c == 0x5B || c == 0x28 || c == 0x5D || c == 0x3C || c == 0x3E
  }

  predicate NoHexDigit(c: byte) {
    forall v: nat :: v < 16 ==> !IsHexDigitFor(c, v)
  }

  predicate LegalName(p: NamePiece) {
    match p
    case Plain(c) => !EndsNames(c) && c != 0x23
    case Coded(a, b, v, w) => IsHexDigitFor(a, v) && IsHexDigitFor(b, w)
    case Bare(a, b) => NoHexDigit(a) || NoHexDigit(b)
  }

  function NameSpelt(p: NamePiece): seq<byte> {
    match p
    case Plain(c) => [c]
    case Coded(a, b, _, _) => [0x23, a, b]
    case Bare(a, b) => [0x23, a, b]
  }

  function NameMeant(p: NamePiece): seq<byte>
    requires LegalName(p)
  {
    match p
    case Plain(c) => [c]
    case Coded(_, _, v, w) => var n: byte := 16 * v + w; [n]
    case Bare(_, _) => var hash: byte := 0x23; [hash]
  }

  function NameSpelling(ps: seq<NamePiece>): seq<byte> {
    if ps == [] then [] else NameSpelt(ps[0]) + NameSpelling(ps[1..])
  }

  function NameMeaning(ps: seq<NamePiece>): seq<byte>
    requires forall i :: 0 <= i < |ps| ==> LegalName(ps[i])
  {
    if ps == [] then [] else NameMeant(ps[0]) + NameMeaning(ps[1..])
  }

  lemma {:induction false} NoHexDigitIsNone(c: byte)
    requires NoHexDigit(c)
    ensures !IsHexDigit(c)
  {
    if IsHexDigit(c) { assert IsHexDigitFor(c, HexValue(c)); }
  }

  lemma {:induction false} OneNamePiece(p: NamePiece, t: seq<byte>)
    requires LegalName(p)
    ensures NameBody(NameSpelt(p) + t) == Prepend(NameMeant(p), NameBody(t))
  {
    match p
    case Plain(c) => assert ([c] + t)[1..] == t;
    case Coded(a, b, v, w) =>
      HexDigitFor(a, v);
      HexDigitFor(b, w);
      assert ([0x23, a, b] + t)[3..] == t;
    case Bare(a, b) =>
      assert !IsHexDigit(a) || !IsHexDigit(b) by { if NoHexDigit(a) { NoHexDigitIsNone(a); } else { NoHexDigitIsNone(b); } }
      assert ([0x23, a, b] + t)[3..] == t;
  }

  lemma {:induction false} NameUnfolded(ps: seq<NamePiece>, k: seq<byte>)
    requires ps != [] && forall i :: 0 <= i < |ps| ==> LegalName(ps[i])
    ensures NameSpelling(ps) + k == NameSpelt(ps[0]) + (NameSpelling(ps[1..]) + k)
    ensures NameMeaning(ps) == NameMeant(ps[0]) + NameMeaning(ps[1..])
  {
    hide LegalName, NameSpelt, NameMeant;
  }

  lemma NameEnds(k: seq<byte>)
    requires k == [] || EndsNames(k[0])
    ensures NameBody(k) == Ok([], k)
  {
  }

  lemma {:induction false} NameTextIsRead(ps: seq<NamePiece>, k: seq<byte>)
    requires (forall i :: 0 <= i < |ps| ==> LegalName(ps[i])) && (k == [] || EndsNames(k[0]))
    ensures NameBody(NameSpelling(ps) + k) == Ok(NameMeaning(ps), k)
  {
    hide NameBody, LegalName, NameSpelt, NameMeant, EndsNames;
    if ps == [] {
      assert NameSpelling(ps) + k == k;
      NameEnds(k);
    } else {
      hide NameSpelling, NameMeaning;
      NameTextIsRead(ps[1..], k);
      OneNamePiece(ps[0], NameSpelling(ps[1..]) + k);
      NameUnfolded(ps, k);
    }
  }

  /** Every spelling of a name is read as the name. */
  lemma {:induction false} NameSpellingIsRead(ps: seq<NamePiece>, k: seq<byte>)
    requires (forall i :: 0 <= i < |ps| ==> LegalName(ps[i])) && (k == [] || EndsNames(k[0]))
    ensures ParseObject([0x2F] + (NameSpelling(ps) + k)) == Ok(Name(NameMeaning(ps)), k)
  {
    hide NameBody, LegalName, NameSpelling, NameMeaning, ArrayLoop, DictLoop;
    NameTextIsRead(ps, k);
    var s := [0x2F] + (NameSpelling(ps) + k);
    assert SkipComments(s) == s && s[1..] == NameSpelling(ps) + k;
    assert ParseName(s) == NameBody(s[1..]);
  }

  // ----- White space and comments

  /** White space, or a comment with the end of its line. */
  datatype Fill = Gap(c: byte) | Remark(text: seq<byte>, end: byte)

  predicate LegalFill(f: Fill) {
    match f
    case Gap(c) => IsBlank(c)
    case Remark(text, end) => (end == 0x0A || end == 0x0D) && forall i :: 0 <= i < |text| ==> text[i] != 0x0A && text[i] != 0x0D
  }

  function FillText(fs: seq<Fill>): seq<byte> {
    if fs == [] then []
    else (match fs[0] case Gap(c) => [c] case Remark(text, end) => [0x25] + text + [end]) + FillText(fs[1..])
  }

  lemma {:induction false} LineSkipped(text: seq<byte>, end: byte, t: seq<byte>)
    requires LegalFill(Remark(text, end))
    ensures SkipLine(text + ([end] + t)) == [end] + t
  {
    var s := text + ([end] + t);
    if text == [] {
      assert s == [end] + t;
    } else {
      assert s[1..] == text[1..] + ([end] + t) && s[0] == text[0];
      LineSkipped(text[1..], end, t);
    }
  }

  lemma {:induction false} RemarkSkipped(text: seq<byte>, end: byte, t: seq<byte>)
    requires LegalFill(Remark(text, end))
    ensures SkipComments([0x25] + text + [end] + t) == SkipComments(t)
  {
    var s := [0x25] + (text + ([end] + t));
    assert [0x25] + text + [end] + t == s;
    LineSkipped(text, end, t);
    BlankSkipped(end, t);
    assert s[1..] == text + ([end] + t);
  }

  lemma {:induction false} FillSkipped(fs: seq<Fill>, s: seq<byte>)
    requires forall i :: 0 <= i < |fs| ==> LegalFill(fs[i])
    ensures SkipComments(FillText(fs) + s) == SkipComments(s)
  {
    hide SkipComments, LegalFill;
    if fs == [] {
      assert FillText(fs) + s == s;
    } else {
      FillSkipped(fs[1..], s);
      var t := FillText(fs[1..]) + s;
      assert LegalFill(fs[0]);
      match fs[0]
      case Gap(c) =>
        assert FillText(fs) + s == [c] + t;
        GapIsBlank(c);
        BlankSkipped(c, t);
      case Remark(text, end) =>
        assert FillText(fs) + s == [0x25] + text + [end] + t;
        RemarkSkipped(text, end, t);
    }
  }

  lemma GapIsBlank(c: byte)
    ensures LegalFill(Gap(c)) ==> IsBlank(c)
  {
  }

  lemma {:induction false} BlankSkipped(c: byte, t: seq<byte>)
    requires IsBlank(c)
    ensures SkipComments([c] + t) == SkipComments(t)
  {
    assert ([c] + t)[1..] == t;
  }

  /** White space and comments before an object make no difference. */
  lemma {:induction false} FillBeforeObject(fs: seq<Fill>, s: seq<byte>)
    requires forall i :: 0 <= i < |fs| ==> LegalFill(fs[i])
    ensures ParseObject(FillText(fs) + s) == ParseObject(s)
  {
    hide SkipComments, FillText, ArrayLoop, DictLoop, ParseToken, LiteralBody, HexText, ParseName;
    FillSkipped(fs, s);
  }

  // ----- Numbers

  function Power(n: nat): nat {
    if n == 0 then 1 else 10 * Power(n - 1)
  }

  /** Decimal digits by their places. */
  function Value(ds: seq<nat>): nat {
    if ds == [] then 0 else ds[0] * Power(|ds| - 1) + Value(ds[1..])
  }

  predicate Decimal(ds: seq<nat>) {
    forall i :: 0 <= i < |ds| ==> ds[i] < 10
  }

  function DecimalText(ds: seq<nat>): (s: seq<byte>)
    requires Decimal(ds)
    ensures |s| == |ds| && forall i :: 0 <= i < |ds| ==> s[i] as int == 0x30 + ds[i]
  {
    seq(|ds|, i requires 0 <= i < |ds| => 0x30 + ds[i])
  }

  lemma {:induction false} ValueOneMore(ds: seq<nat>, d: nat)
    ensures Value(ds + [d]) == 10 * Value(ds) + d
  {
    if ds == [] {
      assert [d][1..] == [] && ds + [d] == [d];
    } else {
      assert (ds + [d])[1..] == ds[1..] + [d];
      ValueOneMore(ds[1..], d);
      TimesTen(ds[0], Power(|ds| - 1));
    }
  }

  lemma TimesTen(a: nat, b: nat)
    ensures a * (10 * b) == 10 * (a * b)
  {
  }

  lemma {:induction false} DigitsValueIsValue(ds: seq<nat>)
    requires Decimal(ds)
    ensures AllDigits(DecimalText(ds)) && DigitsValue(DecimalText(ds)) == Value(ds)
  {
    if ds != [] {
      var n := |ds| - 1;
      DigitsValueIsValue(ds[..n]);
      ValueOneMore(ds[..n], ds[n]);
      assert ds[..n] + [ds[n]] == ds && DecimalText(ds)[..n] == DecimalText(ds[..n]);
    }
  }

  /** A sign, or none. */
  datatype Sign = NoSign | Plus | Minus

  function SignText(sign: Sign): seq<byte> {
    match sign case NoSign => [] case Plus => [0x2B] case Minus => [0x2D]
  }

  function Signed(sign: Sign, v: nat): int {
    var n: int := v;
    if sign.Minus? then -n else n
  }

  lemma {:induction false} SignedDigits(sign: Sign, d: seq<byte>)
    requires AllDigits(d) && d != []
    ensures var v := Signed(sign, DigitsValue(d));
      ParseIntOrZero(SignText(sign) + d) as int == if -0x8000_0000_0000_0000 <= v < 0x8000_0000_0000_0000 then v else 0
  {
    hide DigitsValue;
    var text := SignText(sign) + d;
    assert IsDecimalDigit(d[0]);
    if sign.NoSign? {
      assert text == d;
    } else {
      assert text[0] == SignText(sign)[0] && text[1..] == d;
    }
  }

  lemma {:induction false} IntegerText(sign: Sign, ds: seq<nat>)
    requires Decimal(ds) && ds != []
    ensures var v := Signed(sign, Value(ds));
      ParseIntOrZero(SignText(sign) + DecimalText(ds)) as int == if -0x8000_0000_0000_0000 <= v < 0x8000_0000_0000_0000 then v else 0
  {
    hide ParseIntOrZero, Value, DigitsValue, Signed;
    DigitsValueIsValue(ds);
    SignedDigits(sign, DecimalText(ds));
  }

  lemma {:induction false} SignIsScanned(sign: Sign, d: seq<byte>, k: seq<byte>)
    requires !sign.NoSign?
    ensures ScanNumber(SignText(sign) + d + k, true) == PrependText(SignText(sign), false, ScanNumber(d + k, false))
  {
    var s := SignText(sign) + d + k;
    assert s[0] == SignText(sign)[0] && s[1..] == d + k && [s[0]] == SignText(sign);
  }

  lemma {:induction false} SignedTextIsScanned(sign: Sign, ds: seq<nat>, k: seq<byte>)
    requires Decimal(ds) && RT.EndsNumber(k, sign.NoSign?)
    ensures ScanNumber(SignText(sign) + DecimalText(ds) + k, true) == NumberText(SignText(sign) + DecimalText(ds), false, k)
  {
    var d := DecimalText(ds);
    hide ScanNumber, DigitsValue, Value, RT.EndsNumber;
    DigitsValueIsValue(ds);
    RT.ScanDigits(d, k, sign.NoSign?);
    if sign.NoSign? {
      assert [] + d + k == d + k && [] + d == d;
    } else {
      SignIsScanned(sign, d, k);
    }
  }

  lemma {:induction false} NoReferenceHere(sign: Sign, ds: seq<nat>, k: seq<byte>)
    requires Decimal(ds) && ds != [] && RT.EndsAny(k)
    ensures var s := SignText(sign) + DecimalText(ds) + k;
      s != [] && MatchReference(Window(s, 15)) == None && MatchesNumeric(Window(s, 15))
  {
    hide MatchReference, RT.ContinuesReference;
    var d := DecimalText(ds);
    var s := SignText(sign) + d + k;
    var w := Window(s, 15);
    DigitsValueIsValue(ds);
    if !sign.NoSign? {
      assert w[0] == s[0] == SignText(sign)[0] && w[1] == s[1] == d[0];
      RT.NoNumberPair(w);
    } else {
      assert s == d + k && w[0] == s[0] == d[0];
      if |d| >= 15 {
        assert w == d[..15];
        RT.NoNumberPair(w);
      } else {
        var p := Window(k, 15 - |d|);
        assert w == d + p;
        RT.NothingContinues();
        RT.WindowContinuesNone(k, 15 - |d|);
        RT.DigitsAndNoRest(d, p);
      }
    }
  }

  lemma {:induction false} TokenIsNumber(s: seq<byte>)
    requires s != [] && (s[0] == 0x2B || s[0] == 0x2D || 0x30 <= s[0] <= 0x39)
    requires MatchReference(Window(s, 15)) == None && MatchesNumeric(Window(s, 15))
    ensures ParseObject(s) == ParseNumber(s)
  {
    hide MatchReference, MatchesNumeric, ParseNumber, ArrayLoop, DictLoop, LiteralBody, HexText;
    assert Window(s, 15)[0] == s[0];
    assert SkipComments(s) == s;
    assert ParseToken(s) == ParseNumber(s);
  }

  /** Every spelling of an integer is read as its value, or as 0 when 64 bits do not hold it. */
  lemma {:induction false} IntegerSpellingIsRead(sign: Sign, ds: seq<nat>, k: seq<byte>)
    requires Decimal(ds) && ds != [] && RT.EndsAny(k)
    ensures var v := Signed(sign, Value(ds));
      var p := ParseObject(SignText(sign) + DecimalText(ds) + k);
      p.Ok? && p.rest == k && p.value.Int? &&
      p.value.n as int == if -0x8000_0000_0000_0000 <= v < 0x8000_0000_0000_0000 then v else 0
  {
    var s := SignText(sign) + DecimalText(ds) + k;
    NoReferenceHere(sign, ds, k);
    EndsAnyNumber(k, sign.NoSign?);
    SignedTextIsScanned(sign, ds, k);
    IntegerText(sign, ds);
    assert s[0] == if sign.NoSign? then DecimalText(ds)[0] else SignText(sign)[0];
    hide MatchReference, MatchesNumeric, ScanNumber, ParseIntOrZero, ParseObject, Signed, Value, RT.EndsAny;
    TokenIsNumber(s);
  }

  lemma EndsAnyNumber(k: seq<byte>, allowSigns: bool)
    requires RT.EndsAny(k)
    ensures RT.EndsNumber(k, allowSigns)
  {
  }

  // ----- References

  predicate Spaced(w: seq<byte>) {
    w != [] && forall i :: 0 <= i < |w| ==> w[i] == 0x09 || w[i] == 0x0A || w[i] == 0x0C || w[i] == 0x0D || w[i] == 0x20
  }

  lemma {:induction false} SpacesSkipped(w: seq<byte>, t: seq<byte>)
    requires (w == [] || Spaced(w)) && t != [] && !IsRegexSpace(t[0])
    ensures SkipRegexSpaces(w + t) == t
  {
    if w == [] {
      assert w + t == t;
    } else {
      assert (w + t)[1..] == w[1..] + t && (w + t)[0] == w[0];
      SpacesSkipped(w[1..], t);
    }
  }

  lemma {:induction false} NumberPair(n: seq<nat>, w1: seq<byte>, g: seq<nat>, w2: seq<byte>, x: seq<byte>)
    requires Decimal(n) && Decimal(g) && n != [] && g != [] && Spaced(w1) && Spaced(w2)
    requires Value(n) <= 0x7FFF_FFFF_FFFF_FFFF && Value(g) <= 0x7FFF_FFFF_FFFF_FFFF
    ensures MatchReference(DecimalText(n) + (w1 + (DecimalText(g) + (w2 + ([0x52] + x))))) == Some(Ref(Value(n), Value(g)))
  {
    var a, b, e := DecimalText(n), DecimalText(g), [0x52] + x;
    var d := w2 + e;
    var c := b + d;
    var t := w1 + c;
    var s := a + t;
    DigitsValueIsValue(n);
    DigitsValueIsValue(g);
    assert s[0] == a[0] && c[0] == b[0] && e[0] == 0x52 && t[0] == w1[0] && d[0] == w2[0];
    RT.DigitRunOf(a, t);
    RT.DigitRunOf(b, d);
    SpacesSkipped(w1, c);
    SpacesSkipped(w2, e);
    assert s[|a|..] == t && c[|b|..] == d;
  }

  lemma {:induction false} NumbersAreNoR(n: seq<nat>, w1: seq<byte>, g: seq<nat>, w2: seq<byte>)
    requires Decimal(n) && Decimal(g) && Spaced(w1) && Spaced(w2)
    ensures 0x52 !in DecimalText(n) + w1 + DecimalText(g) + w2
  {
  }

  /** A reference with any white space in it, if it is no longer than 15 bytes up to its R, is read as the reference. */
  lemma {:induction false} ReferenceSpellingIsRead(n: seq<nat>, w1: seq<byte>, g: seq<nat>, w2: seq<byte>, k: seq<byte>)
    requires Decimal(n) && Decimal(g) && n != [] && g != [] && Spaced(w1) && Spaced(w2)
    requires |n| + |w1| + |g| + |w2| + 1 <= 15
    ensures Value(n) <= 0x7FFF_FFFF_FFFF_FFFF && Value(g) <= 0x7FFF_FFFF_FFFF_FFFF
    ensures ParseObject(DecimalText(n) + (w1 + (DecimalText(g) + (w2 + ([0x52] + k))))) == Ok(Ref(Value(n), Value(g)), k)
  {
    var a, b := DecimalText(n), DecimalText(g);
    var head := a + w1 + b + w2;
    var s := a + (w1 + (b + (w2 + ([0x52] + k))));
    ValueBound(n);
    ValueBound(g);
    assert s == head + [0x52] + k;
    var near := Window(k, 14 - |head|);
    assert Window(s, 15) == head + [0x52] + near;
    assert head + [0x52] + near == a + (w1 + (b + (w2 + ([0x52] + near))));
    NumberPair(n, w1, g, w2, near);
    NumbersAreNoR(n, w1, g, w2);
    RT.AfterRSkips(head, k);
    var none: seq<byte> := [];
    assert s[..|s| - |k|] == head + [0x52] + none == a + (w1 + (b + (w2 + ([0x52] + none))));
    NumberPair(n, w1, g, w2, none);
    assert s[0] == a[0] && a[0] as int == 0x30 + n[0];
    hide MatchReference, AfterR, Window;
    RT.ReferenceToken(s, Ref(Value(n), Value(g)), k);
  }

  /** At most 14 digits: well within 64 bits. */
  lemma {:induction false} ValueBound(ds: seq<nat>)
    requires Decimal(ds)
    ensures Value(ds) < Power(|ds|)
    ensures |ds| <= 14 ==> Value(ds) <= 0x7FFF_FFFF_FFFF_FFFF
  {
    if ds != [] {
      ValueBound(ds[1..]);
      AtMostNine(ds[0], Power(|ds| - 1));
    }
    if |ds| <= 14 { PowerGrows(|ds|, 14); FourteenDigits(); }
  }

  lemma AtMostNine(d: nat, p: nat)
    requires d < 10
    ensures d * p <= 9 * p
  {
  }

  lemma {:induction false} PowerGrows(i: nat, j: nat)
    requires i <= j
    ensures Power(i) <= Power(j)
  {
    if i < j { PowerGrows(i, j - 1); }
  }

  lemma {:induction false} FourteenDigits()
    ensures Power(14) == 100_000_000_000_000
  {
    assert Power(4) == 10_000;
    assert Power(8) == 100_000_000;
    assert Power(12) == 1_000_000_000_000;
  }
}
