/** Every spelling of a name or a string in a content stream is read as what it stands for. More always follows: a line feed is added. */
module ContentSpellings {
  import opened Options
  import opened Symbols
  import opened Objects
  import opened ContentSpec
  import PS = ParserSpec
  import S = Spellings

  // ----- Literal strings

  lemma {:induction false} LiteralSpellingIsRead(ps: seq<S.Piece>, k: seq<byte>)
    requires S.AllLegal(ps) && S.Balanced(ps, 0) && S.Separate(ps) && k != []
    ensures ParseObject([0x28] + (S.Spelling(ps) + ([0x29] + k))) == Ok(Value(Str(S.Meaning(ps), false)), k)
  {
    hide PS.LiteralBody, S.Spelling, S.AllLegal, S.Balanced, S.Separate;
    S.TextIsRead(ps, 0, k);
    var s := [0x28] + (S.Spelling(ps) + ([0x29] + k));
    assert SkipComments(s) == s && s[1..] == S.Spelling(ps) + ([0x29] + k);
  }

  // ----- Hexadecimal strings: anything but digits and the bracket may stand between the digits

  predicate LegalHex(p: S.HexPiece) {
    match p
    case Blank(c) => S.NoHexDigit(c) && c != 0x3E
    case Digit(c, v) => S.IsHexDigitFor(c, v)
  }

  lemma {:induction false} HexTextIsRead(ps: seq<S.HexPiece>, k: seq<byte>)
    requires forall i :: 0 <= i < |ps| ==> LegalHex(ps[i])
    ensures HexText(S.HexSpelling(ps) + ([0x3E] + k)) == Ok(S.DigitBytes(ps), k)
  {
    var s := S.HexSpelling(ps) + ([0x3E] + k);
    if ps == [] {
      assert s == [0x3E] + k && s[1..] == k;
    } else {
      HexTextIsRead(ps[1..], k);
      assert s[0] == ps[0].c && s[1..] == S.HexSpelling(ps[1..]) + ([0x3E] + k);
      assert LegalHex(ps[0]);
      if ps[0].Digit? {
        S.HexDigitFor(ps[0].c, ps[0].v);
      } else {
        S.NoHexDigitIsNone(ps[0].c);
        assert [] + S.DigitBytes(ps[1..]) == S.DigitBytes(ps[1..]);
      }
    }
  }

  /** Every such spelling is read, unless it begins with the second bracket of a dictionary. */
  lemma {:induction false} HexSpellingIsRead(ps: seq<S.HexPiece>, k: seq<byte>)
    requires forall i :: 0 <= i < |ps| ==> LegalHex(ps[i])
    requires ps != [] ==> ps[0].c != 0x3C
    ensures forall i :: 0 <= i < |S.Values(ps)| ==> S.Values(ps)[i] < 16
    ensures ParseObject([0x3C] + (S.HexSpelling(ps) + ([0x3E] + k))) == Ok(Value(Str(S.Paired(S.Values(ps)), true)), k)
  {
    assert forall i :: 0 <= i < |ps| && ps[i].Digit? ==> LegalHex(ps[i]) && S.LegalHex(ps[i]);
    S.ValuesOfDigits(ps);
    HexTextIsRead(ps, k);
    S.PairsAreRead(S.DigitBytes(ps), S.Values(ps));
    hide HexText, PS.HexDecode, S.Values, S.DigitBytes, S.Digits16, S.Paired;
    var s := [0x3C] + (S.HexSpelling(ps) + ([0x3E] + k));
    assert SkipComments(s) == s && s[1..] == S.HexSpelling(ps) + ([0x3E] + k);
    assert s[1] == if ps == [] then 0x3E else ps[0].c;
  }

  // ----- Names

  /** A byte of 0x80 or more is taken for the character with that code and kept in two bytes; one that is coded is kept as it is. */
  function NameMeant(p: S.NamePiece): seq<byte>
    requires S.LegalName(p) && !p.Bare?
  {
    match p
    case Plain(c) => if c < 0x80 then [c] else if c < 0xC0 then [0xC2, c] else [0xC3, c - 0x40]
    case Coded(_, _, v, w) => var n: byte := 16 * v + w; [n]
  }

  ghost predicate AllNamed(ps: seq<S.NamePiece>) {
    forall i :: 0 <= i < |ps| ==> S.LegalName(ps[i]) && !ps[i].Bare?
  }

  ghost function NameMeaning(ps: seq<S.NamePiece>): seq<byte>
    requires AllNamed(ps)
  {
    if ps == [] then [] else NameMeant(ps[0]) + NameMeaning(ps[1..])
  }

  lemma {:induction false} OneNamePiece(p: S.NamePiece, t: seq<byte>)
    requires S.LegalName(p)
    ensures NameBody(S.NameSpelt(p) + t) == if p.Bare? then Failed(Invalid) else Prepend(NameMeant(p), NameBody(t))
  {
    match p
    case Plain(c) => assert ([c] + t)[1..] == t;
    case Coded(a, b, v, w) =>
      S.HexDigitFor(a, v);
      S.HexDigitFor(b, w);
      assert ([0x23, a, b] + t)[3..] == t;
    case Bare(a, b) =>
      assert !IsHexDigit(a) || !IsHexDigit(b) by { if S.NoHexDigit(a) { S.NoHexDigitIsNone(a); } else { S.NoHexDigitIsNone(b); } }
  }

  /** What comes before a part of a name that cannot be read, or before its end. */
  lemma {:induction false} NameTextIsRead(ps: seq<S.NamePiece>, k: seq<byte>)
    requires AllNamed(ps)
    ensures NameBody(S.NameSpelling(ps) + k) == Prepend(NameMeaning(ps), NameBody(k))
  {
    hide NameBody, S.LegalName, S.NameSpelt, NameMeant;
    if ps == [] {
      assert S.NameSpelling(ps) + k == k;
      NothingBefore(NameBody(k));
    } else {
      NameTextIsRead(ps[1..], k);
      OneNamePiece(ps[0], S.NameSpelling(ps[1..]) + k);
      assert S.NameSpelling(ps) + k == S.NameSpelt(ps[0]) + (S.NameSpelling(ps[1..]) + k);
      MoreBefore(NameMeant(ps[0]), NameMeaning(ps[1..]), NameBody(k));
    }
  }

  lemma NothingBefore(r: Result<seq<byte>>)
    ensures Prepend([], r) == r
  {
    if r.Ok? { assert [] + r.value == r.value; }
  }

  lemma MoreBefore(a: seq<byte>, b: seq<byte>, r: Result<seq<byte>>)
    ensures Prepend(a, Prepend(b, r)) == Prepend(a + b, r)
  {
    if r.Ok? { assert a + (b + r.value) == a + b + r.value; }
  }

  /** Every spelling of a name is read as the name. */
  lemma {:induction false} NameSpellingIsRead(ps: seq<S.NamePiece>, k: seq<byte>)
    requires AllNamed(ps) && k != [] && S.EndsNames(k[0])
    ensures ParseObject([0x2F] + (S.NameSpelling(ps) + k)) == Ok(Value(Name(NameMeaning(ps))), k)
  {
    NameTextIsRead(ps, k);
    assert NameBody(k) == Ok([], k);
    assert NameMeaning(ps) + [] == NameMeaning(ps);
    NameToken(S.NameSpelling(ps) + k);
  }

  /** A name in which a hash is not followed by two digits is not read at all. */
  lemma {:induction false} BareHashIsRefused(ps: seq<S.NamePiece>, p: S.NamePiece, k: seq<byte>)
    requires AllNamed(ps) && S.LegalName(p) && p.Bare?
    ensures ParseObject([0x2F] + (S.NameSpelling(ps) + (S.NameSpelt(p) + k))) == Failed(Invalid)
  {
    NameTextIsRead(ps, S.NameSpelt(p) + k);
    OneNamePiece(p, k);
    NameToken(S.NameSpelling(ps) + (S.NameSpelt(p) + k));
  }

  lemma {:induction false} NameToken(t: seq<byte>)
    requires t != []
    ensures ParseObject([0x2F] + t) == match NameBody(t) case Ok(n, u) => Ok(Value(Name(n)), u) case Failed(why) => Failed(why)
  {
    hide NameBody, ArrayLoop, DictLoop;
    var s := [0x2F] + t;
    assert SkipComments(s) == s && s[1..] == t;
  }
}
