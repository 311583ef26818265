/**
 What each parsing method of the object parser yields, as functions of the unread bytes:
 the value with the bytes still unread, or how the method fails.
 */
module ParserSpec {
  import opened Options
  import opened Symbols
  import opened Objects

  /**
   Syntax: the method returns an error. IndexPanic: it indexes an empty look-ahead.
   NoProgress: its loop repeats without reading anything and never ends.
   */
  datatype Failure = Syntax | IndexPanic | NoProgress

  datatype Parsed<+T> = Ok(value: T, rest: seq<byte>) | Failed(why: Failure)

  /** Prepends bytes read earlier to the bytes a later part of a loop yields. */
  function Prepend(front: seq<byte>, p: Parsed<seq<byte>>): Parsed<seq<byte>> {
    match p
    case Ok(v, t) => Ok(front + v, t)
    case Failed(why) => Failed(why)
  }

  // ----- Names

  predicate EndsName(c: byte) {
    IsWhiteSpace(c) || c == SLASH || c == LBRACKET || c == LPAREN || c == RBRACKET || c == LESS || c == GREATER
  }

  /** The part after the slash. A hash not followed by two hexadecimal digits stands for itself and hides them. */
  function NameBody(s: seq<byte>): (p: Parsed<seq<byte>>)
    ensures p.Ok? ==> |p.rest| <= |s|
  {
    if s == [] then Ok([], [])
    else if EndsName(s[0]) then Ok([], s)
    else if s[0] == HASH then
      if |s| < 3 then Failed(Syntax)
      else if IsHexDigit(s[1]) && IsHexDigit(s[2]) then
        Prepend([16 * HexValue(s[1]) + HexValue(s[2])], NameBody(s[3..]))
      else Prepend([HASH], NameBody(s[3..]))
    else Prepend([s[0]], NameBody(s[1..]))
  }

  function ParseName(s: seq<byte>): (p: Parsed<seq<byte>>)
    ensures p.Ok? ==> |p.rest| <= |s|
    ensures p.Ok? && s != [] ==> |p.rest| < |s|
    decreases |s|
  {
    if s == [] then Ok([], [])
    else if s[0] == SLASH then NameBody(s[1..])
    else if s[0] == PERCENT then ParseName(SkipSpaces(SkipLine(s[1..])))
    else Failed(Syntax)
  }

  // ----- Numbers

  datatype NumberText = NumberText(text: seq<byte>, isFloat: bool, rest: seq<byte>)

  function PrependText(front: seq<byte>, isFloat: bool, t: NumberText): NumberText {
    NumberText(front + t.text, isFloat || t.isFloat, t.rest)
  }

  /** The bytes that parseNumber collects; one sign is taken anywhere until a sign has been taken. */
  function ScanNumber(s: seq<byte>, allowSigns: bool): (t: NumberText)
    ensures |t.rest| <= |s|
  {
    if s == [] then NumberText([], false, s)
    else if allowSigns && (s[0] == MINUS || s[0] == PLUS) then PrependText([s[0]], false, ScanNumber(s[1..], false))
    else if IsDecimalDigit(s[0]) then PrependText([s[0]], false, ScanNumber(s[1..], allowSigns))
    else if s[0] == DOT then PrependText([s[0]], true, ScanNumber(s[1..], allowSigns))
    else if s[0] == LOWER_E || s[0] == UPPER_E then PrependText([s[0]], true, ScanNumber(s[1..], true))
    else NumberText([], false, s)
  }

  predicate AllDigits(d: seq<byte>) {
    forall i :: 0 <= i < |d| ==> IsDecimalDigit(d[i])
  }

  function DigitsValue(d: seq<byte>): (v: nat)
    requires AllDigits(d)
  {
    if d == [] then 0 else 10 * DigitsValue(d[..|d| - 1]) + (d[|d| - 1] - ZERO)
  }

  /** strconv.ParseInt in base 10 for 64 bits, with 0 for every error as parseNumber has it. */
  function ParseIntOrZero(text: seq<byte>): int64 {
    var signed := text != [] && (text[0] == MINUS || text[0] == PLUS);
    var digits := if signed then text[1..] else text;
    if digits == [] || !AllDigits(digits) then 0
    else
      var m: int := DigitsValue(digits);
      var v := if signed && text[0] == MINUS then -m else m;
      if -0x8000_0000_0000_0000 <= v <= MAX_INT64 then v else 0
  }

  function ParseNumber(s: seq<byte>): (p: Parsed<Obj>)
    ensures p.Ok? && |p.rest| <= |s|
  {
    var t := ScanNumber(s, true);
    Ok(if t.isFloat then Float(t.text) else Int(ParseIntOrZero(t.text)), t.rest)
  }

  // ----- Strings

  /** One to three octal digits at the front. */
  function OctalDigits(s: seq<byte>): (n: nat)
    requires |s| >= 3 && IsOctalDigit(s[0])
    ensures 1 <= n <= 3
  {
    if !IsOctalDigit(s[1]) then 1 else if !IsOctalDigit(s[2]) then 2 else 3
  }

  function OctalValue(s: seq<byte>, n: nat): (v: byte)
    requires 1 <= n <= 3 <= |s|
    requires forall i :: 0 <= i < n ==> IsOctalDigit(s[i])
  {
    assert IsOctalDigit(s[0]);
    if n == 1 then s[0] - ZERO
    else
      assert IsOctalDigit(s[1]);
      if n == 2 then 8 * (s[0] - ZERO) + (s[1] - ZERO)
      else (64 * (s[0] - ZERO) + 8 * (s[1] - ZERO) + (s[2] - ZERO)) % 256
  }

  /** The byte an escape letter stands for; an unknown letter stands for nothing. */
  function Unescape(c: byte): (v: seq<byte>) {
    if c == 0x6E then [LF] else if c == 0x72 then [CR] else if c == 0x74 then [TAB]
    else if c == 0x62 then [0x08] else if c == 0x66 then [0x0C]
    else if c == LPAREN || c == RPAREN || c == BACKSLASH then [c]
    else []
  }

  /** An escape sequence at the front: the bytes it stands for. */
  function Escape(s: seq<byte>): (p: Parsed<seq<byte>>)
    requires s != []
    ensures p.Ok? ==> |p.rest| < |s|
  {
    if |s| < 2 then Failed(Syntax)
    else if IsOctalDigit(s[1]) then
      if |s| < 4 then Failed(Syntax)
      else
        var n := OctalDigits(s[1..]);
        Ok([OctalValue(s[1..], n)], s[1 + n..])
    else Ok(Unescape(s[1]), s[2..])
  }

  /** The part after the opening parenthesis, with count parentheses open. */
  function LiteralBody(s: seq<byte>, count: int): (p: Parsed<seq<byte>>)
    ensures p.Ok? ==> |p.rest| < |s|
  {
    if s == [] then Failed(Syntax)
    else if s[0] == BACKSLASH then
      match Escape(s)
      case Ok(v, t) => Prepend(v, LiteralBody(t, count))
      case Failed(why) => Failed(why)
    else if s[0] == LPAREN then Prepend([s[0]], LiteralBody(s[1..], count + 1))
    else if s[0] == RPAREN && count == 1 then Ok([], s[1..])
    else if s[0] == RPAREN then Prepend([s[0]], LiteralBody(s[1..], count - 1))
    else Prepend([s[0]], LiteralBody(s[1..], count))
  }

  /** The bytes up to the closing angle bracket, white space left out. */
  function HexText(s: seq<byte>): (p: Parsed<seq<byte>>)
    ensures p.Ok? ==> |p.rest| < |s|
  {
    if s == [] then Failed(Syntax)
    else if s[0] == GREATER then Ok([], s[1..])
    else if IsWhiteSpace(s[0]) then HexText(s[1..])
    else Prepend([s[0]], HexText(s[1..]))
  }

  /** hex.DecodeString: decoding stops silently at the first pair that is not hexadecimal. */
  function HexDecode(h: seq<byte>): seq<byte> {
    if |h| < 2 || !IsHexDigit(h[0]) || !IsHexDigit(h[1]) then []
    else [16 * HexValue(h[0]) + HexValue(h[1])] + HexDecode(h[2..])
  }

  function PadHex(h: seq<byte>): seq<byte> {
    if |h| % 2 == 1 then h + [ZERO] else h
  }

  function ParseHexString(s: seq<byte>): (p: Parsed<Obj>)
    ensures p.Ok? ==> |p.rest| < |s|
  {
    match HexText(s)
    case Ok(h, t) => Ok(Str(HexDecode(PadHex(h)), true), t)
    case Failed(why) => Failed(why)
  }

  // ----- Tokens without a distinguishing first byte

  function SkipRegexSpaces(s: seq<byte>): (r: seq<byte>)
    ensures |r| <= |s|
  {
    if s != [] && IsRegexSpace(s[0]) then SkipRegexSpaces(s[1..]) else s
  }

  function DigitRun(s: seq<byte>): (d: seq<byte>)
    ensures d <= s
    ensures AllDigits(d)
  {
    if s != [] && IsDecimalDigit(s[0]) then [s[0]] + DigitRun(s[1..]) else []
  }

  /** strconv.Atoi of digits, whose range error is ignored: the largest integer stands for a larger one. */
  function Atoi(d: seq<byte>): int64
    requires AllDigits(d)
  {
    if DigitsValue(d) <= MAX_INT64 then DigitsValue(d) else MAX_INT64
  }

  /** The expression ^\s*(\d+)\s+(\d+)\s+R on a text: the two numbers of a reference. */
  function MatchReference(s: seq<byte>): Option<Obj> {
    var a := SkipRegexSpaces(s);
    var n := DigitRun(a);
    var b := a[|n|..];
    var c := SkipRegexSpaces(b);
    var g := DigitRun(c);
    var d := c[|g|..];
    var e := SkipRegexSpaces(d);
    if n != [] && |c| < |b| && g != [] && |e| < |d| && e != [] && e[0] == UPPER_R then Some(Ref(Atoi(n), Atoi(g)))
    else None
  }

  /** The expression ^[\+-.]*([0-9.]+), whose class is the range from '+' to '.' and so has the comma in it. */
  predicate MatchesNumeric(s: seq<byte>) {
    s != [] && (IsFloatDigit(s[0]) || ((s[0] == PLUS || s[0] == MINUS || s[0] == 0x2C) && MatchesNumeric(s[1..])))
  }

  /** What is left after reading up to and including the first 'R'. */
  function AfterR(s: seq<byte>): (r: seq<byte>)
    ensures |r| <= |s|
  {
    if s == [] then [] else if s[0] == UPPER_R then s[1..] else AfterR(s[1..])
  }

  function Window(s: seq<byte>, n: nat): (w: seq<byte>)
    ensures w <= s
  {
    if |s| <= n then s else s[..n]
  }

  function ParseToken(s: seq<byte>): (p: Parsed<Obj>)
    ensures p.Ok? ==> |p.rest| <= |s|
  {
    var peek := Window(s, 15);
    if NULL_TEXT <= peek then Ok(Null, s[4..])
    else if FALSE_TEXT <= peek then Ok(Bool(false), s[5..])
    else if TRUE_TEXT <= peek then Ok(Bool(true), s[4..])
    else if MatchReference(peek).Some? then
      var rest := AfterR(s);
      match MatchReference(s[..|s| - |rest|])
      case Some(ref) => Ok(ref, rest)
      case None => Failed(Syntax)
    else if MatchesNumeric(peek) then ParseNumber(s)
    else Failed(Syntax)
  }

  // ----- Composite objects

  function ParseObject(s0: seq<byte>): (p: Parsed<Obj>)
    ensures p.Ok? ==> |p.rest| <= |s0|
    decreases |s0|, 0
  {
    var s := SkipComments(s0);
    if s == [] then Failed(Syntax)
    else if s[0] == SLASH then
      match ParseName(s)
      case Ok(n, t) => Ok(Name(n), t)
      case Failed(why) => Failed(why)
    else if s[0] == LPAREN then
      match LiteralBody(s[1..], 1)
      case Ok(v, t) => Ok(Str(v, false), t)
      case Failed(why) => Failed(why)
    else if s[0] == LBRACKET then ArrayLoop(s[1..], [])
    else if s[0] == LESS && |s| >= 2 && s[1] == LESS then DictLoop(s[2..], [])
    else if s[0] == LESS then ParseHexString(s[1..])
    else ParseToken(s)
  }

  /** The loop of parseArray, with the elements read so far. */
  function ArrayLoop(s: seq<byte>, arr: seq<Obj>): (p: Parsed<Obj>)
    ensures p.Ok? ==> |p.rest| < |s|
    decreases |s|, 1
  {
    var t := SkipSpaces(s);
    if t == [] then Failed(Syntax)
    else if t[0] == RBRACKET then Ok(Arr(arr), t[1..])
    else
      match ParseObject(t)
      case Ok(v, u) => if |u| == |t| then Failed(NoProgress) else ArrayLoop(u, arr + [v])
      case Failed(why) => Failed(why)
  }

  predicate HasNullSuffix(key: seq<byte>) {
    |key| > 4 && key[|key| - 4..] == NULL_TEXT
  }

  /** One round of the loop of ParseDict: a key and its value are read and set. */
  function DictEntry(t: seq<byte>, d: seq<Entry>): (p: Parsed<seq<Entry>>)
    requires t != []
    ensures p.Ok? ==> |p.rest| < |t|
    decreases |t|, 1
  {
    match ParseName(t)
    case Failed(why) => Failed(why)
    case Ok(key, t1) =>
      var u := SkipSpaces(t1);
      if HasNullSuffix(key) && u == [] then Failed(IndexPanic)
      else if HasNullSuffix(key) && u[0] == SLASH then Ok(SetEntry(d, key[..|key| - 4], Null), u)
      else
        match ParseObject(u)
        case Ok(v, w) => Ok(SetEntry(d, key, v), w)
        case Failed(why) => Failed(why)
  }

  /** The loop of ParseDict, with the entries read so far. */
  function DictLoop(s: seq<byte>, d: seq<Entry>): (p: Parsed<Obj>)
    ensures p.Ok? ==> |p.rest| < |s|
    decreases |s|, 2
  {
    var t := SkipComments(s);
    if |t| < 2 then Failed(Syntax)
    else if t[0] == GREATER && t[1] == GREATER then Ok(Dict(d), t[2..])
    else
      match DictEntry(t, d)
      case Ok(d', w) => DictLoop(w, d')
      case Failed(why) => Failed(why)
  }
}
