/**
 What the content stream parser yields, as functions of the unread bytes. The reader is given the stream with a line
 feed added; running out of bytes is told apart from other errors, because Parse takes it for the end.
 */
module ContentSpec {
  import opened Options
  import opened Symbols
  import opened Objects
  import PS = ParserSpec

  /** EndOfData: an end-of-file error. Invalid: any other error. IndexPanic: an empty look-ahead is indexed. */
  datatype Failure = EndOfData | Invalid | IndexPanic

  datatype Result<+T> = Ok(value: T, rest: seq<byte>) | Failed(why: Failure)

  datatype Token = Value(o: Obj) | Operand(text: seq<byte>)

  /** An operand inside an array or a dictionary is kept as the string it is stored in. */
  function AsObject(t: Token): Obj {
    match t
    case Value(o) => o
    case Operand(text) => Str(text, false)
  }

  function Prepend(front: seq<byte>, r: Result<seq<byte>>): Result<seq<byte>> {
    match r
    case Ok(v, t) => Ok(front + v, t)
    case Failed(why) => Failed(why)
  }

  // ----- Tokens

  /** A byte as a string in Go: the UTF-8 form of the character with that code, two bytes from 0x80 on. */
  function Utf8(c: byte): (u: seq<byte>)
    ensures c < 0x80 <==> u == [c]
  {
    if c < 0x80 then [c] else [0xC0 + c / 64, 0x80 + c % 64]
  }

  /** The part of a name after the slash; two hexadecimal digits have to follow a hash. */
  function NameBody(s: seq<byte>): (r: Result<seq<byte>>)
    ensures r.Ok? ==> |r.rest| <= |s|
  {
    if s == [] then Ok([], [])
    else if PS.EndsName(s[0]) then Ok([], s)
    else if s[0] == HASH then
      if |s| < 3 then Failed(EndOfData)
      else if IsHexDigit(s[1]) && IsHexDigit(s[2]) then Prepend([16 * HexValue(s[1]) + HexValue(s[2])], NameBody(s[3..]))
      else Failed(Invalid)
    else Prepend(Utf8(s[0]), NameBody(s[1..]))
  }

  /** The bytes of a number; unlike in files, an exponent is a small e only. */
  function ScanNumber(s: seq<byte>, allowSigns: bool): (t: PS.NumberText)
    ensures |t.rest| <= |s|
    ensures s != [] && (IsFloatDigit(s[0]) || (allowSigns && s[0] == MINUS)) ==> |t.rest| < |s|
  {
    if s == [] then PS.NumberText([], false, s)
    else if allowSigns && (s[0] == MINUS || s[0] == PLUS) then PS.PrependText([s[0]], false, ScanNumber(s[1..], false))
    else if IsDecimalDigit(s[0]) then PS.PrependText([s[0]], false, ScanNumber(s[1..], allowSigns))
    else if s[0] == DOT then PS.PrependText([s[0]], true, ScanNumber(s[1..], allowSigns))
    else if s[0] == LOWER_E then PS.PrependText([s[0]], true, ScanNumber(s[1..], true))
    else PS.NumberText([], false, s)
  }

  function NumberOf(t: PS.NumberText): Obj {
    if t.isFloat then Float(t.text) else Int(PS.ParseIntOrZero(t.text))
  }

  /** The hexadecimal digits up to the closing angle bracket; all else is left out. */
  function HexText(s: seq<byte>): (r: Result<seq<byte>>)
    ensures r.Ok? ==> |r.rest| < |s|
  {
    if s == [] then Failed(EndOfData)
    else if s[0] == GREATER then Ok([], s[1..])
    else if IsHexDigit(s[0]) then Prepend([s[0]], HexText(s[1..]))
    else HexText(s[1..])
  }

  function OperandText(s: seq<byte>): (r: Result<seq<byte>>)
    ensures r.Ok? ==> |r.rest| + |r.value| == |s|
    ensures r.Ok? ==> forall i :: 0 <= i < |r.value| ==> !IsDelimiter(r.value[i]) && !IsWhiteSpace(r.value[i])
  {
    if s == [] then Failed(EndOfData)
    else if IsDelimiter(s[0]) || IsWhiteSpace(s[0]) then Ok([], s)
    else Prepend([s[0]], OperandText(s[1..]))
  }

  predicate StartsNumber(s: seq<byte>) {
    s != [] && (IsFloatDigit(s[0]) || (s[0] == MINUS && |s| > 1 && IsFloatDigit(s[1])))
  }

  predicate StartsKeyword(s: seq<byte>) {
    NULL_TEXT <= s || FALSE_TEXT <= s || TRUE_TEXT <= s
  }

  /** Keywords, which need not end where they end, and operands. */
  function Word(s: seq<byte>): (r: Result<Token>)
    ensures r.Ok? ==> |r.rest| < |s|
  {
    if NULL_TEXT <= s then Ok(Value(Null), s[4..])
    else if FALSE_TEXT <= s then Ok(Value(Bool(false)), s[5..])
    else if TRUE_TEXT <= s then Ok(Value(Bool(true)), s[4..])
    else
      match OperandText(s)
      case Ok(t, rest) => if t == [] then Failed(Invalid) else Ok(Operand(t), rest)
      case Failed(why) => Failed(why)
  }

  // ----- Objects

  function ParseObject(s0: seq<byte>): (r: Result<Token>)
    ensures r.Ok? ==> |r.rest| < |s0|
    decreases |s0|, 0
  {
    var s := SkipComments(s0);
    if |s| < 2 then Failed(EndOfData)
    else if s[0] == SLASH then
      match NameBody(s[1..])
      case Ok(n, t) => Ok(Value(Name(n)), t)
      case Failed(why) => Failed(why)
    else if s[0] == LPAREN then
      match PS.LiteralBody(s[1..], 1)
      case Ok(v, t) => Ok(Value(Str(v, false)), t)
      case Failed(_) => Failed(EndOfData)
    else if s[0] == LESS && s[1] != LESS then
      match HexText(s[1..])
      case Ok(h, t) => Ok(Value(Str(PS.HexDecode(PS.PadHex(h)), true)), t)
      case Failed(why) => Failed(why)
    else if s[0] == LBRACKET then
      match ArrayLoop(s[1..], [])
      case Ok(a, t) => Ok(Value(a), t)
      case Failed(why) => Failed(why)
    else if StartsNumber(s) then
      var t := ScanNumber(s, true);
      Ok(Value(NumberOf(t)), t.rest)
    else if s[0] == LESS then
      match DictLoop(s[2..], [])
      case Ok(d, t) => Ok(Value(d), t)
      case Failed(why) => Failed(why)
    else Word(s)
  }

  function ArrayLoop(s: seq<byte>, arr: seq<Obj>): (r: Result<Obj>)
    ensures r.Ok? ==> |r.rest| < |s|
    decreases |s|, 1
  {
    var t := SkipSpaces(s);
    if t == [] then Failed(EndOfData)
    else if t[0] == RBRACKET then Ok(Arr(arr), t[1..])
    else
      match ParseObject(t)
      case Ok(v, u) => ArrayLoop(u, arr + [AsObject(v)])
      case Failed(why) => Failed(why)
  }

  /** One round of the loop of parseDict. */
  function DictEntry(t: seq<byte>, d: seq<Entry>): (r: Result<seq<Entry>>)
    requires t != []
    ensures r.Ok? ==> |r.rest| < |t|
    decreases |t|, 1
  {
    if t[0] != SLASH then Failed(Invalid)
    else
      match NameBody(t[1..])
      case Failed(why) => Failed(why)
      case Ok(key, t1) =>
        var u := SkipSpaces(t1);
        if PS.HasNullSuffix(key) && u == [] then Failed(IndexPanic)
        else if PS.HasNullSuffix(key) && u[0] == SLASH then Ok(SetEntry(d, key[..|key| - 4], Null), u)
        else
          match ParseObject(u)
          case Ok(v, w) => Ok(SetEntry(d, key, AsObject(v)), w)
          case Failed(why) => Failed(why)
  }

  function DictLoop(s: seq<byte>, d: seq<Entry>): (r: Result<Obj>)
    ensures r.Ok? ==> |r.rest| < |s|
    decreases |s|, 2
  {
    var t := SkipSpaces(s);
    if |t| < 2 then Failed(EndOfData)
    else if t[0] == GREATER && t[1] == GREATER then Ok(Dict(d), t[2..])
    else
      match DictEntry(t, d)
      case Ok(d', w) => DictLoop(w, d')
      case Failed(why) => Failed(why)
  }

  // ----- Inline images

  /** The entries of an inline image, in the order in which they are written. */
  datatype Field = BPC | CS | D | DP | F | H | IM | Intent | I | W

  datatype Image = Image(params: map<Field, Obj>, data: seq<byte>)

  const ID_TEXT: seq<byte> := [0x49, 0x44]
  const EI_TEXT: seq<byte> := [0x45, 0x49]
  const BI_TEXT: seq<byte> := [0x42, 0x49]
  const UPPER_I: byte := 0x49

  function Ascii(s: string): (b: seq<byte>)
    ensures |b| == |s| && forall i :: 0 <= i < |s| && s[i] < 128 as char ==> b[i] as char == s[i]
  {
    seq(|s|, i requires 0 <= i < |s| => if s[i] < 128 as char then s[i] as byte else 0)
  }

  function Abbreviation(f: Field): string {
    match f
    case BPC => "BPC" case CS => "CS" case D => "D" case DP => "DP" case F => "F"
    case H => "H" case IM => "IM" case Intent => "Intent" case I => "I" case W => "W"
  }

  function FullName(f: Field): string {
    match f
    case BPC => "BitsPerComponent" case CS => "ColorSpace" case D => "Decode" case DP => "DecodeParms" case F => "Filter"
    case H => "Height" case IM => "ImageMask" case Intent => "Intent" case I => "Interpolate" case W => "Width"
  }

  const FIELDS: seq<Field> := [BPC, CS, D, DP, F, H, IM, Intent, I, W]

  function Characters(b: seq<byte>): (s: string)
    ensures |s| == |b| && forall i :: 0 <= i < |b| ==> s[i] == b[i] as char
  {
    seq(|b|, i requires 0 <= i < |b| => b[i] as char)
  }

  predicate Names(f: Field, name: seq<byte>) {
    Characters(name) == Abbreviation(f) || Characters(name) == FullName(f)
  }

  /** The entry that a name stands for, abbreviated or in full. */
  function FieldOf(name: seq<byte>): Option<Field> {
    if Names(BPC, name) then Some(BPC) else if Names(CS, name) then Some(CS)
    else if Names(D, name) then Some(D) else if Names(DP, name) then Some(DP)
    else if Names(F, name) then Some(F) else if Names(H, name) then Some(H)
    else if Names(IM, name) then Some(IM) else if Names(Intent, name) then Some(Intent)
    else if Names(I, name) then Some(I) else if Names(W, name) then Some(W)
    else None
  }

  predicate Either(name: seq<byte>, short: string, long: string) {
    Characters(name) == short || Characters(name) == long
  }

  /** The names of the entries (table 93 of PDF 32000-1), and no others. */
  lemma {:induction false} FieldNames(name: seq<byte>)
    ensures Either(name, "BPC", "BitsPerComponent") <==> FieldOf(name) == Some(BPC)
    ensures Either(name, "CS", "ColorSpace") <==> FieldOf(name) == Some(CS)
    ensures Either(name, "D", "Decode") <==> FieldOf(name) == Some(D)
    ensures Either(name, "DP", "DecodeParms") <==> FieldOf(name) == Some(DP)
    ensures Either(name, "F", "Filter") <==> FieldOf(name) == Some(F)
    ensures Either(name, "H", "Height") <==> FieldOf(name) == Some(H)
    ensures Either(name, "IM", "ImageMask") <==> FieldOf(name) == Some(IM)
    ensures Either(name, "Intent", "Intent") <==> FieldOf(name) == Some(Intent)
    ensures Either(name, "I", "Interpolate") <==> FieldOf(name) == Some(I)
    ensures Either(name, "W", "Width") <==> FieldOf(name) == Some(W)
  {
    hide *;
    FirstNames(name);
    OtherNames(name);
    forall f: Field ensures Names(f, name) <==> FieldOf(name) == Some(f) { FieldNamed(f, name); }
  }

  lemma {:induction false} FieldNamed(f: Field, name: seq<byte>)
    ensures Names(f, name) <==> FieldOf(name) == Some(f)
  {
    hide Names;
    if Names(f, name) {
      forall g: Field | Names(g, name) ensures g == f { OneField(f, g, name); }
    }
  }

  lemma {:induction false} FirstNames(name: seq<byte>)
    ensures Names(BPC, name) <==> Either(name, "BPC", "BitsPerComponent")
    ensures Names(CS, name) <==> Either(name, "CS", "ColorSpace")
    ensures Names(D, name) <==> Either(name, "D", "Decode")
    ensures Names(DP, name) <==> Either(name, "DP", "DecodeParms")
    ensures Names(F, name) <==> Either(name, "F", "Filter")
  {
    hide Characters;
  }

  lemma {:induction false} OtherNames(name: seq<byte>)
    ensures Names(H, name) <==> Either(name, "H", "Height")
    ensures Names(IM, name) <==> Either(name, "IM", "ImageMask")
    ensures Names(Intent, name) <==> Either(name, "Intent", "Intent")
    ensures Names(I, name) <==> Either(name, "I", "Interpolate")
    ensures Names(W, name) <==> Either(name, "W", "Width")
  {
    hide Characters;
  }

  /** No two entries have a name in common. */
  lemma {:induction false} OneField(f: Field, g: Field, name: seq<byte>)
    requires Names(f, name) && Names(g, name)
    ensures f == g
  {
    hide Characters;
  }

  /**
   The scanner for the end of the data, "EI" between white space. In state 0 no byte is pending; in the other states
   the pending bytes may be its beginning.
   */
  function ScanData(s: seq<byte>, state: nat, data: seq<byte>, pending: seq<byte>): (r: Result<seq<byte>>)
    ensures r.Ok? ==> |r.rest| <= |s|
  {
    if s == [] then Failed(EndOfData)
    else
      var c, all := s[0], pending + [s[0]];
      if state == 0 then
        if IsWhiteSpace(c) then ScanData(s[1..], 1, data, [c]) else ScanData(s[1..], 0, data + [c], pending)
      else if state == 1 then
        if c == UPPER_E then ScanData(s[1..], 2, data, all)
        else ScanData(s[1..], if IsWhiteSpace(c) then 1 else 0, data + all, [])
      else if state == 2 then
        if c == UPPER_I then ScanData(s[1..], 3, data, all) else ScanData(s[1..], 0, data + all, [])
      else if IsWhiteSpace(c) then Ok(data, s[1..])
      else ScanData(s[1..], 0, data + all, [])
  }

  /** ParseInlineImage, with the entries read so far. Operands other than EI and ID are passed over. */
  function ParseImage(s: seq<byte>, params: map<Field, Obj>): (r: Result<Image>)
    ensures r.Ok? ==> |r.rest| < |s|
    decreases |s|
  {
    match ParseObject(SkipSpaces(s))
    case Failed(why) => Failed(why)
    case Ok(Value(o), t) =>
      if !o.Name? then Failed(Invalid)
      else
        (match ParseObject(t)
         case Failed(why) => Failed(why)
         case Ok(Operand(_), _) => Failed(Invalid)
         case Ok(Value(v), u) =>
           if FieldOf(o.name).None? then Failed(Invalid) else ParseImage(u, params[FieldOf(o.name).value := v]))
    case Ok(Operand(text), t) =>
      if text == EI_TEXT then Ok(Image(params, []), t)
      else if text == ID_TEXT then
        if t == [] then Failed(EndOfData)
        else
          match ScanData(if IsWhiteSpace(t[0]) then t[1..] else t, 0, [], [])
          case Ok(data, u) => Ok(Image(params, data), u)
          case Failed(why) => Failed(why)
      else ParseImage(t, params)
  }

  // ----- Operations

  datatype Arg = Object(o: Obj) | InlineImage(im: Image)

  datatype Operation = Operation(operand: seq<byte>, params: seq<Arg>)

  datatype Outcome = Parsed(ops: seq<Operation>) | ParseError | Crashed

  function Cons(op: Operation, o: Outcome): Outcome {
    match o
    case Parsed(ops) => Parsed([op] + ops)
    case _ => o
  }

  /** The loops of Parse, with the parameters read for the next operand. What is left at the end of the data is dropped. */
  function ParseOps(s: seq<byte>, params: seq<Arg>): Outcome
    decreases |s|
  {
    match ParseObject(s)
    case Failed(EndOfData) => Parsed([])
    case Failed(Invalid) => ParseError
    case Failed(IndexPanic) => Crashed
    case Ok(Value(o), t) => ParseOps(t, params + [Object(o)])
    case Ok(Operand(text), t) =>
      if text != BI_TEXT then Cons(Operation(text, params), ParseOps(t, []))
      else
        match ParseImage(t, map[])
        case Ok(im, u) => Cons(Operation(text, params + [InlineImage(im)]), ParseOps(u, []))
        case Failed(IndexPanic) => Crashed
        case Failed(_) => ParseError
  }

  function Parse(content: seq<byte>): Outcome {
    ParseOps(content + [LF], [])
  }
}
