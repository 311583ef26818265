/** The object parser as it runs: a reader whose position moves through the bytes of the file. */
module PdfParser {
  import opened Options
  import opened Symbols
  import opened Objects
  import opened ParserSpec
  import opened PdfDictionary

  /** How a parsing method ends. */
  datatype Outcome<+T> = Value(value: T) | Error(why: Failure)

  lemma PrependTwice(a: seq<byte>, b: seq<byte>, p: Parsed<seq<byte>>)
    ensures Prepend(a, Prepend(b, p)) == Prepend(a + b, p)
  {
    if p.Ok? { assert a + (b + p.value) == a + b + p.value; }
  }

  lemma PrependTextTwice(a: seq<byte>, b: seq<byte>, f: bool, g: bool, t: NumberText)
    ensures PrependText(a, f, PrependText(b, g, t)) == PrependText(a + b, f || g, t)
  {
    assert a + (b + t.text) == a + b + t.text;
  }

  lemma PrependNothing(p: Parsed<seq<byte>>)
    ensures Prepend([], p) == p
  {
    if p.Ok? { assert [] + p.value == p.value; }
  }

  /** Where a name begins. */
  lemma {:induction false} NameBegins(s: seq<byte>)
    ensures s == [] ==> ParserSpec.ParseName(s) == Ok([], [])
    ensures s != [] && s[0] == SLASH ==> ParserSpec.ParseName(s) == NameBody(s[1..])
    ensures s != [] && s[0] == PERCENT ==> ParserSpec.ParseName(s) == ParserSpec.ParseName(SkipSpaces(SkipLine(s[1..])))
    ensures s != [] && s[0] != SLASH && s[0] != PERCENT ==> ParserSpec.ParseName(s) == Failed(Syntax)
  {
  }

  /** Where a name ends. */
  lemma {:induction false} NameEnds(name: seq<byte>, s: seq<byte>)
    ensures s == [] || EndsName(s[0]) ==> Prepend(name, NameBody(s)) == Ok(name, s)
    ensures s != [] && s[0] == HASH && |s| < 3 ==> Prepend(name, NameBody(s)) == Failed(Syntax)
  {
    assert name + [] == name;
  }

  lemma {:induction false} AfterByte(name: seq<byte>, s: seq<byte>)
    requires s != [] && s[0] != HASH && !EndsName(s[0])
    ensures Prepend(name, NameBody(s)) == Prepend(name + [s[0]], NameBody(s[1..]))
  {
    PrependTwice(name, [s[0]], NameBody(s[1..]));
  }

  lemma {:induction false} AfterHash(name: seq<byte>, s: seq<byte>)
    requires |s| >= 3 && s[0] == HASH
    ensures Prepend(name, NameBody(s)) ==
      Prepend(name + [if IsHexDigit(s[1]) && IsHexDigit(s[2]) then 16 * HexValue(s[1]) + HexValue(s[2]) else HASH], NameBody(s[3..]))
  {
    PrependTwice(name, [if IsHexDigit(s[1]) && IsHexDigit(s[2]) then 16 * HexValue(s[1]) + HexValue(s[2]) else HASH], NameBody(s[3..]));
  }

  class Parser {
    const input: seq<byte>
    var pos: nat

    ghost predicate Valid()
      reads this
    {
      pos <= |input|
    }

    /** The bytes not yet read. */
    ghost function Unread(): seq<byte>
      requires Valid()
      reads this
    {
      input[pos..]
    }

    /** The method did what the specification says: its value, and where it left the reader. */
    ghost predicate Reaches<T>(r: Outcome<T>, p: Parsed<T>)
      reads this
    {
      match p
      case Ok(v, rest) => Valid() && r == Value(v) && Unread() == rest
      case Failed(why) => Valid() && r == Error(why)
    }

    constructor (input: seq<byte>)
      ensures Valid() && Unread() == input
    {
      this.input := input;
      pos := 0;
    }

    method Peek(n: nat) returns (bb: seq<byte>)
      requires Valid()
      ensures bb == Window(Unread(), n)
    {
      bb := input[pos..if pos + n <= |input| then pos + n else |input|];
      assert |Unread()| > n ==> Unread()[..n] == bb;
    }

    method ReadByte() returns (b: byte)
      requires Valid() && pos < |input|
      modifies this
      ensures Valid() && pos == old(pos) + 1
      ensures b == old(Unread())[0] && Unread() == old(Unread())[1..]
    {
      b := input[pos];
      pos := pos + 1;
    }

    method Discard(n: nat)
      requires Valid() && pos + n <= |input|
      modifies this
      ensures Valid() && pos == old(pos) + n && Unread() == old(Unread())[n..]
    {
      pos := pos + n;
    }

    method SkipSpaces()
      requires Valid()
      modifies this
      ensures Valid() && pos >= old(pos) && Unread() == Symbols.SkipSpaces(old(Unread()))
    {
      while pos < |input| && IsWhiteSpace(input[pos])
        invariant old(pos) <= pos <= |input|
        invariant Symbols.SkipSpaces(Unread()) == Symbols.SkipSpaces(old(Unread()))
        decreases |input| - pos
      {
        Discard(1);
      }
    }

    /** Reads up to the end of the line that a comment is on. */
    method ReadLine()
      requires Valid()
      modifies this
      ensures Valid() && pos >= old(pos) && Unread() == SkipLine(old(Unread()))
    {
      while pos < |input| && input[pos] != CR && input[pos] != LF
        invariant old(pos) <= pos <= |input|
        invariant SkipLine(Unread()) == SkipLine(old(Unread()))
        decreases |input| - pos
      {
        Discard(1);
      }
    }

    method SkipComments()
      requires Valid()
      modifies this
      ensures Valid() && pos >= old(pos) && Unread() == Symbols.SkipComments(old(Unread()))
      decreases |input| - pos
    {
      SkipSpaces();
      if pos < |input| && input[pos] == PERCENT {
        Discard(1);
        ReadLine();
        SkipComments();
      }
    }

    method ParseName() returns (r: Outcome<seq<byte>>)
      requires Valid()
      modifies this
      ensures pos >= old(pos) && Reaches(r, ParserSpec.ParseName(old(Unread())))
    {
      hide ParserSpec.ParseName, NameBody, Prepend, EndsName, IsHexDigit, HexValue, IsWhiteSpace;
      ghost var goal := ParserSpec.ParseName(Unread());
      var name: seq<byte> := [];
      var nameStarted := false;
      while pos < |input|
        invariant old(pos) <= pos <= |input|
        invariant !nameStarted ==> name == [] && ParserSpec.ParseName(Unread()) == goal
        invariant nameStarted ==> Prepend(name, NameBody(Unread())) == goal
        decreases |input| - pos
      {
        var c := input[pos];
        assert c == Unread()[0];
        NameBegins(Unread());
        NameEnds(name, Unread());
        if !nameStarted {
          if c == SLASH {
            nameStarted := true;
            Discard(1);
            PrependNothing(goal);
          } else if c == PERCENT {
            Discard(1);
            ReadLine();
            SkipSpaces();
          } else {
            return Error(Syntax);
          }
        } else if EndsName(c) {
          break;
        } else if c == HASH {
          var hexcode := Peek(3);
          if |hexcode| < 3 {
            return Error(Syntax);
          }
          AfterHash(name, Unread());
          Discard(3);
          if IsHexDigit(hexcode[1]) && IsHexDigit(hexcode[2]) {
            name := name + [16 * HexValue(hexcode[1]) + HexValue(hexcode[2])];
          } else {
            name := name + [HASH];
          }
        } else {
          AfterByte(name, Unread());
          Discard(1);
          name := name + [c];
        }
      }
      NameBegins(Unread());
      NameEnds(name, Unread());
      r := Value(name);
    }

    method ParseNumber() returns (r: Outcome<Obj>)
      requires Valid()
      modifies this
      ensures pos >= old(pos) && Reaches(r, ParserSpec.ParseNumber(old(Unread())))
    {
      ghost var goal := ScanNumber(Unread(), true);
      var isFloat, allowSigns, text: seq<byte> := false, true, [];
      assert goal == PrependText([], false, goal) by { assert [] + goal.text == goal.text; }
      while pos < |input|
        invariant old(pos) <= pos <= |input|
        invariant PrependText(text, isFloat, ScanNumber(Unread(), allowSigns)) == goal
        decreases |input| - pos
      {
        var c := input[pos];
        assert c == Unread()[0];
        ghost var more := Unread()[1..];
        if allowSigns && (c == MINUS || c == PLUS) {
          PrependTextTwice(text, [c], isFloat, false, ScanNumber(more, false));
          allowSigns := false;
        } else if IsDecimalDigit(c) {
          PrependTextTwice(text, [c], isFloat, false, ScanNumber(more, allowSigns));
        } else if c == DOT {
          PrependTextTwice(text, [c], isFloat, true, ScanNumber(more, allowSigns));
          isFloat := true;
        } else if c == LOWER_E || c == UPPER_E {
          PrependTextTwice(text, [c], isFloat, true, ScanNumber(more, true));
          isFloat, allowSigns := true, true;
        } else {
          break;
        }
        Discard(1);
        text := text + [c];
      }
      assert text + [] == text;
      r := Value(if isFloat then Float(text) else Int(ParseIntOrZero(text)));
    }

    method ParseEscape() returns (r: Outcome<seq<byte>>)
      requires Valid() && pos < |input|
      modifies this
      ensures pos >= old(pos) && Reaches(r, Escape(old(Unread())))
      ensures r.Value? ==> pos > old(pos)
    {
      var bb := Peek(4);
      if |bb| < 2 {
        return Error(Syntax);
      }
      assert bb[1] == Unread()[1];
      if !IsOctalDigit(bb[1]) {
        Discard(2);
        return Value(Unescape(bb[1]));
      }
      if |bb| < 4 {
        return Error(Syntax);
      }
      assert bb[1..] == Unread()[1..][..3];
      var n := OctalDigits(bb[1..]);
      var code := OctalValue(bb[1..], n);
      Discard(1 + n);
      r := Value([code]);
    }

    method ParseString() returns (r: Outcome<seq<byte>>)
      requires Valid() && pos < |input|
      modifies this
      ensures pos >= old(pos) && Reaches(r, LiteralBody(old(Unread())[1..], 1))
    {
      Discard(1);
      ghost var goal := LiteralBody(Unread(), 1);
      var text: seq<byte> := [];
      var count := 1;
      if goal.Ok? { assert [] + goal.value == goal.value; }
      while pos < |input|
        invariant old(pos) < pos <= |input|
        invariant Prepend(text, LiteralBody(Unread(), count)) == goal
        decreases |input| - pos
      {
        var c := input[pos];
        assert c == Unread()[0];
        if c == BACKSLASH {
          var escape := ParseEscape();
          match escape {
            case Error(why) => return Error(why);
            case Value(v) =>
              PrependTwice(text, v, LiteralBody(Unread(), count));
              text := text + v;
          }
        } else if c == RPAREN && count == 1 {
          Discard(1);
          assert text + [] == text;
          return Value(text);
        } else {
          var change := if c == LPAREN then 1 else if c == RPAREN then -1 else 0;
          PrependTwice(text, [c], LiteralBody(Unread()[1..], count + change));
          count := count + change;
          Discard(1);
          text := text + [c];
        }
      }
      r := Error(Syntax);
    }

    method ParseHexString() returns (r: Outcome<Obj>)
      requires Valid() && pos < |input|
      modifies this
      ensures pos >= old(pos) && Reaches(r, ParserSpec.ParseHexString(old(Unread())[1..]))
    {
      Discard(1);
      ghost var goal := HexText(Unread());
      var text: seq<byte> := [];
      if goal.Ok? { assert [] + goal.value == goal.value; }
      while pos < |input|
        invariant old(pos) < pos <= |input|
        invariant Prepend(text, HexText(Unread())) == goal
        decreases |input| - pos
      {
        var c := input[pos];
        assert c == Unread()[0];
        if c == GREATER {
          Discard(1);
          assert text + [] == text;
          return Value(Str(HexDecode(PadHex(text)), true));
        }
        if !IsWhiteSpace(c) {
          PrependTwice(text, [c], HexText(Unread()[1..]));
          text := text + [c];
        }
        Discard(1);
      }
      r := Error(Syntax);
    }

    /** Reads up to and including the first 'R'. */
    method ReadThroughR() returns (bb: seq<byte>)
      requires Valid()
      modifies this
      ensures Valid() && pos >= old(pos)
      ensures Unread() == AfterR(old(Unread()))
      ensures bb == old(Unread())[..|old(Unread())| - |Unread()|]
    {
      var start := pos;
      while pos < |input|
        invariant start == old(pos) <= pos <= |input|
        invariant AfterR(Unread()) == AfterR(old(Unread()))
        decreases |input| - pos
      {
        var c := ReadByte();
        if c == UPPER_R {
          break;
        }
      }
      bb := input[start..pos];
    }

    method ParseToken() returns (r: Outcome<Obj>)
      requires Valid()
      modifies this
      ensures pos >= old(pos) && Reaches(r, ParserSpec.ParseToken(old(Unread())))
    {
      hide MatchReference, MatchesNumeric, ScanNumber;
      var peek := Peek(15);
      if NULL_TEXT <= peek {
        Discard(4);
        return Value(Null);
      } else if FALSE_TEXT <= peek {
        Discard(5);
        return Value(Bool(false));
      } else if TRUE_TEXT <= peek {
        Discard(4);
        return Value(Bool(true));
      }
      if MatchReference(peek).Some? {
        var bb := ReadThroughR();
        match MatchReference(bb) {
          case Some(ref) => return Value(ref);
          case None => return Error(Syntax);
        }
      }
      if MatchesNumeric(peek) {
        r := ParseNumber();
      } else {
        r := Error(Syntax);
      }
    }

    /** The loop of the source repeats without reading when an element takes no byte; that is reported as NoProgress. */
    method ParseArray() returns (r: Outcome<Obj>)
      requires Valid() && pos < |input|
      modifies this
      ensures pos >= old(pos) && Reaches(r, ArrayLoop(old(Unread())[1..], []))
      decreases |input| - pos, 0
    {
      hide ParserSpec.ParseObject;
      Discard(1);
      ghost var goal := ArrayLoop(Unread(), []);
      var arr: seq<Obj> := [];
      while true
        invariant old(pos) < pos <= |input|
        invariant ArrayLoop(Unread(), arr) == goal
        decreases |input| - pos
      {
        SkipSpaces();
        if pos == |input| {
          return Error(Syntax);
        }
        assert input[pos] == Unread()[0];
        if input[pos] == RBRACKET {
          Discard(1);
          return Value(Arr(arr));
        }
        var before := pos;
        var obj := ParseObject();
        match obj {
          case Error(why) => return Error(why);
          case Value(v) =>
            if pos == before {
              return Error(NoProgress);
            }
            arr := arr + [v];
        }
      }
    }

    /** A key and its value; the dictionary is updated. */
    method ParseEntry(dict: PdfObjectDictionary) returns (r: Outcome<()>)
      requires Valid() && pos < |input| && dict.Valid()
      modifies this, dict
      ensures Valid() && pos >= old(pos) && dict.Valid()
      ensures match DictEntry(old(Unread()), old(dict.Entries()))
        case Ok(d, rest) => r == Value(()) && Unread() == rest && dict.Entries() == d
        case Failed(why) => r == Error(why)
      decreases |input| - pos, 0
    {
      hide ParserSpec.ParseObject, ParserSpec.ParseName, SetEntry, EntriesOf, Consistent;
      var name := ParseName();
      if name.Error? {
        return Error(name.why);
      }
      var keyName := name.value;
      SkipSpaces();
      if HasNullSuffix(keyName) {
        if pos == |input| {
          return Error(IndexPanic);
        }
        assert input[pos] == Unread()[0];
        if input[pos] == SLASH {
          dict.Set(keyName[..|keyName| - 4], Null);
          return Value(());
        }
      }
      var val := ParseObject();
      if val.Error? {
        return Error(val.why);
      }
      dict.Set(keyName, val.value);
      r := Value(());
    }

    method ParseDict() returns (r: Outcome<Obj>)
      requires Valid() && [LESS, LESS] <= Unread()
      modifies this
      ensures pos >= old(pos) && Reaches(r, DictLoop(old(Unread())[2..], []))
      decreases |input| - pos, 0
    {
      hide DictEntry, EntriesOf, Consistent, Symbols.SkipComments;
      Discard(2);
      ghost var goal := DictLoop(Unread(), []);
      var dict := new PdfObjectDictionary();
      while true
        invariant old(pos) < pos <= |input|
        invariant fresh(dict) && dict.Valid()
        invariant DictLoop(Unread(), dict.Entries()) == goal
        decreases |input| - pos
      {
        SkipComments();
        var bb := Peek(2);
        if |bb| < 2 {
          return Error(Syntax);
        }
        assert bb[0] == Unread()[0] && bb[1] == Unread()[1];
        if bb[0] == GREATER && bb[1] == GREATER {
          Discard(2);
          return Value(Dict(dict.Entries()));
        }
        var entry := ParseEntry(dict);
        if entry.Error? {
          return Error(entry.why);
        }
      }
    }

    method ParseObject() returns (r: Outcome<Obj>)
      requires Valid()
      modifies this
      ensures pos >= old(pos) && Reaches(r, ParserSpec.ParseObject(old(Unread())))
      decreases |input| - pos, 1
    {
      hide ArrayLoop, DictLoop, ParserSpec.ParseToken, ParserSpec.ParseName, LiteralBody, ParserSpec.ParseHexString;
      ghost var goal := ParserSpec.ParseObject(Unread());
      SkipComments();
      var bb := Peek(2);
      if bb == [] {
        return Error(Syntax);
      }
      assert bb[0] == Unread()[0];
      if bb[0] == SLASH {
        var name := ParseName();
        r := if name.Value? then Value(Name(name.value)) else Error(name.why);
      } else if bb[0] == LPAREN {
        var str := ParseString();
        r := if str.Value? then Value(Str(str.value, false)) else Error(str.why);
      } else if bb[0] == LBRACKET {
        r := ParseArray();
      } else if |bb| == 2 && bb[0] == LESS && bb[1] == LESS {
        assert Unread()[..2] == bb;
        r := ParseDict();
      } else if bb[0] == LESS {
        r := ParseHexString();
      } else {
        r := ParseToken();
      }
    }
  }
}
