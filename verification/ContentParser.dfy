/** The content stream parser as it runs, and the loops that write operations. */
module ContentParser {
  import opened Symbols
  import opened Objects
  import PS = ParserSpec
  import opened PdfDictionary
  import PdfParser
  import opened ContentSpec
  import opened ContentPrint
  import InlineData

  lemma PrependTwice(a: seq<byte>, b: seq<byte>, p: Result<seq<byte>>)
    ensures Prepend(a, Prepend(b, p)) == Prepend(a + b, p)
  {
    if p.Ok? { assert a + (b + p.value) == a + b + p.value; }
  }

  lemma PrependNothing(p: Result<seq<byte>>)
    ensures Prepend([], p) == p
  {
    if p.Ok? { assert [] + p.value == p.value; }
  }

  lemma {:induction false} AfterHash(name: seq<byte>, s: seq<byte>)
    requires |s| >= 3 && s[0] == HASH
    ensures Prepend(name, NameBody(s)) ==
      if IsHexDigit(s[1]) && IsHexDigit(s[2]) then Prepend(name + [16 * HexValue(s[1]) + HexValue(s[2])], NameBody(s[3..]))
      else Failed(Invalid)
  {
    if IsHexDigit(s[1]) && IsHexDigit(s[2]) { PrependTwice(name, [16 * HexValue(s[1]) + HexValue(s[2])], NameBody(s[3..])); }
  }

  lemma {:induction false} AfterByte(name: seq<byte>, s: seq<byte>)
    requires s != [] && s[0] != HASH && !PS.EndsName(s[0])
    ensures Prepend(name, NameBody(s)) == Prepend(name + Utf8(s[0]), NameBody(s[1..]))
  {
    PrependTwice(name, Utf8(s[0]), NameBody(s[1..]));
  }

  /** Where the name ends. */
  lemma {:induction false} NameEnds(name: seq<byte>, s: seq<byte>)
    ensures s == [] || PS.EndsName(s[0]) ==> Prepend(name, NameBody(s)) == Ok(name, s)
    ensures s != [] && s[0] == HASH && |s| < 3 ==> Prepend(name, NameBody(s)) == Failed(EndOfData)
  {
    assert name + [] == name;
  }

  lemma InWindow(w: seq<byte>, s: seq<byte>)
    requires |w| <= 5
    ensures w <= PS.Window(s, 5) <==> w <= s
  {
  }

  /** How a method ends. */
  datatype Ending<+T> = Returns(value: T) | Fails(why: Failure)

  class ContentStreamParser {
    // Reading bytes, white space, comments and literal strings is the same as in the parser of files.
    const reader: PdfParser.Parser

    ghost predicate Valid()
      reads reader
    {
      reader.Valid()
    }

    ghost function Unread(): seq<byte>
      requires Valid()
      reads reader
    {
      reader.Unread()
    }

    ghost predicate Reaches<T>(e: Ending<T>, r: Result<T>)
      reads reader
    {
      match r
      case Ok(v, rest) => Valid() && e == Returns(v) && Unread() == rest
      case Failed(why) => Valid() && e == Fails(why)
    }

    /** A line feed is added to the content. */
    constructor (content: seq<byte>)
      ensures Valid() && fresh(reader) && Unread() == content + [LF]
    {
      var r := new PdfParser.Parser(content + [LF]);
      reader := r;
    }

    method ParseName() returns (e: Ending<seq<byte>>)
      requires Valid() && Unread() != [] && Unread()[0] == SLASH
      modifies reader
      ensures reader.pos >= old(reader.pos) && Reaches(e, NameBody(old(Unread())[1..]))
    {
      hide NameBody, Prepend, PS.EndsName, IsHexDigit, HexValue, IsWhiteSpace, Utf8;
      reader.Discard(1);
      ghost var goal := NameBody(Unread());
      var name: seq<byte> := [];
      PrependNothing(goal);
      while reader.pos < |reader.input|
        invariant old(reader.pos) < reader.pos <= |reader.input|
        invariant Prepend(name, NameBody(Unread())) == goal
        decreases |reader.input| - reader.pos
      {
        var c := reader.input[reader.pos];
        assert c == Unread()[0];
        NameEnds(name, Unread());
        if PS.EndsName(c) {
          break;
        } else if c == HASH {
          var hexcode := reader.Peek(3);
          if |hexcode| < 3 {
            return Fails(EndOfData);
          }
          AfterHash(name, Unread());
          reader.Discard(3);
          if !(IsHexDigit(hexcode[1]) && IsHexDigit(hexcode[2])) {
            return Fails(Invalid);
          }
          name := name + [16 * HexValue(hexcode[1]) + HexValue(hexcode[2])];
        } else {
          AfterByte(name, Unread());
          reader.Discard(1);
          name := name + Utf8(c);
        }
      }
      NameEnds(name, Unread());
      e := Returns(name);
    }

    method ParseNumber() returns (o: Obj)
      requires Valid()
      modifies reader
      ensures Valid() && reader.pos >= old(reader.pos)
      ensures var t := ScanNumber(old(Unread()), true); o == NumberOf(t) && Unread() == t.rest
    {
      ghost var goal := ScanNumber(Unread(), true);
      var isFloat, allowSigns, text: seq<byte> := false, true, [];
      assert goal == PS.PrependText([], false, goal) by { assert [] + goal.text == goal.text; }
      while reader.pos < |reader.input|
        invariant old(reader.pos) <= reader.pos <= |reader.input|
        invariant PS.PrependText(text, isFloat, ScanNumber(Unread(), allowSigns)) == goal
        decreases |reader.input| - reader.pos
      {
        var c := reader.input[reader.pos];
        assert c == Unread()[0];
        ghost var more := Unread()[1..];
        if allowSigns && (c == MINUS || c == PLUS) {
          PdfParser.PrependTextTwice(text, [c], isFloat, false, ScanNumber(more, false));
          allowSigns := false;
        } else if IsDecimalDigit(c) {
          PdfParser.PrependTextTwice(text, [c], isFloat, false, ScanNumber(more, allowSigns));
        } else if c == DOT {
          PdfParser.PrependTextTwice(text, [c], isFloat, true, ScanNumber(more, allowSigns));
          isFloat := true;
        } else if c == LOWER_E {
          PdfParser.PrependTextTwice(text, [c], isFloat, true, ScanNumber(more, true));
          isFloat, allowSigns := true, true;
        } else {
          break;
        }
        reader.Discard(1);
        text := text + [c];
      }
      assert text + [] == text;
      o := if isFloat then Float(text) else Int(PS.ParseIntOrZero(text));
    }

    method ParseHexString() returns (e: Ending<seq<byte>>)
      requires Valid() && Unread() != []
      modifies reader
      ensures reader.pos >= old(reader.pos) && Reaches(e, HexText(old(Unread())[1..]))
    {
      reader.Discard(1);
      ghost var goal := HexText(Unread());
      var text: seq<byte> := [];
      if goal.Ok? { assert [] + goal.value == goal.value; }
      while reader.pos < |reader.input|
        invariant old(reader.pos) < reader.pos <= |reader.input|
        invariant Prepend(text, HexText(Unread())) == goal
        decreases |reader.input| - reader.pos
      {
        var c := reader.input[reader.pos];
        assert c == Unread()[0];
        if c == GREATER {
          reader.Discard(1);
          assert text + [] == text;
          return Returns(text);
        }
        if IsHexDigit(c) {
          PrependTwice(text, [c], HexText(Unread()[1..]));
          text := text + [c];
        }
        reader.Discard(1);
      }
      e := Fails(EndOfData);
    }

    method ParseOperand() returns (e: Ending<seq<byte>>)
      requires Valid()
      modifies reader
      ensures reader.pos >= old(reader.pos) && Reaches(e, OperandText(old(Unread())))
    {
      ghost var goal := OperandText(Unread());
      var text: seq<byte> := [];
      if goal.Ok? { assert [] + goal.value == goal.value; }
      while reader.pos < |reader.input|
        invariant old(reader.pos) <= reader.pos <= |reader.input|
        invariant Prepend(text, OperandText(Unread())) == goal
        decreases |reader.input| - reader.pos
      {
        var c := reader.input[reader.pos];
        assert c == Unread()[0];
        if IsDelimiter(c) || IsWhiteSpace(c) {
          assert text + [] == text;
          return Returns(text);
        }
        PrependTwice(text, [c], OperandText(Unread()[1..]));
        reader.Discard(1);
        text := text + [c];
      }
      e := Fails(EndOfData);
    }

    method ParseWord() returns (e: Ending<Token>)
      requires Valid()
      modifies reader
      ensures reader.pos >= old(reader.pos) && Reaches(e, Word(old(Unread())))
    {
      hide OperandText;
      var peek := reader.Peek(5);
      InWindow(NULL_TEXT, Unread());
      InWindow(FALSE_TEXT, Unread());
      InWindow(TRUE_TEXT, Unread());
      if NULL_TEXT <= peek {
        reader.Discard(4);
        return Returns(Value(Null));
      } else if FALSE_TEXT <= peek {
        reader.Discard(5);
        return Returns(Value(Bool(false)));
      } else if TRUE_TEXT <= peek {
        reader.Discard(4);
        return Returns(Value(Bool(true)));
      }
      var operand := ParseOperand();
      match operand
      case Fails(why) => e := Fails(why);
      case Returns(t) => e := if t == [] then Fails(Invalid) else Returns(Operand(t));
    }

    method ParseArray() returns (e: Ending<Obj>)
      requires Valid() && Unread() != []
      modifies reader
      ensures reader.pos >= old(reader.pos) && Reaches(e, ArrayLoop(old(Unread())[1..], []))
      decreases |reader.input| - reader.pos, 0
    {
      hide ContentSpec.ParseObject;
      reader.Discard(1);
      ghost var goal := ArrayLoop(Unread(), []);
      var arr: seq<Obj> := [];
      while true
        invariant old(reader.pos) < reader.pos <= |reader.input|
        invariant ArrayLoop(Unread(), arr) == goal
        decreases |reader.input| - reader.pos
      {
        reader.SkipSpaces();
        if reader.pos == |reader.input| {
          return Fails(EndOfData);
        }
        assert reader.input[reader.pos] == Unread()[0];
        if reader.input[reader.pos] == RBRACKET {
          reader.Discard(1);
          return Returns(Arr(arr));
        }
        ghost var before := Unread();
        var token := ParseObject();
        match token {
          case Fails(why) => return Fails(why);
          case Returns(t) =>
            assert |Unread()| < |before|;
            arr := arr + [AsObject(t)];
        }
      }
    }

    /** A key and its value; the dictionary is updated. */
    method ParseEntry(dict: PdfObjectDictionary) returns (e: Ending<()>)
      requires Valid() && Unread() != [] && dict.Valid()
      modifies reader, dict
      ensures Valid() && reader.pos >= old(reader.pos) && dict.Valid()
      ensures match DictEntry(old(Unread()), old(dict.Entries()))
        case Ok(d, rest) => e == Returns(()) && Unread() == rest && dict.Entries() == d
        case Failed(why) => e == Fails(why)
      decreases |reader.input| - reader.pos, 0
    {
      hide ContentSpec.ParseObject, NameBody, SetEntry, EntriesOf, Consistent;
      assert reader.input[reader.pos] == Unread()[0];
      if reader.input[reader.pos] != SLASH {
        return Fails(Invalid);
      }
      var name := ParseName();
      if name.Fails? {
        return Fails(name.why);
      }
      var keyName := name.value;
      reader.SkipSpaces();
      if PS.HasNullSuffix(keyName) {
        if reader.pos == |reader.input| {
          return Fails(IndexPanic);
        }
        assert reader.input[reader.pos] == Unread()[0];
        if reader.input[reader.pos] == SLASH {
          dict.Set(keyName[..|keyName| - 4], Null);
          return Returns(());
        }
      }
      var val := ParseObject();
      if val.Fails? {
        return Fails(val.why);
      }
      dict.Set(keyName, AsObject(val.value));
      e := Returns(());
    }

    method ParseDict() returns (e: Ending<Obj>)
      requires Valid() && [LESS, LESS] <= Unread()
      modifies reader
      ensures reader.pos >= old(reader.pos) && Reaches(e, DictLoop(old(Unread())[2..], []))
      decreases |reader.input| - reader.pos, 0
    {
      hide DictEntry, EntriesOf, Consistent, Symbols.SkipSpaces;
      reader.Discard(2);
      ghost var goal := DictLoop(Unread(), []);
      var dict := new PdfObjectDictionary();
      while true
        invariant old(reader.pos) < reader.pos <= |reader.input|
        invariant fresh(dict) && dict.Valid()
        invariant DictLoop(Unread(), dict.Entries()) == goal
        decreases |reader.input| - reader.pos
      {
        reader.SkipSpaces();
        var bb := reader.Peek(2);
        if |bb| < 2 {
          return Fails(EndOfData);
        }
        assert bb[0] == Unread()[0] && bb[1] == Unread()[1];
        if bb[0] == GREATER && bb[1] == GREATER {
          reader.Discard(2);
          return Returns(Dict(dict.Entries()));
        }
        ghost var before := Unread();
        var entry := ParseEntry(dict);
        if entry.Fails? {
          return Fails(entry.why);
        }
        assert |Unread()| < |before|;
      }
    }

    method ParseObject() returns (e: Ending<Token>)
      requires Valid()
      modifies reader
      ensures reader.pos >= old(reader.pos) && Reaches(e, ContentSpec.ParseObject(old(Unread())))
      decreases |reader.input| - reader.pos, 1
    {
      hide ArrayLoop, DictLoop, Word, NameBody, HexText, ScanNumber, PS.LiteralBody;
      ghost var goal := ContentSpec.ParseObject(Unread());
      reader.SkipComments();
      var bb := reader.Peek(2);
      if |bb| < 2 {
        return Fails(EndOfData);
      }
      assert bb[0] == Unread()[0] && bb[1] == Unread()[1];
      if bb[0] == SLASH {
        var name := ParseName();
        e := if name.Returns? then Returns(Value(Name(name.value))) else Fails(name.why);
      } else if bb[0] == LPAREN {
        var str := reader.ParseString();
        e := if str.Value? then Returns(Value(Str(str.value, false))) else Fails(EndOfData);
      } else if bb[0] == LESS && bb[1] != LESS {
        var hex := ParseHexString();
        e := if hex.Returns? then Returns(Value(Str(PS.HexDecode(PS.PadHex(hex.value)), true))) else Fails(hex.why);
      } else if bb[0] == LBRACKET {
        var arr := ParseArray();
        e := if arr.Returns? then Returns(Value(arr.value)) else Fails(arr.why);
      } else if StartsNumber(bb) {
        var number := ParseNumber();
        e := Returns(Value(number));
      } else if bb[0] == LESS {
        assert Unread()[..2] == bb;
        var dict := ParseDict();
        e := if dict.Returns? then Returns(Value(dict.value)) else Fails(dict.why);
      } else {
        e := ParseWord();
      }
    }

    /** Reads the data of an inline image, up to EI between white space. */
    method ScanImageData() returns (e: Ending<seq<byte>>)
      requires Valid()
      modifies reader
      ensures reader.pos >= old(reader.pos) && Reaches(e, ScanData(old(Unread()), 0, [], []))
    {
      ghost var goal := ScanData(Unread(), 0, [], []);
      var state := 0;
      var stream: seq<byte>, skipBytes: seq<byte> := [], [];
      while reader.pos < |reader.input|
        invariant old(reader.pos) <= reader.pos <= |reader.input| && 0 <= state <= 3
        invariant ScanData(Unread(), state, stream, skipBytes) == goal && (state == 0 ==> skipBytes == [])
        // No byte read is lost.
        invariant stream + skipBytes == reader.input[old(reader.pos)..reader.pos]
        decreases |reader.input| - reader.pos
      {
        var c := reader.ReadByte();
        assert stream + skipBytes + [c] == reader.input[old(reader.pos)..reader.pos];
        if state == 0 {
          if IsWhiteSpace(c) {
            skipBytes, state := [c], 1;
          } else {
            stream := stream + [c];
          }
        } else if state == 1 {
          skipBytes := skipBytes + [c];
          if c == UPPER_E {
            state := 2;
          } else {
            stream, skipBytes := stream + skipBytes, [];
            state := if IsWhiteSpace(c) then 1 else 0;
          }
        } else if state == 2 {
          skipBytes := skipBytes + [c];
          if c == UPPER_I {
            state := 3;
          } else {
            stream, skipBytes, state := stream + skipBytes, [], 0;
          }
        } else {
          skipBytes := skipBytes + [c];
          if IsWhiteSpace(c) {
            return Returns(stream);
          }
          stream, skipBytes, state := stream + skipBytes, [], 0;
        }
      }
      e := Fails(EndOfData);
    }

    method ParseInlineImage() returns (e: Ending<Image>)
      requires Valid()
      modifies reader
      ensures reader.pos >= old(reader.pos) && Reaches(e, ParseImage(old(Unread()), map[]))
    {
      hide ContentSpec.ParseObject, ScanData, FieldOf, Symbols.SkipSpaces;
      ghost var goal := ParseImage(Unread(), map[]);
      var params: map<Field, Obj> := map[];
      while true
        invariant old(reader.pos) <= reader.pos <= |reader.input|
        invariant ParseImage(Unread(), params) == goal
        decreases |reader.input| - reader.pos
      {
        ghost var start := Unread();
        reader.SkipSpaces();
        var obj := ParseObject();
        match obj {
          case Fails(why) => return Fails(why);
          case Returns(Value(o)) =>
            if !o.Name? {
              return Fails(Invalid);
            }
            var valueObj := ParseObject();
            match valueObj {
              case Fails(why) => return Fails(why);
              case Returns(Operand(_)) => return Fails(Invalid);
              case Returns(Value(v)) =>
                if FieldOf(o.name).None? {
                  return Fails(Invalid);
                }
                params := params[FieldOf(o.name).value := v];
            }
          case Returns(Operand(text)) =>
            if text == EI_TEXT {
              return Returns(Image(params, []));
            } else if text == ID_TEXT {
              if reader.pos == |reader.input| {
                return Fails(EndOfData);
              }
              assert reader.input[reader.pos] == Unread()[0];
              if IsWhiteSpace(reader.input[reader.pos]) {
                reader.Discard(1);
              }
              var data := ScanImageData();
              e := if data.Returns? then Returns(Image(params, data.value)) else Fails(data.why);
              return;
            }
        }
        assert |Unread()| < |start|;
      }
    }

    /** Parse: the operations read before an error are not part of the outcome. */
    method Parse() returns (o: Outcome)
      requires Valid()
      modifies reader
      ensures o == ParseOps(old(Unread()), [])
    {
      hide ContentSpec.ParseObject, ParseImage;
      ghost var goal := ParseOps(Unread(), []);
      var operations: seq<Operation> := [];
      var params: seq<Arg> := [];
      Nothing(goal);
      while true
        invariant reader.pos <= |reader.input|
        invariant Joined(operations, ParseOps(Unread(), params)) == goal
        decreases |reader.input| - reader.pos
      {
        ghost var start := Unread();
        var obj := ParseObject();
        match obj {
          case Fails(EndOfData) =>
            assert operations + [] == operations;
            return Parsed(operations);
          case Fails(Invalid) => return ParseError;
          case Fails(IndexPanic) => return Crashed;
          case Returns(Value(v)) => params := params + [Object(v)];
          case Returns(Operand(operand)) =>
            if operand == BI_TEXT {
              var im := ParseInlineImage();
              if im.Fails? {
                return if im.why.IndexPanic? then Crashed else ParseError;
              }
              params := params + [InlineImage(im.value)];
            }
            JoinedCons(operations, Operation(operand, params), ParseOps(Unread(), []));
            operations := operations + [Operation(operand, params)];
            params := [];
        }
        assert |Unread()| < |start|;
      }
    }
  }

  /** Operations read earlier in front of what follows. */
  function Joined(ops: seq<Operation>, o: Outcome): Outcome {
    match o
    case Parsed(more) => Parsed(ops + more)
    case _ => o
  }

  lemma JoinedCons(ops: seq<Operation>, op: Operation, o: Outcome)
    ensures Joined(ops, Cons(op, o)) == Joined(ops + [op], o)
  {
    if o.Parsed? { assert ops + ([op] + o.ops) == ops + [op] + o.ops; }
  }

  lemma Nothing(o: Outcome)
    ensures Joined([], o) == o
  {
    if o.Parsed? { assert [] + o.ops == o.ops; }
  }

  // ----- Writing

  lemma {:induction false} FieldWritten(output: seq<byte>, f: Field, o: Obj, rest: seq<byte>)
    requires Writable(o)
    ensures output + ([SLASH] + (Ascii(Abbreviation(f)) + ([SP] + Put(o, [LF] + rest))))
      == output + ([SLASH] + Ascii(Abbreviation(f)) + [SP] + Text(o) + [LF]) + rest
  {
    hide Put, Ascii, Abbreviation;
    PutAppends(o, [LF] + rest);
  }

  method WriteImage(im: Image) returns (output: seq<byte>)
    requires forall f :: f in im.params ==> Writable(im.params[f])
    ensures output == PutArg(InlineImage(im), [])
  {
    hide Ascii, Abbreviation, Put, Writable;
    output := [];
    ghost var data := PutData(im.data, []);
    for i := 0 to |FIELDS|
      invariant output + PutFields(FIELDS[i..], im.params, data) == PutFields(FIELDS, im.params, data)
    {
      var f := FIELDS[i];
      assert FIELDS[i..][0] == f && FIELDS[i..][1..] == FIELDS[i + 1..];
      if f in im.params {
        var text := WriteString(im.params[f]);
        FieldWritten(output, f, im.params[f], PutFields(FIELDS[i + 1..], im.params, data));
        output := output + ([SLASH] + Ascii(Abbreviation(f)) + [SP] + text + [LF]);
      }
    }
    assert FIELDS[|FIELDS|..] == [];
    output := output + ID_TEXT + [SP] + im.data + InlineData.END_OF_IMAGE;
  }

  method WriteOperation(op: Operation) returns (output: seq<byte>)
    requires WritableOperation(op)
    ensures output == PutOperation(op, [])
  {
    if op.operand == BI_TEXT {
      assert WritableArg(op.params[0]);
      var text := WriteArg(op.params[0]);
      output := op.operand + [LF] + text;
    } else {
      output := [];
      ghost var end := op.operand + ([LF] + []);
      for i := 0 to |op.params|
        invariant output + PutParams(op.params[i..], end) == PutParams(op.params, end)
      {
        assert op.params[i..][0] == op.params[i] && op.params[i..][1..] == op.params[i + 1..];
        var text := WriteArg(op.params[i]);
        ghost var rest := PutParams(op.params[i + 1..], end);
        PutArgAppends(op.params[i], [SP] + rest);
        assert output + (text + ([SP] + rest)) == output + text + [SP] + rest;
        output := output + text + [SP];
      }
      output := output + op.operand + [LF];
    }
  }

  method WriteArg(a: Arg) returns (output: seq<byte>)
    requires WritableArg(a)
    ensures output == PutArg(a, [])
  {
    match a
    case Object(o) => output := WriteString(o);
    case InlineImage(im) => output := WriteImage(im);
  }

  /** Bytes, for operations none of which is nil. */
  method WriteOperations(ops: seq<Operation>) returns (output: seq<byte>)
    requires forall i :: 0 <= i < |ops| ==> WritableOperation(ops[i])
    ensures output == Bytes(ops)
  {
    hide PutOperation, WritableOperation;
    output := [];
    for i := 0 to |ops|
      invariant output + Bytes(ops[i..]) == Bytes(ops)
    {
      assert ops[i..][0] == ops[i] && ops[i..][1..] == ops[i + 1..];
      var text := WriteOperation(ops[i]);
      PutOperationAppends(ops[i], Bytes(ops[i + 1..]));
      assert output + (text + Bytes(ops[i + 1..])) == output + text + Bytes(ops[i + 1..]);
      output := output + text;
    }
  }
}
