/** Exactly which lists of operations are parsed back from what is written for them. */
module ContentListConverse {
  import opened Options
  import opened Symbols
  import opened Objects
  import PS = ParserSpec
  import RT = RoundTrip
  import opened ContentSpec
  import opened InlineData
  import opened ContentPrint
  import CRT = ContentRoundTrip
  import opened CC = ContentConverse

  // ----- What parsing can give: no references, no repeated keys, and operands that are regular tokens

  predicate Readable(o: Obj) {
    match o
    case Ref(_, _) => false
    case Arr(es) => forall i :: 0 <= i < |es| ==> Readable(es[i])
    case Dict(d) => DistinctKeys(d) && forall i :: 0 <= i < |d| ==> Readable(d[i].val)
    case _ => true
  }

  lemma {:induction false} WritableAndReadable(o: Obj)
    requires Writable(o) && Readable(o)
    ensures Written(o)
  {
    match o
    case Arr(es) => forall i | 0 <= i < |es| ensures Written(es[i]) { WritableAndReadable(es[i]); }
    case Dict(d) => forall i | 0 <= i < |d| ensures Written(d[i].val) { assert d[i].val < d[i]; WritableAndReadable(d[i].val); }
    case _ =>
  }

  ghost predicate ReadableEntries(d: seq<Entry>) {
    DistinctKeys(d) && forall i :: 0 <= i < |d| ==> Readable(d[i].val)
  }

  lemma {:induction false} SetReadable(d: seq<Entry>, key: seq<byte>, val: Obj)
    requires ReadableEntries(d) && Readable(val)
    ensures ReadableEntries(SetEntry(d, key, val))
  {
    hide Readable;
    SetKeepsKeysDistinct(d, key, val);
    SetKeepsReadable(d, key, val);
  }

  lemma {:induction false} SetKeepsReadable(d: seq<Entry>, key: seq<byte>, val: Obj)
    requires (forall i :: 0 <= i < |d| ==> Readable(d[i].val)) && Readable(val)
    ensures forall i :: 0 <= i < |SetEntry(d, key, val)| ==> Readable(SetEntry(d, key, val)[i].val)
  {
    hide Readable;
    if d != [] && d[0].key != key { SetKeepsReadable(d[1..], key, val); }
  }

  lemma {:induction false} ObjectsAreReadable(s0: seq<byte>)
    ensures var r := ParseObject(s0); r.Ok? ==> Readable(AsObject(r.value))
    decreases |s0|, 0
  {
    hide ArrayLoop, DictLoop, NameBody, PS.LiteralBody, HexText, Word, ScanNumber, StartsNumber, SkipComments;
    var s := SkipComments(s0);
    if |s| >= 2 {
      if s[0] == LBRACKET { ArraysAreReadable(s[1..], []); }
      if s[0] == LESS { DictsAreReadable(s[2..], []); }
      WordsAreReadable(s);
    }
  }

  lemma {:induction false} WordsAreReadable(s: seq<byte>)
    ensures var r := Word(s); r.Ok? ==> Readable(AsObject(r.value))
  {
  }

  lemma {:induction false} ArraysAreReadable(s: seq<byte>, arr: seq<Obj>)
    requires forall i :: 0 <= i < |arr| ==> Readable(arr[i])
    ensures var r := ArrayLoop(s, arr); r.Ok? ==> Readable(r.value)
    decreases |s|, 1
  {
    hide ParseObject;
    var t := SkipSpaces(s);
    if t != [] && t[0] != RBRACKET {
      ObjectsAreReadable(t);
      match ParseObject(t)
      case Ok(v, u) => ArraysAreReadable(u, arr + [AsObject(v)]);
      case Failed(_) =>
    }
  }

  lemma {:induction false} EntriesAreReadable(t: seq<byte>, d: seq<Entry>)
    requires t != [] && ReadableEntries(d)
    ensures var r := DictEntry(t, d); r.Ok? ==> ReadableEntries(r.value)
    decreases |t|, 1
  {
    hide ParseObject, ReadableEntries, SetEntry;
    if t[0] == SLASH {
      match NameBody(t[1..])
      case Failed(_) =>
      case Ok(key, t1) =>
        var u := SkipSpaces(t1);
        if PS.HasNullSuffix(key) && u != [] && u[0] == SLASH {
          SetReadable(d, key[..|key| - 4], Null);
        } else {
          ObjectsAreReadable(u);
          if ParseObject(u).Ok? { SetReadable(d, key, AsObject(ParseObject(u).value)); }
        }
    }
  }

  lemma {:induction false} DictsAreReadable(s: seq<byte>, d: seq<Entry>)
    requires ReadableEntries(d)
    ensures var r := DictLoop(s, d); r.Ok? ==> Readable(r.value)
    decreases |s|, 2
  {
    hide DictEntry;
    var t := SkipSpaces(s);
    if |t| >= 2 && !(t[0] == GREATER && t[1] == GREATER) {
      EntriesAreReadable(t, d);
      match DictEntry(t, d)
      case Ok(d', w) => DictsAreReadable(w, d');
      case Failed(_) =>
    }
  }

  lemma {:induction false} OperandsAreRegular(s: seq<byte>)
    ensures var r := ParseObject(s); r.Ok? && r.value.Operand? ==> CRT.Regular(r.value.text)
  {
    hide ArrayLoop, DictLoop, ScanNumber, HexText, NameBody, PS.LiteralBody, OperandText;
    var r := ParseObject(s);
    if r.Ok? && r.value.Operand? {
      var x, t := SkipComments(s), r.value.text;
      CRT.OperandComesFromWord(s, t, r.rest);
      assert OperandText(x) == Ok(t, r.rest);
      TextIsPrefix(x);
      PrefixStarts(t, x);
    }
  }

  lemma {:induction false} TextIsPrefix(s: seq<byte>)
    ensures var r := OperandText(s); r.Ok? ==> r.value <= s
  {
    if s != [] { TextIsPrefix(s[1..]); }
  }

  lemma {:induction false} PrefixStarts(t: seq<byte>, x: seq<byte>)
    requires t <= x
    ensures StartsNumber(t) ==> StartsNumber(x)
    ensures StartsKeyword(t) ==> StartsKeyword(x)
  {
  }

  ghost predicate ReadableImage(im: Image) {
    forall f :: f in im.params ==> Readable(im.params[f])
  }

  lemma {:induction false} ImagesAreReadable(s: seq<byte>, params: map<Field, Obj>)
    requires forall f :: f in params ==> Readable(params[f])
    ensures var r := ParseImage(s, params); r.Ok? ==> ReadableImage(r.value)
    decreases |s|
  {
    hide ParseObject, FieldOf, ScanData, Readable;
    match ParseObject(SkipSpaces(s))
    case Failed(_) =>
    case Ok(Value(o), t) =>
      ObjectsAreReadable(t);
      if o.Name? && ParseObject(t).Ok? && ParseObject(t).value.Value? && FieldOf(o.name).Some? {
        ImagesAreReadable(ParseObject(t).rest, params[FieldOf(o.name).value := ParseObject(t).value.o]);
      }
    case Ok(Operand(text), t) =>
      if text != EI_TEXT && text != ID_TEXT { ImagesAreReadable(t, params); }
  }

  ghost predicate ReadableArg(a: Arg) {
    a.Object? && Readable(a.o)
  }

  /** A regular operand; objects before it, and one inline image after them if it is BI. */
  ghost predicate ReadableOperation(op: Operation) {
    && CRT.Regular(op.operand)
    && (op.operand != BI_TEXT ==> forall i :: 0 <= i < |op.params| ==> ReadableArg(op.params[i]))
    && (op.operand == BI_TEXT ==> forall i :: 0 <= i < |op.params| && op.params[i].InlineImage? ==> ReadableImage(op.params[i].im))
  }

  lemma {:induction false} ConsReadable(op: Operation, o: Outcome)
    requires ReadableOperation(op) && (o.Parsed? ==> forall i :: 0 <= i < |o.ops| ==> ReadableOperation(o.ops[i]))
    ensures var r := Cons(op, o); r.Parsed? ==> forall i :: 0 <= i < |r.ops| ==> ReadableOperation(r.ops[i])
  {
    hide ReadableOperation;
  }

  lemma {:induction false} OperationsAreReadable(s: seq<byte>, params: seq<Arg>)
    requires forall i :: 0 <= i < |params| ==> ReadableArg(params[i])
    ensures var r := ParseOps(s, params); r.Parsed? ==> forall i :: 0 <= i < |r.ops| ==> ReadableOperation(r.ops[i])
    decreases |s|
  {
    hide ParseObject, ParseImage, CRT.Regular, Readable, ReadableImage;
    ObjectsAreReadable(s);
    OperandsAreRegular(s);
    match ParseObject(s)
    case Failed(_) =>
    case Ok(Value(o), t) => OperationsAreReadable(t, params + [Object(o)]);
    case Ok(Operand(text), t) =>
      if text != BI_TEXT {
        OperationsAreReadable(t, []);
        ConsReadable(Operation(text, params), ParseOps(t, []));
      } else {
        ImagesAreReadable(t, map[]);
        var r := ParseImage(t, map[]);
        if r.Ok? {
          OperationsAreReadable(r.rest, []);
          ConsReadable(Operation(text, params + [InlineImage(r.value)]), ParseOps(r.rest, []));
        }
      }
  }

  // ----- What parsing gives of written operations

  /** The parameters read already stay in front. */
  lemma {:induction false} ParamsStay(s: seq<byte>, params: seq<Arg>)
    ensures var r := ParseOps(s, params); r.Parsed? && r.ops != [] ==> params <= r.ops[0].params
    decreases |s|
  {
    hide ParseObject, ParseImage;
    match ParseObject(s)
    case Failed(_) =>
    case Ok(Value(o), t) => ParamsStay(t, params + [Object(o)]);
    case Ok(Operand(_), _) =>
  }

  lemma {:induction false} ParamsReadBack(ps: seq<Arg>, done: seq<Arg>, t: seq<byte>, k: seq<byte>)
    requires forall i :: 0 <= i < |ps| ==> ps[i].Object? && Written(ps[i].o) && WritableArg(ps[i])
    requires var r := ParseOps(PutParams(ps, t + ([LF] + k)), done); r.Parsed? && r.ops != [] && r.ops[0].params == done + ps
    ensures forall i :: 0 <= i < |ps| ==> RT.TrapFree(ps[i].o)
  {
    hide ParseObject, Put, Written, RT.TrapFree;
    if ps != [] {
      var rest := PutParams(ps[1..], t + ([LF] + k));
      var o := ps[0].o;
      Reads(o, [SP] + rest);
      var v := ParseObject(Put(o, [SP] + rest)).value.o;
      CRT.SpaceBefore(SP, rest);
      ParamsStay(rest, done + [Object(v)]);
      assert (done + [Object(v)])[|done|] == (done + ps)[|done|];
      assert done + [ps[0]] + ps[1..] == done + ps;
      ParamsReadBack(ps[1..], done + [ps[0]], t, k);
    }
  }

  predicate MayPend(state: nat, pending: seq<byte>) {
    if state == 0 then pending == []
    else |pending| == state || (|pending| == state - 1 && (state > 1 ==> pending[0] == UPPER_E))
  }

  /** What the scanner takes besides the data: white space, EI and white space, or only the last three when more white space is before them. */
  lemma {:induction false} Taken(s: seq<byte>, state: nat, data: seq<byte>, pending: seq<byte>) returns (tail: seq<byte>)
    requires state <= 3 && MayPend(state, pending)
    ensures var r := ScanData(s, state, data, pending);
      r.Ok? ==> data + (pending + s) == r.value + (tail + r.rest) && 3 <= |tail| <= 4 && (|tail| == 3 ==> tail[0] == UPPER_E)
  {
    tail := [];
    if s != [] {
      var c, all := s[0], pending + [s[0]];
      assert all + s[1..] == pending + s;
      assert data + all + ([] + s[1..]) == data + (pending + s);
      if state == 0 {
        assert [c] + s[1..] == pending + s;
        assert data + [c] + (pending + s[1..]) == data + (pending + s);
        if IsWhiteSpace(c) { tail := Taken(s[1..], 1, data, [c]); } else { tail := Taken(s[1..], 0, data + [c], pending); }
      } else if state == 1 && c == UPPER_E {
        tail := Taken(s[1..], 2, data, all);
      } else if state == 1 {
        tail := Taken(s[1..], if IsWhiteSpace(c) then 1 else 0, data + all, []);
      } else if state == 2 && c == UPPER_I {
        tail := Taken(s[1..], 3, data, all);
      } else if state == 3 && IsWhiteSpace(c) {
        tail := all;
      } else {
        tail := Taken(s[1..], 0, data + all, []);
      }
    }
  }

  /** Data that is not clean does not come back at all, wherever reading stops. */
  lemma {:induction false} DataComesBackIff(d: seq<byte>, k: seq<byte>)
    ensures var r := ScanData(d + (END_OF_IMAGE + k), 0, [], []); r.Ok? && r.value == d <==> Clean(d)
  {
    hide ScanData, Clean;
    DataReadsBackIff(d, k);
    var s := d + (END_OF_IMAGE + k);
    var r := ScanData(s, 0, [], []);
    var tail := Taken(s, 0, [], []);
    if r.Ok? && r.value == d {
      assert [] + ([] + s) == s;
      assert s[|d|..] == END_OF_IMAGE + k && (d + (tail + r.rest))[|d|..] == tail + r.rest;
      assert (END_OF_IMAGE + k)[0] == LF == tail[0];
      assert |tail| == 4;
      assert (END_OF_IMAGE + k)[4..] == k && (tail + r.rest)[4..] == r.rest;
    }
  }

  predicate NoDuplicates(fs: seq<Field>) {
    forall i, j :: 0 <= i < j < |fs| ==> fs[i] != fs[j]
  }

  /** What is read of the entries and the data: the entries read before, each entry if it is trap-free, and the data if it is clean. */
  ghost predicate ImageReads(r: Result<Image>, fs: seq<Field>, params: map<Field, Obj>, data: seq<byte>, done: map<Field, Obj>) {
    r.Ok? ==>
      && (forall f :: f in done && f !in fs ==> f in r.value.params && r.value.params[f] == done[f])
      && (forall f :: f in fs && f in params ==> f in r.value.params && (r.value.params[f] == params[f] <==> RT.TrapFree(params[f])))
      && (r.value.data == data <==> Clean(data))
  }

  lemma {:induction false} WrittenDataReads(data: seq<byte>, params: map<Field, Obj>, k: seq<byte>)
    ensures ParseImage(PutData(data, k), params) ==
      match ScanData(data + (END_OF_IMAGE + k), 0, [], [])
      case Ok(d, u) => Ok(Image(params, d), u)
      case Failed(why) => Failed(why)
  {
    hide ScanData, ParseObject, CRT.Regular;
    CRT.IdAndEiAreRegular();
    var t := [SP] + (data + (END_OF_IMAGE + k));
    CRT.OperandReadsBackIff(ID_TEXT, t);
    var s := PutData(data, k);
    assert s == ID_TEXT + t && SkipSpaces(s) == s;
    assert t[1..] == data + (END_OF_IMAGE + k);
  }

  /** One entry: its value is read, and the entries after it are next. */
  lemma {:induction false} FieldReads(f: Field, v: Obj, rest: seq<byte>, done: map<Field, Obj>)
    requires Written(v) && Writable(v)
    ensures var r := ParseObject(Put(v, [LF] + rest));
      ParseImage([SLASH] + (Ascii(Abbreviation(f)) + ([SP] + Put(v, [LF] + rest))), done) ==
      if r.Ok? then (if r.value.Value? then ParseImage(rest, done[f := r.value.o]) else Failed(Invalid)) else Failed(r.why)
    ensures ReadsFaithfully(v, [LF] + rest)
  {
    hide ParseObject, Ascii, Abbreviation, FieldOf, Written;
    var n := Ascii(Abbreviation(f));
    var u := Put(v, [LF] + rest);
    var s := [SLASH] + (n + ([SP] + u));
    CRT.AbbreviationIsLetters(f);
    CRT.LettersWritten(n, [SP] + u);
    CRT.SimpleParsesBack(Name(n), [SP] + u);
    assert s == Put(Name(n), [SP] + u) && SkipSpaces(s) == s;
    CRT.SpaceBefore(SP, u);
    Reads(v, [LF] + rest);
    CRT.AbbreviationNames(f);
    CRT.SpaceBefore(LF, rest);
  }

  lemma {:induction false} FieldsRead(fs: seq<Field>, params: map<Field, Obj>, data: seq<byte>, done: map<Field, Obj>, k: seq<byte>)
    requires NoDuplicates(fs) && forall f :: f in params ==> Written(params[f]) && Writable(params[f])
    ensures ImageReads(ParseImage(PutFields(fs, params, PutData(data, k)), done), fs, params, data, done)
  {
    hide ParseImage, ParseObject, Clean, Put, Writable, Written, PutData, ScanData, RT.TrapFree;
    if fs == [] {
      WrittenDataReads(data, done, k);
      DataComesBackIff(data, k);
    } else {
      var f := fs[0];
      assert forall g :: g in fs <==> g == f || g in fs[1..];
      assert f !in fs[1..];
      if f !in params {
        FieldsRead(fs[1..], params, data, done, k);
      } else {
        var rest := PutFields(fs[1..], params, PutData(data, k));
        FieldReads(f, params[f], rest, done);
        var r := ParseObject(Put(params[f], [LF] + rest));
        if r.Ok? { FieldsRead(fs[1..], params, data, done[f := r.value.o], k); }
      }
    }
  }

  lemma {:induction false} FieldsDiffer()
    ensures NoDuplicates(FIELDS)
  {
  }

  /** An image is read as itself only when it can be. */
  lemma {:induction false} ImageReadsBack(im: Image, k: seq<byte>)
    requires WritableArg(InlineImage(im)) && forall f :: f in im.params ==> Written(im.params[f])
    requires var r := ParseImage(PutArg(InlineImage(im), k), map[]); r.Ok? && r.value == im
    ensures CRT.DirectImage(im)
  {
    hide ParseImage, Clean, PutFields, PutData, Written, RT.TrapFree, CRT.Direct;
    FieldsDiffer();
    FieldsRead(FIELDS, im.params, im.data, map[], k);
    forall f | f in im.params ensures CRT.Direct(im.params[f]) {
      CRT.FieldIsWritten(f);
      DirectIff(im.params[f]);
    }
  }

  lemma {:induction false} BiReads(op: Operation, k: seq<byte>)
    requires WritableOperation(op) && op.operand == BI_TEXT
    ensures var r := ParseImage(PutArg(op.params[0], k), map[]);
      ParseOps(PutOperation(op, k), []) ==
      if r.Ok? then Cons(Operation(BI_TEXT, [InlineImage(r.value)]), ParseOps(r.rest, []))
      else if r.why.IndexPanic? then Crashed else ParseError
  {
    hide ParseObject, ParseImage, CRT.Regular, PutArg;
    var text := PutArg(op.params[0], k);
    CRT.IdAndEiAreRegular();
    CRT.OperandReadsBackIff(BI_TEXT, [LF] + text);
    CRT.SpaceBefore(LF, text);
    ImageSkips(text);
    assert forall im :: [] + [InlineImage(im)] == [InlineImage(im)];
  }

  /** The line feed after BI is skipped. */
  lemma {:induction false} ImageSkips(text: seq<byte>)
    ensures ParseImage([LF] + text, map[]) == ParseImage(text, map[])
  {
    CRT.SpaceBefore(LF, text);
  }

  /** If an operation is the first that is read from its own text, it is one that can be read back. */
  lemma {:induction false} OperationReadsBack(op: Operation, k: seq<byte>)
    requires WritableOperation(op) && ReadableOperation(op)
    requires var r := ParseOps(PutOperation(op, k), []); r.Parsed? && r.ops != [] && r.ops[0] == op
    ensures CRT.DirectOperation(op)
  {
    hide ParseObject, ParseImage, ParseOps, CRT.Regular, CRT.DirectImage, CRT.Direct, Written, Writable, Readable, PutFields, PutData;
    if op.operand == BI_TEXT {
      BiReads(op, k);
      var im := op.params[0].im;
      forall f | f in im.params ensures Written(im.params[f]) { WritableAndReadable(im.params[f]); }
      ImageReadsBack(im, k);
    } else {
      forall i | 0 <= i < |op.params| ensures Written(op.params[i].o) { WritableAndReadable(op.params[i].o); }
      assert [] + op.params == op.params;
      ParamsReadBack(op.params, [], op.operand, k);
      forall i | 0 <= i < |op.params| ensures CRT.Direct(op.params[i].o) { DirectIff(op.params[i].o); }
    }
  }

  lemma {:induction false} OperationsReadBack(ops: seq<Operation>)
    requires forall i :: 0 <= i < |ops| ==> WritableOperation(ops[i]) && ReadableOperation(ops[i])
    requires ParseOps(PutOperations(ops, [LF]), []) == Parsed(ops)
    ensures forall i :: 0 <= i < |ops| ==> CRT.DirectOperation(ops[i])
  {
    hide ParseOps, WritableOperation, ReadableOperation, CRT.DirectOperation, PutOperation;
    if ops != [] {
      var k := PutOperations(ops[1..], [LF]);
      OperationReadsBack(ops[0], k);
      CRT.OperationParsesBack(ops[0], k);
      assert ops[1..] == ([ops[0]] + ParseOps(k, []).ops)[1..];
      OperationsReadBack(ops[1..]);
    }
  }

  /**
   Parsing what is written for a list of operations gives the list if and only if every operation has a regular operand,
   no reference, trap or repeated key in its parameters, and, for BI alone, one inline image with clean data.
   */
  lemma {:induction false} ContentParsesBackIff(ops: seq<Operation>)
    requires forall i :: 0 <= i < |ops| ==> WritableOperation(ops[i])
    ensures Parse(Bytes(ops)) == Parsed(ops) <==> forall i :: 0 <= i < |ops| ==> CRT.DirectOperation(ops[i])
  {
    hide ParseOps, WritableOperation, ReadableOperation, CRT.DirectOperation, PutOperations;
    if forall i :: 0 <= i < |ops| ==> CRT.DirectOperation(ops[i]) {
      CRT.ContentParsesBack(ops);
    } else if Parse(Bytes(ops)) == Parsed(ops) {
      PutOperationsAppends(ops, [LF]);
      OperationsAreReadable(Bytes(ops) + [LF], []);
      OperationsReadBack(ops);
      assert false;
    }
  }
}
