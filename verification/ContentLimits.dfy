/** When the content stream parser panics, with the exact condition. */
module ContentLimits {
  import opened Options
  import opened Symbols
  import opened Objects
  import PS = ParserSpec
  import RT = RoundTrip
  import opened PL = ParserLimits
  import opened ContentSpec
  import CRT = ContentRoundTrip

  // ----- Dictionaries that are cut off after a key

  lemma {:induction false} LastKeyPanicsIff(n: seq<byte>, w: seq<byte>, d: seq<Entry>)
    requires PL.AllWhite(w)
    ensures DictLoop(Put(Name(n), w), d) == Failed(if PS.HasNullSuffix(n) then IndexPanic else EndOfData)
  {
    var s := Put(Name(n), w);
    LastKeyReads(n, w);
    hide ParseObject, NameBody, Put, SkipSpaces, PS.HasNullSuffix;
    assert DictEntry(s, d) == Failed(if PS.HasNullSuffix(n) then IndexPanic else EndOfData);
    assert PS.HasNullSuffix(n) ==> |s| >= 2;
  }

  lemma {:induction false} LastKeyReads(n: seq<byte>, w: seq<byte>)
    requires PL.AllWhite(w)
    ensures var s := Put(Name(n), w);
      s != [] && s[0] == SLASH && SkipSpaces(s) == s && NameBody(s[1..]) == Ok(n, w) && SkipSpaces(w) == []
    ensures ParseObject([]) == Failed(EndOfData)
    ensures PS.HasNullSuffix(n) ==> |Put(Name(n), w)| >= 2
  {
    hide ArrayLoop, DictLoop, NameBody;
    var s := Put(Name(n), w);
    CRT.NameParsesBack(n, w);
    assert s[1..] == PutNameBody(n, w);
    PL.WhiteIsSkipped(w);
    if n != [] { assert |PutNameBody(n, w)| >= 1; }
  }

  lemma {:induction false} OpenEntriesRead(d: seq<Entry>, k: seq<byte>, done: seq<Entry>) returns (all: seq<Entry>)
    requires forall i :: 0 <= i < |d| ==> !RT.IsTrap(d[i]) && CRT.Direct(d[i].val) && Writable(d[i].val)
    requires k != [] && k[0] == SLASH
    ensures DictLoop(PL.PutOpen(d, k), done) == DictLoop(k, all)
  {
    hide DictLoop, ParseObject, CRT.Direct, RT.IsTrap, Put;
    if d == [] {
      all := done;
    } else {
      var more := PL.PutOpen(d[1..], k);
      PL.OpenStartsWithSlash(d[1..], k);
      CRT.ParsesBack(d[0].val, more);
      CRT.KeyStep(d[0], more, done);
      all := OpenEntriesRead(d[1..], k, SetEntry(done, d[0].key, d[0].val));
    }
  }

  lemma {:induction false} OpenAppends(d: seq<Entry>, k: seq<byte>, x: seq<byte>)
    requires forall i :: 0 <= i < |d| ==> Writable(d[i].val)
    ensures PL.PutOpen(d, k) + x == PL.PutOpen(d, k + x)
  {
    if d != [] {
      OpenAppends(d[1..], k, x);
      var more := PL.PutOpen(d[1..], k);
      NameAndValueAppend(d[0], more, x);
    }
  }

  lemma {:induction false} NameAndValueAppend(e: Entry, more: seq<byte>, x: seq<byte>)
    requires Writable(e.val)
    ensures Put(Name(e.key), [SP] + Put(e.val, more)) + x == Put(Name(e.key), [SP] + Put(e.val, more + x))
  {
    hide Put;
    PutAppends(e.val, more);
    PutAppends(e.val, more + x);
    PutAppends(Name(e.key), [SP] + Put(e.val, more));
    PutAppends(Name(e.key), [SP] + Put(e.val, more + x));
    var a, b := Text(Name(e.key)), Text(e.val);
    assert a + ([SP] + (b + more)) + x == a + ([SP] + (b + (more + x)));
  }

  /** Content that is cut off after a dictionary key crashes the parser if and only if the key is a long one that ends in "null". */
  lemma {:induction false} CutOffCrashesIff(d: seq<Entry>, n: seq<byte>, w: seq<byte>)
    requires forall i :: 0 <= i < |d| ==> !RT.IsTrap(d[i]) && CRT.Direct(d[i].val)
    requires PL.AllWhite(w)
    ensures forall i :: 0 <= i < |d| ==> Writable(d[i].val)
    ensures Parse([LESS, LESS] + PL.PutOpen(d, Put(Name(n), w))) == if PS.HasNullSuffix(n) then Crashed else Parsed([])
  {
    hide DictLoop, CRT.Direct, RT.IsTrap, Put;
    forall i | 0 <= i < |d| ensures Writable(d[i].val) { CRT.DirectIsWritable(d[i].val); }
    var k, k' := Put(Name(n), w), Put(Name(n), w + [LF]);
    assert k + [LF] == k' by {
      PutAppends(Name(n), w);
      PutAppends(Name(n), w + [LF]);
    }
    RT.FirstByte(Name(n), w + [LF]);
    OpenAppends(d, k, [LF]);
    var all := OpenEntriesRead(d, k', []);
    LastKeyPanicsIff(n, w + [LF], all);
    var s := [LESS, LESS] + PL.PutOpen(d, k');
    assert [LESS, LESS] + PL.PutOpen(d, k) + [LF] == s;
    assert SkipComments(s) == s && s[2..] == PL.PutOpen(d, k');
  }

  // ----- Nothing else panics

  /** A name that the data ends with, white space left out, and that the look-ahead runs into. */
  predicate CutOffKey(t: seq<byte>) {
    t != [] && t[0] == SLASH &&
    var p := NameBody(t[1..]);
    p.Ok? && PS.HasNullSuffix(p.value) && SkipSpaces(p.rest) == []
  }

  ghost predicate EndsInCutOffKey(s: seq<byte>) {
    exists t :: PL.IsSuffix(t, s) && CutOffKey(t)
  }

  lemma {:induction false} CutOffFurther(t: seq<byte>, s: seq<byte>)
    requires PL.IsSuffix(t, s) && EndsInCutOffKey(t)
    ensures EndsInCutOffKey(s)
  {
    hide PL.IsSuffix, CutOffKey;
    var u :| PL.IsSuffix(u, t) && CutOffKey(u);
    PL.SuffixTrans(u, t, s);
  }

  /** What a reader of objects may do: leave a suffix, or panic only at a cut-off key. */
  ghost predicate PanicsAtKeyOnly<T>(r: Result<T>, s: seq<byte>) {
    match r
    case Ok(_, rest) => PL.IsSuffix(rest, s)
    case Failed(why) => why == IndexPanic ==> EndsInCutOffKey(s)
  }

  ghost predicate Orderly<T>(r: Result<T>, s: seq<byte>) {
    match r
    case Ok(_, rest) => PL.IsSuffix(rest, s)
    case Failed(why) => why != IndexPanic
  }

  lemma {:induction false} PanicsFurther<T>(r: Result<T>, t: seq<byte>, s: seq<byte>)
    requires PanicsAtKeyOnly(r, t) && PL.IsSuffix(t, s)
    ensures PanicsAtKeyOnly(r, s)
  {
    hide PL.IsSuffix, EndsInCutOffKey;
    if r.Ok? { PL.SuffixTrans(r.rest, t, s); } else if r.why == IndexPanic { CutOffFurther(t, s); }
  }

  lemma {:induction false} OrderlyDoesNotPanic<T>(r: Result<T>, t: seq<byte>, s: seq<byte>)
    requires Orderly(r, t) && PL.IsSuffix(t, s)
    ensures PanicsAtKeyOnly(r, s)
  {
    hide PL.IsSuffix, EndsInCutOffKey;
    if r.Ok? { PL.SuffixTrans(r.rest, t, s); }
  }

  lemma {:induction false} OrderlyTail<T>(r: Result<T>, s: seq<byte>, n: nat)
    requires n <= |s| && Orderly(r, s[n..])
    ensures Orderly(r, s)
  {
    hide PL.IsSuffix;
    if r.Ok? { PL.SuffixOfTail(r.rest, s, n); }
  }

  lemma {:induction false} NamesAreOrderly(s: seq<byte>)
    ensures Orderly(NameBody(s), s)
  {
    hide PL.IsSuffix, PS.EndsName, IsHexDigit, HexValue, Utf8;
    PL.TailIsSuffix(s, 0);
    if s != [] {
      NamesAreOrderly(s[1..]);
      OrderlyTail(NameBody(s[1..]), s, 1);
      if |s| >= 3 {
        NamesAreOrderly(s[3..]);
        OrderlyTail(NameBody(s[3..]), s, 3);
      }
    }
  }

  lemma {:induction false} HexTextIsOrderly(s: seq<byte>)
    ensures Orderly(HexText(s), s)
  {
    hide PL.IsSuffix, IsHexDigit;
    if s != [] {
      PL.TailIsSuffix(s, 1);
      HexTextIsOrderly(s[1..]);
      OrderlyTail(HexText(s[1..]), s, 1);
    }
  }

  lemma {:induction false} NumbersLeaveSuffix(s: seq<byte>, allowSigns: bool)
    ensures PL.IsSuffix(ScanNumber(s, allowSigns).rest, s)
  {
    hide PL.IsSuffix, IsDecimalDigit;
    PL.TailIsSuffix(s, 0);
    if s != [] {
      NumbersLeaveSuffix(s[1..], true);
      NumbersLeaveSuffix(s[1..], false);
      PL.SuffixOfTail(ScanNumber(s[1..], true).rest, s, 1);
      PL.SuffixOfTail(ScanNumber(s[1..], false).rest, s, 1);
    }
  }

  lemma {:induction false} OperandsAreOrderly(s: seq<byte>)
    ensures Orderly(OperandText(s), s)
  {
    hide PL.IsSuffix, IsDelimiter, IsWhiteSpace;
    PL.TailIsSuffix(s, 0);
    if s != [] {
      OperandsAreOrderly(s[1..]);
      OrderlyTail(OperandText(s[1..]), s, 1);
    }
  }

  lemma {:induction false} WordsAreOrderly(s: seq<byte>)
    ensures Orderly(Word(s), s)
  {
    hide OperandText;
    OperandsAreOrderly(s);
  }

  lemma {:induction false} ObjectsPanicAtKeyOnly(s0: seq<byte>)
    ensures PanicsAtKeyOnly(ParseObject(s0), s0)
    decreases |s0|, 0
  {
    hide ArrayLoop, DictLoop, PL.IsSuffix, NameBody, PS.LiteralBody, HexText, Word, ScanNumber, StartsNumber, SkipComments, EndsInCutOffKey;
    var s := SkipComments(s0);
    PL.CommentsLeaveSuffix(s0);
    if |s| >= 2 {
      PL.TailIsSuffix(s, 0);
      PL.TailIsSuffix(s, 1);
      PL.TailIsSuffix(s, 2);
      if s[0] == SLASH {
        NamesAreOrderly(s[1..]);
        OrderlyDoesNotPanic(NameBody(s[1..]), s[1..], s);
      } else if s[0] == LPAREN {
        PL.StringsAreOrderly(s[1..], 1);
        LiteralLeavesSuffix(s);
      } else if s[0] == LESS && s[1] != LESS {
        HexTextIsOrderly(s[1..]);
        OrderlyDoesNotPanic(HexText(s[1..]), s[1..], s);
      } else if s[0] == LBRACKET {
        ArraysPanicAtKeyOnly(s[1..], []);
        PanicsFurther(ArrayLoop(s[1..], []), s[1..], s);
      } else if StartsNumber(s) {
        NumbersLeaveSuffix(s, true);
      } else if s[0] == LESS {
        DictsPanicAtKeyOnly(s[2..], []);
        PanicsFurther(DictLoop(s[2..], []), s[2..], s);
      } else {
        WordsAreOrderly(s);
        OrderlyDoesNotPanic(Word(s), s[0..], s);
      }
      PanicsFurther(ParseObject(s0), s, s0);
    }
  }

  lemma {:induction false} LiteralLeavesSuffix(s: seq<byte>)
    requires s != [] && PL.Orderly(PS.LiteralBody(s[1..], 1), s[1..])
    ensures var p := PS.LiteralBody(s[1..], 1); p.Ok? ==> PL.IsSuffix(p.rest, s)
  {
    hide PS.LiteralBody, PL.IsSuffix;
    var p := PS.LiteralBody(s[1..], 1);
    PL.TailIsSuffix(s, 1);
    if p.Ok? { PL.SuffixTrans(p.rest, s[1..], s); }
  }

  lemma {:induction false} ArraysPanicAtKeyOnly(s: seq<byte>, arr: seq<Obj>)
    ensures PanicsAtKeyOnly(ArrayLoop(s, arr), s)
    decreases |s|, 1
  {
    hide ParseObject, PL.IsSuffix, EndsInCutOffKey;
    var t := SkipSpaces(s);
    PL.SkippingLeavesSuffix(s);
    if t != [] {
      PL.TailIsSuffix(t, 1);
      if t[0] != RBRACKET {
        ObjectsPanicAtKeyOnly(t);
        match ParseObject(t)
        case Ok(v, u) =>
          ArraysPanicAtKeyOnly(u, arr + [AsObject(v)]);
          PanicsFurther(ArrayLoop(u, arr + [AsObject(v)]), u, t);
        case Failed(_) =>
      }
      PanicsFurther(ArrayLoop(s, arr), t, s);
    }
  }

  lemma {:induction false} EntriesPanicAtKeyOnly(t: seq<byte>, d: seq<Entry>)
    requires t != []
    ensures PanicsAtKeyOnly(DictEntry(t, d), t)
    decreases |t|, 1
  {
    hide ParseObject, PL.IsSuffix, NameBody, PS.HasNullSuffix;
    NamesAreOrderly(t[1..]);
    PL.TailIsSuffix(t, 1);
    if t[0] == SLASH {
      match NameBody(t[1..])
      case Failed(_) =>
      case Ok(key, t1) =>
        var u := SkipSpaces(t1);
        PL.SkippingLeavesSuffix(t1);
        PL.SuffixTrans(t1, t[1..], t);
        PL.SuffixTrans(u, t1, t);
        if PS.HasNullSuffix(key) && u == [] {
          PL.TailIsSuffix(t, 0);
          assert PL.IsSuffix(t, t) && CutOffKey(t);
        } else if !(PS.HasNullSuffix(key) && u[0] == SLASH) {
          ObjectsPanicAtKeyOnly(u);
          PanicsFurther(ParseObject(u), u, t);
        }
    }
  }

  lemma {:induction false} DictsPanicAtKeyOnly(s: seq<byte>, d: seq<Entry>)
    ensures PanicsAtKeyOnly(DictLoop(s, d), s)
    decreases |s|, 2
  {
    hide DictEntry, PL.IsSuffix, EndsInCutOffKey;
    var t := SkipSpaces(s);
    PL.SkippingLeavesSuffix(s);
    if |t| >= 2 {
      PL.TailIsSuffix(t, 2);
      if !(t[0] == GREATER && t[1] == GREATER) {
        EntriesPanicAtKeyOnly(t, d);
        match DictEntry(t, d)
        case Ok(d', w) =>
          DictsPanicAtKeyOnly(w, d');
          PanicsFurther(DictLoop(w, d'), w, t);
        case Failed(_) =>
      }
      PanicsFurther(DictLoop(s, d), t, s);
    }
  }

  lemma {:induction false} ScanIsOrderly(s: seq<byte>, state: nat, data: seq<byte>, pending: seq<byte>)
    ensures Orderly(ScanData(s, state, data, pending), s)
    decreases |s|, 0
  {
    hide PL.IsSuffix;
    PL.TailIsSuffix(s, 0);
    if s != [] {
      PL.TailIsSuffix(s, 1);
      var c, all := s[0], pending + [s[0]];
      if state == 0 && IsWhiteSpace(c) {
        ScanFurther(s, 1, data, [c]);
      } else if state == 0 {
        ScanFurther(s, 0, data + [c], pending);
      } else if state == 1 && c == UPPER_E {
        ScanFurther(s, 2, data, all);
      } else if state == 1 {
        ScanFurther(s, if IsWhiteSpace(c) then 1 else 0, data + all, []);
      } else if state == 2 && c == UPPER_I {
        ScanFurther(s, 3, data, all);
      } else {
        ScanFurther(s, 0, data + all, []);
      }
    }
  }

  lemma {:induction false} ScanFurther(s: seq<byte>, state: nat, data: seq<byte>, pending: seq<byte>)
    requires s != []
    ensures Orderly(ScanData(s[1..], state, data, pending), s)
    decreases |s| - 1, 1
  {
    hide PL.IsSuffix, ScanData;
    ScanIsOrderly(s[1..], state, data, pending);
    PL.TailIsSuffix(s, 1);
    var r := ScanData(s[1..], state, data, pending);
    if r.Ok? { PL.SuffixTrans(r.rest, s[1..], s); }
  }

  lemma {:induction false} ImagesPanicAtKeyOnly(s: seq<byte>, params: map<Field, Obj>)
    ensures PanicsAtKeyOnly(ParseImage(s, params), s)
    decreases |s|
  {
    hide ParseObject, PL.IsSuffix, EndsInCutOffKey, FieldOf, ScanData;
    var s' := SkipSpaces(s);
    PL.SkippingLeavesSuffix(s);
    ObjectsPanicAtKeyOnly(s');
    PanicsFurther(ParseObject(s'), s', s);
    match ParseObject(s')
    case Failed(_) =>
    case Ok(Value(o), t) =>
      ObjectsPanicAtKeyOnly(t);
      PanicsFurther(ParseObject(t), t, s);
      if o.Name? && ParseObject(t).Ok? && ParseObject(t).value.Value? && FieldOf(o.name).Some? {
        var u, params' := ParseObject(t).rest, params[FieldOf(o.name).value := ParseObject(t).value.o];
        ImagesPanicAtKeyOnly(u, params');
        PanicsFurther(ParseImage(u, params'), u, s);
      }
    case Ok(Operand(text), t) =>
      if text == ID_TEXT && text != EI_TEXT && t != [] {
        ImageDataIsOrderly(t, s);
      } else if text != EI_TEXT && text != ID_TEXT {
        ImagesPanicAtKeyOnly(t, params);
        PanicsFurther(ParseImage(t, params), t, s);
      }
  }

  lemma {:induction false} ImageDataIsOrderly(t: seq<byte>, s: seq<byte>)
    requires t != [] && PL.IsSuffix(t, s)
    ensures Orderly(ScanData(if IsWhiteSpace(t[0]) then t[1..] else t, 0, [], []), s)
  {
    hide PL.IsSuffix, ScanData;
    var t' := if IsWhiteSpace(t[0]) then t[1..] else t;
    PL.TailIsSuffix(t, 1);
    PL.TailIsSuffix(t, 0);
    ScanIsOrderly(t', 0, [], []);
    var r := ScanData(t', 0, [], []);
    PL.SuffixTrans(t', t, s);
    if r.Ok? { PL.SuffixTrans(r.rest, t', s); }
  }

  lemma {:induction false} OperationsCrashAtKeyOnly(s: seq<byte>, params: seq<Arg>)
    ensures ParseOps(s, params) == Crashed ==> EndsInCutOffKey(s)
    decreases |s|
  {
    hide ParseObject, ParseImage, PL.IsSuffix, EndsInCutOffKey;
    ObjectsPanicAtKeyOnly(s);
    match ParseObject(s)
    case Failed(_) =>
    case Ok(Value(o), t) =>
      OperationsCrashAtKeyOnly(t, params + [Object(o)]);
      if EndsInCutOffKey(t) { CutOffFurther(t, s); }
    case Ok(Operand(text), t) =>
      OperationsCrashAtKeyOnly(t, []);
      if EndsInCutOffKey(t) { CutOffFurther(t, s); }
      if text == BI_TEXT {
        ImagesPanicAtKeyOnly(t, map[]);
        var r := ParseImage(t, map[]);
        PanicsFurther(r, t, s);
        if r.Ok? {
          OperationsCrashAtKeyOnly(r.rest, []);
          if EndsInCutOffKey(r.rest) { CutOffFurther(r.rest, s); }
        }
      }
  }

  /** The parser crashes on no content but content that ends, white space left out, with a long name that ends in "null". */
  lemma {:induction false} CrashNeedsCutOffKey(content: seq<byte>)
    requires Parse(content) == Crashed
    ensures exists i: nat :: i < |content| && content[i] == SLASH && CutOffKey((content + [LF])[i..])
  {
    hide ParseOps, NameBody, PS.HasNullSuffix;
    var s := content + [LF];
    OperationsCrashAtKeyOnly(s, []);
    var t :| PL.IsSuffix(t, s) && CutOffKey(t);
    var i := |s| - |t|;
    assert s[i..] == t && s[i] == t[0];
  }
}
