/** Where the object parser does not do what its callers expect, with the exact condition. */
module ParserLimits {
  import opened Options
  import opened Symbols
  import opened Objects
  import opened ParserSpec
  import opened RoundTrip

  /** The numeric pattern accepts a comma in front of a digit, but the number reader takes no comma. */
  predicate StartsWithStuckComma(t: seq<byte>) {
    t != [] && t[0] == 0x2C && MatchesNumeric(Window(t, 15))
  }

  lemma {:induction false} AfterRShrinks(s: seq<byte>)
    requires UPPER_R in s
    ensures |AfterR(s)| < |s|
  {
    if s[0] != UPPER_R { AfterRShrinks(s[1..]); }
  }

  lemma {:induction false} MatchHasR(s: seq<byte>)
    requires MatchReference(s).Some?
    ensures UPPER_R in s && (IsRegexSpace(s[0]) || IsDecimalDigit(s[0]))
  {
    var a := SkipRegexSpaces(s);
    var b := a[|DigitRun(a)|..];
    var c := SkipRegexSpaces(b);
    var d := c[|DigitRun(c)|..];
    SkipIsSuffix(s);
    SkipIsSuffix(b);
    SkipIsSuffix(d);
    assert UPPER_R in SkipRegexSpaces(d);
    assert UPPER_R in d && UPPER_R in c && UPPER_R in b && UPPER_R in a;
  }

  lemma {:induction false} SkipIsSuffix(s: seq<byte>)
    ensures forall c :: c in SkipRegexSpaces(s) ==> c in s
    ensures s != [] && !IsRegexSpace(s[0]) ==> SkipRegexSpaces(s) == s
  {
    if s != [] && IsRegexSpace(s[0]) { SkipIsSuffix(s[1..]); }
  }

  /**
   An object that starts at t is read without reading a byte exactly at such a comma.
   In an array the loop then never ends.
   */
  lemma {:induction false} ReadsNothingIff(t: seq<byte>)
    requires t != [] && !IsWhiteSpace(t[0])
    ensures var p := ParseObject(t); (p.Ok? && |p.rest| == |t|) <==> StartsWithStuckComma(t)
  {
    hide DictLoop, ArrayLoop, ParseHexString, LiteralBody;
    var p := ParseObject(t);
    if t[0] == PERCENT {
      assert |SkipComments(t)| < |t|;
    } else if t[0] != SLASH && t[0] != LPAREN && t[0] != LBRACKET && t[0] != LESS {
      assert SkipComments(t) == t;
      TokenReadsNothingIff(t);
      assert p == ParseToken(t);
    }
  }

  lemma {:induction false} TokenReadsNothingIff(t: seq<byte>)
    requires t != [] && !IsWhiteSpace(t[0])
    ensures var p := ParseToken(t); (p.Ok? && |p.rest| == |t|) <==> StartsWithStuckComma(t)
  {
    hide MatchReference;
    var peek := Window(t, 15);
    assert peek[0] == t[0];
    if MatchReference(peek).Some? {
      MatchHasR(peek);
      AfterRShrinks(t);
    }
  }

  /** The array loop never ends at such a comma, as in "[,5]". */
  lemma {:induction false} ArrayNeverEnds(s: seq<byte>, arr: seq<Obj>)
    requires StartsWithStuckComma(SkipSpaces(s))
    ensures ArrayLoop(s, arr) == Failed(NoProgress)
  {
    hide ParseObject;
    ReadsNothingIff(SkipSpaces(s));
  }

  // ----- The look-ahead after a long key that ends in "null"

  /** Entries of a dictionary in front of k, the dictionary left open. */
  function PutOpen(d: seq<Entry>, k: seq<byte>): seq<byte>
    requires forall i :: 0 <= i < |d| ==> Writable(d[i].val)
  {
    if d == [] then k else Put(Name(d[0].key), [SP] + Put(d[0].val, PutOpen(d[1..], k)))
  }

  predicate AllWhite(w: seq<byte>) {
    forall i :: 0 <= i < |w| ==> IsWhiteSpace(w[i])
  }

  lemma {:induction false} WhiteIsSkipped(w: seq<byte>)
    requires AllWhite(w)
    ensures SkipSpaces(w) == []
  {
    if w != [] { WhiteIsSkipped(w[1..]); }
  }

  lemma {:induction false} SlashEndsAny(k: seq<byte>)
    requires k != [] && k[0] == SLASH
    ensures EndsAny(k)
  {
  }

  lemma {:induction false} OpenStartsWithSlash(d: seq<Entry>, k: seq<byte>)
    requires (forall i :: 0 <= i < |d| ==> Writable(d[i].val)) && k != [] && k[0] == SLASH
    ensures PutOpen(d, k) != [] && PutOpen(d, k)[0] == SLASH
  {
  }

  /** The data ends with a name and white space: as a dictionary key it is looked behind exactly when it is a long one that ends in "null". */
  lemma {:induction false} LastKeyPanicsIff(n: seq<byte>, w: seq<byte>, d: seq<Entry>)
    requires AllWhite(w)
    ensures DictLoop(Put(Name(n), w), d) == Failed(IndexPanic) <==> HasNullSuffix(n)
  {
    var s := Put(Name(n), w);
    LastKeyReads(n, w);
    hide ParseObject, ParseName, Put, SkipComments, SkipSpaces, HasNullSuffix;
    assert DictEntry(s, d) == if HasNullSuffix(n) then Failed(IndexPanic) else Failed(Syntax);
    assert HasNullSuffix(n) ==> |s| >= 2;
  }

  lemma {:induction false} LastKeyReads(n: seq<byte>, w: seq<byte>)
    requires AllWhite(w)
    ensures var s := Put(Name(n), w);
      s != [] && s[0] == SLASH && SkipComments(s) == s && ParseName(s) == Ok(n, w) && SkipSpaces(w) == []
    ensures ParseObject([]) == Failed(Syntax)
    ensures HasNullSuffix(n) ==> |Put(Name(n), w)| >= 2
  {
    hide ArrayLoop, DictLoop, ParseToken, LiteralBody, NameBody;
    var s := Put(Name(n), w);
    NameParsesBack(n, w);
    assert s[1..] == PutNameBody(n, w);
    WhiteIsSkipped(w);
    if n != [] { assert |PutNameBody(n, w)| >= 1; }
  }

  lemma {:induction false} OpenEntriesRead(d: seq<Entry>, k: seq<byte>, done: seq<Entry>) returns (all: seq<Entry>)
    requires forall i :: 0 <= i < |d| ==> !IsTrap(d[i]) && Printable(d[i].val) && TrapFree(d[i].val) && Writable(d[i].val)
    requires k != [] && k[0] == SLASH
    ensures DictLoop(PutOpen(d, k), done) == DictLoop(k, all)
  {
    hide DictLoop, ParseObject, EndsAny, MayFollow, Printable, TrapFree, IsTrap, Put;
    if d == [] {
      all := done;
    } else {
      var more := PutOpen(d[1..], k);
      OpenStartsWithSlash(d[1..], k);
      SlashEndsAny(more);
      EndsAnyMayFollow(d[0].val, more);
      ParsesBack(d[0].val, more);
      KeyStep(d[0], more, done);
      LongerText(d[0], more);
      all := OpenEntriesRead(d[1..], k, SetEntry(done, d[0].key, d[0].val));
    }
  }

  lemma {:induction false} LongerText(e: Entry, more: seq<byte>)
    requires Writable(e.val)
    ensures |more| < |Put(Name(e.key), [SP] + Put(e.val, more))|
  {
    PutNameBodyAppends(e.key, [SP] + Put(e.val, more));
    PutAppends(e.val, more);
  }

  /** A dictionary cut off after a key panics if and only if that key is a long one that ends in "null". */
  lemma {:induction false} CutOffPanicsIff(d: seq<Entry>, n: seq<byte>, w: seq<byte>)
    requires forall i :: 0 <= i < |d| ==> !IsTrap(d[i]) && Printable(d[i].val) && TrapFree(d[i].val)
    requires AllWhite(w)
    ensures forall i :: 0 <= i < |d| ==> Writable(d[i].val)
    ensures ParseObject([LESS, LESS] + PutOpen(d, Put(Name(n), w))) == Failed(IndexPanic) <==> HasNullSuffix(n)
  {
    hide DictLoop, Printable, TrapFree, IsTrap;
    forall i | 0 <= i < |d| ensures Writable(d[i].val) { PrintableIsWritable(d[i].val); }
    var k := Put(Name(n), w);
    var all := OpenEntriesRead(d, k, []);
    LastKeyPanicsIff(n, w, all);
    var s := [LESS, LESS] + PutOpen(d, k);
    assert SkipComments(s) == s && s[2..] == PutOpen(d, k);
  }

  // ----- Nothing else panics

  predicate IsSuffix(t: seq<byte>, s: seq<byte>) {
    |t| <= |s| && s[|s| - |t|..] == t
  }

  lemma {:induction false} SuffixTrans(a: seq<byte>, b: seq<byte>, c: seq<byte>)
    requires IsSuffix(a, b) && IsSuffix(b, c)
    ensures IsSuffix(a, c)
  {
    assert c[|c| - |a|..] == c[|c| - |b|..][|b| - |a|..];
  }

  /** A name that the data ends with, white space left out, and that the look-ahead runs into. */
  predicate CutOffKey(t: seq<byte>) {
    t != [] && t[0] == SLASH &&
    var p := ParseName(t);
    p.Ok? && HasNullSuffix(p.value) && SkipSpaces(p.rest) == []
  }

  ghost predicate EndsInCutOffKey(s: seq<byte>) {
    exists t :: IsSuffix(t, s) && CutOffKey(t)
  }

  lemma {:induction false} CutOffFurther(t: seq<byte>, s: seq<byte>)
    requires IsSuffix(t, s) && EndsInCutOffKey(t)
    ensures EndsInCutOffKey(s)
  {
    hide IsSuffix, CutOffKey;
    var u :| IsSuffix(u, t) && CutOffKey(u);
    SuffixTrans(u, t, s);
  }

  lemma {:induction false} TailIsSuffix(s: seq<byte>, n: nat)
    requires n <= |s|
    ensures IsSuffix(s[n..], s)
  {
  }

  /** What is a suffix of the tail is one of the whole. */
  lemma {:induction false} SuffixOfTail(t: seq<byte>, s: seq<byte>, n: nat)
    requires n <= |s| && IsSuffix(t, s[n..])
    ensures IsSuffix(t, s)
  {
    TailIsSuffix(s, n);
    SuffixTrans(t, s[n..], s);
  }

  lemma {:induction false} SkippingLeavesSuffix(s: seq<byte>)
    ensures IsSuffix(SkipSpaces(s), s) && IsSuffix(SkipLine(s), s)
  {
    hide IsSuffix, IsWhiteSpace;
    TailIsSuffix(s, 0);
    if s != [] {
      SkippingLeavesSuffix(s[1..]);
      SuffixOfTail(SkipSpaces(s[1..]), s, 1);
      SuffixOfTail(SkipLine(s[1..]), s, 1);
    }
  }

  lemma {:induction false} CommentsLeaveSuffix(s: seq<byte>)
    ensures IsSuffix(SkipComments(s), s)
    decreases |s|
  {
    hide SkipSpaces, SkipLine, IsSuffix;
    SkippingLeavesSuffix(s);
    var t := SkipSpaces(s);
    if t != [] && t[0] == PERCENT {
      SkippingLeavesSuffix(t[1..]);
      CommentsLeaveSuffix(SkipLine(t[1..]));
      SuffixTrans(SkipComments(s), SkipLine(t[1..]), t[1..]);
      TailIsSuffix(t, 1);
      SuffixTrans(SkipComments(s), t[1..], t);
      SuffixTrans(SkipComments(s), t, s);
    }
  }

  /** What a reader of parts of an object may do: it fails with a syntax error, or leaves a suffix. */
  ghost predicate Orderly<T>(p: Parsed<T>, s: seq<byte>) {
    match p
    case Ok(_, rest) => IsSuffix(rest, s)
    case Failed(why) => why == Syntax
  }

  lemma {:induction false} OrderlyTail<T>(p: Parsed<T>, s: seq<byte>, n: nat)
    requires n <= |s| && Orderly(p, s[n..])
    ensures Orderly(p, s)
  {
    hide IsSuffix;
    if p.Ok? { SuffixOfTail(p.rest, s, n); }
  }

  lemma {:induction false} NamesAreOrderly(s: seq<byte>)
    ensures Orderly(NameBody(s), s)
  {
    hide IsSuffix, EndsName, IsHexDigit, HexValue;
    TailIsSuffix(s, 0);
    if s != [] {
      NamesAreOrderly(s[1..]);
      OrderlyTail(NameBody(s[1..]), s, 1);
      if |s| >= 3 {
        NamesAreOrderly(s[3..]);
        OrderlyTail(NameBody(s[3..]), s, 3);
      }
    }
  }

  lemma {:induction false} StringsAreOrderly(s: seq<byte>, count: int)
    ensures Orderly(LiteralBody(s, count), s)
    decreases |s|
  {
    if s != [] {
      if s[0] == BACKSLASH {
        var e := Escape(s);
        if e.Ok? { StringsAreOrderly(e.rest, count); }
      } else {
        StringsAreOrderly(s[1..], if s[0] == LPAREN then count + 1 else if s[0] == RPAREN then count - 1 else count);
      }
    }
  }

  lemma {:induction false} HexTextIsOrderly(s: seq<byte>)
    ensures Orderly(HexText(s), s)
  {
    hide IsSuffix, IsWhiteSpace;
    if s != [] {
      TailIsSuffix(s, 1);
      HexTextIsOrderly(s[1..]);
      OrderlyTail(HexText(s[1..]), s, 1);
    }
  }

  lemma {:induction false} NumbersLeaveSuffix(s: seq<byte>, allowSigns: bool)
    ensures IsSuffix(ScanNumber(s, allowSigns).rest, s)
  {
    hide IsSuffix, IsDecimalDigit;
    TailIsSuffix(s, 0);
    if s != [] {
      NumbersLeaveSuffix(s[1..], true);
      NumbersLeaveSuffix(s[1..], false);
      SuffixOfTail(ScanNumber(s[1..], true).rest, s, 1);
      SuffixOfTail(ScanNumber(s[1..], false).rest, s, 1);
    }
  }

  lemma {:induction false} AfterRIsSuffix(s: seq<byte>)
    ensures IsSuffix(AfterR(s), s)
  {
    if s != [] { AfterRIsSuffix(s[1..]); }
  }

  lemma {:induction false} TokensAreOrderly(s: seq<byte>)
    ensures Orderly(ParseToken(s), s)
  {
    hide MatchReference, MatchesNumeric, ScanNumber, AfterR;
    NumbersLeaveSuffix(s, true);
    AfterRIsSuffix(s);
  }

  ghost predicate HasStuckComma(s: seq<byte>) {
    exists t :: IsSuffix(t, s) && StartsWithStuckComma(t)
  }

  lemma {:induction false} StuckFurther(t: seq<byte>, s: seq<byte>)
    requires IsSuffix(t, s) && HasStuckComma(t)
    ensures HasStuckComma(s)
  {
    hide IsSuffix, StartsWithStuckComma;
    var u :| IsSuffix(u, t) && StartsWithStuckComma(u);
    SuffixTrans(u, t, s);
  }

  /** What a reader of objects may do: leave a suffix, fail with an error, panic only at a cut-off key, and hang only at a comma. */
  ghost predicate FailsForCause<T>(p: Parsed<T>, s: seq<byte>) {
    match p
    case Ok(_, rest) => IsSuffix(rest, s)
    case Failed(why) => (why == IndexPanic ==> EndsInCutOffKey(s)) && (why == NoProgress ==> HasStuckComma(s))
  }

  lemma {:induction false} CauseFurther<T>(p: Parsed<T>, t: seq<byte>, s: seq<byte>)
    requires FailsForCause(p, t) && IsSuffix(t, s)
    ensures FailsForCause(p, s)
  {
    hide IsSuffix, EndsInCutOffKey, HasStuckComma;
    if p.Ok? { SuffixTrans(p.rest, t, s); } else if p.why == IndexPanic { CutOffFurther(t, s); } else if p.why == NoProgress { StuckFurther(t, s); }
  }

  lemma {:induction false} OrderlyHasNoCause<T>(p: Parsed<T>, s: seq<byte>)
    requires Orderly(p, s)
    ensures FailsForCause(p, s)
  {
    hide IsSuffix, EndsInCutOffKey, HasStuckComma;
  }

  /** Reading an object panics only at a cut-off key, and hangs only at a comma that looks like the beginning of a number. */
  lemma {:induction false} ObjectsFailForCause(s0: seq<byte>)
    ensures FailsForCause(ParseObject(s0), s0)
    decreases |s0|, 0
  {
    hide ArrayLoop, DictLoop, IsSuffix, NameBody, LiteralBody, HexText, ParseToken, SkipComments, EndsInCutOffKey, HasStuckComma;
    var s := SkipComments(s0);
    CommentsLeaveSuffix(s0);
    if s != [] {
      TailIsSuffix(s, 1);
      if s[0] == SLASH {
        NamesAreOrderly(s[1..]);
        OrderlyHasNoCause(NameBody(s[1..]), s[1..]);
        CauseFurther(NameBody(s[1..]), s[1..], s);
      } else if s[0] == LPAREN {
        StringsAreOrderly(s[1..], 1);
        OrderlyHasNoCause(LiteralBody(s[1..], 1), s[1..]);
        CauseFurther(LiteralBody(s[1..], 1), s[1..], s);
      } else if s[0] == LBRACKET {
        ArraysFailForCause(s[1..], []);
        CauseFurther(ArrayLoop(s[1..], []), s[1..], s);
      } else if s[0] == LESS && |s| >= 2 && s[1] == LESS {
        TailIsSuffix(s, 2);
        DictsFailForCause(s[2..], []);
        CauseFurther(DictLoop(s[2..], []), s[2..], s);
      } else if s[0] == LESS {
        HexTextIsOrderly(s[1..]);
        OrderlyHasNoCause(HexText(s[1..]), s[1..]);
        CauseFurther(HexText(s[1..]), s[1..], s);
      } else {
        TokensAreOrderly(s);
        OrderlyHasNoCause(ParseToken(s), s);
      }
      CauseFurther(ParseObject(s0), s, s0);
    }
  }

  lemma {:induction false} StuckHere(t: seq<byte>)
    requires StartsWithStuckComma(t)
    ensures HasStuckComma(t)
  {
    TailIsSuffix(t, 0);
    assert IsSuffix(t, t);
  }

  lemma {:induction false} ArraysFailForCause(s: seq<byte>, arr: seq<Obj>)
    ensures FailsForCause(ArrayLoop(s, arr), s)
    decreases |s|, 1
  {
    hide ParseObject, IsSuffix, EndsInCutOffKey, HasStuckComma;
    var t := SkipSpaces(s);
    SkippingLeavesSuffix(s);
    if t != [] {
      TailIsSuffix(t, 1);
      if t[0] != RBRACKET {
        ObjectsFailForCause(t);
        match ParseObject(t)
        case Ok(v, u) =>
          if |u| == |t| {
            ReadsNothingIff(t);
            StuckHere(t);
          } else {
            ArraysFailForCause(u, arr + [v]);
            CauseFurther(ArrayLoop(u, arr + [v]), u, t);
          }
        case Failed(_) =>
      }
      CauseFurther(ArrayLoop(s, arr), t, s);
    }
  }

  lemma {:induction false} EntriesFailForCause(t: seq<byte>, d: seq<Entry>)
    requires t != [] && t[0] != PERCENT
    ensures FailsForCause(DictEntry(t, d), t)
    decreases |t|, 1
  {
    hide ParseObject, IsSuffix, NameBody, HasNullSuffix;
    NamesAreOrderly(t[1..]);
    TailIsSuffix(t, 1);
    match ParseName(t)
    case Failed(_) =>
    case Ok(key, t1) =>
      var u := SkipSpaces(t1);
      SkippingLeavesSuffix(t1);
      SuffixTrans(t1, t[1..], t);
      SuffixTrans(u, t1, t);
      if HasNullSuffix(key) && u == [] {
        TailIsSuffix(t, 0);
        assert IsSuffix(t, t) && CutOffKey(t);
      } else if !(HasNullSuffix(key) && u[0] == SLASH) {
        ObjectsFailForCause(u);
        CauseFurther(ParseObject(u), u, t);
      }
  }

  lemma {:induction false} DictsFailForCause(s: seq<byte>, d: seq<Entry>)
    ensures FailsForCause(DictLoop(s, d), s)
    decreases |s|, 2
  {
    hide DictEntry, IsSuffix, SkipComments, EndsInCutOffKey, HasStuckComma;
    var t := SkipComments(s);
    CommentsLeaveSuffix(s);
    if |t| >= 2 {
      TailIsSuffix(t, 2);
      if !(t[0] == GREATER && t[1] == GREATER) {
        EntriesFailForCause(t, d);
        match DictEntry(t, d)
        case Ok(d', w) =>
          DictsFailForCause(w, d');
          CauseFurther(DictLoop(w, d'), w, t);
        case Failed(_) =>
      }
      CauseFurther(DictLoop(s, d), t, s);
    }
  }

  /** The parser panics on no data but data that ends, white space left out, with such a name. */
  lemma {:induction false} PanicNeedsCutOffKey(s: seq<byte>)
    requires ParseObject(s) == Failed(IndexPanic)
    ensures exists i: nat :: i < |s| && s[i] == SLASH && CutOffKey(s[i..])
  {
    hide ParseObject, ParseName, HasNullSuffix;
    ObjectsFailForCause(s);
    var t :| IsSuffix(t, s) && CutOffKey(t);
    var i := |s| - |t|;
    assert s[i..] == t && s[i] == t[0];
  }

  /** The parser hangs on no data but data with a comma in it that looks like the beginning of a number. */
  lemma {:induction false} HangNeedsStuckComma(s: seq<byte>)
    requires ParseObject(s) == Failed(NoProgress)
    ensures exists i: nat :: i < |s| && StartsWithStuckComma(s[i..])
  {
    hide ParseObject, StartsWithStuckComma;
    ObjectsFailForCause(s);
    var t :| IsSuffix(t, s) && StartsWithStuckComma(t);
    NotEmpty(t);
    var i := |s| - |t|;
    assert s[i..] == t;
  }

  lemma NotEmpty(t: seq<byte>)
    ensures StartsWithStuckComma(t) ==> t != []
  {
  }

  /** Elements of an array in front of k, a space after each. */
  function PutOpenElems(es: seq<Obj>, k: seq<byte>): seq<byte>
    requires forall i :: 0 <= i < |es| ==> Writable(es[i])
  {
    if es == [] then k else Put(es[0], [SP] + PutOpenElems(es[1..], k))
  }

  /** What comes after a space in the array: an element, or the comma; neither goes on with a reference. */
  lemma {:induction false} OpenElemsFollow(es: seq<Obj>, k: seq<byte>)
    requires forall i :: 0 <= i < |es| ==> Printable(es[i]) && Writable(es[i])
    requires StartsWithStuckComma(k)
    ensures var x := PutOpenElems(es, k); x != [] && !IsWhiteSpace(x[0]) && x[0] != UPPER_R && EndsAny([SP] + x)
    decreases |es|
  {
    hide Put, Printable, MatchesNumeric, ContinuesReference;
    if es == [] {
      CommaContinuesNothing(k);
    } else {
      var t := [SP] + PutOpenElems(es[1..], k);
      OpenElemsFollow(es[1..], k);
      OneSpace(PutOpenElems(es[1..], k));
      FirstByte(es[0], t);
      ElementContinuesNoReference(es[0], t);
    }
  }

  lemma {:induction false} CommaContinuesNothing(k: seq<byte>)
    requires k != [] && k[0] == 0x2C
    ensures !ContinuesReference([SP] + k)
  {
    OneSpace(k);
    assert DigitRun(k) == [];
  }

  lemma {:induction false} OpenElemsHang(s: seq<byte>, es: seq<Obj>, arr: seq<Obj>, k: seq<byte>)
    requires forall i :: 0 <= i < |es| ==> Printable(es[i]) && TrapFree(es[i]) && Writable(es[i])
    requires StartsWithStuckComma(k) && (s == PutOpenElems(es, k) || s == [SP] + PutOpenElems(es, k))
    ensures ArrayLoop(s, arr) == Failed(NoProgress)
    decreases |es|
  {
    hide ArrayLoop, ParseObject, Put, MayFollow, EndsAny, Printable, TrapFree, Writable, StartsWithStuckComma;
    var x := PutOpenElems(es, k);
    OpenElemsFollow(es, k);
    SpaceSkipped(x);
    if es == [] {
      ArrayNeverEnds(s, arr);
    } else {
      var t := [SP] + PutOpenElems(es[1..], k);
      OpenElemsFollow(es[1..], k);
      EndsAnyMayFollow(es[0], t);
      ParsesBack(es[0], t);
      OneElement(s, es[0], arr, t);
      OpenElemsHang(t, es[1..], arr + [es[0]], k);
    }
  }

  lemma {:induction false} SpaceSkipped(x: seq<byte>)
    requires x != [] && !IsWhiteSpace(x[0])
    ensures SkipSpaces(x) == x && SkipSpaces([SP] + x) == x
  {
    assert ([SP] + x)[1..] == x;
  }

  lemma {:induction false} OneElement(s: seq<byte>, o: Obj, arr: seq<Obj>, t: seq<byte>)
    requires Writable(o) && SkipSpaces(s) == Put(o, t) && ParseObject(Put(o, t)) == Ok(o, t)
    ensures ArrayLoop(s, arr) == ArrayLoop(t, arr + [o])
  {
    hide ParseObject, Put;
    FirstByte(o, t);
    PrintedStartStays(o, t);
  }

  /** After any trap-free elements, an array with such a comma is read for ever, as "[,5]" is. */
  lemma {:induction false} StuckArrayHangs(es: seq<Obj>, k: seq<byte>)
    requires forall i :: 0 <= i < |es| ==> Printable(es[i]) && TrapFree(es[i])
    requires StartsWithStuckComma(k)
    ensures forall i :: 0 <= i < |es| ==> Writable(es[i])
    ensures ParseObject([LBRACKET] + PutOpenElems(es, k)) == Failed(NoProgress)
  {
    hide ArrayLoop, Printable, TrapFree, StartsWithStuckComma;
    forall i | 0 <= i < |es| ensures Writable(es[i]) { PrintableIsWritable(es[i]); }
    OpenElemsHang(PutOpenElems(es, k), es, [], k);
    var s := [LBRACKET] + PutOpenElems(es, k);
    assert SkipComments(s) == s && s[1..] == PutOpenElems(es, k);
  }

  /** A lone reference is read back exactly when it fits the look-ahead. */
  lemma {:induction false} ReferenceParsesBackIff(n: int64, g: int64, k: seq<byte>)
    ensures ParseObject(Put(Ref(n, g), k)) == Ok(Ref(n, g), k) <==> FitsLookAhead(n, g)
  {
    if FitsLookAhead(n, g) {
      ReferenceParsesBack(n, g, k);
    } else {
      var s := Put(Ref(n, g), k);
      LongReferenceIsNotMatched(n, g, k);
      FormatIntIsDigits(n);
      TokenDispatch(s);
      hide MatchReference, Put;
    }
  }

  lemma {:induction false} NoRInHead(n: int64, g: int64)
    ensures UPPER_R !in FormatInt(n) + [SP] + FormatInt(g) + [SP]
  {
    FormatIntIsDigits(n);
    FormatIntIsDigits(g);
  }

  /** A number, a space and a minus sign: no reference. */
  lemma {:induction false} NegativeIsNotMatched(a: seq<byte>, c: seq<byte>)
    requires AllDigits(a) && a != [] && c != [] && c[0] == MINUS
    ensures MatchReference(a + ([SP] + c)) == None
  {
    var w := a + ([SP] + c);
    assert w[0] == a[0];
    DigitRunOf(a, [SP] + c);
    OneSpace(c);
    assert w[|a|..] == [SP] + c;
  }

  lemma {:induction false} LongHeadIsNotMatched(head: seq<byte>, x: seq<byte>)
    requires |head| >= 15 && UPPER_R !in head
    ensures MatchReference(Window(head + x, 15)) == None
  {
    hide MatchReference;
    var w := Window(head + x, 15);
    assert w == head[..15];
    if MatchReference(w).Some? { MatchHasR(w); }
  }

  lemma {:induction false} MinusIsNotMatched(s: seq<byte>)
    requires s != [] && s[0] == MINUS
    ensures MatchReference(Window(s, 15)) == None
  {
    hide MatchReference;
    var w := Window(s, 15);
    assert w[0] == s[0];
    if MatchReference(w).Some? { MatchHasR(w); }
  }

  lemma {:induction false} SecondMinusIsNotMatched(a: seq<byte>, x: seq<byte>)
    requires AllDigits(a) && a != [] && |a| + 1 < 15 && x != [] && x[0] == MINUS
    ensures MatchReference(Window(a + ([SP] + x), 15)) == None
  {
    hide MatchReference;
    var near := Window(x, 14 - |a|);
    assert Window(a + ([SP] + x), 15) == a + ([SP] + near);
    assert near[0] == x[0];
    NegativeIsNotMatched(a, near);
  }

  lemma {:induction false} LongReferenceIsNotMatched(n: int64, g: int64, k: seq<byte>)
    requires !FitsLookAhead(n, g)
    ensures MatchReference(Window(Put(Ref(n, g), k), 15)) == None
  {
    hide MatchReference, Digits, Window;
    var a, b := FormatInt(n), FormatInt(g);
    var head := a + [SP] + b + [SP];
    PrintedReference(n, g, k);
    FormatIntIsDigits(n);
    FormatIntIsDigits(g);
    if |head| >= 15 {
      NoRInHead(n, g);
      assert Put(Ref(n, g), k) == head + ([UPPER_R] + k);
      LongHeadIsNotMatched(head, [UPPER_R] + k);
    } else if n < 0 {
      assert Put(Ref(n, g), k)[0] == a[0];
      MinusIsNotMatched(Put(Ref(n, g), k));
    } else {
      assert (b + ([SP] + ([UPPER_R] + k)))[0] == b[0];
      SecondMinusIsNotMatched(a, b + ([SP] + ([UPPER_R] + k)));
    }
  }
}
