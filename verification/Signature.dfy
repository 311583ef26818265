/**
 Writing a file with one signature dictionary: the new objects are written to a buffer first, in which the ByteRange
 and then the Contents of the signature are overwritten.
 */
module Signature {
  import opened Options
  import opened Symbols
  import opened Objects
  import PS = ParserSpec
  import RT = RoundTrip

  const BYTE_RANGE: seq<byte> := [0x42, 0x79, 0x74, 0x65, 0x52, 0x61, 0x6E, 0x67, 0x65]
  const CONTENTS: seq<byte> := [0x43, 0x6F, 0x6E, 0x74, 0x65, 0x6E, 0x74, 0x73]

  // ----- The signature dictionary's own text

  /** One entry; a space after the value tells where ByteRange and Contents end. */
  function EntryText(e: Entry): seq<byte>
    requires Writable(e.val)
  {
    Text(Name(e.key)) + [SP] + Text(e.val) + if e.key == BYTE_RANGE || e.key == CONTENTS then [SP] else []
  }

  function EntriesText(d: seq<Entry>): seq<byte>
    requires forall i :: 0 <= i < |d| ==> Writable(d[i].val)
  {
    if d == [] then [] else EntriesText(d[..|d| - 1]) + EntryText(d[|d| - 1])
  }

  /** From start to before end is the text of the value. */
  datatype Span = Span(start: nat, end: nat)

  ghost predicate IsSpanOf(d: seq<Entry>, key: seq<byte>, text: seq<byte>, s: Span)
    requires forall i :: 0 <= i < |d| ==> Writable(d[i].val)
  {
    match Lookup(d, key)
    case None => s == Span(0, 0)
    case Some(v) => Writable(v) && 0 < s.start <= s.end < |text| && text[s.start..s.end] == Text(v)
  }

  class SignDictionary {
    const entries: seq<Entry>
    var fileOffset: nat
    var contents: Span
    var byteRange: Span

    constructor (entries: seq<Entry>)
      ensures this.entries == entries
    {
      this.entries := entries;
      fileOffset := 0;
      contents := Span(0, 0);
      byteRange := Span(0, 0);
    }

    /** The text, with the places of the two values that are changed later. */
    method WriteString() returns (out: seq<byte>)
      requires DistinctKeys(entries) && forall i :: 0 <= i < |entries| ==> Writable(entries[i].val)
      modifies `contents, `byteRange
      ensures out == [LESS, LESS] + EntriesText(entries) + [GREATER, GREATER]
      ensures IsSpanOf(entries, BYTE_RANGE, out, byteRange) && IsSpanOf(entries, CONTENTS, out, contents)
      ensures Lookup(entries, BYTE_RANGE).Some? && Lookup(entries, CONTENTS).Some? ==> byteRange.end < contents.start || contents.end < byteRange.start
    {
      hide *;
      contents, byteRange := Span(0, 0), Span(0, 0);
      out := [LESS, LESS];
      NothingWritten();
      assert entries[..0] == [];
      for i := 0 to |entries|
        invariant Written(entries[..i], out, byteRange, contents)
      {
        var e := entries[i];
        ghost var before, text, b, c := entries[..i], out, byteRange, contents;
        assert entries[..i + 1] == before + [e];
        PrefixKeys(entries, i);
        var key := WriteName(e.key);
        var value := WriteValue(e.val);
        out := out + key + [SP];
        if e.key == BYTE_RANGE {
          byteRange := Span(|out|, |out| + |value|);
          out := out + value + [SP];
        } else if e.key == CONTENTS {
          contents := Span(|out|, |out| + |value|);
          out := out + value + [SP];
        } else {
          out := out + value;
        }
        EntryWritten(before, e, text, b, c);
      }
      assert entries[..|entries|] == entries;
      Closed(entries, out, byteRange, contents);
      out := out + [GREATER, GREATER];
    }
  }

  /** The text of entries, after "<<", and the spans of the two values in it. */
  ghost predicate Written(d: seq<Entry>, text: seq<byte>, byteRange: Span, contents: Span) {
    && (forall i :: 0 <= i < |d| ==> Writable(d[i].val))
    && text == [LESS, LESS] + EntriesText(d)
    && IsSpanOf(d, BYTE_RANGE, text, byteRange) && IsSpanOf(d, CONTENTS, text, contents)
    && (Lookup(d, BYTE_RANGE).Some? && Lookup(d, CONTENTS).Some? ==> byteRange.end < contents.start || contents.end < byteRange.start)
  }

  lemma {:induction false} NothingWritten()
    ensures Written([], [LESS, LESS], Span(0, 0), Span(0, 0))
  {
  }

  /** What the loop of WriteString does with one entry. */
  lemma {:induction false} EntryWritten(d: seq<Entry>, e: Entry, text: seq<byte>, byteRange: Span, contents: Span)
    requires Written(d, text, byteRange, contents) && Writable(e.val) && Lookup(d, e.key) == None
    ensures var front := text + Text(Name(e.key)) + [SP];
      var span := Span(|front|, |front| + |Text(e.val)|);
      if e.key == BYTE_RANGE then Written(d + [e], front + Text(e.val) + [SP], span, contents)
      else if e.key == CONTENTS then Written(d + [e], front + Text(e.val) + [SP], byteRange, span)
      else Written(d + [e], front + Text(e.val), byteRange, contents)
  {
    hide Text, Lookup, IsSpanOf;
    var front := text + Text(Name(e.key)) + [SP];
    var more := if e.key == BYTE_RANGE || e.key == CONTENTS then [SP] else [];
    var out := front + Text(e.val) + more;
    assert (d + [e])[..|d|] == d;
    KeysDiffer();
    assert out == [LESS, LESS] + EntriesText(d + [e]);
    assert front + Text(e.val) + [] == front + Text(e.val);
    assert out == text + (Text(Name(e.key)) + [SP] + Text(e.val) + more);
    if e.key != BYTE_RANGE { SpanKept(d, e, BYTE_RANGE, text, out, byteRange); }
    if e.key != CONTENTS { SpanKept(d, e, CONTENTS, text, out, contents); }
    if more != [] { NewSpan(d, e, front); }
    SpanInText(d, BYTE_RANGE, text, byteRange);
    SpanInText(d, CONTENTS, text, contents);
    LookupAppend(d, e, BYTE_RANGE);
    LookupAppend(d, e, CONTENTS);
  }

  lemma {:induction false} SpanKept(d: seq<Entry>, e: Entry, key: seq<byte>, text: seq<byte>, out: seq<byte>, s: Span)
    requires (forall i :: 0 <= i < |d| ==> Writable(d[i].val)) && Writable(e.val) && Lookup(d, e.key) == None
    requires key != e.key && text <= out && IsSpanOf(d, key, text, s)
    ensures IsSpanOf(d + [e], key, out, s)
  {
    hide Text, Writable, Lookup;
    LookupAppend(d, e, key);
    assert s.end < |text| ==> out[s.start..s.end] == text[s.start..s.end];
  }

  lemma {:induction false} NewSpan(d: seq<Entry>, e: Entry, front: seq<byte>)
    requires (forall i :: 0 <= i < |d| ==> Writable(d[i].val)) && Writable(e.val) && Lookup(d, e.key) == None && front != []
    ensures IsSpanOf(d + [e], e.key, front + Text(e.val) + [SP], Span(|front|, |front| + |Text(e.val)|))
  {
    hide Text, Writable, Lookup;
    LookupAppend(d, e, e.key);
  }

  lemma {:induction false} SpanInText(d: seq<Entry>, key: seq<byte>, text: seq<byte>, s: Span)
    requires (forall i :: 0 <= i < |d| ==> Writable(d[i].val)) && IsSpanOf(d, key, text, s)
    ensures Lookup(d, key).Some? ==> s.start <= s.end < |text|
  {
  }

  /** After the closing brackets. */
  lemma {:induction false} Closed(d: seq<Entry>, text: seq<byte>, byteRange: Span, contents: Span)
    requires Written(d, text, byteRange, contents)
    ensures var out := text + [GREATER, GREATER];
      && out == [LESS, LESS] + EntriesText(d) + [GREATER, GREATER]
      && IsSpanOf(d, BYTE_RANGE, out, byteRange) && IsSpanOf(d, CONTENTS, out, contents)
    ensures Lookup(d, BYTE_RANGE).Some? && Lookup(d, CONTENTS).Some? ==> byteRange.end < contents.start || contents.end < byteRange.start
  {
    hide Text, Writable, Lookup, EntriesText;
    assert forall i, j :: 0 <= i <= j <= |text| ==> (text + [GREATER, GREATER])[i..j] == text[i..j];
  }

  method WriteValue(o: Obj) returns (text: seq<byte>)
    requires Writable(o)
    ensures text == Text(o)
  {
    text := WriteString(o);
  }

  lemma {:induction false} KeysDiffer()
    ensures BYTE_RANGE != CONTENTS
  {
    assert |BYTE_RANGE| != |CONTENTS|;
  }

  lemma {:induction false} PrefixKeys(d: seq<Entry>, i: nat)
    requires i < |d| && DistinctKeys(d)
    ensures Lookup(d[..i], d[i].key) == None
  {
    if i > 0 {
      PrefixKeys(d[1..], i - 1);
      assert d[..i][1..] == d[1..][..i - 1];
      RT.PresentKey(d[1..], i - 1);
    }
  }

  lemma {:induction false} LookupAppend(d: seq<Entry>, e: Entry, key: seq<byte>)
    requires Lookup(d, e.key) == None
    ensures Lookup(d + [e], key) == if key == e.key then Some(e.val) else Lookup(d, key)
  {
    if d == [] {
      assert [e][1..] == [];
    } else {
      assert (d + [e])[1..] == d[1..] + [e];
      LookupAppend(d[1..], e, key);
    }
  }

  // ----- Overwriting parts of the buffer

  function Spaces(n: nat): (s: seq<byte>)
    ensures |s| == n && forall i :: 0 <= i < n ==> s[i] == SP
  {
    seq(n, i => SP)
  }

  /** The first n bytes of a text, followed by spaces. */
  function Fill(text: seq<byte>, n: nat): (f: seq<byte>)
    ensures |f| == n
  {
    if |text| >= n then text[..n] else text + Spaces(n - |text|)
  }

  function Overlay(b: seq<byte>, start: nat, end: nat, text: seq<byte>): (r: seq<byte>)
    requires start <= end <= |b|
    ensures |r| == |b|
  {
    b[..start] + Fill(text, end - start) + b[end..]
  }

  /** The loop that puts spaces over a span, and the copy of a text to its beginning. */
  method Patch(buffer: array<byte>, start: nat, end: nat, text: seq<byte>)
    requires start <= end <= buffer.Length
    modifies buffer
    ensures buffer[..] == Overlay(old(buffer[..]), start, end, text)
  {
    for i := start to end
      invariant forall j :: 0 <= j < buffer.Length ==> buffer[j] == if start <= j < i then SP else old(buffer[j])
    {
      buffer[i] := SP;
    }
    var n := if |text| < end - start then |text| else end - start;
    for i := 0 to n
      invariant forall j :: 0 <= j < buffer.Length ==>
        buffer[j] == if start <= j < start + i then text[j - start] else if start <= j < end then SP else old(buffer[j])
    {
      buffer[start + i] := text[i];
    }
    ghost var goal := Overlay(old(buffer[..]), start, end, text);
    forall j | 0 <= j < buffer.Length ensures buffer[j] == goal[j] {
      OverlayAt(old(buffer[..]), start, end, text, j);
    }
  }

  lemma {:induction false} OverlayAt(b: seq<byte>, start: nat, end: nat, text: seq<byte>, j: nat)
    requires start <= end <= |b| && j < |b|
    ensures Overlay(b, start, end, text)[j] ==
      if start <= j < end then (if j - start < |text| then text[j - start] else SP) else b[j]
  {
  }

  // ----- The digest and the file

  /** What reading from the file gives: bytes, an error, or a panic where a buffer of negative length is made. */
  datatype Reading = Bytes(b: seq<byte>) | ReadError | Panic

  /** One read of n bytes from an offset. At the end of the file it fails; what is missing before n bytes is left zero. */
  function ReadAt(file: seq<byte>, start: int, n: int): Reading {
    if start < 0 then ReadError
    else if n < 0 then Panic
    else if n == 0 then Bytes([])
    else if start >= |file| then ReadError
    else if start + n <= |file| then Bytes(file[start..start + n])
    else Bytes(file[start..] + seq(start + n - |file|, i => 0))
  }

  function Then(a: Reading, b: Reading): Reading {
    if a.Bytes? && b.Bytes? then Bytes(a.b + b.b) else if a.Bytes? then b else a
  }

  /** The bytes that a ByteRange selects, as the validation of signatures reads them. A missing last length counts as zero. */
  function Selected(file: seq<byte>, ranges: seq<int>): Reading {
    if ranges == [] then Bytes([])
    else if |ranges| == 1 then ReadAt(file, ranges[0], 0)
    else Then(ReadAt(file, ranges[0], ranges[1]), Selected(file, ranges[2..]))
  }

  /** Where the signature's values are in the buffer: in bounds and apart. */
  ghost predicate Placed(original: seq<byte>, length: nat, d: SignDictionary)
    reads d
  {
    && |original| <= d.fileOffset && |original| + length <= MAX_INT64
    && d.contents.start <= d.contents.end && d.fileOffset - |original| + d.contents.end <= length
    && d.byteRange.start <= d.byteRange.end && d.fileOffset - |original| + d.byteRange.end <= length
    && (d.contents.end <= d.byteRange.start || d.byteRange.end <= d.contents.start)
  }

  function Ranges(original: seq<byte>, length: nat, d: SignDictionary): (r: seq<int64>)
    requires Placed(original, length, d)
    reads d
    ensures |r| == 4
  {
    var a, b := d.fileOffset + d.contents.start, d.fileOffset + d.contents.end;
    [0, a, b, |original| + length - b]
  }

  function AsArray(r: seq<int64>): Obj {
    Arr(seq(|r|, i requires 0 <= i < |r| => Int(r[i])))
  }

  /** The text of the ByteRange. */
  function RangesText(r: seq<int64>): seq<byte> {
    Text(AsArray(r))
  }

  /** What is written: both values overwritten, and nothing else changed. */
  function Final(original: seq<byte>, buffer: seq<byte>, d: SignDictionary, contents: seq<byte>): seq<byte>
    requires Placed(original, |buffer|, d)
    reads d
  {
    var off := d.fileOffset - |original|;
    var b := Overlay(buffer, off + d.byteRange.start, off + d.byteRange.end, RangesText(Ranges(original, |buffer|, d)));
    original + Overlay(b, off + d.contents.start, off + d.contents.end, contents)
  }

  /** The bytes that were given to the digest: the original file, and the buffer without the Contents. */
  function Digested(original: seq<byte>, buffer: seq<byte>, d: SignDictionary): seq<byte>
    requires Placed(original, |buffer|, d)
    reads d
  {
    var off := d.fileOffset - |original|;
    var b := Overlay(buffer, off + d.byteRange.start, off + d.byteRange.end, RangesText(Ranges(original, |buffer|, d)));
    original + b[..off + d.contents.start] + b[off + d.contents.end..]
  }

  /** What was digested is what the written ByteRange selects in the file; the ranges leave out the Contents and nothing else. */
  lemma {:induction false} DigestIsOfSelected(original: seq<byte>, buffer: seq<byte>, d: SignDictionary, contents: seq<byte>)
    requires Placed(original, |buffer|, d)
    ensures var file, r := Final(original, buffer, d, contents), Ranges(original, |buffer|, d);
      && |file| == |original| + |buffer|
      && Selected(file, r) == Bytes(Digested(original, buffer, d))
      && r[0] == 0 && 0 <= r[1] <= r[2] && r[2] + r[3] == |file|
      && file[r[1]..r[2]] == Fill(contents, r[2] - r[1])
  {
    hide RangesText, Fill, Overlay, Selected;
    var off := d.fileOffset - |original|;
    var s, e := off + d.contents.start, off + d.contents.end;
    var b := Overlay(buffer, off + d.byteRange.start, off + d.byteRange.end, RangesText(Ranges(original, |buffer|, d)));
    var final := Overlay(b, s, e, contents);
    OverlayParts(b, s, e, contents);
    SelectsAllBut(original, b, final, s, e);
    assert final[s..e] == (original + final)[|original| + s..|original| + e];
    var r: seq<int> := Ranges(original, |buffer|, d);
    assert r == [0, |original| + s, |original| + e, |b| - e];
  }

  lemma {:induction false} SelectsAllBut(original: seq<byte>, b: seq<byte>, final: seq<byte>, s: nat, e: nat)
    requires s <= e <= |b| == |final| && final[..s] == b[..s] && final[e..] == b[e..]
    ensures Selected(original + final, [0, |original| + s, |original| + e, |b| - e]) == Bytes(original + b[..s] + b[e..])
  {
    var file := original + final;
    var r: seq<int> := [0, |original| + s, |original| + e, |b| - e];
    assert file[0..|original| + s] == original + b[..s];
    assert file[|original| + e..|original| + e + (|b| - e)] == b[e..];
    assert ReadAt(file, 0, |original| + s) == Bytes(original + b[..s]);
    assert ReadAt(file, |original| + e, |b| - e) == Bytes(b[e..]);
    assert r[2..] == [|original| + e, |b| - e] && r[2..][2..] == [];
    assert b[e..] + [] == b[e..];
    assert Selected(file, r[2..]) == Bytes(b[e..]);
  }

  lemma {:induction false} OverlayParts(b: seq<byte>, s: nat, e: nat, text: seq<byte>)
    requires s <= e <= |b|
    ensures var o := Overlay(b, s, e, text); o[..s] == b[..s] && o[s..e] == Fill(text, e - s) && o[e..] == b[e..]
  {
    hide Fill;
  }

  /** The ByteRange can be read back from the file when its text fits the room for it, whatever is after it. */
  lemma {:induction false} ByteRangeReadsBack(original: seq<byte>, buffer: seq<byte>, d: SignDictionary, contents: seq<byte>)
    requires Placed(original, |buffer|, d)
    requires |RangesText(Ranges(original, |buffer|, d))| <= d.byteRange.end - d.byteRange.start
    ensures var file, r := Final(original, buffer, d, contents), Ranges(original, |buffer|, d);
      var at := d.fileOffset + d.byteRange.start;
      at <= |file| && PS.ParseObject(file[at..]).Ok? && PS.ParseObject(file[at..]).value == AsArray(r)
  {
    hide Put, PS.ParseObject, Overlay, RangesText;
    var r := Ranges(original, |buffer|, d);
    var off := d.fileOffset - |original|;
    TextInPlace(original, buffer, off + d.byteRange.start, off + d.byteRange.end, RangesText(r),
                off + d.contents.start, off + d.contents.end, contents);
    TextReadsBack(Final(original, buffer, d, contents), d.fileOffset + d.byteRange.start, r);
  }

  lemma {:induction false} TextReadsBack(file: seq<byte>, at: nat, r: seq<int64>)
    requires at + |RangesText(r)| <= |file| && file[at..at + |RangesText(r)|] == RangesText(r)
    ensures PS.ParseObject(file[at..]).Ok? && PS.ParseObject(file[at..]).value == AsArray(r)
  {
    hide Put, PS.ParseObject;
    var text := RangesText(r);
    assert file[at..] == text + file[at + |text|..];
    PutAppends(AsArray(r), file[at + |text|..]);
    ArrayOfIntegersReadsBack(r, file[at + |text|..]);
  }

  lemma {:induction false} TextInPlace(original: seq<byte>, buffer: seq<byte>, s: nat, e: nat, text: seq<byte>, cs: nat, ce: nat, contents: seq<byte>)
    requires s <= e <= |buffer| && cs <= ce <= |buffer| && (ce <= s || e <= cs) && |text| <= e - s
    ensures var file := original + Overlay(Overlay(buffer, s, e, text), cs, ce, contents);
      |original| + s + |text| <= |file| && file[|original| + s..|original| + s + |text|] == text
  {
    var b := Overlay(buffer, s, e, text);
    var file := original + Overlay(b, cs, ce, contents);
    forall i | 0 <= i < |text| ensures file[|original| + s + i] == text[i] {
      OverlayAt(b, cs, ce, contents, s + i);
      OverlayAt(buffer, s, e, text, s + i);
    }
  }

  /** A text that does not fit has no closing bracket of its own in the file. */
  lemma {:induction false} HexCut(b: seq<byte>, n: nat)
    requires n <= |b| && GREATER !in b[..n] && PS.HexText(b).Ok?
    ensures |PS.HexText(b).rest| < |b| - n
  {
    if n > 0 {
      assert b[0] == b[..n][0] && b[1..][..n - 1] == b[..n][1..];
      HexCut(b[1..], n - 1);
    }
  }

  lemma {:induction false} HexDigitsOnly(v: seq<byte>, n: nat)
    requires n < |PutHexBody(v, [])|
    ensures GREATER !in PutHexBody(v, [])[..n]
  {
    var b := PutHexBody(v, []);
    if v != [] && n >= 2 {
      var t := PutHexBody(v[1..], []);
      HexDigitsOnly(v[1..], n - 2);
      assert b[..n] == [b[0], b[1]] + t[..n - 2];
    } else if v != [] && n == 1 {
      assert b[..n] == [b[0]];
    }
  }

  /** Nor has a literal string its closing parenthesis: those in it are escaped. */
  lemma {:induction false} LiteralCut(v: seq<byte>, n: nat, b: seq<byte>)
    requires n < |PutLiteralBody(v, [])| && n <= |b| && b[..n] == PutLiteralBody(v, [])[..n] && PS.LiteralBody(b, 1).Ok?
    ensures |PS.LiteralBody(b, 1).rest| < |b| - n
  {
    var p := PutLiteralBody(v, []);
    if v != [] && n > 0 {
      var q := PutLiteralBody(v[1..], []);
      assert b[0] == b[..n][0] == p[0];
      if EscapeLetter(v[0]) == [] {
        assert b[1..][..n - 1] == b[..n][1..] == p[..n][1..] == q[..n - 1];
        LiteralCut(v[1..], n - 1, b[1..]);
      } else if n > 1 {
        assert b[1] == b[..n][1] == p[1];
        assert b[2..][..n - 2] == b[..n][2..] == p[..n][2..] == q[..n - 2];
        LiteralCut(v[1..], n - 2, b[2..]);
      }
    }
  }

  lemma {:induction false} StringsTakeBytes(s: seq<byte>)
    ensures var p := PS.ParseObject(s); p.Ok? && p.value.Str? ==> |p.rest| < |s|
  {
    hide PS.ArrayLoop, PS.DictLoop, PS.MatchReference, PS.LiteralBody, PS.HexText, PS.HexDecode;
  }

  lemma {:induction false} CutStringGoesOn(v: seq<byte>, isHex: bool, n: nat, s: seq<byte>)
    requires n < |Text(Str(v, isHex))| && n <= |s| && s[..n] == Text(Str(v, isHex))[..n]
    ensures var p := PS.ParseObject(s); p.Ok? && p.value.Str? ==> |p.rest| < |s| - n
  {
    StringsTakeBytes(s);
    var text := Text(Str(v, isHex));
    if n > 0 && PS.ParseObject(s).Ok? && PS.ParseObject(s).value.Str? {
      assert s[0] == s[..n][0] == text[0];
      assert s[1..][..n - 1] == s[..n][1..] == text[..n][1..] == text[1..][..n - 1];
      StringBranches(s);
      if isHex {
        assert text[1..] == PutHexBody(v, []);
        HexDigitsOnly(v, n - 1);
        HexCut(s[1..], n - 1);
      } else {
        assert text[1..] == PutLiteralBody(v, []);
        LiteralCut(v, n - 1, s[1..]);
      }
    }
  }

  lemma {:induction false} StringBranches(s: seq<byte>)
    requires s != [] && (s[0] == LPAREN || s[0] == LESS) && PS.ParseObject(s).Ok? && PS.ParseObject(s).value.Str?
    ensures s[0] == LPAREN ==> PS.LiteralBody(s[1..], 1).Ok? && PS.ParseObject(s).rest == PS.LiteralBody(s[1..], 1).rest
    ensures s[0] == LESS ==> PS.HexText(s[1..]).Ok? && PS.ParseObject(s).rest == PS.HexText(s[1..]).rest
  {
    hide PS.ArrayLoop, PS.LiteralBody, PS.HexText, PS.HexDecode;
    if s[0] == LESS && |s| >= 2 && s[1] == LESS { DictsAreNoStrings(s[2..], []); }
  }

  lemma {:induction false} DictsAreNoStrings(s: seq<byte>, d: seq<Entry>)
    ensures PS.DictLoop(s, d).Ok? ==> PS.DictLoop(s, d).value.Dict?
    decreases |s|
  {
    hide PS.DictEntry;
    var t := SkipComments(s);
    if |t| >= 2 && !(t[0] == GREATER && t[1] == GREATER) {
      var e := PS.DictEntry(t, d);
      if e.Ok? { DictsAreNoStrings(e.rest, e.value); }
    }
  }

  /** The Contents, a string, is read back from within the room for it if and only if its text fits the room. */
  lemma {:induction false} ContentsReadsBackIff(original: seq<byte>, buffer: seq<byte>, d: SignDictionary, v: seq<byte>, isHex: bool)
    requires Placed(original, |buffer|, d)
    ensures var contents := Text(Str(v, isHex));
      var file, at := Final(original, buffer, d, contents), d.fileOffset + d.contents.start;
      at <= |file| &&
      var p := PS.ParseObject(file[at..]);
      (p.Ok? && p.value == Str(v, isHex) && |file| - |p.rest| <= d.fileOffset + d.contents.end
       <==> |contents| <= d.contents.end - d.contents.start)
  {
    hide Put, PS.ParseObject, Overlay, RangesText, Fill;
    var o := Str(v, isHex);
    var contents := Text(o);
    var file, at, room := Final(original, buffer, d, contents), d.fileOffset + d.contents.start, d.contents.end - d.contents.start;
    DigestIsOfSelected(original, buffer, d, contents);
    var s := file[at..];
    assert s[..room] == file[at..at + room] == Fill(contents, room);
    FilledStart(contents, room);
    if |contents| <= room {
      assert s == contents + s[|contents|..] by { assert s[..|contents|] == s[..room][..|contents|] == contents; }
      PutAppends(o, s[|contents|..]);
      RT.SimpleParsesBack(o, s[|contents|..]);
    } else {
      CutStringGoesOn(v, isHex, room, s);
    }
  }

  lemma {:induction false} FilledStart(text: seq<byte>, n: nat)
    ensures |text| <= n ==> Fill(text, n)[..|text|] == text
    ensures |text| > n ==> Fill(text, n) == text[..n]
  {
  }

  lemma {:induction false} ArrayOfIntegersReadsBack(r: seq<int64>, k: seq<byte>)
    ensures PS.ParseObject(Put(AsArray(r), k)) == PS.Ok(AsArray(r), k)
  {
    var es := AsArray(r).elems;
    RT.ElemsParseBack(PutElems(es, k), es, [], k);
    RT.ArrayDispatch(es, k);
    assert [] + es == es;
  }

  /** The part of Write that signs: sign makes the text of the Contents from what was digested, or fails. */
  method WriteSigned(original: seq<byte>, buffer: array<byte>, d: SignDictionary, sign: seq<byte> -> Option<seq<byte>>)
    returns (ok: bool, file: seq<byte>)
    requires Placed(original, buffer.Length, d)
    modifies buffer
    ensures var digested := Digested(original, old(buffer[..]), d);
      ok == sign(digested).Some? && (ok ==> file == Final(original, old(buffer[..]), d, sign(digested).value))
  {
    hide RangesText, Fill, Overlay;
    var offset := |original|;
    var newPosition := d.fileOffset + d.contents.start;
    var lastPosition := d.fileOffset + d.contents.end;
    var byteRange: seq<int64> := [0, newPosition, lastPosition, offset + buffer.Length - lastPosition];
    assert byteRange == Ranges(original, buffer.Length, d);
    var byteRangeData := WriteRanges(byteRange);
    var bufferOffset := d.fileOffset - offset;
    Patch(buffer, bufferOffset + d.byteRange.start, bufferOffset + d.byteRange.end, byteRangeData);
    var digest := original;
    digest := digest + buffer[..bufferOffset + d.contents.start];
    digest := digest + buffer[bufferOffset + d.contents.end..];
    ghost var b := buffer[..];
    assert buffer[..bufferOffset + d.contents.start] == b[..bufferOffset + d.contents.start];
    assert buffer[bufferOffset + d.contents.end..] == b[bufferOffset + d.contents.end..];
    match sign(digest)
    case None => return false, [];
    case Some(contents) =>
      Patch(buffer, bufferOffset + d.byteRange.start, bufferOffset + d.byteRange.end, byteRangeData);
      PatchTwice(old(buffer[..]), bufferOffset + d.byteRange.start, bufferOffset + d.byteRange.end, byteRangeData);
      Patch(buffer, bufferOffset + d.contents.start, bufferOffset + d.contents.end, contents);
      return true, original + buffer[..];
  }

  lemma {:induction false} PatchTwice(b: seq<byte>, s: nat, e: nat, text: seq<byte>)
    requires s <= e <= |b|
    ensures Overlay(Overlay(b, s, e, text), s, e, text) == Overlay(b, s, e, text)
  {
    OverlayParts(b, s, e, text);
    hide Fill;
  }

  method WriteRanges(r: seq<int64>) returns (text: seq<byte>)
    ensures text == RangesText(r)
  {
    text := WriteString(AsArray(r));
  }

  /** The loop of a validation that gives the ranges of a file to a digest. */
  method DigestRanges(file: seq<byte>, ranges: seq<int>) returns (digest: Reading)
    ensures digest == Selected(file, ranges)
  {
    var data: seq<byte> := [];
    var i := 0;
    EmptyFirst(Selected(file, ranges));
    while i < |ranges|
      invariant 0 <= i
      invariant Then(Bytes(data), if i <= |ranges| then Selected(file, ranges[i..]) else Bytes([])) == Selected(file, ranges)
    {
      hide ReadAt;
      ghost var more := if i + 2 <= |ranges| then Selected(file, ranges[i + 2..]) else Bytes([]);
      SelectedStep(file, ranges, i);
      var n := if i + 1 < |ranges| then ranges[i + 1] else 0;
      var read := ReadAt(file, ranges[i], n);
      match read {
        case Bytes(b) =>
          ThenTwice(data, b, more);
          data := data + b;
        case _ => return read;
      }
      i := i + 2;
    }
    assert data + [] == data;
    digest := Bytes(data);
  }

  lemma {:induction false} EmptyFirst(r: Reading)
    ensures Then(Bytes([]), r) == r
  {
    if r.Bytes? { assert [] + r.b == r.b; }
  }

  lemma {:induction false} ThenTwice(a: seq<byte>, b: seq<byte>, r: Reading)
    ensures Then(Bytes(a), Then(Bytes(b), r)) == Then(Bytes(a + b), r)
  {
    if r.Bytes? { assert a + (b + r.b) == a + b + r.b; }
  }

  lemma {:induction false} SelectedStep(file: seq<byte>, ranges: seq<int>, i: nat)
    requires i < |ranges|
    ensures Selected(file, ranges[i..]) ==
      Then(ReadAt(file, ranges[i], if i + 1 < |ranges| then ranges[i + 1] else 0),
           if i + 2 <= |ranges| then Selected(file, ranges[i + 2..]) else Bytes([]))
  {
    hide ReadAt;
    var r := ranges[i..];
    if |r| == 1 {
      var read := ReadAt(file, r[0], 0);
      if read.Bytes? { assert read.b + [] == read.b; }
    } else {
      assert r[2..] == ranges[i + 2..];
    }
  }

  // ----- When the ByteRange fits

  function Ints(r: seq<int64>): (es: seq<Obj>)
    ensures |es| == |r| && forall i :: 0 <= i < |r| ==> es[i] == Int(r[i])
  {
    seq(|r|, i requires 0 <= i < |r| => Int(r[i]))
  }

  function NumbersLength(r: seq<int64>): nat {
    if r == [] then 0 else |FormatInt(r[0])| + NumbersLength(r[1..])
  }

  lemma {:induction false} ElementsLength(r: seq<int64>)
    requires r != []
    ensures |PutElems(Ints(r), [])| == NumbersLength(r) + |r|
  {
    assert Ints(r)[1..] == Ints(r[1..]);
    if |r| > 1 { ElementsLength(r[1..]); }
  }

  function PowerOfTen(k: nat): nat {
    if k == 0 then 1 else 10 * PowerOfTen(k - 1)
  }

  lemma {:induction false} DigitsLength(n: nat, k: nat)
    requires k > 0 && n < PowerOfTen(k)
    ensures |Digits(n)| <= k
  {
    if n >= 10 { DigitsLength(n / 10, k - 1); }
  }

  /** The placeholder, with four times 0xfffff, leaves room for the numbers of every file of less than 1 000 000 000 bytes. */
  lemma {:induction false} RangesFitPlaceholder(r: seq<int64>)
    requires |r| == 4 && r[0] == 0 && forall i :: 0 <= i < 4 ==> 0 <= r[i] < 1_000_000_000
    ensures |RangesText(r)| <= |RangesText([0xfffff, 0xfffff, 0xfffff, 0xfffff])|
  {
    var p: seq<int64> := [0xfffff, 0xfffff, 0xfffff, 0xfffff];
    RangesLength(r);
    RangesLength(p);
    FourNumbers(r);
    FourNumbers(p);
    NineDigits(r[1]);
    NineDigits(r[2]);
    NineDigits(r[3]);
    SevenDigits();
  }

  lemma {:induction false} RangesLength(r: seq<int64>)
    requires r != []
    ensures |RangesText(r)| == 1 + NumbersLength(r) + |r|
  {
    ElementsLength(r);
    assert AsArray(r).elems == Ints(r);
  }

  lemma {:induction false} FourNumbers(r: seq<int64>)
    requires |r| == 4
    ensures NumbersLength(r) == |FormatInt(r[0])| + |FormatInt(r[1])| + |FormatInt(r[2])| + |FormatInt(r[3])|
  {
    assert r[1..][1..] == r[2..] && r[2..][1..] == r[3..] && r[3..][1..] == [];
    assert NumbersLength(r[3..]) == |FormatInt(r[3])|;
    assert NumbersLength(r[2..]) == |FormatInt(r[2])| + |FormatInt(r[3])|;
    assert NumbersLength(r[1..]) == |FormatInt(r[1])| + NumbersLength(r[2..]);
  }

  lemma {:induction false} NineDigits(n: int64)
    requires 0 <= n < 1_000_000_000
    ensures |FormatInt(n)| <= 9
  {
    RT.FormatIntIsDigits(n);
    assert PowerOfTen(3) == 1000 && PowerOfTen(6) == 1000 * 1000;
    assert PowerOfTen(9) == 1_000_000_000;
    DigitsLength(n, 9);
  }

  lemma {:induction false} SevenDigits()
    ensures |FormatInt(0xfffff)| == 7 && |FormatInt(0)| == 1
  {
    assert Digits(104) == Digits(10) + [ZERO + 4];
    assert Digits(10485) == Digits(1048) + [ZERO + 5];
  }
}
