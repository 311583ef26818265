/** Decoding the groups that any encoder may write with the base-85 filter. */
module Ascii85Groups {
  import opened Symbols
  import opened Ascii85
  import opened Ascii85RoundTrip

  /** The value of five digits to the base 85. */
  function Weighted(c: seq<int>): int
    requires |c| == 5
  {
    c[0] * 52200625 + c[1] * 614125 + c[2] * 7225 + c[3] * 85 + c[4]
  }

  /** Four bytes, the highest first, have this value. */
  predicate Holds(b: seq<byte>, v: int) {
    |b| == 4 && b[0] as int * 0x100_0000 + b[1] as int * 0x1_0000 + b[2] as int * 0x100 + b[3] as int == v
  }

  lemma BytesHold(v: uint32)
    ensures Holds(BytesOf(v), v)
  {
    var n: int := v;
    var n1 := n / 0x100;
    var n2 := n1 / 0x100;
    assert n2 == n / 0x1_0000 && n2 / 0x100 == n / 0x100_0000;
  }

  /** The characters stand for digits, from '!' for 0 to 'u' for 84. */
  predicate StandFor(text: seq<byte>, c: seq<int>) {
    |text| == |c| && forall i :: 0 <= i < |c| ==> 0 <= c[i] < 85 && text[i] as int == 0x21 + c[i]
  }

  function Codes(c: seq<int>): (codes: seq<byte>)
    requires forall i :: 0 <= i < |c| ==> 0 <= c[i] < 85
    ensures |codes| == |c| && forall i :: 0 <= i < |c| ==> codes[i] == c[i]
  {
    seq(|c|, i requires 0 <= i < |c| => c[i])
  }

  lemma {:induction false} TextOfCodes(text: seq<byte>, c: seq<int>)
    requires StandFor(text, c)
    ensures (forall i :: 0 <= i < |Codes(c)| ==> Codes(c)[i] < 85) && Chars(Codes(c)) == text
  {
  }

  lemma {:induction false} ValueOfCodes(c: seq<int>)
    requires |c| == 5 && forall i :: 0 <= i < |c| ==> 0 <= c[i] < 85
    ensures Value85(Codes(c)) == Weighted(c)
  {
  }

  lemma {:induction false} WholeGroup(c: seq<int>) returns (b: seq<byte>)
    requires |c| == 5 && forall i :: 0 <= i < |c| ==> 0 <= c[i] < 85
    ensures GroupBytes(Codes(c), 4) == b && Holds(b, Weighted(c) % 0x1_0000_0000)
  {
    hide BytesOf, Value85, FiveCodes, Codes, Weighted, Holds;
    var codes := Codes(c);
    AllCodes(codes);
    ValueOfCodes(c);
    var v := Value85(codes) % 0x1_0000_0000;
    BytesHold(v);
    b := BytesOf(v);
    assert b[..4] == b;
  }

  lemma GroupFirst(s: seq<byte>, codes: seq<byte>, rest: seq<byte>)
    requires |codes| <= 5 && s != [] && Scan(s, []) == Scanned(codes, 4, false, rest)
    ensures Decode(s) == After(GroupBytes(codes, 4), Decode(rest))
  {
    hide Scan, GroupBytes;
  }

  /** Any five characters, white space between them or not, are read as the four bytes of their value, cut to 32 bits. */
  lemma {:induction false} AnyGroupIsRead(w: seq<byte>, text: seq<byte>, c: seq<int>, more: seq<byte>) returns (b: seq<byte>, w': seq<byte>)
    requires |c| == 5 && StandFor(text, c) && Strip(w) == text + more
    ensures Decode(w + [0x7E, 0x3E]) == After(b, Decode(w' + [0x7E, 0x3E])) && Strip(w') == more
    ensures Holds(b, Weighted(c) % 0x1_0000_0000)
  {
    hide Scan, Decode, GroupBytes, Codes, Chars, Strip, Holds, Weighted;
    TextOfCodes(text, c);
    w' := ScanFullGroup(w, [], Codes(c), more);
    assert [] + Codes(c) == Codes(c);
    GroupFirst(w + EOD, Codes(c), w' + EOD);
    b := WholeGroup(c);
  }

  lemma {:induction false} FilledCodes(c: seq<int>)
    requires 2 <= |c| <= 4 && forall i :: 0 <= i < |c| ==> 0 <= c[i] < 85
    ensures FiveCodes(Codes(c), |c| - 1) == Codes(c + seq(5 - |c|, _ => 84))
  {
  }

  lemma {:induction false} PartOfGroup(c: seq<int>) returns (b: seq<byte>)
    requires 2 <= |c| <= 4 && forall i :: 0 <= i < |c| ==> 0 <= c[i] < 85
    ensures |b| == 4 && GroupBytes(Codes(c), |c| - 1) == b[..|c| - 1]
    ensures Holds(b, Weighted(c + seq(5 - |c|, _ => 84)) % 0x1_0000_0000)
  {
    hide BytesOf, Value85, FiveCodes, Codes, Weighted, Holds;
    var filled := c + seq(5 - |c|, _ => 84);
    FilledCodes(c);
    ValueOfCodes(filled);
    var v := Value85(Codes(filled)) % 0x1_0000_0000;
    BytesHold(v);
    b := BytesOf(v);
  }

  lemma GroupLast(s: seq<byte>, codes: seq<byte>, n: nat, rest: seq<byte>)
    requires |codes| <= 5 && n <= 4 && s != [] && Scan(s, []) == Scanned(codes, n, true, rest)
    ensures Decode(s) == Data(GroupBytes(codes, n))
  {
    hide Scan, GroupBytes;
  }

  /** Two to four characters before the end mark are read with 'u' for those left out, and give one byte less. */
  lemma {:induction false} AnyShortGroupIsRead(w: seq<byte>, text: seq<byte>, c: seq<int>) returns (b: seq<byte>)
    requires 2 <= |c| <= 4 && StandFor(text, c) && Strip(w) == text
    ensures |b| == 4 && Decode(w + [0x7E, 0x3E]) == Data(b[..|c| - 1])
    ensures Holds(b, Weighted(c + seq(5 - |c|, _ => 84)) % 0x1_0000_0000)
  {
    hide Scan, Decode, GroupBytes, Codes, Chars, Strip, Holds, Weighted;
    TextOfCodes(text, c);
    ScanShortGroup(w, [], Codes(c));
    assert [] + Codes(c) == Codes(c);
    GroupLast(w + EOD, Codes(c), |c| - 1, EOD);
    b := PartOfGroup(c);
  }
}
