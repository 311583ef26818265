/** Decoding undoes encoding, white space inserted or not, exactly when no short group at the end is all zero. */
module Ascii85RoundTrip {
  import opened Symbols
  import opened Ascii85

  function Strip(w: seq<byte>): seq<byte> {
    if w == [] then [] else if IsWhiteSpace(w[0]) then Strip(w[1..]) else [w[0]] + Strip(w[1..])
  }

  /** The data does not fill its last group, and what there is of the group is zero. */
  predicate ShortZeroTail(data: seq<byte>) {
    var n := |data| % 4;
    n != 0 && data[|data| - n..] == seq(n, _ => 0)
  }

  /** What comes back: a short zero group comes back as four zero bytes. */
  function ComesBack(data: seq<byte>): seq<byte> {
    if ShortZeroTail(data) then data + seq(4 - |data| % 4, _ => 0) else data
  }

  lemma {:induction false} StripHead(w: seq<byte>)
    requires w != []
    ensures (w + EOD)[0] == w[0] && (w + EOD)[1..] == w[1..] + EOD
    ensures EOD <= w + EOD ==> w[0] == TILDE
  {
  }

  /** Codes of a full group are collected, white space between them skipped. */
  lemma {:induction false} ScanFullGroup(w: seq<byte>, codes: seq<byte>, c: seq<byte>, more: seq<byte>) returns (w': seq<byte>)
    requires |codes| + |c| == 5 && forall i :: 0 <= i < |c| ==> c[i] < 85
    requires Strip(w) == Chars(c) + more
    ensures Scan(w + EOD, codes) == Scanned(codes + c, 4, false, w' + EOD)
    ensures Strip(w') == more && |w'| <= |w|
  {
    if c == [] {
      w' := w;
      assert codes + c == codes && Chars(c) + more == more;
    } else {
      StripHead(w);
      if IsWhiteSpace(w[0]) {
        w' := ScanFullGroup(w[1..], codes, c, more);
      } else {
        var s := Chars(c) + more;
        assert w[0] == s[0] == c[0] + FIRST_CODE && Strip(w[1..]) == s[1..] == Chars(c[1..]) + more;
        w' := ScanFullGroup(w[1..], codes + [c[0]], c[1..], more);
        assert codes + [c[0]] + c[1..] == codes + c;
      }
    }
  }

  lemma {:induction false} ScanShortGroup(w: seq<byte>, codes: seq<byte>, c: seq<byte>)
    requires 0 < |codes| + |c| < 5 && forall i :: 0 <= i < |c| ==> c[i] < 85
    requires Strip(w) == Chars(c)
    ensures var r := Scan(w + EOD, codes); r == Scanned(codes + c, |codes| + |c| - 1, true, EOD)
  {
    if w == [] {
      assert w + EOD == EOD && codes + c == codes;
    } else {
      StripHead(w);
      if IsWhiteSpace(w[0]) {
        ScanShortGroup(w[1..], codes, c);
      } else {
        assert w[0] == Chars(c)[0] == c[0] + FIRST_CODE && Strip(w[1..]) == Chars(c)[1..] == Chars(c[1..]);
        ScanShortGroup(w[1..], codes + [c[0]], c[1..]);
        assert codes + [c[0]] + c[1..] == codes + c;
      }
    }
  }

  lemma {:induction false} ScanZ(w: seq<byte>, more: seq<byte>) returns (w': seq<byte>)
    requires Strip(w) == [LOWER_Z] + more
    ensures Scan(w + EOD, []) == Scanned([], 4, false, w' + EOD)
    ensures Strip(w') == more && |w'| < |w|
  {
    StripHead(w);
    if IsWhiteSpace(w[0]) {
      w' := ScanZ(w[1..], more);
    } else {
      w' := w[1..];
      assert Strip(w)[1..] == Strip(w') && ([LOWER_Z] + more)[1..] == more;
    }
  }

  lemma {:induction false} ScanEnd(w: seq<byte>)
    requires Strip(w) == []
    ensures Decode(w + EOD) == Data([])
    ensures Scan(w + EOD, []) == Scanned([], 0, true, EOD)
  {
    if w == [] {
      assert w + EOD == EOD;
    } else {
      StripHead(w);
      ScanEnd(w[1..]);
    }
    hide Scan;
  }

  lemma ZComesBack()
    ensures GroupBytes([], 4) == [0, 0, 0, 0]
  {
    assert FiveCodes([], 4) == [0, 0, 0, 0, 0];
  }

  lemma {:induction false} FullGroupComesBack(g: seq<byte>)
    requires |g| == 4
    ensures GroupBytes(CodesOf(Value256(g)), 4) == g
  {
    var v := Value256(g);
    var c := CodesOf(v);
    hide CodesOf, BytesOf, Value256, Value85, Zeros;
    AllCodes(c);
    BytesInverse(g);
    CodesAreDigits(v);
    Small(v);
    assert BytesOf(v)[..4] == BytesOf(v);
  }

  lemma {:induction false} AllCodes(c: seq<byte>)
    requires |c| == 5
    ensures FiveCodes(c, 4) == c
  {
    assert c + seq(0, _ => 0) == c;
  }

  lemma {:induction false} ShortGroupComesBack(g: seq<byte>)
    requires 1 <= |g| <= 3
    ensures GroupBytes(CodesOf(Value256(Pad(g)))[..|g| + 1], |g|) == g
  {
    var c := CodesOf(Value256(Pad(g)));
    hide CodesOf, BytesOf, Value256, Value85, Fill, FiveCodes, Pad, Unit;
    FilledCodes(c, |g|);
    FillKeepsLeadingBytes(g);
    var f := Value85(Fill(c, |g|));
    Small(f);
  }

  lemma Small(f: nat)
    requires f < 0x1_0000_0000
    ensures f % 0x1_0000_0000 == f
  {
  }

  lemma {:induction false} FilledCodes(c: seq<byte>, n: nat)
    requires |c| == 5 && n < 4
    ensures FiveCodes(c[..n + 1], n) == Fill(c, n)
  {
  }

  lemma {:induction false} ZeroGroup(g: seq<byte>)
    requires 1 <= |g| <= 4
    ensures Value256(Pad(g)) == 0 <==> g == seq(|g|, _ => 0)
    ensures Value256(Pad(g)) == 0 ==> g + seq(4 - |g|, _ => 0) == [0, 0, 0, 0] && (|g| == 4 ==> g == [0, 0, 0, 0])
  {
    var p := Pad(g);
    var a: int, b: int, c: int, d: int := p[0], p[1], p[2], p[3];
    if Value256(p) == 0 {
      assert a == 0 && b == 0 && c == 0 && d == 0;
      forall i | 0 <= i < |g| ensures g[i] == 0 { assert g[i] == p[i]; }
    }
  }

  lemma {:induction false} DecodeZ(w: seq<byte>, more: seq<byte>) returns (w': seq<byte>)
    requires Strip(w) == [LOWER_Z] + more
    ensures Decode(w + EOD) == After([0, 0, 0, 0], Decode(w' + EOD))
    ensures Strip(w') == more
  {
    hide GroupBytes, Scan;
    ZComesBack();
    w' := ScanZ(w, more);
  }

  lemma {:induction false} DecodeFullGroup(g: seq<byte>, w: seq<byte>, more: seq<byte>) returns (w': seq<byte>)
    requires |g| == 4
    requires Strip(w) == Chars(CodesOf(Value256(g))) + more
    ensures Decode(w + EOD) == After(g, Decode(w' + EOD))
    ensures Strip(w') == more
  {
    hide GroupBytes, Scan, CodesOf, Value256;
    FullGroupComesBack(g);
    w' := ScanFullGroup(w, [], CodesOf(Value256(g)), more);
    assert [] + CodesOf(Value256(g)) == CodesOf(Value256(g));
  }

  lemma {:induction false} DecodeShortGroup(g: seq<byte>, w: seq<byte>)
    requires 1 <= |g| <= 3
    requires Strip(w) == Chars(CodesOf(Value256(Pad(g)))[..|g| + 1])
    ensures Decode(w + EOD) == Data(g)
  {
    hide GroupBytes, Scan, CodesOf, Value256, Pad;
    var c := CodesOf(Value256(Pad(g)))[..|g| + 1];
    ShortGroupComesBack(g);
    ScanShortGroup(w, [], c);
    assert [] + c == c;
  }

  /** Whatever white space is put into the text before its end marker. */
  lemma {:induction false} DecodeSpaced(data: seq<byte>, w: seq<byte>)
    requires Strip(w) == EncodeBody(data)
    ensures Decode(w + EOD) == Data(ComesBack(data))
    decreases |data|
  {
    hide Decode, CodesOf, Value256, ComesBack;
    if data == [] {
      ScanEnd(w);
      NothingComesBack();
    } else {
      var g := if |data| <= 4 then data else data[..4];
      var left := data[|g|..];
      assert EncodeBody(data) == EncodeGroup(g) + EncodeBody(left);
      assert g + left == data;
      TailOfRest(data, g, left);
      if Value256(Pad(g)) == 0 {
        ZeroGroup(g);
        var w' := DecodeZ(w, EncodeBody(left));
        DecodeSpaced(left, w');
        NothingComesBack();
        var zeros: seq<byte> := [0, 0, 0, 0];
        assert zeros + [] == zeros;
      } else if |g| == 4 {
        assert Pad(g) == g && CodesOf(Value256(g))[..5] == CodesOf(Value256(g));
        var w' := DecodeFullGroup(g, w, EncodeBody(left));
        DecodeSpaced(left, w');
      } else {
        assert EncodeBody(left) == [];
        DecodeShortGroup(g, w);
      }
    }
  }

  lemma NothingComesBack()
    ensures ComesBack([]) == []
  {
  }

  lemma {:induction false} SameTail(data: seq<byte>, g: seq<byte>, left: seq<byte>)
    requires data == g + left && |g| == 4
    ensures |data| % 4 == |left| % 4 && (ShortZeroTail(data) <==> ShortZeroTail(left))
  {
    assert |data| % 4 == |left| % 4;
    var n := |data| % 4;
    assert data[|data| - n..] == left[|left| - n..];
  }

  lemma {:induction false} WholeTail(g: seq<byte>)
    requires 1 <= |g| < 4
    ensures |g| % 4 == |g| && (ShortZeroTail(g) <==> g == seq(|g|, _ => 0))
  {
    assert |g| % 4 == |g| && g[|g| - |g|..] == g;
  }

  lemma {:induction false} TailOfRest(data: seq<byte>, g: seq<byte>, left: seq<byte>)
    requires data == g + left && 1 <= |g| <= 4 && (|g| < 4 ==> left == [])
    ensures |g| == 4 ==> ComesBack(data) == g + ComesBack(left)
    ensures |g| < 4 ==> ComesBack(data) == if Value256(Pad(g)) == 0 then [0, 0, 0, 0] else data
  {
    hide ShortZeroTail, Value256, Pad;
    if |g| == 4 {
      SameTail(data, g, left);
    } else {
      assert data == g;
      ZeroGroup(g);
      WholeTail(g);
    }
  }

  /** The round trip holds exactly for data without a short zero group at its end. */
  lemma {:induction false} RoundTripIff(data: seq<byte>)
    ensures Decode(EncodeBody(data) + EOD) == Data(data) <==> !ShortZeroTail(data)
  {
    NoSpaces(data);
    DecodeSpaced(data, EncodeBody(data));
    assert ShortZeroTail(data) ==> |ComesBack(data)| > |data|;
  }

  lemma {:induction false} NoSpaces(data: seq<byte>)
    ensures Strip(EncodeBody(data)) == EncodeBody(data)
    decreases |data|
  {
    if data != [] {
      var g := if |data| <= 4 then data else data[..4];
      var left := data[|g|..];
      assert EncodeBody(data) == EncodeGroup(g) + EncodeBody(left);
      NoSpaces(left);
      StripNothing(EncodeGroup(g), EncodeBody(left));
    }
  }

  lemma {:induction false} StripNothing(a: seq<byte>, b: seq<byte>)
    requires forall i :: 0 <= i < |a| ==> !IsWhiteSpace(a[i])
    requires Strip(b) == b
    ensures Strip(a + b) == a + b
  {
    if a == [] {
      assert a + b == b;
    } else {
      StripNothing(a[1..], b);
      assert (a + b)[1..] == a[1..] + b;
    }
  }
}
