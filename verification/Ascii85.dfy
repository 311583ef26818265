/** The ASCII base-85 filter, section 7.4.3 of PDF 32000-1. */
module Ascii85 {
  import opened Symbols

  const TILDE: byte := 0x7E
  const LOWER_Z: byte := 0x7A
  const FIRST_CODE: byte := 0x21
  const LAST_CODE: byte := 0x75
  const EOD: seq<byte> := [TILDE, GREATER]

  type uint32 = x: int | 0 <= x < 0x1_0000_0000

  // ----- One group of four bytes and its five codes

  function Pad(g: seq<byte>): (r: seq<byte>)
    requires |g| <= 4
    ensures |r| == 4
  {
    g + seq(4 - |g|, _ => 0)
  }

  function Value256(g: seq<byte>): (v: uint32)
    requires |g| == 4
  {
    var a: int, b: int, c: int, d: int := g[0], g[1], g[2], g[3];
    a * 0x100_0000 + b * 0x1_0000 + c * 0x100 + d
  }

  function BytesOf(v: uint32): (g: seq<byte>)
    ensures |g| == 4
  {
    [v / 0x100_0000, v / 0x1_0000 % 0x100, v / 0x100 % 0x100, v % 0x100]
  }

  function CodesOf(v: uint32): (c: seq<byte>)
    ensures |c| == 5 && forall i :: 0 <= i < 5 ==> c[i] < 85
  {
    [v / 52200625, v / 614125 % 85, v / 7225 % 85, v / 85 % 85, v % 85]
  }

  function Value85(c: seq<byte>): nat
    requires |c| == 5
  {
    var c0: int, c1: int, c2: int, c3: int, c4: int := c[0], c[1], c[2], c[3], c[4];
    c0 * 52200625 + c1 * 614125 + c2 * 7225 + c3 * 85 + c4
  }

  lemma SplitBytes(a: int, b: int, c: int, d: int)
    requires 0 <= a < 256 && 0 <= b < 256 && 0 <= c < 256 && 0 <= d < 256
    ensures var v := a * 0x100_0000 + b * 0x1_0000 + c * 0x100 + d;
      v / 0x100_0000 == a && v / 0x1_0000 % 0x100 == b && v / 0x100 % 0x100 == c && v % 0x100 == d
  {
    var v := a * 0x100_0000 + b * 0x1_0000 + c * 0x100 + d;
    assert v / 0x1_0000 == a * 0x100 + b;
    assert v / 0x100 == (a * 0x100 + b) * 0x100 + c;
  }

  lemma BytesInverse(g: seq<byte>)
    requires |g| == 4
    ensures BytesOf(Value256(g)) == g
  {
    SplitBytes(g[0], g[1], g[2], g[3]);
  }

  lemma CodesAreDigits(v: uint32)
    ensures Value85(CodesOf(v)) == v
  {
    var v1 := v / 85;
    var v2 := v1 / 85;
    var v3 := v2 / 85;
    assert v2 == v / 7225 && v3 == v / 614125 && v3 / 85 == v / 52200625;
  }

  /** The first codes of a group, the others replaced by the largest code. */
  function Fill(c: seq<byte>, n: nat): (r: seq<byte>)
    requires |c| == 5 && n < 5
    ensures |r| == 5
  {
    c[..n + 1] + seq(4 - n, _ => 84)
  }

  function Unit(n: nat): nat
    requires 1 <= n <= 3
  {
    if n == 1 then 614125 else if n == 2 then 7225 else 85
  }

  lemma FillValue(v: uint32, n: nat)
    requires 1 <= n <= 3
    ensures Value85(Fill(CodesOf(v), n)) == v / Unit(n) * Unit(n) + Unit(n) - 1
  {
    var v1 := v / 85;
    var v2 := v1 / 85;
    var v3 := v2 / 85;
    assert v2 == v / 7225 && v3 == v / 614125 && v3 / 85 == v / 52200625;
  }

  /** Numbers with the same leading bytes. */
  lemma LeadingBytes(g: seq<byte>, f: uint32)
    requires 1 <= |g| <= 3
    requires var v := Value256(Pad(g)); v <= f < v + Unit(|g|)
    ensures BytesOf(f)[..|g|] == g
  {
    var p := Pad(g);
    var a: int, b: int, c: int := p[0], p[1], p[2];
    LeadingParts(a, b, c, f);
    if |g| == 1 {
      assert BytesOf(f)[0] == g[0];
    } else if |g| == 2 {
      assert BytesOf(f)[0] == g[0] && BytesOf(f)[1] == g[1];
    } else {
      assert BytesOf(f)[0] == g[0] && BytesOf(f)[1] == g[1] && BytesOf(f)[2] == g[2];
    }
  }

  lemma LeadingParts(a: int, b: int, c: int, f: int)
    requires 0 <= a < 256 && 0 <= b < 256 && 0 <= c < 256
    ensures a * 0x100_0000 <= f < (a + 1) * 0x100_0000 ==> f / 0x100_0000 == a
    ensures (a * 0x100 + b) * 0x1_0000 <= f < (a * 0x100 + b + 1) * 0x1_0000 ==> f / 0x100_0000 == a && f / 0x1_0000 % 0x100 == b
    ensures ((a * 0x100 + b) * 0x100 + c) * 0x100 <= f < ((a * 0x100 + b) * 0x100 + c + 1) * 0x100 ==>
      f / 0x100_0000 == a && f / 0x1_0000 % 0x100 == b && f / 0x100 % 0x100 == c
  {
    if (a * 0x100 + b) * 0x1_0000 <= f < (a * 0x100 + b + 1) * 0x1_0000 {
      assert f / 0x1_0000 == a * 0x100 + b;
    }
    if ((a * 0x100 + b) * 0x100 + c) * 0x100 <= f < ((a * 0x100 + b) * 0x100 + c + 1) * 0x100 {
      assert f / 0x100 == (a * 0x100 + b) * 0x100 + c;
      assert f / 0x1_0000 == a * 0x100 + b;
    }
  }

  /** Filling raises the value, by less than one unit of the last byte kept: it fits 32 bits and keeps the leading bytes. */
  lemma {:induction false} FillKeepsLeadingBytes(g: seq<byte>)
    requires 1 <= |g| <= 3
    ensures var v := Value256(Pad(g)); var f := Value85(Fill(CodesOf(v), |g|));
      v <= f < v + Unit(|g|) && f < 0x1_0000_0000 && BytesOf(f)[..|g|] == g
  {
    var v := Value256(Pad(g));
    FillValue(v, |g|);
    hide BytesOf, CodesOf, Value85, Fill;
    var f := Value85(Fill(CodesOf(v), |g|));
    assert v <= f < v + Unit(|g|);
    assert f < 0x1_0000_0000;
    LeadingBytes(g, f);
  }

  // ----- Encoding

  function Chars(codes: seq<byte>): (r: seq<byte>)
    requires forall i :: 0 <= i < |codes| ==> codes[i] < 85
    ensures |r| == |codes|
  {
    seq(|codes|, i requires 0 <= i < |codes| => codes[i] + FIRST_CODE)
  }

  /** One to four bytes; a group that is zero after padding is written as 'z' whatever its length. */
  function EncodeGroup(g: seq<byte>): seq<byte>
    requires 1 <= |g| <= 4
  {
    var v := Value256(Pad(g));
    if v == 0 then [LOWER_Z] else Chars(CodesOf(v)[..|g| + 1])
  }

  function EncodeBody(data: seq<byte>): seq<byte> {
    if data == [] then []
    else if |data| <= 4 then EncodeGroup(data)
    else EncodeGroup(data[..4]) + EncodeBody(data[4..])
  }

  method Base256ToBase85(base256val: uint32) returns (base85: seq<byte>)
    ensures base85 == CodesOf(base256val)
  {
    var remainder: int := base256val;
    base85 := [];
    for i := 0 to 5
      invariant base85 == CodesOf(base256val)[..i]
      invariant remainder == if i == 0 then base256val else if i == 1 then base256val % 52200625
        else if i == 2 then base256val % 614125 else if i == 3 then base256val % 7225
        else if i == 4 then base256val % 85 else 0
    {
      var divider := 1;
      for j := 0 to 4 - i
        invariant divider == if j == 0 then 1 else if j == 1 then 85 else if j == 2 then 7225 else if j == 3 then 614125 else 52200625
      {
        divider := divider * 85;
      }
      RemainderDigits(base256val);
      base85 := base85 + [remainder / divider];
      remainder := remainder % divider;
    }
  }

  lemma RemainderDigits(v: uint32)
    ensures v % 52200625 / 614125 == v / 614125 % 85 && v % 52200625 % 614125 == v % 614125
    ensures v % 614125 / 7225 == v / 7225 % 85 && v % 614125 % 7225 == v % 7225
    ensures v % 7225 / 85 == v / 85 % 85 && v % 7225 % 85 == v % 85
    ensures v % 85 / 1 == v % 85
  {
    var v1 := v / 85;
    var v2 := v1 / 85;
    var v3 := v2 / 85;
    assert v2 == v / 7225 && v3 == v / 614125 && v3 / 85 == v / 52200625;
  }

  method EncodeBytes(data: seq<byte>) returns (encoded: seq<byte>)
    ensures encoded == EncodeBody(data) + EOD
  {
    hide EncodeGroup, CodesOf;
    encoded := [];
    var i := 0;
    while i < |data|
      invariant 0 <= i
      invariant encoded + EncodeBody(data[if i <= |data| then i else |data|..]) == EncodeBody(data)
      decreases |data| - i
    {
      ghost var left := data[i..];
      var b1 := data[i];
      var n := 1;
      var b2: byte, b3: byte, b4: byte := 0, 0, 0;
      if i + 1 < |data| {
        b2 := data[i + 1];
        n := n + 1;
      }
      if i + 2 < |data| {
        b3 := data[i + 2];
        n := n + 1;
      }
      if i + 3 < |data| {
        b4 := data[i + 3];
        n := n + 1;
      }
      ghost var g := left[..n];
      assert Pad(g) == [b1, b2, b3, b4];
      assert |left| > 4 ==> left[4..] == data[i + 4..];
      assert |left| <= 4 ==> left == g;
      var text := WriteGroup([b1, b2, b3, b4], n, g);
      encoded := encoded + text;
      i := i + 4;
    }
    encoded := encoded + EOD;
  }

  /** The text of one group: its padded value is converted, and one code more than it has bytes is written. */
  method WriteGroup(padded: seq<byte>, n: nat, ghost g: seq<byte>) returns (text: seq<byte>)
    requires 1 <= n == |g| <= 4 && padded == Pad(g)
    ensures text == EncodeGroup(g)
  {
    var base256 := Value256(padded);
    if base256 == 0 {
      text := [LOWER_Z];
    } else {
      var base85vals := Base256ToBase85(base256);
      text := Chars(base85vals[..n + 1]);
    }
  }

  // ----- Decoding

  /** What one round of the decoder reads: its codes, how many bytes they stand for, and what is left. */
  datatype Scanned = Scanned(codes: seq<byte>, toWrite: nat, eod: bool, rest: seq<byte>) | Invalid

  /** Up to five codes are collected; a group cut off by the end of the input counts as four bytes. */
  function Scan(s: seq<byte>, codes: seq<byte>): (r: Scanned)
    requires |codes| <= 5
    ensures r.Scanned? ==> |r.codes| <= 5 && codes <= r.codes && r.toWrite <= 4
    ensures r.Scanned? ==> |r.rest| <= |s| && (s != [] && |codes| < 5 && !r.eod ==> |r.rest| < |s|)
    ensures r.Scanned? ==> forall i :: |codes| <= i < |r.codes| ==> r.codes[i] < 85
    decreases |s|
  {
    if |codes| == 5 || s == [] then Scanned(codes, 4, false, s)
    else if IsWhiteSpace(s[0]) then Scan(s[1..], codes)
    else if EOD <= s then Scanned(codes, if |codes| == 0 then 0 else |codes| - 1, true, s)
    else if FIRST_CODE <= s[0] <= LAST_CODE then Scan(s[1..], codes + [s[0] - FIRST_CODE])
    else if s[0] == LOWER_Z && codes == [] then Scanned(codes, 4, false, s[1..])
    else Invalid
  }

  /** The five codes of a round: codes not read are zero, and those past the end of the data are the largest code. */
  function FiveCodes(codes: seq<byte>, toWrite: nat): (c: seq<byte>)
    requires |codes| <= 5 && toWrite <= 4
    ensures |c| == 5
  {
    var c := Zeros(codes);
    if toWrite == 4 then c else Fill(c, toWrite)
  }

  /** The bytes that the codes of one round stand for, in 32-bit arithmetic. */
  function GroupBytes(codes: seq<byte>, toWrite: nat): seq<byte>
    requires |codes| <= 5 && toWrite <= 4
  {
    BytesOf(Value85(FiveCodes(codes, toWrite)) % 0x1_0000_0000)[..toWrite]
  }

  datatype Decoded = Data(bytes: seq<byte>) | BadCode

  function Decode(s: seq<byte>): Decoded
    decreases |s|
  {
    if s == [] then Data([])
    else
      match Scan(s, [])
      case Invalid => BadCode
      case Scanned(codes, toWrite, eod, rest) =>
        var bytes := GroupBytes(codes, toWrite);
        if eod then Data(bytes) else After(bytes, Decode(rest))
  }

  function After(front: seq<byte>, d: Decoded): Decoded {
    if d.BadCode? then BadCode else Data(front + d.bytes)
  }

  lemma AfterTwice(a: seq<byte>, b: seq<byte>, d: Decoded)
    ensures After(a, After(b, d)) == After(a + b, d)
  {
    if d.Data? { assert a + (b + d.bytes) == a + b + d.bytes; }
  }

  /** The codes read, with zero for those not read. */
  function Zeros(codes: seq<byte>): (c: seq<byte>)
    requires |codes| <= 5
    ensures |c| == 5
  {
    codes + seq(5 - |codes|, _ => 0)
  }

  lemma ZerosStep(read: seq<byte>, code: byte)
    requires |read| < 5
    ensures Zeros(read)[|read| := code] == Zeros(read + [code])
    ensures Zeros([]) == [0, 0, 0, 0, 0]
  {
  }

  /** The inner loop of the decoder, from position i on: j bytes are read. */
  method ReadGroup(encoded: seq<byte>, i: nat) returns (valid: bool, codes: seq<byte>, j: nat, toWrite: nat, eod: bool)
    requires i < |encoded|
    ensures match Scan(encoded[i..], [])
      case Invalid => !valid
      case Scanned(c, w, e, rest) =>
        valid && codes == Zeros(c) && toWrite == w <= 4 && eod == e && i + j <= |encoded| && encoded[i + j..] == rest
  {
    ghost var whole := Scan(encoded[i..], []);
    valid, codes, j, toWrite, eod := true, [0, 0, 0, 0, 0], 0, 4, false;
    hide Zeros, IsWhiteSpace;
    ghost var read: seq<byte> := [];
    var spaces := 0;
    ZerosStep(read, 0);
    while j < 5 + spaces
      invariant spaces <= j <= 5 + spaces && i + j <= |encoded|
      invariant |read| == j - spaces && codes == Zeros(read)
      invariant Scan(encoded[i + j..], read) == whole
      invariant toWrite == 4 && !eod && valid
      decreases |encoded| - i - j
    {
      if i + j == |encoded| {
        break;
      }
      var code := encoded[i + j];
      ghost var s := encoded[i + j..];
      assert s[0] == code && s[1..] == encoded[i + j + 1..];
      assert |s| >= 2 ==> s[1] == encoded[i + j + 1];
      if IsWhiteSpace(code) {
        spaces := spaces + 1;
        j := j + 1;
        continue;
      } else if code == TILDE && i + j + 1 < |encoded| && encoded[i + j + 1] == GREATER {
        toWrite := if j - spaces - 1 < 0 then 0 else j - spaces - 1;
        eod := true;
        break;
      } else if FIRST_CODE <= code <= LAST_CODE {
        code := code - FIRST_CODE;
      } else if code == LOWER_Z && j - spaces == 0 {
        j := j + 1;
        return;
      } else {
        valid := false;
        return;
      }
      ZerosStep(read, code);
      codes := codes[j - spaces := code];
      read := read + [code];
      j := j + 1;
    }
  }

  method DecodeBytes(encoded: seq<byte>) returns (r: Decoded)
    ensures r == Decode(encoded)
  {
    hide Scan, BytesOf, Value85;
    var decoded: seq<byte> := [];
    ghost var goal := Decode(encoded);
    var i := 0;
    var eod := false;
    while i < |encoded| && !eod
      invariant 0 <= i <= |encoded|
      invariant !eod ==> After(decoded, Decode(encoded[i..])) == goal
      invariant eod ==> goal == Data(decoded)
      decreases !eod, |encoded| - i
    {
      ghost var s := encoded[i..];
      var valid, codes, j, toWrite, last := ReadGroup(encoded, i);
      if !valid {
        return BadCode;
      }
      eod := last;
      i := i + j;
      ghost var read := codes;
      for m := toWrite + 1 to 5
        invariant |codes| == 5 && codes[..toWrite + 1] == read[..toWrite + 1]
        invariant forall n :: toWrite + 1 <= n < m ==> codes[n] == 84
      {
        codes := codes[m := 84];
      }
      assert codes == FiveCodes(Scan(s, []).codes, toWrite);
      var value: uint32 := Value85(codes) % 0x1_0000_0000;
      var decodedBytes := BytesOf(value);
      AfterTwice(decoded, decodedBytes[..toWrite], Decode(encoded[i..]));
      decoded := decoded + decodedBytes[..toWrite];
    }
    assert After(decoded, Data([])) == Data(decoded);
    r := Data(decoded);
  }
}
