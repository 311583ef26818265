/** The run-length filter, section 7.4.5 of PDF 32000-1. */
module RunLength {
  import opened Symbols

  const END_OF_DATA: byte := 128

  datatype Decoded = Data(bytes: seq<byte>) | UnexpectedEnd

  function Repeat(b: byte, n: nat): (r: seq<byte>)
    ensures |r| == n && forall i :: 0 <= i < n ==> r[i] == b
  {
    seq(n, _ => b)
  }

  function After(front: seq<byte>, d: Decoded): Decoded {
    if d.UnexpectedEnd? then d else Data(front + d.bytes)
  }

  /** The number of bytes of a run, its length byte included. */
  function RunSize(length: byte): nat {
    if length > 128 then 2 else length + 2
  }

  /** What the run at the front stands for. */
  function RunBytes(s: seq<byte>): seq<byte>
    requires s != [] && s[0] != END_OF_DATA && |s| >= RunSize(s[0])
  {
    if s[0] > 128 then Repeat(s[1], 257 - s[0]) else s[1..s[0] + 2]
  }

  function Decode(s: seq<byte>): Decoded {
    if s == [] then UnexpectedEnd
    else if s[0] == END_OF_DATA then Data([])
    else if |s| < RunSize(s[0]) then UnexpectedEnd
    else After(RunBytes(s), Decode(s[RunSize(s[0])..]))
  }

  /** Whole runs only, none of them with the length byte 128. */
  ghost predicate AllRuns(s: seq<byte>) {
    s == [] || (s[0] != END_OF_DATA && |s| >= RunSize(s[0]) && AllRuns(s[RunSize(s[0])..]))
  }

  ghost function Expand(s: seq<byte>): seq<byte>
    requires AllRuns(s)
  {
    if s == [] then [] else RunBytes(s) + Expand(s[RunSize(s[0])..])
  }

  /** The run at the front does not depend on what follows it. */
  lemma RunInFront(s: seq<byte>, t: seq<byte>)
    requires s != [] && s[0] != END_OF_DATA && |s| >= RunSize(s[0])
    ensures RunBytes(s + t) == RunBytes(s)
    ensures (s + t)[0] == s[0] && (s + t)[RunSize(s[0])..] == s[RunSize(s[0])..] + t
  {
    if s[0] < 128 { assert (s + t)[1..s[0] + 2] == s[1..s[0] + 2]; }
  }

  lemma {:induction false} RunsThenEnd(s: seq<byte>)
    requires AllRuns(s)
    ensures Decode(s + [END_OF_DATA]) == Data(Expand(s))
  {
    hide RunBytes;
    if s == [] {
      assert s + [END_OF_DATA] == [END_OF_DATA];
    } else {
      RunsThenEnd(s[RunSize(s[0])..]);
      RunInFront(s, [END_OF_DATA]);
    }
  }

  lemma {:induction false} AppendRun(s: seq<byte>, run: seq<byte>)
    requires AllRuns(s) && IsRun(run)
    ensures AllRuns(s + run) && Expand(s + run) == Expand(s) + RunBytes(run)
  {
    hide RunBytes;
    if s == [] {
      assert s + run == run && run[RunSize(run[0])..] == [];
      assert Expand(run) == RunBytes(run) + [] == RunBytes(run);
    } else {
      AppendRun(s[RunSize(s[0])..], run);
      RunInFront(s, run);
      assert RunBytes(s) + (Expand(s[RunSize(s[0])..]) + RunBytes(run)) == Expand(s) + RunBytes(run);
    }
  }

  predicate IsRun(run: seq<byte>) {
    run != [] && run[0] != END_OF_DATA && |run| == RunSize(run[0])
  }

  /** The runs written so far stand for the first e bytes of the data. */
  ghost predicate Written(data: seq<byte>, inb: seq<byte>, e: nat) {
    e <= |data| && AllRuns(inb) && Expand(inb) == data[..e]
  }

  lemma {:induction false} Emit(data: seq<byte>, inb: seq<byte>, e: nat, i: nat, run: seq<byte>)
    requires Written(data, inb, e) && e <= i <= |data| && IsRun(run) && RunBytes(run) == data[e..i]
    ensures Written(data, inb + run, i)
  {
    AppendRun(inb, run);
    assert data[..e] + data[e..i] == data[..i];
  }

  method DecodeBytes(encoded: seq<byte>) returns (r: Decoded)
    ensures r == Decode(encoded)
  {
    var inb: seq<byte> := [];
    ghost var goal := Decode(encoded);
    var pos := 0;
    while true
      invariant 0 <= pos <= |encoded|
      invariant After(inb, Decode(encoded[pos..])) == goal
      decreases |encoded| - pos
    {
      if pos == |encoded| {
        return UnexpectedEnd;
      }
      ghost var s := encoded[pos..];
      ghost var before := inb;
      var b := encoded[pos];
      pos := pos + 1;
      if b > 128 {
        if pos == |encoded| {
          return UnexpectedEnd;
        }
        var v := encoded[pos];
        pos := pos + 1;
        for i := 0 to 257 - b
          invariant inb == before + Repeat(v, i)
        {
          inb := inb + [v];
        }
      } else if b < 128 {
        for i := 0 to b + 1
          invariant pos == |encoded| - |s| + 1 + i <= |encoded|
          invariant inb == before + s[1..1 + i]
        {
          if pos == |encoded| {
            return UnexpectedEnd;
          }
          inb := inb + [encoded[pos]];
          pos := pos + 1;
        }
      } else {
        assert inb + [] == inb;
        return Data(inb);
      }
      assert s[RunSize(b)..] == encoded[pos..];
      assert inb == before + RunBytes(s);
      AfterTwice(before, RunBytes(s), Decode(encoded[pos..]));
    }
  }

  lemma AfterTwice(a: seq<byte>, b: seq<byte>, d: Decoded)
    ensures After(a, After(b, d)) == After(a + b, d)
  {
    if d.Data? { assert a + (b + d.bytes) == a + b + d.bytes; }
  }

  /** A run of one value; of length one it is a literal, because 257 - 1 does not fit a byte and becomes 0. */
  function RepeatRun(b: byte, n: nat): (run: seq<byte>)
    requires 1 <= n <= 128
    ensures IsRun(run) && |run| == 2 && RunBytes(run) == Repeat(b, n)
  {
    [(257 - n) % 256, b]
  }

  function LiteralRun(v: seq<byte>): (run: seq<byte>)
    requires 1 <= |v| <= 128
    ensures IsRun(run) && |run| == |v| + 1 && RunBytes(run) == v
  {
    var run := [|v| - 1] + v;
    assert run[1..|v| + 1] == v;
    run
  }

  /** Bytes read and not yet written: a literal whose last byte may start a run, or a run. */
  ghost function Pending(literal: seq<byte>, b0: byte, runLen: nat): seq<byte> {
    if literal != [] then literal else Repeat(b0, runLen)
  }

  /** The state of the encoder after i bytes, e of them written. */
  ghost predicate Progress(data: seq<byte>, i: nat, inb: seq<byte>, literal: seq<byte>, runLen: nat, e: nat) {
    && 0 < i <= |data| && e <= i && Written(data, inb, e)
    && (literal != [] ==> runLen == 0 && |literal| < 127 && literal[|literal| - 1] == data[i - 1])
    && runLen < 127
    && data[e..i] == Pending(literal, data[i - 1], runLen)
    && 3 * |inb| <= 4 * e + if literal == [] && runLen >= 2 then 2 else 0
  }

  /** The byte is the one before it: a literal gives its last byte up to a run. */
  method ExtendRun(data: seq<byte>, i: nat, inb0: seq<byte>, literal0: seq<byte>, runLen0: nat, ghost e0: nat)
    returns (inb: seq<byte>, literal: seq<byte>, runLen: nat, ghost e: nat)
    requires Progress(data, i, inb0, literal0, runLen0, e0) && i < |data| && data[i] == data[i - 1]
    ensures Progress(data, i + 1, inb, literal, runLen, e)
  {
    hide Written, IsRun, RunBytes, RunSize, LiteralRun, RepeatRun;
    inb, literal, runLen, e := inb0, literal0, runLen0, e0;
    var b0 := data[i];
    if literal != [] {
      literal := literal[..|literal| - 1];
      assert data[e..e + |literal|] == literal && data[e + |literal|..i] == [b0] by {
        assert data[e..i] == literal0;
      }
      if literal != [] {
        Emit(data, inb, e, e + |literal|, LiteralRun(literal));
        inb := inb + LiteralRun(literal);
        e := e + |literal|;
      }
      runLen := 1;
      literal := [];
    }
    assert data[e..i] == Repeat(b0, runLen);
    assert data[e..i + 1] == data[e..i] + [b0];
    runLen := runLen + 1;
    assert data[e..i + 1] == Repeat(b0, runLen);
    if runLen >= 127 {
      Emit(data, inb, e, i + 1, RepeatRun(b0, runLen));
      inb := inb + RepeatRun(b0, runLen);
      e := i + 1;
      runLen := 0;
    }
  }

  /** The byte differs from the one before it: a run is written, and the byte goes to the literal. */
  method ExtendLiteral(data: seq<byte>, i: nat, inb0: seq<byte>, literal0: seq<byte>, runLen0: nat, ghost e0: nat)
    returns (inb: seq<byte>, literal: seq<byte>, runLen: nat, ghost e: nat)
    requires Progress(data, i, inb0, literal0, runLen0, e0) && i < |data|
    ensures Progress(data, i + 1, inb, literal, runLen, e)
  {
    hide Written, IsRun, RunBytes, RunSize, LiteralRun, RepeatRun;
    inb, literal, runLen, e := inb0, literal0, runLen0, e0;
    if runLen > 0 {
      if runLen == 1 {
        literal := [data[i - 1]];
      } else {
        Emit(data, inb, e, i, RepeatRun(data[i - 1], runLen));
        inb := inb + RepeatRun(data[i - 1], runLen);
        e := i;
      }
      runLen := 0;
    }
    assert data[e..i] == literal;
    literal := literal + [data[i]];
    assert data[e..i + 1] == literal;
    if |literal| >= 127 {
      Emit(data, inb, e, i + 1, LiteralRun(literal));
      inb := inb + LiteralRun(literal);
      e := i + 1;
      literal := [];
    }
  }

  /**
   The encoded runs with the end marker. Decoding them gives the data back, no length byte before the marker
   is 128, and three bytes of data cost at most one byte more.
   */
  method EncodeBytes(data: seq<byte>) returns (encoded: seq<byte>)
    ensures data == [] ==> encoded == []
    ensures data != [] ==>
      exists runs :: encoded == runs + [END_OF_DATA] && AllRuns(runs) && Expand(runs) == data
    ensures data != [] ==> Decode(encoded) == Data(data)
    ensures |encoded| <= |data| + (|data| + 2) / 3 + 1
  {
    hide AllRuns, Expand, RunBytes, IsRun, Decode, Written, LiteralRun, RepeatRun, RunSize;
    if data == [] {
      return [];
    }
    var inb: seq<byte> := [];
    var literal: seq<byte> := [];
    var runLen := 1;
    ghost var e := 0;
    NothingWritten(data);
    for i := 1 to |data|
      invariant Progress(data, i, inb, literal, runLen, e)
    {
      if data[i] == data[i - 1] {
        inb, literal, runLen, e := ExtendRun(data, i, inb, literal, runLen, e);
      } else {
        inb, literal, runLen, e := ExtendLiteral(data, i, inb, literal, runLen, e);
      }
    }
    if literal != [] {
      Emit(data, inb, e, |data|, LiteralRun(literal));
      inb := inb + LiteralRun(literal);
    } else if runLen > 0 {
      Emit(data, inb, e, |data|, RepeatRun(data[|data| - 1], runLen));
      inb := inb + RepeatRun(data[|data| - 1], runLen);
    }
    Finish(data, inb);
    encoded := inb + [END_OF_DATA];
  }

  lemma {:induction false} Finish(data: seq<byte>, inb: seq<byte>)
    requires Written(data, inb, |data|)
    ensures AllRuns(inb) && Expand(inb) == data && Decode(inb + [END_OF_DATA]) == Data(data)
  {
    assert data[..|data|] == data;
    RunsThenEnd(inb);
  }

  lemma NothingWritten(data: seq<byte>)
    ensures Written(data, [], 0)
  {
  }

  /** The encoder does not round-trip the empty input: it writes nothing, and the decoder wants an end marker. */
  lemma EmptyDoesNotComeBack()
    ensures Decode([]) == UnexpectedEnd
  {
  }
}
