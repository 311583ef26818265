/** Prediction around the Flate filter, decoded in place; section 9 of the PNG specification (ISO/IEC 15948). */
module Predictor {
  import opened Symbols
  import opened Arith

  // ----- The Paeth function

  /** The absolute value without a branch: m is all ones for a negative x, and x ^ m is then -x - 1. */
  function Abs(x: int): (r: int)
    ensures r == if x < 0 then -x else x
  {
    var m := if x < 0 then -1 else 0;
    var flipped := if m == 0 then x else -x - 1;
    flipped - m
  }

  function Paeth(a: byte, b: byte, c: byte): byte {
    var pc: int, pa: int, pb: int := c, b, a;
    var da := Abs(pa - pc);
    var db := Abs(pb - pc);
    var dc := Abs((pa - pc) + (pb - pc));
    if da <= db && da <= dc then a else if db <= dc then b else c
  }

  /** The sample form of section 9.4: the neighbour nearest to the estimate a + b - c, ties in the order a, b, c. */
  function PaethPredictor(a: byte, b: byte, c: byte): byte {
    var a': int, b': int, c': int := a, b, c;
    var p := a' + b' - c';
    var pa := if p < a' then a' - p else p - a';
    var pb := if p < b' then b' - p else p - b';
    var pc := if p < c' then c' - p else p - c';
    if pa <= pb && pa <= pc then a else if pb <= pc then b else c
  }

  /** The shortened arithmetic computes the sample form, and its result is a neighbour nearest to the estimate. */
  lemma PaethIsPaethPredictor(a: byte, b: byte, c: byte)
    ensures Paeth(a, b, c) == PaethPredictor(a, b, c)
    ensures var p, r: int := a as int + b as int - c as int, Paeth(a, b, c);
      r in {a, b, c} && Abs(p - r) <= Abs(p - a) && Abs(p - r) <= Abs(p - b) && Abs(p - r) <= Abs(p - c)
  {
  }

  // ----- Filtering one row, section 9.2

  /** The predicted value of a byte from the bytes to its left, above it, and above the one to its left. */
  function Predicted(filter: byte, a: byte, b: byte, c: byte): byte {
    if filter == 1 then a
    else if filter == 2 then b
    else if filter == 3 then (var s: int := a; (s + b) / 2)
    else if filter == 4 then PaethPredictor(a, b, c)
    else 0
  }

  /** The byte bpp positions before k, or zero. */
  function Before(row: seq<byte>, k: nat, bpp: nat): byte
    requires k <= |row|
    requires bpp > 0
  {
    if k < bpp then 0 else row[k - bpp]
  }

  function Sub8(x: byte, y: byte): byte {
    var d: int := x;
    (d - y) % 256
  }

  function Add8(x: byte, y: byte): byte {
    var d: int := x;
    (d + y) % 256
  }

  function FilterRow(filter: byte, bpp: nat, prior: seq<byte>, row: seq<byte>): (r: seq<byte>)
    requires bpp > 0 && |prior| == |row|
    ensures |r| == |row|
  {
    seq(|row|, k requires 0 <= k < |row| =>
      Sub8(row[k], Predicted(filter, Before(row, k, bpp), prior[k], Before(prior, k, bpp))))
  }

  /** The first k bytes of the row that was filtered. */
  function UnfilterTo(filter: byte, bpp: nat, prior: seq<byte>, filtered: seq<byte>, k: nat): (r: seq<byte>)
    requires bpp > 0 && |prior| == |filtered| && k <= |filtered|
    ensures |r| == k
  {
    if k == 0 then []
    else
      var r := UnfilterTo(filter, bpp, prior, filtered, k - 1);
      r + [Add8(filtered[k - 1], Predicted(filter, Before(r, k - 1, bpp), prior[k - 1], Before(prior, k - 1, bpp)))]
  }

  function UnfilterRow(filter: byte, bpp: nat, prior: seq<byte>, filtered: seq<byte>): (r: seq<byte>)
    requires bpp > 0 && |prior| == |filtered|
    ensures |r| == |filtered|
  {
    UnfilterTo(filter, bpp, prior, filtered, |filtered|)
  }

  lemma AddUndoesSub(x: byte, y: byte)
    ensures Add8(Sub8(x, y), y) == x
  {
  }

  lemma {:induction false} UnfilterUndoesFilter(filter: byte, bpp: nat, prior: seq<byte>, row: seq<byte>, k: nat)
    requires bpp > 0 && |prior| == |row| && k <= |row|
    ensures UnfilterTo(filter, bpp, prior, FilterRow(filter, bpp, prior, row), k) == row[..k]
  {
    hide Add8, Sub8, Predicted;
    if k > 0 {
      UnfilterUndoesFilter(filter, bpp, prior, row, k - 1);
      assert Before(row[..k - 1], k - 1, bpp) == Before(row, k - 1, bpp);
      AddUndoesSub(row[k - 1], Predicted(filter, Before(row, k - 1, bpp), prior[k - 1], Before(prior, k - 1, bpp)));
      assert row[..k] == row[..k - 1] + [row[k - 1]];
    }
  }

  /** The restored row byte by byte: each is the filtered byte plus what its restored neighbours predict. */
  lemma {:induction false} UnfilterAt(filter: byte, bpp: nat, prior: seq<byte>, filtered: seq<byte>, k: nat, n: nat)
    requires bpp > 0 && |prior| == |filtered| && k < n <= |filtered|
    ensures var r := UnfilterTo(filter, bpp, prior, filtered, n);
      r[k] == Add8(filtered[k], Predicted(filter, Before(r, k, bpp), prior[k], Before(prior, k, bpp)))
  {
    hide Add8, Predicted;
    if k < n - 1 {
      UnfilterAt(filter, bpp, prior, filtered, k, n - 1);
      var r := UnfilterTo(filter, bpp, prior, filtered, n);
      var r' := UnfilterTo(filter, bpp, prior, filtered, n - 1);
      assert r[k] == r'[k] && Before(r, k, bpp) == Before(r', k, bpp);
    } else {
      var r := UnfilterTo(filter, bpp, prior, filtered, n);
      var r' := UnfilterTo(filter, bpp, prior, filtered, k);
      assert Before(r, k, bpp) == Before(r', k, bpp);
    }
  }

  /** What each filter of section 9.2 makes of a byte, from the restored bytes to its left, above it, and above that to its left. */
  lemma {:induction false} RestoredByte(filter: byte, bpp: nat, prior: seq<byte>, filtered: seq<byte>, k: nat)
    requires filter <= 4 && bpp > 0 && |prior| == |filtered| && k < |filtered|
    ensures var r := UnfilterRow(filter, bpp, prior, filtered);
      var left: byte := if k >= bpp then r[k - bpp] else 0;
      var aboveLeft: byte := if k >= bpp then prior[k - bpp] else 0;
      && (filter == 0 ==> r[k] == filtered[k])
      && (filter == 1 ==> r[k] as int == (filtered[k] as int + left as int) % 256)
      && (filter == 2 ==> r[k] as int == (filtered[k] as int + prior[k] as int) % 256)
      && (filter == 3 ==> r[k] as int == (filtered[k] as int + (left as int + prior[k] as int) / 2) % 256)
      && (filter == 4 ==> r[k] as int == (filtered[k] as int + PaethPredictor(left, prior[k], aboveLeft) as int) % 256)
  {
    UnfilterAt(filter, bpp, prior, filtered, k, |filtered|);
  }

  // ----- Images

  /** Panic: a division by zero, or an index outside a row. */
  datatype Result = Data(bytes: seq<byte>) | InvalidParameters | Panic

  function AfterRow(row: seq<byte>, r: Result): Result {
    if r.Data? then Data(row + r.bytes) else r
  }

  /** The rows of a filtered image, each with its filter byte in front, undone from the top. */
  function UnfilterImage(bpp: nat, prior: seq<byte>, data: seq<byte>): Result
    requires bpp > 0
    decreases |data|
  {
    var n := |prior|;
    if |data| < n + 1 then Data([])
    else if data[0] > 4 then InvalidParameters
    else
      var row := UnfilterRow(data[0], bpp, prior, data[1..n + 1]);
      AfterRow(row, UnfilterImage(bpp, row, data[n + 1..]))
  }

  function FilterImage(bpp: nat, prior: seq<byte>, rows: seq<seq<byte>>, filters: seq<byte>): seq<byte>
    requires bpp > 0 && |rows| == |filters| && forall i :: 0 <= i < |rows| ==> |rows[i]| == |prior|
    decreases |rows|
  {
    if rows == [] then []
    else [filters[0]] + FilterRow(filters[0], bpp, prior, rows[0]) + FilterImage(bpp, rows[0], rows[1..], filters[1..])
  }

  function Concat(rows: seq<seq<byte>>): seq<byte> {
    if rows == [] then [] else rows[0] + Concat(rows[1..])
  }

  /** Whatever filter each row was given, the image comes back. */
  lemma {:induction false} ImageComesBack(bpp: nat, prior: seq<byte>, rows: seq<seq<byte>>, filters: seq<byte>)
    requires bpp > 0 && |rows| == |filters| && forall i :: 0 <= i < |rows| ==> |rows[i]| == |prior|
    requires forall i :: 0 <= i < |filters| ==> filters[i] <= 4
    ensures UnfilterImage(bpp, prior, FilterImage(bpp, prior, rows, filters)) == Data(Concat(rows))
    decreases |rows|
  {
    if rows != [] {
      var n := |prior|;
      var filtered := FilterRow(filters[0], bpp, prior, rows[0]);
      var more := FilterImage(bpp, rows[0], rows[1..], filters[1..]);
      var data := FilterImage(bpp, prior, rows, filters);
      assert data[0] == filters[0] && data[1..n + 1] == filtered && data[n + 1..] == more;
      UnfilterUndoesFilter(filters[0], bpp, prior, rows[0], n);
      assert rows[0][..n] == rows[0];
      ImageComesBack(bpp, rows[0], rows[1..], filters[1..]);
    }
  }

  // ----- Decoding in place

  function Zeros(n: nat): (r: seq<byte>)
    ensures |r| == n
  {
    seq(n, _ => 0)
  }

  /** The row that starts at position start holds restored bytes before index k and filtered bytes from there on. */
  ghost predicate PartlyRestored(a: array<byte>, start: nat, restored: seq<byte>, filtered: seq<byte>, k: nat)
    requires |restored| == |filtered| && start + |restored| < a.Length
    reads a
  {
    forall i :: 0 <= i < |restored| ==> a[start + 1 + i] == if i < k then restored[i] else filtered[i]
  }

  /** Nothing outside the row has changed. */
  twostate predicate SameOutside(a: array<byte>, start: nat, n: nat)
    reads a
  {
    forall m :: 0 <= m < a.Length && (m <= start || m > start + n) ==> a[m] == old(a[m])
  }

  /** One case of the switch per filter; prevRowData is the restored row above, its filter byte included. */
  method DecodeRow(outData: array<byte>, start: nat, prevRowData: seq<byte>, bytesPerPixel: nat) returns (ok: bool)
    requires |prevRowData| > bytesPerPixel > 0 && start + |prevRowData| <= outData.Length
    modifies outData
    ensures ok <==> old(outData[start]) <= 4
    ensures ok ==> (outData[start + 1..start + |prevRowData|] ==
      UnfilterRow(old(outData[start]), bytesPerPixel, prevRowData[1..], old(outData[start + 1..start + |prevRowData|])))
    ensures SameOutside(outData, start, |prevRowData| - 1)
  {
    hide Add8, Predicted, UnfilterTo;
    var rowLength := |prevRowData|;
    var fb := outData[start];
    ghost var prior, filtered := prevRowData[1..], outData[start + 1..start + rowLength];
    ghost var restored := UnfilterRow(fb, bytesPerPixel, prior, filtered);
    ok := true;
    match fb {
      case 0 => RestoredLeft(fb, bytesPerPixel, prior, filtered);
      case 1 => DecodeSub(outData, start, prevRowData, bytesPerPixel);
      case 2 => DecodeUp(outData, start, prevRowData, bytesPerPixel);
      case 3 => DecodeAvg(outData, start, prevRowData, bytesPerPixel);
      case 4 => DecodePaeth(outData, start, prevRowData, bytesPerPixel);
      case _ => ok := false;
    }
  }

  /** Bytes that are predicted by zero are their own restored value. */
  lemma RestoredLeft(fb: byte, bpp: nat, prior: seq<byte>, filtered: seq<byte>)
    requires bpp > 0 && |prior| == |filtered| && bpp <= |filtered|
    ensures var r := UnfilterRow(fb, bpp, prior, filtered);
      (fb == 0 ==> r == filtered) && (fb == 1 ==> forall k :: 0 <= k < bpp ==> r[k] == filtered[k])
  {
    forall k | 0 <= k < |filtered| && (fb == 0 || (fb == 1 && k < bpp))
      ensures UnfilterRow(fb, bpp, prior, filtered)[k] == filtered[k]
    {
      UnfilterAt(fb, bpp, prior, filtered, k, |filtered|);
    }
  }

  method DecodeSub(outData: array<byte>, start: nat, prevRowData: seq<byte>, bytesPerPixel: nat)
    requires |prevRowData| > bytesPerPixel > 0 && start + |prevRowData| <= outData.Length
    modifies outData
    ensures outData[start + 1..start + |prevRowData|] ==
      UnfilterRow(1, bytesPerPixel, prevRowData[1..], old(outData[start + 1..start + |prevRowData|]))
    ensures SameOutside(outData, start, |prevRowData| - 1)
  {
    hide Add8, UnfilterTo;
    var rowLength := |prevRowData|;
    ghost var prior, filtered := prevRowData[1..], outData[start + 1..start + rowLength];
    ghost var restored := UnfilterRow(1, bytesPerPixel, prior, filtered);
    RestoredLeft(1, bytesPerPixel, prior, filtered);
    for j := 1 + bytesPerPixel to rowLength
      invariant PartlyRestored(outData, start, restored, filtered, j - 1)
      invariant SameOutside(outData, start, rowLength - 1)
    {
      UnfilterAt(1, bytesPerPixel, prior, filtered, j - 1, rowLength - 1);
      assert outData[start + 1 + (j - 1)] == filtered[j - 1];
      assert outData[start + 1 + (j - 1 - bytesPerPixel)] == restored[j - 1 - bytesPerPixel];
      outData[start + j] := Add8(outData[start + j], outData[start + j - bytesPerPixel]);
    }
  }

  method DecodeUp(outData: array<byte>, start: nat, prevRowData: seq<byte>, bytesPerPixel: nat)
    requires |prevRowData| > bytesPerPixel > 0 && start + |prevRowData| <= outData.Length
    modifies outData
    ensures outData[start + 1..start + |prevRowData|] ==
      UnfilterRow(2, bytesPerPixel, prevRowData[1..], old(outData[start + 1..start + |prevRowData|]))
    ensures SameOutside(outData, start, |prevRowData| - 1)
  {
    hide Add8, UnfilterTo;
    var rowLength := |prevRowData|;
    ghost var prior, filtered := prevRowData[1..], outData[start + 1..start + rowLength];
    ghost var restored := UnfilterRow(2, bytesPerPixel, prior, filtered);
    for j := 1 to rowLength
      invariant PartlyRestored(outData, start, restored, filtered, j - 1)
      invariant SameOutside(outData, start, rowLength - 1)
    {
      UnfilterAt(2, bytesPerPixel, prior, filtered, j - 1, rowLength - 1);
      assert outData[start + 1 + (j - 1)] == filtered[j - 1];
      outData[start + j] := Add8(outData[start + j], prevRowData[j]);
    }
  }

  method DecodeAvg(outData: array<byte>, start: nat, prevRowData: seq<byte>, bytesPerPixel: nat)
    requires |prevRowData| > bytesPerPixel > 0 && start + |prevRowData| <= outData.Length
    modifies outData
    ensures outData[start + 1..start + |prevRowData|] ==
      UnfilterRow(3, bytesPerPixel, prevRowData[1..], old(outData[start + 1..start + |prevRowData|]))
    ensures SameOutside(outData, start, |prevRowData| - 1)
  {
    hide Add8, UnfilterTo;
    var rowLength := |prevRowData|;
    ghost var prior, filtered := prevRowData[1..], outData[start + 1..start + rowLength];
    ghost var restored := UnfilterRow(3, bytesPerPixel, prior, filtered);
    for j := 1 to bytesPerPixel + 1
      invariant PartlyRestored(outData, start, restored, filtered, j - 1)
      invariant SameOutside(outData, start, rowLength - 1)
    {
      UnfilterAt(3, bytesPerPixel, prior, filtered, j - 1, rowLength - 1);
      assert outData[start + 1 + (j - 1)] == filtered[j - 1];
      outData[start + j] := Add8(outData[start + j], prevRowData[j] / 2);
    }
    for j := bytesPerPixel + 1 to rowLength
      invariant PartlyRestored(outData, start, restored, filtered, j - 1)
      invariant SameOutside(outData, start, rowLength - 1)
    {
      UnfilterAt(3, bytesPerPixel, prior, filtered, j - 1, rowLength - 1);
      assert outData[start + 1 + (j - 1)] == filtered[j - 1];
      assert outData[start + 1 + (j - 1 - bytesPerPixel)] == restored[j - 1 - bytesPerPixel];
      var left: int := outData[start + j - bytesPerPixel];
      outData[start + j] := Add8(outData[start + j], (left + prevRowData[j]) / 2);
    }
  }

  method DecodePaeth(outData: array<byte>, start: nat, prevRowData: seq<byte>, bytesPerPixel: nat)
    requires |prevRowData| > bytesPerPixel > 0 && start + |prevRowData| <= outData.Length
    modifies outData
    ensures outData[start + 1..start + |prevRowData|] ==
      UnfilterRow(4, bytesPerPixel, prevRowData[1..], old(outData[start + 1..start + |prevRowData|]))
    ensures SameOutside(outData, start, |prevRowData| - 1)
  {
    hide Add8, UnfilterTo, Paeth, PaethPredictor;
    var rowLength := |prevRowData|;
    ghost var prior, filtered := prevRowData[1..], outData[start + 1..start + rowLength];
    ghost var restored := UnfilterRow(4, bytesPerPixel, prior, filtered);
    for j := 1 to rowLength
      invariant PartlyRestored(outData, start, restored, filtered, j - 1)
      invariant SameOutside(outData, start, rowLength - 1)
    {
      UnfilterAt(4, bytesPerPixel, prior, filtered, j - 1, rowLength - 1);
      assert outData[start + 1 + (j - 1)] == filtered[j - 1];
      var a: byte, b, c: byte := 0, prevRowData[j], 0;
      if j >= bytesPerPixel + 1 {
        assert outData[start + 1 + (j - 1 - bytesPerPixel)] == restored[j - 1 - bytesPerPixel];
        a := outData[start + j - bytesPerPixel];
        c := prevRowData[j - bytesPerPixel];
      }
      PaethIsPaethPredictor(a, b, c);
      outData[start + j] := Add8(outData[start + j], Paeth(a, b, c));
    }
  }

  // ----- The whole image

  /** The rows of a TIFF image: each byte is predicted by the one a pixel before it, and no row by another. */
  function UnfilterTiff(n: nat, bpp: nat, data: seq<byte>): seq<byte>
    requires bpp > 0 && n > 0
    decreases |data|
  {
    if |data| < n then []
    else UnfilterRow(1, bpp, Zeros(n), data[..n]) + UnfilterTiff(n, bpp, data[n..])
  }

  /** The TIFF prediction of rows: each byte less the one a pixel before it. */
  function FilterTiff(n: nat, bpp: nat, rows: seq<seq<byte>>): seq<byte>
    requires bpp > 0 && forall i :: 0 <= i < |rows| ==> |rows[i]| == n
  {
    if rows == [] then [] else FilterRow(1, bpp, Zeros(n), rows[0]) + FilterTiff(n, bpp, rows[1..])
  }

  /** Every image that was predicted row by row comes back. */
  lemma {:induction false} TiffImageComesBack(n: nat, bpp: nat, rows: seq<seq<byte>>)
    requires n > 0 && bpp > 0 && forall i :: 0 <= i < |rows| ==> |rows[i]| == n
    ensures UnfilterTiff(n, bpp, FilterTiff(n, bpp, rows)) == Concat(rows)
    ensures |FilterTiff(n, bpp, rows)| == n * |rows|
  {
    if rows != [] {
      var filtered, more := FilterRow(1, bpp, Zeros(n), rows[0]), FilterTiff(n, bpp, rows[1..]);
      var data := FilterTiff(n, bpp, rows);
      assert data[..n] == filtered && data[n..] == more;
      UnfilterUndoesFilter(1, bpp, Zeros(n), rows[0], n);
      assert rows[0][..n] == rows[0];
      TiffImageComesBack(n, bpp, rows[1..]);
      MulStep(n, |rows[1..]|);
    }
  }

  /** Rows without columns or colors are their filter bytes; the loop for averages indexes them all the same. */
  function EmptyRows(colors: nat, data: seq<byte>): Result {
    if data == [] then Data([])
    else if data[0] > 4 then InvalidParameters
    else if data[0] == 3 && colors > 0 then Panic
    else EmptyRows(colors, data[1..])
  }

  /** What postDecodePredict yields for a predictor number and the two row parameters. */
  function Restore(predictor: int, columns: nat, colors: nat, data: seq<byte>): Result {
    var n := columns * colors;
    if predictor <= 1 then Data(data)
    else if predictor == 2 then
      if n < 1 then Data([])
      else if |data| % n != 0 || n > |data| then InvalidParameters
      else
        AtLeastOnePixel(columns, colors);
        Data(UnfilterTiff(n, colors, data))
    else if 10 <= predictor <= 15 then
      if |data| % (n + 1) != 0 || n + 1 > |data| then InvalidParameters
      else if n == 0 then EmptyRows(colors, data)
      else
        AtLeastOnePixel(columns, colors);
        UnfilterImage(colors, Zeros(n), data)
    else InvalidParameters
  }

  /** The loop over rows of one byte each. */
  method DecodeEmptyRows(outData: array<byte>, bytesPerPixel: nat) returns (r: Result)
    ensures r == EmptyRows(bytesPerPixel, outData[..])
  {
    assert outData[0..] == outData[..];
    for i := 0 to outData.Length
      invariant EmptyRows(bytesPerPixel, outData[i..]) == EmptyRows(bytesPerPixel, outData[..])
    {
      assert outData[i..][0] == outData[i] && outData[i..][1..] == outData[i + 1..];
      var fb := outData[i];
      if fb > 4 {
        return InvalidParameters;
      }
      if fb == 3 && 1 < bytesPerPixel + 1 {
        return Panic;
      }
    }
    r := Data([]);
  }

  /** The PNG predictors: row after row, each restored in place with the row above it. */
  method DecodePng(outData: array<byte>, rowLength: nat, bytesPerPixel: nat) returns (r: Result)
    requires rowLength > bytesPerPixel > 0 && outData.Length % rowLength == 0
    modifies outData
    ensures r == UnfilterImage(bytesPerPixel, Zeros(rowLength - 1), old(outData[..]))
  {
    hide UnfilterRow, UnfilterImage, AfterRow;
    ghost var was := outData[..];
    ghost var goal := UnfilterImage(bytesPerPixel, Zeros(rowLength - 1), was);
    NothingBefore(goal);
    var rows := outData.Length / rowLength;
    WholeRows(outData.Length, rowLength);
    var pOutBuffer: seq<byte> := [];
    var prevRowData := Zeros(rowLength);
    assert prevRowData[1..] == Zeros(rowLength - 1);
    assert was[0..] == was;
    for i := 0 to rows
      invariant |prevRowData| == rowLength && rowLength * i <= outData.Length
      invariant outData[rowLength * i..] == was[rowLength * i..]
      invariant AfterRow(pOutBuffer, UnfilterImage(bytesPerPixel, prevRowData[1..], was[rowLength * i..])) == goal
    {
      MulGrows(rowLength, i, rows);
      MulStep(rowLength, i);
      var start := rowLength * i;
      ghost var left := was[start..];
      assert outData[start..][0] == outData[start] && left[1..rowLength] == outData[start + 1..start + rowLength];
      FirstRow(bytesPerPixel, prevRowData[1..], left);
      var ok := DecodeRow(outData, start, prevRowData, bytesPerPixel);
      if !ok {
        return InvalidParameters;
      }
      ghost var row := outData[start + 1..start + rowLength];
      assert left[rowLength..] == was[start + rowLength..];
      RowJoins(pOutBuffer, row, UnfilterImage(bytesPerPixel, row, was[start + rowLength..]));
      prevRowData := outData[start..start + rowLength];
      assert prevRowData[1..] == row;
      pOutBuffer := pOutBuffer + prevRowData[1..];
    }
    assert was[rowLength * rows..] == [];
    NoRowsLeft(bytesPerPixel, prevRowData[1..], pOutBuffer);
    r := Data(pOutBuffer);
  }

  lemma NothingBefore(r: Result)
    ensures AfterRow([], r) == r
  {
    if r.Data? { assert [] + r.bytes == r.bytes; }
  }

  lemma {:induction false} FirstRow(bpp: nat, prior: seq<byte>, data: seq<byte>)
    requires bpp > 0 && |data| >= |prior| + 1
    ensures data[0] > 4 ==> forall front :: AfterRow(front, UnfilterImage(bpp, prior, data)) == InvalidParameters
    ensures data[0] <= 4 ==>
      var row := UnfilterRow(data[0], bpp, prior, data[1..|prior| + 1]);
      UnfilterImage(bpp, prior, data) == AfterRow(row, UnfilterImage(bpp, row, data[|prior| + 1..]))
  {
    hide UnfilterRow;
  }

  lemma {:induction false} NoRowsLeft(bpp: nat, prior: seq<byte>, front: seq<byte>)
    requires bpp > 0
    ensures AfterRow(front, UnfilterImage(bpp, prior, [])) == Data(front)
  {
    assert front + [] == front;
  }

  lemma RowJoins(front: seq<byte>, row: seq<byte>, r: Result)
    ensures AfterRow(front, AfterRow(row, r)) == AfterRow(front + row, r)
  {
    if r.Data? { assert front + (row + r.bytes) == front + row + r.bytes; }
  }

  /** One row of a TIFF image, restored in place from its second pixel on. */
  method DecodeTiffRow(outData: array<byte>, start: nat, rowLength: nat, colors: nat)
    requires rowLength >= colors > 0 && start + rowLength <= outData.Length
    modifies outData
    ensures outData[start..start + rowLength] ==
      UnfilterRow(1, colors, Zeros(rowLength), old(outData[start..start + rowLength]))
    ensures forall m :: 0 <= m < outData.Length && (m < start || m >= start + rowLength) ==> outData[m] == old(outData[m])
  {
    hide UnfilterTo, Add8;
    ghost var filtered := outData[start..start + rowLength];
    ghost var restored := UnfilterRow(1, colors, Zeros(rowLength), filtered);
    RestoredLeft(1, colors, Zeros(rowLength), filtered);
    for j := colors to rowLength
      invariant forall k :: 0 <= k < rowLength ==> outData[start + k] == if k < j then restored[k] else filtered[k]
      invariant forall m :: 0 <= m < outData.Length && (m < start || m >= start + rowLength) ==> outData[m] == old(outData[m])
    {
      UnfilterAt(1, colors, Zeros(rowLength), filtered, j, rowLength);
      assert outData[start + (j - colors)] == restored[j - colors];
      assert outData[start + j] == filtered[j];
      outData[start + j] := Add8(outData[start + j], outData[start + j - colors]);
    }
  }

  method DecodeTiff(outData: array<byte>, rowLength: nat, colors: nat) returns (bytes: seq<byte>)
    requires rowLength >= colors > 0 && outData.Length % rowLength == 0
    modifies outData
    ensures bytes == UnfilterTiff(rowLength, colors, old(outData[..]))
  {
    hide UnfilterRow;
    ghost var was := outData[..];
    ghost var goal := UnfilterTiff(rowLength, colors, was);
    var rows := outData.Length / rowLength;
    WholeRows(outData.Length, rowLength);
    bytes := [];
    assert was[0..] == was;
    for i := 0 to rows
      invariant rowLength * i <= outData.Length
      invariant outData[rowLength * i..] == was[rowLength * i..]
      invariant bytes + UnfilterTiff(rowLength, colors, was[rowLength * i..]) == goal
    {
      MulGrows(rowLength, i, rows);
      MulStep(rowLength, i);
      var start := rowLength * i;
      ghost var left := was[start..];
      assert left[..rowLength] == outData[start..][..rowLength] == outData[start..start + rowLength];
      DecodeTiffRow(outData, start, rowLength, colors);
      assert left[rowLength..] == was[start + rowLength..];
      assert outData[start + rowLength..] == was[start + rowLength..] by {
        assert forall m :: start + rowLength <= m < |was| ==> was[m] == left[m - start];
      }
      bytes := bytes + outData[start..start + rowLength];
    }
    assert was[rowLength * rows..] == [];
  }

  lemma AtLeastOnePixel(columns: nat, colors: nat)
    ensures columns > 0 ==> columns * colors >= colors
    ensures columns * colors > 0 ==> columns > 0 && colors > 0
  {
    if columns > 0 { assert (columns - 1) * colors >= 0; }
  }

  method PostDecodePredict(predictor: int, columns: nat, colors: nat, outData: array<byte>) returns (r: Result)
    modifies outData
    ensures r == Restore(predictor, columns, colors, old(outData[..]))
  {
    AtLeastOnePixel(columns, colors);
    if predictor > 1 {
      if predictor == 2 {
        var rowLength := columns * colors;
        if rowLength < 1 {
          return Data([]);
        }
        if outData.Length % rowLength != 0 || rowLength > outData.Length {
          return InvalidParameters;
        }
        var bytes := DecodeTiff(outData, rowLength, colors);
        return Data(bytes);
      } else if predictor >= 10 && predictor <= 15 {
        var rowLength := columns * colors + 1;
        if outData.Length % rowLength != 0 || rowLength > outData.Length {
          return InvalidParameters;
        }
        if rowLength == 1 {
          r := DecodeEmptyRows(outData, colors);
        } else {
          r := DecodePng(outData, rowLength, colors);
        }
        return;
      } else {
        return InvalidParameters;
      }
    }
    r := Data(outData[..]);
  }

  lemma {:induction false} FilteredSize(bpp: nat, prior: seq<byte>, rows: seq<seq<byte>>, filters: seq<byte>)
    requires bpp > 0 && |rows| == |filters| && forall i :: 0 <= i < |rows| ==> |rows[i]| == |prior|
    ensures |FilterImage(bpp, prior, rows, filters)| == (|prior| + 1) * |rows|
    decreases |rows|
  {
    if rows != [] {
      FilteredSize(bpp, rows[0], rows[1..], filters[1..]);
      MulStep(|prior| + 1, |rows[1..]|);
    }
  }

  /** Every image of at least one row, filtered row by row in any way, is restored by every PNG predictor number. */
  lemma {:induction false} PngRoundTrip(predictor: int, columns: nat, colors: nat, rows: seq<seq<byte>>, filters: seq<byte>)
    requires 10 <= predictor <= 15 && columns >= 1 && colors >= 1
    requires |rows| == |filters| && forall i :: 0 <= i < |rows| ==> |rows[i]| == columns * colors
    requires forall i :: 0 <= i < |filters| ==> filters[i] <= 4
    ensures columns * colors >= 0
    ensures var n := columns * colors;
      Restore(predictor, columns, colors, FilterImage(colors, Zeros(n), rows, filters)) ==
        if rows == [] then InvalidParameters else Data(Concat(rows))
  {
    hide UnfilterImage, FilterImage, UnfilterTiff, EmptyRows, Concat;
    var n := columns * colors;
    AtLeastOnePixel(columns, colors);
    FilteredSize(colors, Zeros(n), rows, filters);
    ImageComesBack(colors, Zeros(n), rows, filters);
    RestoreRows(predictor, columns, colors, FilterImage(colors, Zeros(n), rows, filters), n, |rows|);
  }

  lemma {:induction false} RestoreRows(predictor: int, columns: nat, colors: nat, data: seq<byte>, n: nat, rows: nat)
    requires 10 <= predictor <= 15 && colors > 0 && n == columns * colors > 0 && |data| == (n + 1) * rows
    ensures Restore(predictor, columns, colors, data) == if rows == 0 then InvalidParameters else UnfilterImage(colors, Zeros(n), data)
  {
    hide UnfilterImage, UnfilterTiff, EmptyRows;
    MultipleOf(n + 1, rows);
  }

  /** Every image of at least one row that was predicted as in TIFF is restored by predictor number 2. */
  lemma {:induction false} TiffRoundTrip(columns: nat, colors: nat, rows: seq<seq<byte>>)
    requires columns >= 1 && colors >= 1 && forall i :: 0 <= i < |rows| ==> |rows[i]| == columns * colors
    ensures columns * colors >= 0
    ensures Restore(2, columns, colors, FilterTiff(columns * colors, colors, rows)) ==
      if rows == [] then InvalidParameters else Data(Concat(rows))
  {
    var n := columns * colors;
    AtLeastOnePixel(columns, colors);
    TiffImageComesBack(n, colors, rows);
    MultipleOf(n, |rows|);
  }

  // ----- The encoder's own prediction

  function Split(data: seq<byte>, n: nat): (rows: seq<seq<byte>>)
    requires n > 0
    ensures forall i :: 0 <= i < |rows| ==> |rows[i]| == n
    decreases |data|
  {
    if |data| < n then [] else [data[..n]] + Split(data[n..], n)
  }

  lemma {:induction false} SplitJoins(data: seq<byte>, n: nat)
    requires n > 0 && |data| % n == 0
    ensures Concat(Split(data, n)) == data
    decreases |data|
  {
    if |data| >= n {
      ModStep(|data| - n, n);
      SplitJoins(data[n..], n);
      assert data[..n] + data[n..] == data;
    } else {
      SmallMod(|data|, n);
    }
  }

  function Ones(k: nat): seq<byte> {
    seq(k, _ => 1)
  }

  /** What the encoder writes for whole rows: the Sub filter with one byte per pixel, whatever the number of colors. */
  function SubRows(columns: nat, prior: seq<byte>, data: seq<byte>): seq<byte>
    requires columns > 0 && |prior| == columns
  {
    FilterImage(1, prior, Split(data, columns), Ones(|Split(data, columns)|))
  }

  lemma {:induction false} SubRowsStep(columns: nat, prior: seq<byte>, data: seq<byte>)
    requires columns > 0 && |prior| == columns && |data| >= columns
    ensures SubRows(columns, prior, data) ==
      [1] + FilterRow(1, 1, prior, data[..columns]) + SubRows(columns, data[..columns], data[columns..])
  {
    var split := Split(data, columns);
    assert split[0] == data[..columns] && split[1..] == Split(data[columns..], columns);
    assert Ones(|split|)[1..] == Ones(|split[1..]|);
  }

  method SubRow(ghost prior: seq<byte>, rowData: seq<byte>) returns (tmpData: seq<byte>)
    requires rowData != [] && |prior| == |rowData|
    ensures tmpData == FilterRow(1, 1, prior, rowData)
  {
    tmpData := [rowData[0]];
    for j := 1 to |rowData|
      invariant tmpData == FilterRow(1, 1, prior, rowData)[..j]
    {
      tmpData := tmpData + [Sub8(rowData[j], rowData[j - 1])];
    }
  }

  method EncodeRows(columns: nat, data: seq<byte>) returns (r: Result)
    ensures columns == 0 ==> r == Panic
    ensures columns > 0 ==>
      r == if |data| % columns != 0 then InvalidParameters else Data(SubRows(columns, Zeros(columns), data))
  {
    hide FilterRow, SubRows;
    var rowLength := columns;
    if rowLength == 0 {
      return Panic;
    }
    if |data| % rowLength != 0 {
      return InvalidParameters;
    }
    var rows := |data| / rowLength;
    WholeRows(|data|, rowLength);
    var out: seq<byte> := [];
    ghost var prior := Zeros(columns);
    ghost var goal := SubRows(columns, prior, data);
    assert data[0..] == data;
    for i := 0 to rows
      invariant rowLength * i <= |data| && |prior| == columns
      invariant out + SubRows(columns, prior, data[rowLength * i..]) == goal
    {
      MulGrows(rowLength, i, rows);
      MulStep(rowLength, i);
      ghost var left := data[rowLength * i..];
      var rowData := data[rowLength * i..rowLength * (i + 1)];
      assert left[..columns] == rowData && left[columns..] == data[rowLength * (i + 1)..];
      SubRowsStep(columns, prior, left);
      var tmpData := SubRow(prior, rowData);
      out := out + ([1] + tmpData);
      prior := rowData;
    }
    NoRows(columns, prior);
    assert data[rowLength * rows..] == [];
    assert out + [] == out;
    r := Data(out);
  }

  lemma NoRows(columns: nat, prior: seq<byte>)
    requires columns > 0 && |prior| == columns
    ensures SubRows(columns, prior, []) == []
  {
  }

  /** A restored image has n bytes for every n + 1 bytes of the filtered one. */
  lemma {:induction false} RestoredSize(bpp: nat, prior: seq<byte>, data: seq<byte>)
    requires bpp > 0 && |data| % (|prior| + 1) == 0
    ensures var r := UnfilterImage(bpp, prior, data); r.Data? ==> (|prior| + 1) * |r.bytes| == |prior| * |data|
    decreases |data|
  {
    hide UnfilterRow;
    var n := |prior|;
    if |data| < n + 1 {
      SmallMod(|data|, n + 1);
    } else if data[0] <= 4 {
      var row := UnfilterRow(data[0], bpp, prior, data[1..n + 1]);
      ModStep(|data| - (n + 1), n + 1);
      RestoredSize(bpp, row, data[n + 1..]);
      var more := UnfilterImage(bpp, row, data[n + 1..]);
      if more.Data? { OneRowMore(n, |more.bytes|, |data[n + 1..]|); }
    }
  }

  lemma OneRowMore(n: nat, out: nat, in_: nat)
    requires (n + 1) * out == n * in_
    ensures (n + 1) * (n + out) == n * (n + 1 + in_)
  {
    assert (n + 1) * (n + out) == (n + 1) * n + (n + 1) * out;
    assert n * (n + 1 + in_) == n * (n + 1) + n * in_;
  }

  lemma Distribute(a: int, b: int, c: int)
    ensures (a + b) * c == a * c + b * c && c * (a + b) == c * a + c * b
  {
  }

  lemma NoFactor(p: int, rows: nat)
    requires rows > 0 && p * rows == 0
    ensures p == 0
  {
  }

  /** As many bytes as the encoder wrote rows of, restored as rows of n bytes, are as many as before only if n is the number of columns. */
  lemma SameSize(columns: nat, n: nat, rows: nat, size: nat)
    requires rows > 0 && size == columns * rows && (n + 1) * size == n * ((columns + 1) * rows)
    ensures n == columns
  {
    Distribute(1, n, size);
    Distribute(columns, 1, rows);
    Distribute(size, rows, n);
    Distribute(columns - n, n, rows);
    NoFactor(columns - n, rows);
  }

  lemma {:induction false} SplitSize(data: seq<byte>, n: nat)
    requires n > 0 && |data| % n == 0
    ensures n * |Split(data, n)| == |data|
    decreases |data|
  {
    if |data| >= n {
      ModStep(|data| - n, n);
      SplitSize(data[n..], n);
      MulStep(n, |Split(data[n..], n)|);
    } else {
      SmallMod(|data|, n);
    }
  }

  lemma {:induction false} OneColorComesBack(columns: nat, data: seq<byte>)
    requires columns >= 1 && |data| % columns == 0 && data != []
    ensures Restore(11, columns, 1, SubRows(columns, Zeros(columns), data)) == Data(data)
  {
    var rows := Split(data, columns);
    assert columns * 1 == columns;
    PngRoundTrip(11, columns, 1, rows, Ones(|rows|));
    SplitJoins(data, columns);
    assert rows == [] ==> Concat(rows) == [];
  }

  /** What comes back from the encoder's rows with another number of colors is never of the right size. */
  lemma {:induction false} OtherColorsDoNotComeBack(columns: nat, colors: nat, data: seq<byte>)
    requires columns >= 1 && |data| % columns == 0 && data != [] && colors != 1
    ensures Restore(11, columns, colors, SubRows(columns, Zeros(columns), data)) != Data(data)
  {
    hide UnfilterImage, FilterImage;
    var n := columns * colors;
    var rows := Split(data, columns);
    var encoded := SubRows(columns, Zeros(columns), data);
    AtLeastOnePixel(columns, colors);
    SplitSize(data, columns);
    FilteredSize(1, Zeros(columns), rows, Ones(|rows|));
    if Restore(11, columns, colors, encoded) == Data(data) {
      if n == 0 {
        EmptyRowsAreEmpty(colors, encoded);
      } else {
        RestoredSize(colors, Zeros(n), encoded);
        SameSize(columns, n, |rows|, |data|);
        if colors > 1 { assert columns * colors == columns + columns * (colors - 1); MultipleOf(columns, colors - 1); }
      }
      assert false;
    }
  }

  lemma {:induction false} EmptyRowsAreEmpty(colors: nat, data: seq<byte>)
    ensures EmptyRows(colors, data).Data? ==> EmptyRows(colors, data).bytes == []
  {
    if data != [] { EmptyRowsAreEmpty(colors, data[1..]); }
  }

  /** What the encoder filtered comes back exactly when there is one color and at least one row. */
  lemma {:induction false} EncoderRoundTripIff(columns: nat, colors: nat, data: seq<byte>)
    requires columns >= 1 && |data| % columns == 0
    ensures Restore(11, columns, colors, SubRows(columns, Zeros(columns), data)) == Data(data) <==> colors == 1 && data != []
  {
    if data == [] {
      NoRows(columns, Zeros(columns));
    } else if colors == 1 {
      OneColorComesBack(columns, data);
    } else {
      OtherColorsDoNotComeBack(columns, colors, data);
    }
  }

  /** Numbers up to 1 leave the data as it is, 2 and 10 to 15 want whole rows with pixels in them, and others are refused. */
  lemma {:induction false} WhatNumbersMean(predictor: int, columns: nat, colors: nat, data: seq<byte>)
    ensures var r, n := Restore(predictor, columns, colors, data), columns * colors;
      && n >= 0
      && (predictor <= 1 ==> r == Data(data))
      && (predictor == 2 && n > 0 && (data == [] || |data| % n != 0) ==> r == InvalidParameters)
      && (predictor == 2 && n == 0 ==> r == Data([]))
      && (3 <= predictor <= 9 || predictor >= 16 ==> r == InvalidParameters)
      && (10 <= predictor <= 15 && (data == [] || |data| % (n + 1) != 0) ==> r == InvalidParameters)
      && (10 <= predictor <= 15 && n > 0 && |data| > 0 && |data| % (n + 1) == 0 && data[0] > 4 ==> r == InvalidParameters)
  {
    AtLeastOnePixel(columns, colors);
    var n := columns * colors;
    if n > 0 && |data| > 0 && |data| % (n + 1) == 0 { MultipleIsNoLess(|data|, n + 1); }
  }

  lemma MultipleIsNoLess(a: nat, b: nat)
    requires a > 0 && b > 0 && a % b == 0
    ensures a >= b
  {
  }
}
