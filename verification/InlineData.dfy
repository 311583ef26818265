/** The end of an inline image's data is found by scanning for EI between white space: when that gives the data back. */
module InlineData {
  import opened Symbols
  import opened ContentSpec

  type Data = seq<byte>

  const END_OF_IMAGE: Data := [LF, UPPER_E, UPPER_I, LF]

  /** White space at index p that the scanner takes for a possible beginning of the end. It does not when it has just given up an E. */
  predicate Live(d: Data, p: nat)
    requires p < |d|
  {
    IsWhiteSpace(d[p]) && !(p >= 2 && d[p - 1] == UPPER_E && Live(d, p - 2))
  }

  /** White space, E, I, white space from index q on. */
  predicate EndsAt(d: Data, q: nat) {
    q + 3 < |d| && IsWhiteSpace(d[q]) && d[q + 1] == UPPER_E && d[q + 2] == UPPER_I && IsWhiteSpace(d[q + 3])
  }

  /** Nothing in the data is taken for its end. */
  ghost predicate NoEndBefore(d: Data, i: nat) {
    forall q :: 0 <= q && q + 3 < i && EndsAt(d, q) ==> !Live(d, q)
  }

  /** What the scanner has seen of an end before index i: nothing, white space, E after it, or I after that. */
  function Progress(d: Data, i: nat): (st: nat)
    requires i <= |d|
    ensures st <= 3
  {
    if i >= 1 && Live(d, i - 1) then 1
    else if i >= 2 && d[i - 1] == UPPER_E && Live(d, i - 2) then 2
    else if i >= 3 && d[i - 1] == UPPER_I && d[i - 2] == UPPER_E && Live(d, i - 3) then 3
    else 0
  }

  /** Data that can be read back: nothing in it is taken for its end, and it does not end in what may be a beginning of the end. */
  ghost predicate Clean(d: Data) {
    NoEndBefore(d, |d|) && Progress(d, |d|) == 0
  }

  /** The scanner after i bytes of d: the data and the pending bytes are, together, the bytes read. */
  ghost predicate Scanned(d: Data, i: nat, data: Data, pending: Data) {
    i <= |d| && data + pending == d[..i] && (Progress(d, i) == 0 ==> pending == [])
  }

  lemma {:induction false} ScanSteps(d: Data, t: Data, i: nat) returns (data: Data, pending: Data)
    requires i <= |d| && NoEndBefore(d, i)
    ensures Scanned(d, i, data, pending)
    ensures ScanData(d + t, 0, [], []) == ScanData(d[i..] + t, Progress(d, i), data, pending)
  {
    if i == 0 {
      data, pending := [], [];
      assert d[0..] + t == d + t;
    } else {
      var c := d[i - 1];
      data, pending := ScanSteps(d, t, i - 1);
      var st := Progress(d, i - 1);
      var s := d[i - 1..] + t;
      assert s[0] == c && s[1..] == d[i..] + t;
      assert d[..i] == d[..i - 1] + [c];
      assert data + pending + [c] == data + (pending + [c]);
      if st == 3 {
        assert !EndsAt(d, i - 4);
      }
      if st == 0 {
        if IsWhiteSpace(c) { pending := [c]; } else { data := data + [c]; }
      } else if (st == 1 && c == UPPER_E) || (st == 2 && c == UPPER_I) {
        pending := pending + [c];
      } else {
        data, pending := data + (pending + [c]), [];
      }
    }
  }

  lemma {:induction false} DataOnlyGrows(s: Data, st: nat, data: Data, pending: Data)
    ensures var r := ScanData(s, st, data, pending); r.Ok? ==> data <= r.value
  {
    if s != [] {
      var c, all := s[0], pending + [s[0]];
      if st == 0 {
        if IsWhiteSpace(c) { DataOnlyGrows(s[1..], 1, data, [c]); } else { DataOnlyGrows(s[1..], 0, data + [c], pending); }
      } else if st == 1 {
        if c == UPPER_E { DataOnlyGrows(s[1..], 2, data, all); }
        else { DataOnlyGrows(s[1..], if IsWhiteSpace(c) then 1 else 0, data + all, []); }
      } else if st == 2 {
        if c == UPPER_I { DataOnlyGrows(s[1..], 3, data, all); } else { DataOnlyGrows(s[1..], 0, data + all, []); }
      } else if !IsWhiteSpace(c) {
        DataOnlyGrows(s[1..], 0, data + all, []);
      }
    }
  }

  /** The end that is written: it is found when nothing is pending before it. */
  lemma {:induction false} EndFound(k: Data, data: Data)
    ensures ScanData(END_OF_IMAGE + k, 0, data, []) == Ok(data, k)
  {
    var s := END_OF_IMAGE + k;
    assert s[0] == LF && s[1..][0] == UPPER_E && s[1..][1..][0] == UPPER_I && s[1..][1..][1..][0] == LF;
    assert s[1..][1..][1..][1..] == k;
    assert [LF] + [UPPER_E] == [LF, UPPER_E] && [LF, UPPER_E] + [UPPER_I] == [LF, UPPER_E, UPPER_I];
    assert ScanData(s[1..][1..], 2, data, [LF, UPPER_E]) == Ok(data, k);
    assert ScanData(s[1..], 1, data, [LF]) == Ok(data, k);
  }

  /** When white space is pending, the line feed before EI becomes part of the data; when E is, EI is passed over. */
  lemma {:induction false} EndMisread(k: Data, st: nat, data: Data, pending: Data)
    requires 1 <= st <= 3
    ensures ScanData(END_OF_IMAGE + k, st, data, pending) != Ok(data + pending, k)
  {
    var s := END_OF_IMAGE + k;
    if st < 3 {
      var all := data + (pending + [LF]);
      DataOnlyGrows(s[1..], if st == 1 then 1 else 0, all, []);
      assert |all| > |data + pending|;
    } else {
      assert s[1..] != k by { assert |s[1..]| > |k|; }
    }
  }

  /** Reading data back after it is written gives the data, and stops after EI and its line feed, if and only if it is clean. */
  lemma {:induction false} DataReadsBackIff(d: Data, k: Data)
    ensures ScanData(d + (END_OF_IMAGE + k), 0, [], []) == Ok(d, k) <==> Clean(d)
  {
    hide ScanData, Live, EndsAt;
    var t := END_OF_IMAGE + k;
    if NoEndBefore(d, |d|) {
      var data, pending := ScanSteps(d, t, |d|);
      assert d[|d|..] + t == t && d[..|d|] == d;
      if Progress(d, |d|) == 0 {
        assert data + pending == data;
        EndFound(k, data);
      } else {
        EndMisread(k, Progress(d, |d|), data, pending);
      }
    } else {
      var e := FirstEnd(d, |d|);
      EndsEarly(d, k, e);
    }
  }

  /** The first place in the data that is taken for its end. */
  lemma {:induction false} FirstEnd(d: Data, n: nat) returns (q: nat)
    requires n <= |d| && !NoEndBefore(d, n)
    ensures EndsAt(d, q) && Live(d, q) && NoEndBefore(d, q + 3)
  {
    q :| 0 <= q && q + 3 < n && EndsAt(d, q) && Live(d, q);
    if !NoEndBefore(d, q + 3) {
      q := FirstEnd(d, q + 3);
    }
  }

  lemma {:induction false} EndsEarly(d: Data, k: Data, q: nat)
    requires EndsAt(d, q) && Live(d, q) && NoEndBefore(d, q + 3)
    ensures ScanData(d + (END_OF_IMAGE + k), 0, [], []) != Ok(d, k)
  {
    hide Live, NoEndBefore;
    var t := END_OF_IMAGE + k;
    var data, pending := ScanSteps(d, t, q + 3);
    LiveIsProgress(d, q);
    var s := d[q + 3..] + t;
    assert s[0] == d[q + 3] && |s[1..]| > |k|;
  }

  lemma {:induction false} LiveIsProgress(d: Data, q: nat)
    requires EndsAt(d, q) && Live(d, q)
    ensures Progress(d, q + 3) == 3
  {
  }

  /** In particular: data with no <ws>EI<ws> that does not end in <ws>, <ws>E or <ws>EI reads back. */
  lemma {:induction false} PlainDataIsClean(d: Data)
    requires forall q :: 0 <= q < |d| ==> !EndsAt(d, q)
    requires |d| >= 1 ==> !IsWhiteSpace(d[|d| - 1])
    requires |d| >= 2 ==> !(IsWhiteSpace(d[|d| - 2]) && d[|d| - 1] == UPPER_E)
    requires |d| >= 3 ==> !(IsWhiteSpace(d[|d| - 3]) && d[|d| - 2] == UPPER_E && d[|d| - 1] == UPPER_I)
    ensures Clean(d)
  {
  }

  /** Some data reads back although it has an end in it: after "<ws>E", white space is not looked at. */
  lemma {:induction false} HiddenEndIsClean()
    ensures var d := [SP, UPPER_E, SP, UPPER_E, UPPER_I, SP, LBRACKET]; EndsAt(d, 2) && Clean(d)
  {
    var d := [SP, UPPER_E, SP, UPPER_E, UPPER_I, SP, LBRACKET];
    assert Live(d, 0) && !Live(d, 2) && Live(d, 5);
    assert Progress(d, 7) == 0;
  }
}
