/** Rebuilding the cross-reference table by scanning the file for "N G obj", with a window of the last 20 bytes. */
module RepairScan {
  import opened Options
  import opened Symbols
  import opened ParserSpec
  import opened XrefTables

  type File = seq<byte>

  datatype Class = Space | Digit

  predicate In(c: Class, b: byte) {
    if c.Space? then IsWhiteSpace(b) else IsDecimalDigit(b)
  }

  const LOWER_B: byte := 0x62
  const LOWER_J: byte := 0x6A
  const LOWER_O: byte := 0x6F

  // ----- Headers of objects in a file

  /** Going back from index i over bytes of a class: the index of the byte before them, -1 at the start of the file. */
  function Back(f: File, i: int, c: Class): (r: int)
    requires -1 <= i < |f|
    ensures -1 <= r <= i && (forall k :: r < k <= i ==> In(c, f[k])) && (r >= 0 ==> !In(c, f[r]))
    decreases i + 1
  {
    if i >= 0 && In(c, f[i]) then Back(f, i - 1, c) else i
  }

  /**
   A header "N G obj" whose last byte is at index end: N from start to before numEnd, G from genStart to before genEnd,
   both as long as they can be.
   */
  datatype Header = Header(start: nat, numEnd: nat, genStart: nat, genEnd: nat, end: nat)

  /** A run of digits: its last index, and the index before it. */
  datatype Run = Run(last: nat, before: int)

  /** Going back from index i over spaces, if there are any, and a run of digits. */
  function Number(f: File, i: int): (r: Option<Run>)
    requires -1 <= i < |f|
    ensures r.Some? ==> -1 <= r.value.before < r.value.last <= i
    ensures r.Some? ==> All(f, r.value.before + 1, r.value.last + 1, Digit) && forall k :: r.value.last < k <= i ==> In(Space, f[k])
    ensures r.Some? && r.value.before >= 0 ==> !IsDecimalDigit(f[r.value.before])
  {
    var j := Back(f, i, Space);
    if j < 0 || !IsDecimalDigit(f[j]) then None else Some(Run(j, Back(f, j, Digit)))
  }

  /** The header that ends at index p, if one does. */
  function HeaderAt(f: File, p: nat): (r: Option<Header>)
    requires p < |f|
    ensures r.Some? ==> IsHeader(f, r.value) && r.value.end == p
  {
    if !(p >= 3 && f[p] == LOWER_J && f[p - 1] == LOWER_B && f[p - 2] == LOWER_O && IsWhiteSpace(f[p - 3])) then None
    else
      match Number(f, p - 4)
      case None => None
      case Some(gen) =>
        if gen.before < 0 || !IsWhiteSpace(f[gen.before]) then None
        else
          match Number(f, gen.before)
          case None => None
          case Some(num) => Some(Header(num.before + 1, num.last + 1, gen.before + 1, gen.last + 1, p))
  }

  predicate All(f: File, i: nat, j: nat, c: Class) {
    i < j <= |f| && forall k :: i <= k < j ==> In(c, f[k])
  }

  /** What a header is. */
  predicate IsHeader(f: File, h: Header) {
    && h.end < |f| && h.genEnd + 3 <= h.end
    && All(f, h.start, h.numEnd, Digit) && All(f, h.numEnd, h.genStart, Space)
    && All(f, h.genStart, h.genEnd, Digit) && All(f, h.genEnd, h.end - 2, Space)
    && f[h.end - 2] == LOWER_O && f[h.end - 1] == LOWER_B && f[h.end] == LOWER_J
    && (h.start > 0 ==> !IsDecimalDigit(f[h.start - 1]))
  }

  lemma {:induction false} BackOver(f: File, i: nat, j: nat, k: nat, c: Class)
    requires All(f, i, j, c) && i <= k < j && (i > 0 ==> !In(c, f[i - 1]))
    ensures Back(f, k, c) == i - 1
  {
    if k > i { BackOver(f, i, j, k - 1, c); }
  }

  /** Every header is found from its last byte. */
  lemma {:induction false} HeaderIsFound(f: File, h: Header)
    requires IsHeader(f, h)
    ensures HeaderAt(f, h.end) == Some(h)
  {
    hide All, Back;
    LastOf(f, h.start, h.numEnd, Digit);
    LastOf(f, h.numEnd, h.genStart, Space);
    LastOf(f, h.genStart, h.genEnd, Digit);
    LastOf(f, h.genEnd, h.end - 2, Space);
    BackFrom(f, h.genEnd, h.end - 3, Space);
    BackOver(f, h.genStart, h.genEnd, h.genEnd - 1, Digit);
    BackOver(f, h.numEnd, h.genStart, h.genStart - 1, Space);
    BackOver(f, h.start, h.numEnd, h.numEnd - 1, Digit);
  }

  lemma {:induction false} LastOf(f: File, i: nat, j: nat, c: Class)
    requires All(f, i, j, c)
    ensures i < j <= |f| && In(c, f[j - 1])
  {
  }

  /** Going back from the byte before the last space of a header, which may be the only one. */
  lemma {:induction false} BackFrom(f: File, i: nat, k: nat, c: Class)
    requires All(f, i, k + 1, c) && i > 0 && !In(c, f[i - 1])
    ensures Back(f, k - 1, c) == i - 1
  {
    if k > i { BackOver(f, i, k + 1, k - 1, c); }
  }

  /** The scanner sees headers of at most 19 bytes. */
  predicate Short(h: Header) {
    h.end + 1 - h.start <= 19
  }

  /** The regular expression that reads the numbers does not accept NUL as white space. */
  predicate Readable(f: File, h: Header)
    requires IsHeader(f, h)
  {
    (forall k :: h.numEnd <= k < h.genStart ==> IsRegexSpace(f[k])) && (forall k :: h.genEnd <= k < h.end - 2 ==> IsRegexSpace(f[k]))
  }

  function NumOf(f: File, h: Header): nat
    requires IsHeader(f, h)
  {
    DigitsValue(f[h.start..h.numEnd])
  }

  function GenOf(f: File, h: Header): nat
    requires IsHeader(f, h)
  {
    DigitsValue(f[h.genStart..h.genEnd])
  }

  function EntryOf(f: File, h: Header): XrefObject
    requires IsHeader(f, h)
  {
    TableEntry(NumOf(f, h), h.start, GenOf(f, h))
  }

  predicate Seen(f: File, p: nat)
    requires p < |f|
  {
    HeaderAt(f, p).Some? && Short(HeaderAt(f, p).value)
  }

  /** The entries for the headers that end before index k, in order; none when one of them cannot be read. */
  function EntriesBefore(f: File, k: nat): Option<seq<XrefObject>>
    requires k <= |f|
  {
    if k == 0 then Some([])
    else
      match EntriesBefore(f, k - 1)
      case None => None
      case Some(xs) =>
        if !Seen(f, k - 1) then Some(xs)
        else if !Readable(f, HeaderAt(f, k - 1).value) then None
        else Some(xs + [EntryOf(f, HeaderAt(f, k - 1).value)])
  }

  // ----- The window

  type Window = w: seq<byte> | |w| == 20 witness seq(20, i => 0)

  /** The loops that go back in the window stop at index 0. */
  function Skip(w: Window, i: nat, c: Class): (r: nat)
    requires i < 20
    ensures r <= i
  {
    if In(c, w[i]) && i > 0 then Skip(w, i - 1, c) else i
  }

  /** Going back over spaces and a run of digits: where that ends, or 0. */
  function SkipNumber(w: Window, i: nat): (r: nat)
    requires i < 20
    ensures r <= i
  {
    var j := Skip(w, i, Space);
    if j == 0 || !IsDecimalDigit(w[j]) then 0 else Skip(w, j, Digit)
  }

  /** Where going back from "obj" ends, before the object number: 0 when no header is recognised. */
  function ScanBack(w: Window): (r: nat)
    ensures r < 20
  {
    if !(w[19] == LOWER_B && w[18] == LOWER_O && IsWhiteSpace(w[17])) then 0
    else
      var i := SkipNumber(w, 16);
      if i == 0 || !IsWhiteSpace(w[i]) then 0 else SkipNumber(w, i)
  }

  /**
   The window after k bytes: its last bytes are the last of the file, as far back as the last byte that was left out.
   Bytes are left out when "obj" turns out to be no header, so what is left out is a j after a b.
   */
  ghost predicate Mirrors(w: Window, f: File, k: nat, clean: nat) {
    && clean <= k <= |f|
    && (forall n :: 20 - clean <= n < 20 && n >= 0 ==> w[n] == f[k - 20 + n])
    && (clean < k ==> f[k - clean - 1] == LOWER_J && (clean < 20 ==> w[19 - clean] == LOWER_B))
    && (clean == k ==> forall n :: 0 <= n < 20 - clean ==> w[n] == 0)
    && (clean == 0 && k > 0 ==> ScanBack(w) == 0)
  }

  /** An index of the window and an index of the file that stand for the same byte, or are both out of reach. */
  ghost predicate Same(k: nat, clean: nat, i: nat, j: int) {
    && -1 <= j < k && i < 20
    && (if i > 0 then i == j - k + 20 && j >= k - clean - 1 else j <= k - 20 || j == -1)
  }

  lemma {:induction false} SkipsTheSame(w: Window, f: File, k: nat, clean: nat, i: nat, j: int, c: Class)
    requires Mirrors(w, f, k, clean) && Same(k, clean, i, j)
    ensures Same(k, clean, Skip(w, i, c), Back(f, j, c))
    ensures c.Digit? && i > 0 && Skip(w, i, c) == 0 ==> Back(f, j, c) <= k - 20
    decreases i
  {
    hide ScanBack;
    if i > 0 {
      if j >= k - clean {
        assert w[i] == f[j];
        if In(c, w[i]) { SkipsTheSame(w, f, k, clean, i - 1, j - 1, c); }
      } else if clean == k {
        assert w[i] == 0;
        if c.Space? { SkipsZeros(w, i); }
      } else {
        assert w[i] == LOWER_B;
      }
    }
  }

  lemma {:induction false} SkipsZeros(w: Window, i: nat)
    requires i < 20 && forall n :: 0 <= n <= i ==> w[n] == 0
    ensures Skip(w, i, Space) == 0
  {
    if i > 0 { SkipsZeros(w, i - 1); }
  }

  /** Whether the byte at a pair of indices is in a class looks the same, but for the zeros before the start of the file. */
  lemma {:induction false} LooksTheSame(w: Window, f: File, k: nat, clean: nat, i: nat, j: int, c: Class)
    requires Mirrors(w, f, k, clean) && Same(k, clean, i, j) && i > 0
    ensures j >= 0 ==> (In(c, w[i]) <==> In(c, f[j]))
    ensures j < 0 ==> w[i] == 0 && forall n :: 0 <= n <= i ==> w[n] == 0
  {
    hide ScanBack;
    if j >= k - clean {
      assert w[i] == f[j];
    } else if clean < k {
      assert w[i] == LOWER_B;
    }
  }

  /** Skipping a number in the window is skipping it in the file, unless it reaches back too far. */
  lemma {:induction false} NumbersTheSame(w: Window, f: File, k: nat, clean: nat, i: nat, j: int)
    requires Mirrors(w, f, k, clean) && k <= |f| && Same(k, clean, i, j)
    ensures SkipNumber(w, i) > 0 ==> Number(f, j).Some? && Same(k, clean, SkipNumber(w, i), Number(f, j).value.before)
    ensures SkipNumber(w, i) == 0 && Number(f, j).Some? ==> Number(f, j).value.before <= k - 20
  {
    hide Mirrors, Back, Skip;
    SkipsTheSame(w, f, k, clean, i, j, Space);
    var i1, j1 := Skip(w, i, Space), Back(f, j, Space);
    if i1 > 0 {
      LooksTheSame(w, f, k, clean, i1, j1, Digit);
      SkipsTheSame(w, f, k, clean, i1, j1, Digit);
    }
  }

  /** Despite the bytes left out, the window recognises exactly the headers of at most 19 bytes, and where they start. */
  lemma {:induction false} WindowSees(w: Window, f: File, k: nat, clean: nat)
    requires Mirrors(w, f, k, clean) && k < |f| && f[k] == LOWER_J
    ensures ScanBack(w) > 0 <==> Seen(f, k)
    ensures Seen(f, k) ==> ScanBack(w) == HeaderAt(f, k).value.start + 19 - k && HeaderAt(f, k).value.start >= k - clean
  {
    hide SkipNumber, Number, IsHeader;
    if clean >= 3 {
      assert w[17] == f[k - 3] && w[18] == f[k - 2] && w[19] == f[k - 1];
      if w[19] == LOWER_B && w[18] == LOWER_O && IsWhiteSpace(w[17]) { WindowSeesNumbers(w, f, k, clean); }
    } else if clean == k {
      if clean == 2 { NoNumberInZeros(w, 16); }
    } else if clean > 0 {
      assert w[19 - clean] == LOWER_B;
    }
  }

  /** The part of the header before "obj". */
  lemma {:induction false} WindowSeesNumbers(w: Window, f: File, k: nat, clean: nat)
    requires Mirrors(w, f, k, clean) && 3 <= clean <= k < |f|
    requires f[k] == LOWER_J && f[k - 1] == w[19] == LOWER_B && f[k - 2] == w[18] == LOWER_O && f[k - 3] == w[17] && IsWhiteSpace(w[17])
    ensures ScanBack(w) > 0 <==> Seen(f, k)
    ensures Seen(f, k) ==> ScanBack(w) == HeaderAt(f, k).value.start + 19 - k && HeaderAt(f, k).value.start >= k - clean
  {
    hide Mirrors, SkipNumber, Number, IsHeader;
    assert Same(k, clean, 16, k - 4);
    NumbersTheSame(w, f, k, clean, 16, k - 4);
    var i := SkipNumber(w, 16);
    if i > 0 {
      var j := Number(f, k - 4).value.before;
      LooksTheSame(w, f, k, clean, i, j, Space);
      NumbersTheSame(w, f, k, clean, i, j);
      if j < 0 && IsWhiteSpace(w[i]) { NoNumberInZeros(w, i); }
    }
  }

  lemma {:induction false} NoNumberInZeros(w: Window, i: nat)
    requires i < 20 && forall n :: 0 <= n <= i ==> w[n] == 0
    ensures SkipNumber(w, i) == 0
  {
    SkipsZeros(w, i);
  }

  lemma {:induction false} ByteAdded(w: Window, f: File, k: nat, clean: nat)
    requires Mirrors(w, f, k, clean) && k < |f|
    ensures Mirrors(w[1..] + [f[k]], f, k + 1, clean + 1)
  {
    hide ScanBack;
  }

  lemma {:induction false} ByteLeftOut(w: Window, f: File, k: nat, clean: nat)
    requires Mirrors(w, f, k, clean) && k < |f| && f[k] == LOWER_J && w[19] == LOWER_B && ScanBack(w) == 0
    ensures Mirrors(w, f, k + 1, 0)
  {
    hide ScanBack;
  }

  // ----- Reading the numbers of a header

  const OBJ: seq<byte> := [LOWER_O, LOWER_B, LOWER_J]

  /** The regular expression for headers, at the beginning of a text. */
  function MatchHeader(s: seq<byte>): Option<(nat, nat)> {
    var num := DigitRun(s);
    var t := s[|num|..];
    var u := SkipRegexSpaces(t);
    var gen := DigitRun(u);
    var v := u[|gen|..];
    var x := SkipRegexSpaces(v);
    if num == [] || |u| == |t| || gen == [] || |x| == |v| || !(OBJ <= x) then None else Some((DigitsValue(num), DigitsValue(gen)))
  }

  predicate AllSpaces(a: seq<byte>) {
    forall i :: 0 <= i < |a| ==> IsWhiteSpace(a[i])
  }

  lemma {:induction false} DigitRunIs(d: seq<byte>, rest: seq<byte>)
    requires AllDigits(d) && (rest != [] ==> !IsDecimalDigit(rest[0]))
    ensures DigitRun(d + rest) == d && (d + rest)[|d|..] == rest
  {
    if d == [] {
      assert d + rest == rest;
    } else {
      assert (d + rest)[1..] == d[1..] + rest;
      DigitRunIs(d[1..], rest);
    }
  }

  /** Skipping stops at the end of the white space, or at a NUL in it. */
  lemma {:induction false} SpacesSkipped(a: seq<byte>, rest: seq<byte>)
    requires AllSpaces(a)
    requires rest != [] && !IsWhiteSpace(rest[0])
    ensures (forall i :: 0 <= i < |a| ==> IsRegexSpace(a[i])) ==> SkipRegexSpaces(a + rest) == rest
    ensures !(forall i :: 0 <= i < |a| ==> IsRegexSpace(a[i])) ==> SkipRegexSpaces(a + rest) != [] && SkipRegexSpaces(a + rest)[0] == 0
  {
    if a == [] {
      assert a + rest == rest;
    } else {
      assert (a + rest)[1..] == a[1..] + rest;
      SpacesSkipped(a[1..], rest);
      if IsRegexSpace(a[0]) {
        assert (forall i :: 0 <= i < |a| ==> IsRegexSpace(a[i])) <==> (forall i :: 0 <= i < |a[1..]| ==> IsRegexSpace(a[1..][i]));
      }
    }
  }

  lemma {:induction false} MatchesPieces(num: seq<byte>, a: seq<byte>, gen: seq<byte>, b: seq<byte>)
    requires AllDigits(num) && AllDigits(gen) && num != [] && gen != [] && a != [] && b != []
    requires AllSpaces(a) && AllSpaces(b)
    ensures MatchHeader(num + (a + (gen + (b + OBJ)))) ==
      if (forall i :: 0 <= i < |a| ==> IsRegexSpace(a[i])) && (forall i :: 0 <= i < |b| ==> IsRegexSpace(b[i])) then
        Some((DigitsValue(num), DigitsValue(gen)))
      else None
  {
    hide DigitsValue, SkipRegexSpaces, DigitRun;
    var r2 := b + OBJ;
    var r1 := gen + r2;
    DigitRunIs(num, a + r1);
    SpacesSkipped(a, r1);
    DigitRunIs(gen, r2);
    SpacesSkipped(b, OBJ);
    if forall i :: 0 <= i < |a| ==> IsRegexSpace(a[i]) {
    } else {
      var u := SkipRegexSpaces(a + r1);
      DigitRunIs([], u);
      assert [] + u == u;
    }
    if !(forall i :: 0 <= i < |b| ==> IsRegexSpace(b[i])) {
      assert !(OBJ <= SkipRegexSpaces(r2));
    }
  }

  /** The text of a header gives its numbers, if its white space can be read. */
  lemma {:induction false} HeaderMatches(f: File, h: Header)
    requires IsHeader(f, h)
    ensures MatchHeader(f[h.start..h.end + 1]) == if Readable(f, h) then Some((NumOf(f, h), GenOf(f, h))) else None
  {
    hide MatchHeader, DigitsValue, IsHeader;
    HeaderPieces(f, h);
    MatchesPieces(f[h.start..h.numEnd], f[h.numEnd..h.genStart], f[h.genStart..h.genEnd], f[h.genEnd..h.end - 2]);
    SpacesReadable(f, h.numEnd, h.genStart);
    SpacesReadable(f, h.genEnd, h.end - 2);
  }

  lemma {:induction false} HeaderPieces(f: File, h: Header)
    requires IsHeader(f, h)
    ensures h.start < h.numEnd < h.genStart < h.genEnd < h.end - 2 < h.end < |f|
    ensures AllDigits(f[h.start..h.numEnd]) && AllDigits(f[h.genStart..h.genEnd])
    ensures AllSpaces(f[h.numEnd..h.genStart]) && AllSpaces(f[h.genEnd..h.end - 2])
    ensures f[h.start..h.end + 1] ==
      f[h.start..h.numEnd] + (f[h.numEnd..h.genStart] + (f[h.genStart..h.genEnd] + (f[h.genEnd..h.end - 2] + OBJ)))
  {
    hide All, AllDigits, AllSpaces;
    Piece(f, h.start, h.numEnd, Digit);
    Piece(f, h.numEnd, h.genStart, Space);
    Piece(f, h.genStart, h.genEnd, Digit);
    Piece(f, h.genEnd, h.end - 2, Space);
    LastThree(f, h.end);
    Join(f, h.genEnd, h.end - 2, h.end + 1);
    Join(f, h.genStart, h.genEnd, h.end + 1);
    Join(f, h.numEnd, h.genStart, h.end + 1);
    Join(f, h.start, h.numEnd, h.end + 1);
  }

  lemma {:induction false} Piece(f: File, i: nat, j: nat, c: Class)
    requires All(f, i, j, c)
    ensures i < j <= |f| && (if c.Digit? then AllDigits(f[i..j]) else AllSpaces(f[i..j]))
  {
    hide IsWhiteSpace, IsDecimalDigit;
  }

  lemma {:induction false} LastThree(f: File, end: nat)
    requires 2 <= end < |f| && f[end - 2] == LOWER_O && f[end - 1] == LOWER_B && f[end] == LOWER_J
    ensures f[end - 2..end + 1] == OBJ
  {
  }

  lemma Join(f: File, i: nat, j: nat, k: nat)
    requires i <= j <= k <= |f|
    ensures f[i..j] + f[j..k] == f[i..k]
  {
  }

  lemma {:induction false} SpacesReadable(f: File, i: nat, j: nat)
    requires i <= j <= |f|
    ensures (forall n :: 0 <= n < |f[i..j]| ==> IsRegexSpace(f[i..j][n])) <==> (forall k :: i <= k < j ==> IsRegexSpace(f[k]))
  {
    if forall n :: 0 <= n < |f[i..j]| ==> IsRegexSpace(f[i..j][n]) {
      forall k | i <= k < j ensures IsRegexSpace(f[k]) { assert f[k] == f[i..j][k - i]; }
    }
  }

  // ----- The scan

  /** The header that the window recognises, in the window. */
  lemma {:induction false} HeaderInWindow(w: Window, f: File, k: nat, clean: nat, h: Header)
    requires Mirrors(w, f, k, clean) && k < |f| && f[k] == LOWER_J && Seen(f, k) && HeaderAt(f, k) == Some(h)
    ensures IsHeader(f, h) && h.end == k && ScanBack(w) == h.start + 19 - k
    ensures w[ScanBack(w) + 1..] + [f[k]] == f[h.start..k + 1]
  {
    hide IsHeader, ScanBack;
    WindowSees(w, f, k, clean);
  }

  lemma {:induction false} NotSeen(w: Window, f: File, k: nat, clean: nat)
    requires Mirrors(w, f, k, clean) && k < |f|
    requires !(f[k] == LOWER_J && w[19] == LOWER_B && w[18] == LOWER_O && IsWhiteSpace(w[17]))
    ensures !Seen(f, k)
  {
    hide Mirrors, IsHeader;
    if f[k] == LOWER_J {
      WindowSees(w, f, k, clean);
    }
  }

  lemma {:induction false} AtTheStart(w: Window, f: File)
    requires w == seq(20, i => 0)
    ensures Mirrors(w, f, 0, 0) && EntriesBefore(f, 0) == Some([]) && MergeAll(map[], []) == map[]
  {
  }

  lemma {:induction false} NothingEntered(f: File, k: nat)
    requires k < |f| && !Seen(f, k) && EntriesBefore(f, k).Some?
    ensures EntriesBefore(f, k + 1) == EntriesBefore(f, k)
  {
  }

  /** A header that cannot be read ends the scan for good. */
  lemma {:induction false} NoneAfterNone(f: File, k: nat)
    requires k <= |f| && EntriesBefore(f, k).None?
    ensures EntriesBefore(f, |f|).None?
    decreases |f| - k
  {
    if k < |f| { NoneAfterNone(f, k + 1); }
  }

  method GoBack(w: Window, start: nat, c: Class) returns (i: nat)
    requires start < 20
    ensures i == Skip(w, start, c)
  {
    i := start;
    while In(c, w[i]) && i > 0
      invariant i < 20 && Skip(w, start, c) == Skip(w, i, c)
    {
      i := i - 1;
    }
  }

  /** Where a header that ends with the window and a j begins, less one; 0 when there is none. */
  method FindStart(w: Window) returns (i: nat)
    requires w[19] == LOWER_B && w[18] == LOWER_O && IsWhiteSpace(w[17])
    ensures i == ScanBack(w)
  {
    i := GoBack(w, 16, Space);
    if i == 0 || !IsDecimalDigit(w[i]) {
      return 0;
    }
    i := GoBack(w, i, Digit);
    if i == 0 || !IsWhiteSpace(w[i]) {
      return 0;
    }
    i := GoBack(w, i, Space);
    if i == 0 || !IsDecimalDigit(w[i]) {
      return 0;
    }
    i := GoBack(w, i, Digit);
  }

  class Parser {
    const file: File
    var repairsAttempted: bool

    constructor (file: File)
      ensures this.file == file && !repairsAttempted
    {
      this.file := file;
      repairsAttempted := false;
    }

    /** Reads the numbers of a header that ends at index k, and enters it unless a better entry is there. */
    method EnterHeader(last: Window, i: nat, k: nat, t: ObjectMap, ghost clean: nat) returns (ok: bool, table: ObjectMap)
      requires Mirrors(last, file, k, clean) && k < |file| && file[k] == LOWER_J && 0 < i == ScanBack(last)
      requires EntriesBefore(file, k).Some? && t == MergeAll(map[], EntriesBefore(file, k).value)
      ensures ok == EntriesBefore(file, k + 1).Some?
      ensures ok ==> table == MergeAll(map[], EntriesBefore(file, k + 1).value)
    {
      hide Mirrors, IsHeader, ScanBack, Readable, MatchHeader;
      WindowSees(last, file, k, clean);
      ghost var h := HeaderAt(file, k).value;
      HeaderInWindow(last, file, k, clean, h);
      HeaderMatches(file, h);
      table := t;
      var objOffset := k + 1 - (20 - i);
      match MatchHeader(last[i + 1..] + [file[k]])
      case None => ok := false;
      case Some((objNum, genNum)) =>
        ok := true;
        if objNum !in table || Generation(table[objNum]) < genNum {
          table := table[objNum := TableEntry(objNum, objOffset, genNum)];
        }
        MergeAllAppend(map[], EntriesBefore(file, k).value, [EntryOf(file, h)]);
    }

    /** repairRebuildXrefsTopDown; only the first attempt does anything. */
    method RepairRebuildXrefsTopDown() returns (ok: bool, table: ObjectMap)
      modifies this
      ensures repairsAttempted
      ensures ok <==> !old(repairsAttempted) && EntriesBefore(file, |file|).Some?
      ensures ok ==> table == MergeAll(map[], EntriesBefore(file, |file|).value)
    {
      hide *;
      ok, table := false, map[];
      if repairsAttempted {
        return;
      }
      repairsAttempted := true;
      var last: Window := seq(20, i => 0);
      ghost var clean: nat := 0;
      AtTheStart(last, file);
      for k := 0 to |file|
        invariant repairsAttempted && Mirrors(last, file, k, clean)
        invariant EntriesBefore(file, k).Some? && table == MergeAll(map[], EntriesBefore(file, k).value)
      {
        var b := file[k];
        if b == LOWER_J && last[19] == LOWER_B && last[18] == LOWER_O && IsWhiteSpace(last[17]) {
          WindowSees(last, file, k, clean);
          var i := FindStart(last);
          if i == 0 {
            ByteLeftOut(last, file, k, clean);
            NothingEntered(file, k);
            clean := 0;
            continue;
          }
          var good;
          good, table := EnterHeader(last, i, k, table, clean);
          if !good {
            NoneAfterNone(file, k + 1);
            return;
          }
        } else {
          NotSeen(last, file, k, clean);
          NothingEntered(file, k);
        }
        ByteAdded(last, file, k, clean);
        last := last[1..] + [b];
        clean := clean + 1;
      }
      ok := true;
    }
  }

  // ----- What the table holds

  ghost predicate FromHeader(f: File, x: XrefObject, h: Header) {
    IsHeader(f, h) && Short(h) && x == TableEntry(NumOf(f, h), h.start, GenOf(f, h))
  }

  /** Entry i is the one of header h: those before it are of headers that end before h. */
  ghost predicate EntryIsOf(f: File, k: nat, i: nat, h: Header) {
    && k <= |f| && EntriesBefore(f, k).Some? && i < |EntriesBefore(f, k).value|
    && FromHeader(f, EntriesBefore(f, k).value[i], h) && h.end < k
    && EntriesBefore(f, h.end).Some? && i == |EntriesBefore(f, h.end).value|
  }

  /** Every entry comes from a header. */
  lemma {:induction false} EntriesComeFromHeaders(f: File, k: nat, i: nat) returns (h: Header)
    requires k <= |f| && EntriesBefore(f, k).Some? && i < |EntriesBefore(f, k).value|
    ensures EntryIsOf(f, k, i, h)
  {
    hide IsHeader, Readable, Number, HeaderAt, NumOf, GenOf;
    if Seen(f, k - 1) && i == |EntriesBefore(f, k - 1).value| {
      h := HeaderAt(f, k - 1).value;
    } else {
      h := EntriesComeFromHeaders(f, k - 1, i);
    }
  }

  /** Every header of at most 19 bytes has an entry. */
  lemma {:induction false} HeadersHaveEntries(f: File, k: nat, h: Header) returns (i: nat)
    requires k <= |f| && EntriesBefore(f, k).Some? && IsHeader(f, h) && Short(h) && h.end < k
    ensures EntryIsOf(f, k, i, h)
  {
    hide IsHeader, Readable, Number, HeaderAt, NumOf, GenOf;
    if h.end == k - 1 {
      HeaderIsFound(f, h);
      i := |EntriesBefore(f, k - 1).value|;
    } else {
      i := HeadersHaveEntries(f, k - 1, h);
    }
  }

  lemma {:induction false} MoreEntries(f: File, k: nat, m: nat)
    requires k <= m <= |f| && EntriesBefore(f, m).Some?
    ensures EntriesBefore(f, k).Some? && |EntriesBefore(f, k).value| <= |EntriesBefore(f, m).value|
  {
    hide EntriesBefore;
    if k < m {
      EntriesGrow(f, m);
      MoreEntries(f, k, m - 1);
    }
  }

  lemma {:induction false} EntriesGrow(f: File, k: nat)
    requires 0 < k <= |f| && EntriesBefore(f, k).Some?
    ensures EntriesBefore(f, k - 1).Some? && |EntriesBefore(f, k - 1).value| <= |EntriesBefore(f, k).value|
  {
    hide Seen, Readable, HeaderAt, EntryOf;
  }

  /** Of two headers, the one that ends first starts first. */
  lemma {:induction false} EarlierStart(f: File, g: Header, h: Header)
    requires IsHeader(f, g) && IsHeader(f, h) && g.end < h.end
    ensures g.start < h.start
  {
    assert !In(Digit, f[g.end]) && !In(Space, f[g.end]);
  }

  /** Entries are in the order of their headers. */
  lemma {:induction false} LaterEntry(f: File, i: nat, g: Header, j: nat, h: Header)
    requires EntryIsOf(f, |f|, i, g) && EntryIsOf(f, |f|, j, h) && g.end < h.end
    ensures i < j
  {
    hide IsHeader, Readable, Number, HeaderAt, NumOf, GenOf;
    HeaderIsFound(f, g);
    MoreEntries(f, g.end + 1, h.end);
  }

  /**
   When the scan succeeds: every entry is of a header with its number, and its offset is the header's first byte; and
   every header of at most 19 bytes has an entry of its number, of a greater generation, or of the same and not later.
   */
  lemma {:induction false} TableIsOfHeaders(f: File, t: ObjectMap, n: int)
    requires EntriesBefore(f, |f|).Some? && t == MergeAll(map[], EntriesBefore(f, |f|).value)
    ensures n in t ==> exists h :: FromHeader(f, t[n], h) && NumOf(f, h) == n
    ensures forall h :: IsHeader(f, h) && Short(h) && NumOf(f, h) == n ==>
      n in t && t[n].TableEntry? && (t[n].gen > GenOf(f, h) || (t[n].gen == GenOf(f, h) && t[n].offset <= h.start))
  {
    hide IsHeader, NumOf, GenOf, EntriesBefore, MergeAll, Short;
    var xs := EntriesBefore(f, |f|).value;
    TableHoldsBest(xs, n);
    if n in t {
      var i :| 0 <= i < |xs| && xs[i].objNum == n && IsBest(xs, i) && t[n] == xs[i];
      var g := EntriesComeFromHeaders(f, |f|, i);
      forall h | IsHeader(f, h) && Short(h) && NumOf(f, h) == n
        ensures GenOf(f, g) > GenOf(f, h) || (GenOf(f, g) == GenOf(f, h) && g.start <= h.start)
      {
        BestIsFirst(f, i, g, h);
      }
    }
    forall h | IsHeader(f, h) && Short(h) && NumOf(f, h) == n ensures n in t {
      EndsInFile(f, h);
      var j := HeadersHaveEntries(f, |f|, h);
    }
  }

  lemma {:induction false} EndsInFile(f: File, h: Header)
    requires IsHeader(f, h)
    ensures h.end < |f|
  {
  }

  lemma {:induction false} BestIsFirst(f: File, i: nat, g: Header, h: Header)
    requires EntryIsOf(f, |f|, i, g) && IsBest(EntriesBefore(f, |f|).value, i)
    requires IsHeader(f, h) && Short(h) && NumOf(f, h) == NumOf(f, g)
    ensures GenOf(f, g) > GenOf(f, h) || (GenOf(f, g) == GenOf(f, h) && g.start <= h.start)
  {
    hide IsHeader, NumOf, GenOf, EntriesBefore, Short;
    var xs := EntriesBefore(f, |f|).value;
    EndsInFile(f, h);
    var j := HeadersHaveEntries(f, |f|, h);
    assert xs[j].objNum == xs[i].objNum && Generation(xs[j]) <= Generation(xs[i]);
    if g.end < h.end {
      EarlierStart(f, g, h);
    } else if g.end == h.end {
      HeaderIsFound(f, g);
      HeaderIsFound(f, h);
    } else {
      LaterEntry(f, j, h, i, g);
    }
  }
}
