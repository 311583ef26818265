/** Which line or row of a cross-reference section speaks of which object, by its place among the others, and which sections are read. */
module XrefLines {
  import opened XrefTables

  // ----- The lines of a table

  /** Line j is the last subsection header before line i. */
  ghost predicate Heads(lines: seq<Line>, j: nat, i: nat) {
    j < i <= |lines| && lines[j].Subsection? && forall k :: j < k < i ==> !lines[k].Subsection?
  }

  /** The entry lines between two lines, of free objects or not. */
  ghost function EntryLines(lines: seq<Line>, j: nat, i: nat): set<nat> {
    set k: nat | j < k < i && k < |lines| && lines[k].EntryLine?
  }

  /** Nothing before line i ends the section: no trailer, no end of the file, and no entry without a header. */
  ghost predicate Reached(lines: seq<Line>, i: nat) {
    i <= |lines| && forall k :: 0 <= k < i ==> Passed(lines, k)
  }

  ghost predicate Passed(lines: seq<Line>, k: nat)
    requires k < |lines|
  {
    !lines[k].Trailer? && !lines[k].EndOfFile? && (lines[k].EntryLine? ==> exists j: nat :: Heads(lines, j, k))
  }

  /** Line i says where an object is: its number is that of the header, plus one for each entry line in between. */
  ghost predicate Gives(lines: seq<Line>, i: nat, x: XrefObject) {
    && i < |lines| && Reached(lines, i) && lines[i].EntryLine? && lines[i].inUse && lines[i].offset > 1
    && exists j: nat :: Heads(lines, j, i) && x == TableEntry(lines[j].first + |EntryLines(lines, j, i)|, lines[i].offset, lines[i].gen)
  }

  ghost predicate Ascending(at: seq<nat>, i: nat) {
    (forall n :: 0 <= n < |at| ==> i <= at[n]) && forall m, n :: 0 <= m < n < |at| ==> at[m] < at[n]
  }

  lemma {:induction false} AscendingFrom(at: seq<nat>, i: nat)
    requires Ascending(at, i + 1)
    ensures Ascending([i] + at, i) && Ascending(at, i)
  {
    var at' := [i] + at;
    assert forall n :: 0 < n < |at'| ==> at'[n] == at[n - 1];
  }

  /** The lines from i on that give an entry, in order, and the entries they give. */
  ghost predicate Listed(lines: seq<Line>, i: nat, at: seq<nat>, xs: seq<XrefObject>) {
    && |at| == |xs| && Ascending(at, i)
    && (forall n :: 0 <= n < |at| ==> Gives(lines, at[n], xs[n]))
    && (forall k, x :: k >= i && Gives(lines, k, x) ==> k in at)
  }

  /** What the loop knows before line i. */
  ghost predicate Counted(lines: seq<Line>, i: nat, cur: int, inside: bool) {
    && Reached(lines, i)
    && (inside <==> exists j: nat :: Heads(lines, j, i))
    && (forall j: nat :: Heads(lines, j, i) ==> cur == lines[j].first + |EntryLines(lines, j, i)|)
  }

  lemma {:induction false} OneMoreLine(lines: seq<Line>, j: nat, i: nat)
    requires j < i < |lines|
    ensures EntryLines(lines, j, i + 1) == if lines[i].EntryLine? then EntryLines(lines, j, i) + {i} else EntryLines(lines, j, i)
    ensures |EntryLines(lines, j, i + 1)| == |EntryLines(lines, j, i)| + if lines[i].EntryLine? then 1 else 0
  {
    assert i !in EntryLines(lines, j, i);
  }

  lemma {:induction false} HeadsNext(lines: seq<Line>, j: nat, i: nat)
    requires i < |lines|
    ensures Heads(lines, j, i + 1) <==> if lines[i].Subsection? then j == i else Heads(lines, j, i)
  {
  }

  lemma {:induction false} CountHeader(lines: seq<Line>, i: nat)
    requires i < |lines| && lines[i].Subsection? && Reached(lines, i)
    ensures Counted(lines, i + 1, lines[i].first, true)
  {
    HeadsNext(lines, i, i);
    assert EntryLines(lines, i, i + 1) == {};
    forall j: nat | Heads(lines, j, i + 1) ensures lines[i].first == lines[j].first + |EntryLines(lines, j, i + 1)| { HeadsNext(lines, j, i); }
    assert Passed(lines, i);
  }

  lemma {:induction false} CountLine(lines: seq<Line>, i: nat, cur: int, inside: bool)
    requires i < |lines| && Counted(lines, i, cur, inside) && ((lines[i].EntryLine? && inside) || lines[i].Other?)
    ensures Counted(lines, i + 1, if lines[i].EntryLine? then cur + 1 else cur, inside)
  {
    hide EntryLines, Heads;
    var next := i + 1;
    if inside {
      var j: nat :| Heads(lines, j, i);
      HeadsNext(lines, j, i);
      assert Heads(lines, j, next);
    }
    forall j: nat | Heads(lines, j, next)
      ensures Heads(lines, j, i)
      ensures |EntryLines(lines, j, next)| == |EntryLines(lines, j, i)| + if lines[i].EntryLine? then 1 else 0
    {
      HeadsNext(lines, j, i);
      HeadsBefore(lines, j, i);
      OneMoreLine(lines, j, i);
    }
    assert Passed(lines, i);
  }

  lemma HeadsBefore(lines: seq<Line>, j: nat, i: nat)
    requires Heads(lines, j, i)
    ensures j < i <= |lines|
  {
  }

  /** A line that is not passed ends the list. */
  lemma {:induction false} NothingAfter(lines: seq<Line>, i: nat)
    requires i >= |lines| || !Passed(lines, i)
    ensures Listed(lines, i, [], [])
  {
    hide Heads, Passed;
    forall k, x | k >= i && Gives(lines, k, x) ensures false {
      if k == i {
        var j: nat :| Heads(lines, j, i);
        PassedEntry(lines, j, i);
      }
    }
  }

  lemma PassedEntry(lines: seq<Line>, j: nat, i: nat)
    requires i < |lines| && lines[i].EntryLine? && Heads(lines, j, i)
    ensures Passed(lines, i)
  {
  }

  lemma {:induction false} NoEntryHere(lines: seq<Line>, i: nat, at: seq<nat>, xs: seq<XrefObject>)
    requires i < |lines| && Listed(lines, i + 1, at, xs)
    requires !lines[i].EntryLine? || !lines[i].inUse || lines[i].offset <= 1
    ensures Listed(lines, i, at, xs)
  {
    forall k, x | k >= i && Gives(lines, k, x) ensures k in at { assert k != i; }
  }

  lemma {:induction false} EntryHere(lines: seq<Line>, i: nat, at: seq<nat>, xs: seq<XrefObject>, x: XrefObject)
    requires Listed(lines, i + 1, at, xs) && Gives(lines, i, x)
    ensures Listed(lines, i, [i] + at, [x] + xs)
  {
    hide Gives, Ascending;
    AscendingFrom(at, i);
    var at', xs' := [i] + at, [x] + xs;
    forall n | 0 <= n < |at'| ensures Gives(lines, at'[n], xs'[n]) {
      if n > 0 { assert at'[n] == at[n - 1] && xs'[n] == xs[n - 1]; }
    }
    forall k, y | k >= i && Gives(lines, k, y) ensures k in at' {
      if k == i { assert at'[0] == i; }
    }
  }

  lemma {:induction false} LineGives(lines: seq<Line>, i: nat, cur: int)
    requires i < |lines| && Counted(lines, i, cur, true) && lines[i].EntryLine? && lines[i].inUse && lines[i].offset > 1
    ensures Gives(lines, i, TableEntry(cur, lines[i].offset, lines[i].gen))
  {
    var j: nat :| Heads(lines, j, i);
  }

  lemma {:induction false} LinesFrom(lines: seq<Line>, i: nat, cur: int, inside: bool) returns (at: seq<nat>)
    requires i <= |lines| && Counted(lines, i, cur, inside)
    ensures Listed(lines, i, at, TableContents(lines[i..], cur, inside).entries)
    decreases |lines| - i
  {
    hide Counted, Listed, Gives, Heads, Reached;
    if i == |lines| {
      NothingAfter(lines, i);
      return [];
    }
    assert lines[i..][0] == lines[i] && lines[i..][1..] == lines[i + 1..];
    match lines[i]
    case Subsection(first) =>
      CountedReached(lines, i, cur, inside);
      CountHeader(lines, i);
      at := LinesFrom(lines, i + 1, first, true);
      NoEntryHere(lines, i, at, TableContents(lines[i + 1..], first, true).entries);
    case EntryLine(offset, gen, inUse) =>
      if !inside {
        NotPassed(lines, i, cur);
        NothingAfter(lines, i);
        return [];
      }
      CountLine(lines, i, cur, inside);
      at := LinesFrom(lines, i + 1, cur + 1, true);
      var xs := TableContents(lines[i + 1..], cur + 1, true).entries;
      if inUse && offset > 1 {
        LineGives(lines, i, cur);
        EntryHere(lines, i, at, xs, TableEntry(cur, offset, gen));
        at := [i] + at;
      } else {
        NoEntryHere(lines, i, at, xs);
        assert [] + xs == xs;
      }
    case Trailer(_, _, _) =>
      NothingAfter(lines, i);
      return [];
    case EndOfFile =>
      NothingAfter(lines, i);
      return [];
    case Other =>
      CountLine(lines, i, cur, inside);
      at := LinesFrom(lines, i + 1, cur, inside);
      NoEntryHere(lines, i, at, TableContents(lines[i + 1..], cur, inside).entries);
  }

  lemma CountedReached(lines: seq<Line>, i: nat, cur: int, inside: bool)
    requires Counted(lines, i, cur, inside)
    ensures Reached(lines, i)
  {
  }

  lemma NotPassed(lines: seq<Line>, i: nat, cur: int)
    requires i < |lines| && Counted(lines, i, cur, false) && lines[i].EntryLine?
    ensures !Passed(lines, i)
  {
  }

  /** The entries of a table are exactly what its lines give, in the order of the lines. */
  lemma {:induction false} EntriesAreOfLines(lines: seq<Line>) returns (at: seq<nat>)
    ensures Listed(lines, 0, at, TableContents(lines, -1, false).entries)
  {
    assert lines[0..] == lines;
    at := LinesFrom(lines, 0, -1, false);
  }

  // ----- The trailer

  /** Line k is the trailer that ends the section. */
  ghost predicate IsTrailer(lines: seq<Line>, k: nat) {
    k < |lines| && Reached(lines, k) && lines[k].Trailer? && lines[k].readable
  }

  ghost predicate TrailerFrom(lines: seq<Line>, i: nat, c: Contents) {
    && (c.complete ==> exists k :: k >= i && IsTrailer(lines, k) && c.prev == lines[k].prev && c.xrefStm == lines[k].xrefStm)
    && (forall k: nat :: k >= i && IsTrailer(lines, k) ==> c.complete)
  }

  lemma NoTrailerAfter(lines: seq<Line>, i: nat)
    requires i >= |lines| || (!Passed(lines, i) && !(lines[i].Trailer? && lines[i].readable))
    ensures TrailerFrom(lines, i, Unreadable)
  {
    hide Passed;
  }

  lemma {:induction false} TrailerOf(lines: seq<Line>, i: nat, cur: int, inside: bool)
    requires i <= |lines| && Counted(lines, i, cur, inside)
    ensures TrailerFrom(lines, i, TableContents(lines[i..], cur, inside))
    decreases |lines| - i
  {
    hide Counted, Heads, Reached, Passed;
    CountedReached(lines, i, cur, inside);
    if i == |lines| {
      NoTrailerAfter(lines, i);
      return;
    }
    assert lines[i..][0] == lines[i] && lines[i..][1..] == lines[i + 1..];
    match lines[i]
    case Subsection(first) =>
      CountHeader(lines, i);
      TrailerOf(lines, i + 1, first, true);
    case EntryLine(_, _, _) =>
      if !inside {
        NotPassed(lines, i, cur);
        NoTrailerAfter(lines, i);
      } else {
        CountLine(lines, i, cur, inside);
        TrailerOf(lines, i + 1, cur + 1, true);
      }
    case Trailer(_, _, _) =>
      TrailerStops(lines, i);
    case EndOfFile =>
      EndStops(lines, i);
      NoTrailerAfter(lines, i);
    case Other =>
      CountLine(lines, i, cur, inside);
      TrailerOf(lines, i + 1, cur, inside);
  }

  lemma EndStops(lines: seq<Line>, i: nat)
    requires i < |lines| && lines[i].EndOfFile?
    ensures !Passed(lines, i)
  {
  }

  lemma TrailerStops(lines: seq<Line>, i: nat)
    requires i < |lines| && lines[i].Trailer?
    ensures forall k :: k > i ==> !IsTrailer(lines, k)
  {
    assert !Passed(lines, i);
  }

  /** A table is complete if and only if a readable trailer is reached; its pointers are those of that trailer. */
  lemma {:induction false} TrailerIsReached(lines: seq<Line>)
    ensures TrailerFrom(lines, 0, TableContents(lines, -1, false))
  {
    assert lines[0..] == lines;
    TrailerOf(lines, 0, -1, false);
  }

  // ----- The rows of a stream

  /** What row k of a stream gives; a type that is not given counts as 1. */
  ghost predicate RowGives(s: Section, xsOffset: int, k: nat, x: XrefObject)
    requires s.Stream?
  {
    && k < |s.items| && k < |s.indexList|
    && var row := s.items[k];
      || ((!s.typesGiven || row.ftype == 1) && row.n2 != xsOffset && x == TableEntry(s.indexList[k], row.n2, row.n3))
      || ((!s.typesGiven || row.ftype == 1) && row.n2 == xsOffset && x == TableEntry(s.ownNumber, row.n2, row.n3))
      || (s.typesGiven && row.ftype == 2 && x == Compressed(s.indexList[k], row.n2, row.n3))
  }

  ghost predicate RowsListed(s: Section, xsOffset: int, i: nat, at: seq<nat>, xs: seq<XrefObject>)
    requires s.Stream?
  {
    && |at| == |xs| && Ascending(at, i)
    && (forall n :: 0 <= n < |at| ==> RowGives(s, xsOffset, at[n], xs[n]))
    && (forall k, x :: k >= i && RowGives(s, xsOffset, k, x) ==> k in at)
  }

  lemma {:induction false} RowHere(s: Section, xsOffset: int, i: nat, at: seq<nat>, xs: seq<XrefObject>)
    requires s.Stream? && i < |s.items| && i < |s.indexList| && RowsListed(s, xsOffset, i + 1, at, xs)
    ensures var xs' := ItemEntry(s.indexList[i], s, xsOffset, s.items[i]);
      RowsListed(s, xsOffset, i, if xs' == [] then at else [i] + at, xs' + xs)
  {
    hide RowsListed, RowGives, ItemEntry;
    var here := ItemEntry(s.indexList[i], s, xsOffset, s.items[i]);
    ItemGives(s, xsOffset, i);
    if here == [] {
      assert here + xs == xs;
      NoRowHere(s, xsOffset, i, at, xs);
    } else {
      RowBefore(s, xsOffset, i, at, xs, here[0]);
      assert here == [here[0]];
    }
  }

  lemma {:induction false} ItemGives(s: Section, xsOffset: int, i: nat)
    requires s.Stream? && i < |s.items| && i < |s.indexList|
    ensures var here := ItemEntry(s.indexList[i], s, xsOffset, s.items[i]);
      |here| <= 1 && (here == [] ==> forall x :: !RowGives(s, xsOffset, i, x)) && (here != [] ==> RowGives(s, xsOffset, i, here[0]))
  {
  }

  lemma {:induction false} NoRowHere(s: Section, xsOffset: int, i: nat, at: seq<nat>, xs: seq<XrefObject>)
    requires s.Stream? && RowsListed(s, xsOffset, i + 1, at, xs) && forall x :: !RowGives(s, xsOffset, i, x)
    ensures RowsListed(s, xsOffset, i, at, xs)
  {
    hide RowGives;
    forall k, x | k >= i && RowGives(s, xsOffset, k, x) ensures k in at { assert k != i; }
  }

  lemma {:induction false} RowBefore(s: Section, xsOffset: int, i: nat, at: seq<nat>, xs: seq<XrefObject>, x: XrefObject)
    requires s.Stream? && RowsListed(s, xsOffset, i + 1, at, xs) && RowGives(s, xsOffset, i, x)
    ensures RowsListed(s, xsOffset, i, [i] + at, [x] + xs)
  {
    hide RowGives, Ascending;
    AscendingFrom(at, i);
    var at', xs' := [i] + at, [x] + xs;
    forall n | 0 <= n < |at'| ensures RowGives(s, xsOffset, at'[n], xs'[n]) {
      if n > 0 { assert at'[n] == at[n - 1] && xs'[n] == xs[n - 1]; }
    }
    forall k, y | k >= i && RowGives(s, xsOffset, k, y) ensures k in at' {
      if k == i { assert at'[0] == i; }
    }
  }

  /** The entries of a stream are exactly what its rows give, in order, each row to the number at its place in the index. */
  lemma {:induction false} EntriesAreOfRows(s: Section, xsOffset: int, i: nat) returns (at: seq<nat>)
    requires s.Stream? && i <= |s.items|
    ensures RowsListed(s, xsOffset, i, at, StreamEntries(s, xsOffset, i))
    decreases |s.items| - i
  {
    hide RowGives, ItemEntry;
    if i == |s.items| || i >= |s.indexList| {
      NoRows(s, xsOffset, i);
      return [];
    }
    at := EntriesAreOfRows(s, xsOffset, i + 1);
    RowHere(s, xsOffset, i, at, StreamEntries(s, xsOffset, i + 1));
    at := if ItemEntry(s.indexList[i], s, xsOffset, s.items[i]) == [] then at else [i] + at;
  }

  lemma NoRows(s: Section, xsOffset: int, i: nat)
    requires s.Stream? && (i >= |s.items| || i >= |s.indexList|)
    ensures RowsListed(s, xsOffset, i, [], [])
  {
  }

  // ----- The sections that are read

  /** Each offset after the first is the Prev of the one before it. */
  ghost predicate Chained(f: File, offs: seq<int>) {
    forall n :: 0 <= n < |offs| - 1 ==> ContentsAt(f, offs[n]).complete && ContentsAt(f, offs[n]).prev == Offset(offs[n + 1])
  }

  /** Where the chain ends: a section that is not complete, has no Prev or a bad one, or points back into the chain. */
  ghost predicate EndsAt(f: File, last: int, before: seq<int>) {
    var c := ContentsAt(f, last);
    !c.complete || !c.prev.Offset? || c.prev.off in before
  }

  lemma {:induction false} WalkIsChain(f: File, off: int, prevList: seq<int>)
    ensures var v := WalkFrom(f, off, prevList).visited;
      && v != [] && v[0] == off && Chained(f, v) && EndsAt(f, v[|v| - 1], prevList + v[1..])
      && (forall n :: 0 < n < |v| ==> v[n] !in prevList)
      && (forall m, n :: 0 < m < n < |v| ==> v[m] != v[n])
    decreases Targets(f) - SeqSet(prevList)
  {
    var c, v := ContentsAt(f, off), WalkFrom(f, off, prevList).visited;
    if c.complete && c.prev.Offset? && c.prev.off !in prevList {
      NewTarget(f, off, prevList);
      hide WalkFrom, ContentsAt;
      var longer := prevList + [c.prev.off];
      WalkIsChain(f, c.prev.off, longer);
      ChainStep(f, off, prevList, WalkFrom(f, c.prev.off, longer).visited, v);
    } else {
      assert v == [off] && prevList + v[1..] == prevList;
    }
  }

  lemma {:induction false} ChainStep(f: File, off: int, prevList: seq<int>, rest: seq<int>, v: seq<int>)
    requires ContentsAt(f, off).complete && rest != [] && ContentsAt(f, off).prev == Offset(rest[0]) && v == [off] + rest
    requires Chained(f, rest) && EndsAt(f, rest[|rest| - 1], prevList + [rest[0]] + rest[1..])
    requires rest[0] !in prevList && (forall n :: 0 < n < |rest| ==> rest[n] !in prevList + [rest[0]])
    requires forall m, n :: 0 < m < n < |rest| ==> rest[m] != rest[n]
    ensures Chained(f, v) && EndsAt(f, v[|v| - 1], prevList + v[1..])
    ensures forall n :: 0 < n < |v| ==> v[n] !in prevList
    ensures forall m, n :: 0 < m < n < |v| ==> v[m] != v[n]
  {
    hide ContentsAt;
    assert v[1..] == rest && prevList + [rest[0]] + rest[1..] == prevList + rest;
    assert forall n :: 0 < n < |v| ==> v[n] == rest[n - 1];
    forall m, n | 0 < m < n < |v| ensures v[m] != v[n] {
      assert v[n] == rest[n - 1];
      if m == 1 { assert rest[n - 1] !in prevList + [rest[0]] && rest[0] in prevList + [rest[0]]; }
    }
  }

  /** What is pointed to is a stream that is read to its end. */
  ghost predicate StreamIsRead(f: File, p: Pointer) {
    p.Offset? && p.off in f && f[p.off].Stream? && ContentsAt(f, p.off).complete
  }

  lemma {:induction false} FailsIff(f: File, start: int)
    ensures var l, c := LoadPlan(f, start), ContentsAt(f, start);
      && FirstSections(f, start) != [] && FirstSections(f, start) <= l.visited && FirstSections(f, start)[0] == start
      && (l.outcome == Failed <==> !(c.complete && (c.xrefStm.Absent? || StreamIsRead(f, c.xrefStm))))
  {
    hide WalkFrom, SectionContents;
  }

  lemma {:induction false} NotFailed(f: File, start: int)
    requires LoadPlan(f, start).outcome != Failed
    ensures var l, c, first := LoadPlan(f, start), ContentsAt(f, start), FirstSections(f, start);
      && first == (if c.xrefStm.Offset? then [start, c.xrefStm.off] else [start])
      && l.visited == first + if c.prev.Offset? then WalkFrom(f, c.prev.off, []).visited else []
  {
    hide WalkFrom, SectionContents;
  }

  /**
   The sections are read from the newest to the oldest: the one at start, the stream that its trailer names, and then the
   section of each Prev, until there is none or it was named before.
   */
  lemma {:induction false} ReadInOrder(f: File, start: int)
    ensures var l, c := LoadPlan(f, start), ContentsAt(f, start);
      var v := l.visited;
      && v != [] && v[0] == start
      && (l.outcome == Failed <==> !(c.complete && (c.xrefStm.Absent? || StreamIsRead(f, c.xrefStm))))
      && (l.outcome != Failed && c.xrefStm.Offset? ==> |v| > 1 && v[1] == c.xrefStm.off)
      && (l.outcome != Failed ==> OlderInOrder(f, c.prev, v[if c.xrefStm.Offset? then 2 else 1..]))
  {
    hide WalkFrom, ContentsAt, LoadPlan, FirstSections, StreamIsRead, OlderInOrder;
    FailsIff(f, start);
    var v, c, first := LoadPlan(f, start).visited, ContentsAt(f, start), FirstSections(f, start);
    assert v[0] == first[0];
    if LoadPlan(f, start).outcome != Failed {
      NotFailed(f, start);
      OlderAre(f, c.prev);
      assert v[|first|..] == if c.prev.Offset? then WalkFrom(f, c.prev.off, []).visited else [];
      assert c.xrefStm.Offset? ==> v[1] == first[1];
    }
  }

  /** The offsets of the sections that are read because of Prev pointers. */
  ghost predicate OlderInOrder(f: File, prev: Pointer, older: seq<int>) {
    if prev.Offset? then
      && older != [] && older[0] == prev.off && Chained(f, older) && EndsAt(f, older[|older| - 1], older[1..])
      && forall m, n :: 0 < m < n < |older| ==> older[m] != older[n]
    else older == []
  }

  lemma {:induction false} OlderAre(f: File, prev: Pointer)
    ensures OlderInOrder(f, prev, if prev.Offset? then WalkFrom(f, prev.off, []).visited else [])
  {
    hide WalkFrom, Chained, EndsAt;
    if prev.Offset? {
      WalkIsChain(f, prev.off, []);
      var w := WalkFrom(f, prev.off, []).visited;
      assert [] + w[1..] == w[1..];
    }
  }
}
