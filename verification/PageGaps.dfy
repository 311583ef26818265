/** How the cells on a page lie to one another: each row begins where the one before it ends. */
module PageGaps {
  import opened Options
  import opened TableGrid
  import opened Pagination

  function Total(h: seq<real>): real {
    if h == [] then 0.0 else h[0] + Total(h[1..])
  }

  lemma {:induction false} TotalJoins(a: seq<real>, b: seq<real>)
    ensures Total(a + b) == Total(a) + Total(b)
  {
    if a == [] {
      assert a + b == b;
    } else {
      assert (a + b)[1..] == a[1..] + b;
      TotalJoins(a[1..], b);
    }
  }

  lemma {:induction false} HeightIsTotal(h: seq<real>, i: nat, j: nat)
    requires i <= j <= |h|
    ensures Height(h, i, j) == Total(h[i..j])
  {
    if i < j {
      HeightIsTotal(h, i, j - 1);
      TotalJoins(h[i..j - 1], [h[j - 1]]);
      assert h[i..j] == h[i..j - 1] + [h[j - 1]];
      assert [h[j - 1]][1..] == [];
    }
  }

  lemma {:induction false} HeightJoins(h: seq<real>, i: nat, j: nat, k: nat)
    requires i <= j <= k <= |h|
    ensures Height(h, i, k) == Height(h, i, j) + Total(h[j..k])
  {
    HeightIsTotal(h, i, k);
    HeightIsTotal(h, i, j);
    TotalJoins(h[i..j], h[j..k]);
    assert h[i..k] == h[i..j] + h[j..k];
  }

  // ----- The draws of a page, one by one

  /** How many header cells a page begins with. */
  function HeaderCells(l: Layout, p: nat): nat {
    if p > 0 && 0 <= l.first <= l.last then l.last - l.first + 1 else 0
  }

  lemma {:induction false} MainRunDraws(l: Layout, p: nat, s: int, i: nat, j: nat)
    requires i <= j
    ensures |MainRun(l, p, s, i, j)| == j - i
    ensures forall k :: 0 <= k < j - i ==> MainRun(l, p, s, i, j)[k] == Draw(i + k, Position(l, p, s, i + k), RowHeight(l, i + k))
  {
    hide Position, RowHeight;
    if i < j { MainRunDraws(l, p, s, i, j - 1); }
  }

  /** Where a header cell is drawn. */
  function HeaderPosition(l: Layout, i: nat): real
    requires i < |l.rows|
  {
    l.c.top + Height(l.heights, l.headerRow - 1, l.rows[i] - 1)
  }

  lemma {:induction false} HeaderRunDraws(l: Layout, j: nat)
    requires WellFormed(l) && HasHeader(l) && l.first <= j <= l.last + 1
    ensures |HeaderRun(l, j)| == j - l.first
    ensures forall k :: 0 <= k < j - l.first ==>
      HeaderRun(l, j)[k] == Draw(l.first + k, HeaderPosition(l, l.first + k), RowHeight(l, l.first + k))
    decreases j - l.first
  {
    hide Height, RowHeight;
    if j > l.first {
      HeaderRunDraws(l, j - 1);
      HeaderDrawn(l, j - 1);
    } else {
      NoHeaderCells(l);
    }
  }

  /** A page is its header and its part of the table. */
  lemma {:induction false} PageParts(l: Layout, pages: seq<Page>, breaks: seq<nat>, p: nat)
    requires WellFormed(l) && Drawn(l, pages, breaks) && p < |pages|
    ensures breaks[p] <= breaks[p + 1] <= |l.rows|
    ensures pages[p] == Header(l, p) + MainRun(l, p, RowsBefore(l, p, breaks[p]), breaks[p], breaks[p + 1])
  {
    hide Fits, Header, MainRun, RowsBefore, WellFormed;
    EachCellOnce(l, pages, breaks, p + 1);
    assert pages[p] == PageOf(l, p, breaks[p], breaks[p + 1]);
  }

  lemma {:induction false} HeaderDraws(l: Layout, p: nat)
    requires WellFormed(l)
    ensures |Header(l, p)| == HeaderCells(l, p) && (HeaderCells(l, p) > 0 ==> HasHeader(l) && l.last < |l.rows|)
    ensures forall k :: 0 <= k < HeaderCells(l, p) ==>
      Header(l, p)[k] == Draw(l.first + k, HeaderPosition(l, l.first + k), RowHeight(l, l.first + k))
  {
    hide HeaderPosition, RowHeight, HeaderRun;
    if p > 0 && HasHeader(l) { HeaderRunDraws(l, l.last + 1); } else { NoHeaderCells(l); }
  }

  /** What is drawn at place k of a page. */
  lemma {:induction false} DrawAt(l: Layout, pages: seq<Page>, breaks: seq<nat>, p: nat, k: nat)
    requires WellFormed(l) && Drawn(l, pages, breaks) && p < |pages| && k < |pages[p]|
    ensures breaks[p] <= breaks[p + 1] <= |l.rows|
    ensures var n := HeaderCells(l, p);
      && |pages[p]| == n + (breaks[p + 1] - breaks[p])
      && var i := if k < n then l.first + k else breaks[p] + (k - n);
      && i < |l.rows|
      && pages[p][k] == Draw(i, if k < n then HeaderPosition(l, i) else Position(l, p, RowsBefore(l, p, breaks[p]), i), RowHeight(l, i))
  {
    assert |breaks| == |pages| + 1;
    PageParts(l, pages, breaks, p);
    HeaderDraws(l, p);
    hide Position, RowHeight, HeaderPosition, Drawn, WellFormed, Header, RowsBefore, MainRun, HeaderCells;
    MainRunDraws(l, p, RowsBefore(l, p, breaks[p]), breaks[p], breaks[p + 1]);
  }

  // ----- One row after another

  /** The row of what is drawn, counted from 1. */
  function RowOf(l: Layout, d: Draw): int
    requires d.cell < |l.rows|
  {
    l.rows[d.cell]
  }

  ghost predicate Placed(l: Layout, d: Draw) {
    d.cell < |l.rows| && 1 <= RowOf(l, d) <= |l.heights| && d.height == l.heights[RowOf(l, d) - 1]
  }

  lemma {:induction false} MainBelow(l: Layout, p: nat, s: nat, i: nat, j: nat)
    requires WellFormed(l) && i <= j < |l.rows| && s <= l.rows[i] - 1
    ensures l.rows[i] <= l.rows[j] && Position(l, p, s, j) == Position(l, p, s, i) + Total(l.heights[l.rows[i] - 1..l.rows[j] - 1])
  {
    hide Height;
    HeightJoins(l.heights, s, l.rows[i] - 1, l.rows[j] - 1);
  }

  lemma {:induction false} HeaderBelow(l: Layout, i: nat, j: nat)
    requires WellFormed(l) && HasHeader(l) && l.first <= i <= j <= l.last
    ensures l.rows[i] <= l.rows[j] && HeaderPosition(l, j) == HeaderPosition(l, i) + Total(l.heights[l.rows[i] - 1..l.rows[j] - 1])
  {
    hide Height;
    assert l.rows[l.first] <= l.rows[i];
    HeightJoins(l.heights, l.headerRow - 1, l.rows[i] - 1, l.rows[j] - 1);
  }

  lemma {:induction false} RowsBeforeFirst(l: Layout, p: nat, i: nat, j: nat)
    requires WellFormed(l) && i <= j < |l.rows|
    ensures 0 <= RowsBefore(l, p, i) <= l.rows[j] - 1
  {
  }

  /** Of two draws, the later lies below the earlier by the heights of the rows from that of the earlier one on. */
  ghost predicate Below(l: Layout, d: Draw, e: Draw) {
    && Placed(l, d) && Placed(l, e) && RowOf(l, d) <= RowOf(l, e)
    && e.y == d.y + Total(l.heights[RowOf(l, d) - 1..RowOf(l, e) - 1])
  }

  lemma {:induction false} MainFollows(l: Layout, p: nat, s: nat, i: nat, j: nat)
    requires WellFormed(l) && i <= j < |l.rows| && s <= l.rows[i] - 1
    ensures Below(l, Draw(i, Position(l, p, s, i), RowHeight(l, i)), Draw(j, Position(l, p, s, j), RowHeight(l, j)))
  {
    hide Position, Total;
    MainBelow(l, p, s, i, j);
  }

  lemma {:induction false} HeaderFollows(l: Layout, i: nat, j: nat)
    requires WellFormed(l) && HasHeader(l) && l.first <= i <= j <= l.last
    ensures Below(l, Draw(i, HeaderPosition(l, i), RowHeight(l, i)), Draw(j, HeaderPosition(l, j), RowHeight(l, j)))
  {
    hide HeaderPosition, Total;
    HeaderBelow(l, i, j);
  }

  lemma {:induction false} DrawsFollow(l: Layout, pages: seq<Page>, breaks: seq<nat>, p: nat, a: nat, b: nat)
    requires WellFormed(l) && Drawn(l, pages, breaks) && p < |pages| && a <= b < |pages[p]|
    requires b < HeaderCells(l, p) || a >= HeaderCells(l, p)
    ensures Below(l, pages[p][a], pages[p][b])
  {
    DrawAt(l, pages, breaks, p, a);
    DrawAt(l, pages, breaks, p, b);
    HasHeaderCells(l, p);
    hide Below, Position, HeaderPosition, RowHeight, Drawn, RowsBefore, HeaderCells, WellFormed;
    var i, j := pages[p][a].cell, pages[p][b].cell;
    if b < HeaderCells(l, p) {
      HeaderFollows(l, i, j);
    } else {
      RowsBeforeFirst(l, p, breaks[p], i);
      MainFollows(l, p, RowsBefore(l, p, breaks[p]), i, j);
    }
  }

  lemma HasHeaderCells(l: Layout, p: nat)
    ensures HeaderCells(l, p) > 0 ==> p > 0 && HasHeader(l) && HeaderCells(l, p) == l.last - l.first + 1
  {
  }

  /**
   Of two cells drawn on a page, both of the header or neither, the later one lies below the earlier one by the heights of
   the rows from that of the earlier one on; so cells of one row lie side by side, and the next row begins where a row ends.
   */
  lemma {:induction false} RowsFollow(l: Layout, pages: seq<Page>, breaks: seq<nat>, p: nat, a: nat, b: nat)
    requires WellFormed(l) && Drawn(l, pages, breaks) && p < |pages| && a <= b < |pages[p]|
    requires b < HeaderCells(l, p) || a >= HeaderCells(l, p)
    ensures var d, e := pages[p][a], pages[p][b];
      && Placed(l, d) && Placed(l, e) && RowOf(l, d) <= RowOf(l, e)
      && e.y == d.y + Total(l.heights[RowOf(l, d) - 1..RowOf(l, e) - 1])
      && (RowOf(l, e) == RowOf(l, d) ==> e.y == d.y)
      && (RowOf(l, e) == RowOf(l, d) + 1 ==> e.y == d.y + d.height)
  {
    hide Drawn, WellFormed, HeaderCells, Total;
    DrawsFollow(l, pages, breaks, p, a, b);
    OneRow(l.heights, RowOf(l, pages[p][a]) - 1);
  }

  lemma OneRow(h: seq<real>, i: nat)
    requires i < |h|
    ensures Total(h[i..i]) == 0.0 && Total(h[i..i + 1]) == h[i]
  {
    assert h[i..i + 1] == [h[i]] && [h[i]][1..] == [];
  }

  /** The cells on a page, in order: those of the header, and then those of the table. */
  lemma {:induction false} CellsOnPage(l: Layout, pages: seq<Page>, breaks: seq<nat>, p: nat)
    requires WellFormed(l) && Drawn(l, pages, breaks) && p < |pages|
    ensures var n := HeaderCells(l, p);
      && breaks[p] <= breaks[p + 1] <= |l.rows| && |pages[p]| == n + (breaks[p + 1] - breaks[p])
      && (forall k :: 0 <= k < n ==> pages[p][k].cell == l.first + k)
      && (forall k :: n <= k < |pages[p]| ==> pages[p][k].cell == breaks[p] + (k - n))
  {
    PageLength(l, pages, breaks, p);
    hide Drawn, Position, HeaderPosition, RowHeight, HeaderCells, WellFormed, RowsBefore;
    forall k | 0 <= k < |pages[p]|
      ensures pages[p][k].cell == if k < HeaderCells(l, p) then l.first + k else breaks[p] + (k - HeaderCells(l, p))
    {
      DrawAt(l, pages, breaks, p, k);
    }
  }

  /** On the first page the rows before the first cell are left free. */
  lemma {:induction false} WhereTheFirstPageBegins(l: Layout, pages: seq<Page>, breaks: seq<nat>)
    requires WellFormed(l) && Drawn(l, pages, breaks) && |pages| > 0 && pages[0] != []
    ensures |l.rows| > 0 && pages[0][0].y == l.c.y + Total(l.heights[..l.rows[0] - 1])
  {
    DrawAt(l, pages, breaks, 0, 0);
    hide Height;
    FirstMain(l, 0, breaks[0]);
  }

  lemma HeaderRowsAre(l: Layout)
    requires WellFormed(l) && HasHeader(l)
    ensures l.last < |l.rows| && 0 <= l.headerRow - 1 <= l.rows[l.first] - 1 <= |l.heights|
  {
  }

  lemma {:induction false} WhereHeadersBegin(l: Layout, pages: seq<Page>, breaks: seq<nat>, p: nat)
    requires WellFormed(l) && Drawn(l, pages, breaks) && p < |pages| && HeaderCells(l, p) > 0
    ensures pages[p] != [] && pages[p][0].y == l.c.top + Total(l.heights[l.headerRow - 1..l.rows[l.first] - 1])
  {
    HasHeaderCells(l, p);
    HeaderRowsAre(l);
    HeightIsTotal(l.heights, l.headerRow - 1, l.rows[l.first] - 1);
    hide Height, Drawn, Position, RowHeight, WellFormed, HeaderCells, RowsBefore, Total;
    PageLength(l, pages, breaks, p);
    DrawAt(l, pages, breaks, p, 0);
  }

  lemma {:induction false} WhereTablesGoOn(l: Layout, pages: seq<Page>, breaks: seq<nat>, p: nat)
    requires WellFormed(l) && Drawn(l, pages, breaks) && 0 < p < |pages|
    ensures var n := HeaderCells(l, p);
      n < |pages[p]| && pages[p][n].y == if n == 0 then l.c.top else pages[p][n - 1].y + pages[p][n - 1].height
  {
    var n := HeaderCells(l, p);
    PageLength(l, pages, breaks, p);
    assert breaks[p] < breaks[p + 1];
    DrawAt(l, pages, breaks, p, n);
    if n > 0 { DrawAt(l, pages, breaks, p, n - 1); }
    FirstMain(l, p, breaks[p]);
    hide Height, Drawn, Position, HeaderPosition, RowHeight, WellFormed, RowsBefore, Total;
  }

  /** On the others nothing is left free, and the table goes on where the last cell of the header ends. */
  lemma {:induction false} WherePagesBegin(l: Layout, pages: seq<Page>, breaks: seq<nat>, p: nat)
    requires WellFormed(l) && Drawn(l, pages, breaks) && 0 < p < |pages|
    ensures var n := HeaderCells(l, p);
      && n < |pages[p]|
      && (n == 0 ==> pages[p][0].y == l.c.top)
      && (n > 0 ==> pages[p][0].y == l.c.top + Total(l.heights[l.headerRow - 1..l.rows[l.first] - 1]))
      && (n > 0 ==> pages[p][n].y == pages[p][n - 1].y + pages[p][n - 1].height)
  {
    hide Drawn, Total;
    WhereTablesGoOn(l, pages, breaks, p);
    if HeaderCells(l, p) > 0 { WhereHeadersBegin(l, pages, breaks, p); }
  }

  lemma {:induction false} PageLength(l: Layout, pages: seq<Page>, breaks: seq<nat>, p: nat)
    requires WellFormed(l) && Drawn(l, pages, breaks) && p < |pages|
    ensures breaks[p] <= breaks[p + 1] <= |l.rows| && |pages[p]| == HeaderCells(l, p) + (breaks[p + 1] - breaks[p])
  {
    PageParts(l, pages, breaks, p);
    HeaderDraws(l, p);
    MainRunDraws(l, p, RowsBefore(l, p, breaks[p]), breaks[p], breaks[p + 1]);
  }

  lemma {:induction false} FirstMain(l: Layout, p: nat, i: nat)
    requires WellFormed(l) && i < |l.rows|
    ensures Position(l, p, RowsBefore(l, p, i), i) ==
      if p == 0 then l.c.y + Total(l.heights[..l.rows[i] - 1])
      else if !HasHeader(l) then l.c.top
      else HeaderPosition(l, l.last) + RowHeight(l, l.last)
  {
    if p == 0 {
      hide Height;
      HeightIsTotal(l.heights, 0, l.rows[i] - 1);
      assert l.heights[0..l.rows[i] - 1] == l.heights[..l.rows[i] - 1];
    }
  }

  // ----- Where pages are cut

  /** How far down a cell would reach if it were drawn below another one on the same page. */
  ghost function WouldReach(l: Layout, d: Draw, i: nat): real
    requires Placed(l, d) && d.cell <= i < |l.rows| && WellFormed(l)
  {
    d.y + Total(l.heights[RowOf(l, d) - 1..l.rows[i] - 1]) + l.heights[l.rows[i] - 1]
  }

  lemma {:induction false} Reaches(l: Layout, p: nat, s: nat, i: nat, j: nat)
    requires WellFormed(l) && i <= j < |l.rows| && s <= l.rows[i] - 1
    ensures var d := Draw(i, Position(l, p, s, i), RowHeight(l, i));
      Placed(l, d) && WouldReach(l, d, j) == Position(l, p, s, j) + RowHeight(l, j)
  {
    hide Position, Total;
    MainBelow(l, p, s, i, j);
  }

  lemma {:induction false} NextDoesNotFit(l: Layout, pages: seq<Page>, breaks: seq<nat>, p: nat)
    requires WellFormed(l) && Drawn(l, pages, breaks) && p + 1 < |pages|
    ensures breaks[p + 1] < |l.rows| && !Fits(l, p, breaks[p], breaks[p + 1])
  {
    hide Fits, PageOf;
    PageLength(l, pages, breaks, p + 1);
    assert breaks[p + 1] < breaks[p + 2];
  }

  lemma {:induction false} OthersFit(l: Layout, pages: seq<Page>, breaks: seq<nat>, p: nat, i: nat)
    requires Drawn(l, pages, breaks) && p < |pages| && breaks[p] <= i < breaks[p + 1] && (p == 0 || i != breaks[p])
    ensures Position(l, p, RowsBefore(l, p, breaks[p]), i) + RowHeight(l, i) <= l.c.pageHeight - l.c.bottom
  {
    hide PageOf, Position, RowHeight, RowsBefore;
    assert Fits(l, p, breaks[p], i);
  }

  /** The first cell of the next page would reach below the bottom margin; the others do not, but for one a later page begins with. */
  lemma {:induction false} CutWhereFull(l: Layout, pages: seq<Page>, breaks: seq<nat>, p: nat, k: nat)
    requires WellFormed(l) && Drawn(l, pages, breaks) && p < |pages| && HeaderCells(l, p) <= k < |pages[p]|
    ensures Placed(l, pages[p][k]) && pages[p][k].cell < breaks[p + 1] <= |l.rows|
    ensures p + 1 < |pages| ==> breaks[p + 1] < |l.rows| && WouldReach(l, pages[p][k], breaks[p + 1]) > l.c.pageHeight - l.c.bottom
    ensures p == 0 || k > HeaderCells(l, p) ==> pages[p][k].y + pages[p][k].height <= l.c.pageHeight - l.c.bottom
  {
    assert |breaks| == |pages| + 1;
    hide Drawn, Position, RowHeight, RowsBefore, HeaderCells, HeaderPosition, WellFormed, WouldReach, Placed;
    DrawAt(l, pages, breaks, p, k);
    var d := pages[p][k];
    RowsBeforeFirst(l, p, breaks[p], d.cell);
    Reaches(l, p, RowsBefore(l, p, breaks[p]), d.cell, d.cell);
    if p + 1 < |pages| {
      NextDoesNotFit(l, pages, breaks, p);
      Reaches(l, p, RowsBefore(l, p, breaks[p]), d.cell, breaks[p + 1]);
    }
    if p == 0 || k > HeaderCells(l, p) { OthersFit(l, pages, breaks, p, d.cell); }
  }

  /** A first page on which nothing is drawn has no room for the first row. */
  lemma {:induction false} EmptyWhereFull(l: Layout, pages: seq<Page>, breaks: seq<nat>)
    requires WellFormed(l) && Drawn(l, pages, breaks) && |pages| > 1 && pages[0] == []
    ensures |l.rows| > 0 && l.c.y + Total(l.heights[..l.rows[0]]) > l.c.pageHeight - l.c.bottom
  {
    PageLength(l, pages, breaks, 0);
    PageLength(l, pages, breaks, 1);
    assert breaks[1] == 0 < breaks[2];
    assert !Fits(l, 0, breaks[0], breaks[1]);
    var r := l.rows[0];
    FirstMain(l, 0, 0);
    hide Height;
    TotalJoins(l.heights[..r - 1], [l.heights[r - 1]]);
    assert l.heights[..r] == l.heights[..r - 1] + [l.heights[r - 1]];
    assert [l.heights[r - 1]][1..] == [];
  }

  // ----- No overlaps

  lemma {:induction false} TotalIsNotNegative(h: seq<real>, i: nat, j: nat)
    requires i <= j <= |h| && forall n :: 0 <= n < |h| ==> h[n] >= 0.0
    ensures Total(h[i..j]) >= if i < j then h[i] else 0.0
    decreases j - i
  {
    if i < j {
      assert h[i..j][1..] == h[i + 1..j];
      TotalIsNotNegative(h, i + 1, j);
    }
  }

  lemma {:induction false} NotAboveEnd(l: Layout, d: Draw, e: Draw)
    requires Below(l, d, e) && forall n :: 0 <= n < |l.heights| ==> l.heights[n] >= 0.0
    ensures e.y >= d.y && e.y + e.height >= d.y + d.height && (RowOf(l, d) != RowOf(l, e) ==> e.y >= d.y + d.height)
  {
    TotalIsNotNegative(l.heights, RowOf(l, d) - 1, RowOf(l, e) - 1);
  }

  /** Unless heights are negative, a later cell of another row, or of the table after the header, begins no higher than an earlier one ends. */
  lemma {:induction false} NothingOverlaps(l: Layout, pages: seq<Page>, breaks: seq<nat>, p: nat, a: nat, b: nat)
    requires WellFormed(l) && Drawn(l, pages, breaks) && p < |pages| && a < b < |pages[p]|
    requires forall n :: 0 <= n < |l.heights| ==> l.heights[n] >= 0.0
    ensures var d, e := pages[p][a], pages[p][b];
      && Placed(l, d) && Placed(l, e)
      && (RowOf(l, d) != RowOf(l, e) || a < HeaderCells(l, p) <= b ==> e.y >= d.y + d.height)
  {
    hide Drawn, WellFormed, HeaderCells, Total;
    var n := HeaderCells(l, p);
    if b < n || a >= n {
      DrawsFollow(l, pages, breaks, p, a, b);
      NotAboveEnd(l, pages[p][a], pages[p][b]);
    } else {
      HasHeaderCells(l, p);
      WherePagesBegin(l, pages, breaks, p);
      DrawsFollow(l, pages, breaks, p, a, n - 1);
      DrawsFollow(l, pages, breaks, p, n, b);
      NotAboveEnd(l, pages[p][a], pages[p][n - 1]);
      NotAboveEnd(l, pages[p][n], pages[p][b]);
    }
  }

  // ----- The cells of the header

  /** The cells of the header are exactly those in the header rows of the table. */
  lemma {:induction false} HeaderCellsAre(t: Table, first: int, last: int, i: nat)
    requires t.Valid() && HeaderRange(HeaderRowsOf(t), t.cells, first, last) && i < |t.cells|
    ensures (t.hasHeader && t.headerStartRow <= t.cells[i].row <= t.headerEndRow) <==> first >= 0 && first <= i <= last
  {
    assert InHeaderRows(HeaderRowsOf(t), t.cells[i]) <==> t.hasHeader && t.headerStartRow <= t.cells[i].row <= t.headerEndRow;
    if first >= 0 && first <= i <= last {
      assert first < i ==> Precedes(t.cells[first], t.cells[i]);
      assert i < last ==> Precedes(t.cells[i], t.cells[last]);
    }
  }

  // ----- The heights of rows

  /** No row is higher than it was set or something in it needs. */
  lemma {:induction false} HeightIsNeeded(cells: seq<Cell>, h: seq<real>, i: nat)
    requires i < |h|
    ensures Measured(cells, h)[i] == h[i] || exists c :: c in cells && c.row == i + 1 && c.needs == Some(Measured(cells, h)[i])
  {
    if cells != [] {
      var front, c := cells[..|cells| - 1], cells[|cells| - 1];
      HeightIsNeeded(front, h, i);
      assert cells == front + [c] && c in cells;
      if Measured(cells, h)[i] == Measured(front, h)[i] {
        assert forall e :: e in front ==> e in cells;
      }
    }
  }
}
