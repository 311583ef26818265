/** Drawing a table over pages, with its header rows repeated on every page after the first. */
module Pagination {
  import opened TableGrid

  /** One cell drawn: which, how far from the top of the page, and how high. */
  datatype Draw = Draw(cell: nat, y: real, height: real)

  /** What is drawn on one page. */
  type Page = seq<Draw>

  /** Where drawing starts, and the pages. */
  datatype Context = Context(y: real, pageHeight: real, top: real, bottom: real)

  /** The height of the rows from the i-th to before the j-th, counted from 0. */
  function Height(h: seq<real>, i: int, j: int): real {
    if i >= j || j <= 0 || j > |h| then 0.0 else Height(h, i, j - 1) + h[j - 1]
  }

  /** A table as it is drawn; the header cells are those from first to last, if there are any. */
  datatype Layout = Layout(rows: seq<int>, heights: seq<real>, first: int, last: int, headerRow: int, c: Context)

  predicate HasHeader(l: Layout) {
    l.first >= 0
  }

  ghost predicate WellFormed(l: Layout) {
    && (forall i :: 0 <= i < |l.rows| ==> 1 <= l.rows[i] <= |l.heights|)
    && (forall i, j :: 0 <= i <= j < |l.rows| ==> l.rows[i] <= l.rows[j])
    && (HasHeader(l) ==> 0 <= l.first <= l.last < |l.rows| && 1 <= l.headerRow <= l.rows[l.first])
  }

  function RowHeight(l: Layout, i: int): real {
    if 0 <= i < |l.rows| && 1 <= l.rows[i] <= |l.heights| then l.heights[l.rows[i] - 1] else 0.0
  }

  /** The height that the header takes on a page. */
  function HeaderHeight(l: Layout): real {
    if HasHeader(l) && 0 <= l.last < |l.rows| then Height(l.heights, l.headerRow - 1, l.rows[l.last] - 1) + RowHeight(l, l.last) else 0.0
  }

  /** How far down cells may reach. */
  function Limit(l: Layout): real {
    l.c.pageHeight - l.c.bottom
  }

  /** Where the rows begin on page p, the header left out. */
  function Top(l: Layout, p: nat): real {
    if p == 0 then l.c.y else l.c.top + HeaderHeight(l)
  }

  /** Where cell i is drawn on page p when s is the number of rows before the page. */
  function Position(l: Layout, p: nat, s: int, i: int): real {
    Top(l, p) + (if 0 <= i < |l.rows| then Height(l.heights, s, l.rows[i] - 1) else 0.0)
  }

  /** Cells i to before j of the table itself on page p. */
  function MainRun(l: Layout, p: nat, s: int, i: nat, j: nat): Page
    requires i <= j
  {
    if i == j then [] else MainRun(l, p, s, i, j - 1) + [Draw(j - 1, Position(l, p, s, j - 1), RowHeight(l, j - 1))]
  }

  /** The header cells before the j-th. */
  function HeaderRun(l: Layout, j: int): Page
    decreases if j <= l.first || l.first < 0 then 0 else j - l.first
  {
    if j <= l.first || l.first < 0 then []
    else
      HeaderRun(l, j - 1) +
      [Draw(j - 1, l.c.top + (if j - 1 < |l.rows| then Height(l.heights, l.headerRow - 1, l.rows[j - 1] - 1) else 0.0), RowHeight(l, j - 1))]
  }

  function Header(l: Layout, p: nat): Page {
    if p == 0 then [] else HeaderRun(l, l.last + 1)
  }

  /** The number of rows that are drawn before page p, when it starts with cell i. */
  function RowsBefore(l: Layout, p: nat, i: int): int {
    if p == 0 || !(0 <= i < |l.rows|) then 0 else l.rows[i] - 1
  }

  /** Page p, with the cells from i to before j: the header once, then the cells in order, each at its place. */
  function PageOf(l: Layout, p: nat, i: nat, j: nat): Page
    requires i <= j
  {
    Header(l, p) + MainRun(l, p, RowsBefore(l, p, i), i, j)
  }

  /** Whether cell i still fits on page p, which started with cell s. */
  predicate Fits(l: Layout, p: nat, s: int, i: int) {
    Position(l, p, RowsBefore(l, p, s), i) + RowHeight(l, i) <= Limit(l)
  }

  /** The pages are cut where breaks says, exactly where the next cell does not fit. */
  ghost predicate Drawn(l: Layout, pages: seq<Page>, breaks: seq<nat>) {
    && |breaks| == |pages| + 1 && breaks[0] == 0 && breaks[|pages|] == |l.rows|
    && (forall p :: 0 <= p < |pages| ==> breaks[p] <= breaks[p + 1] && (p > 0 ==> breaks[p] < breaks[p + 1]))
    && (forall p :: 0 <= p < |pages| ==> pages[p] == PageOf(l, p, breaks[p], breaks[p + 1]))
    && (forall p :: 0 < p < |pages| ==> !Fits(l, p - 1, breaks[p - 1], breaks[p]))
    && (forall p, i :: 0 <= p < |pages| && breaks[p] <= i < breaks[p + 1] && (p == 0 || i != breaks[p]) ==> Fits(l, p, breaks[p], i))
  }

  /** The first cell from i on that does not fit on page p, which started with cell s, or the number of cells. */
  function FirstNotFitting(l: Layout, p: nat, s: int, i: nat): (r: nat)
    ensures r <= |l.rows| && (i <= |l.rows| ==> i <= r)
    ensures forall k :: i <= k < r ==> Fits(l, p, s, k)
    ensures i <= r < |l.rows| ==> !Fits(l, p, s, r)
    decreases |l.rows| - i
  {
    if i >= |l.rows| then |l.rows| else if Fits(l, p, s, i) then FirstNotFitting(l, p, s, i + 1) else i
  }

  /** The cell that page p starts with, or the number of cells: on every page after the first, the cell that starts it is not tried again. */
  function StartOf(l: Layout, p: nat): (r: nat)
    ensures r <= |l.rows|
  {
    if p == 0 then 0 else FirstNotFitting(l, p - 1, StartOf(l, p - 1), if p == 1 then 0 else StartOf(l, p - 1) + 1)
  }

  /** Whether header cell j fits on a page after the first. */
  predicate HeaderCellFits(l: Layout, j: int) {
    0 <= j < |l.rows| ==> l.c.top + Height(l.heights, l.headerRow - 1, l.rows[j] - 1) + RowHeight(l, j) <= Limit(l)
  }

  predicate HeaderFits(l: Layout) {
    HasHeader(l) ==> forall j :: l.first <= j <= l.last ==> HeaderCellFits(l, j)
  }

  /** Whether the row of cell i fits on a page below the header. */
  predicate FitsBelowHeader(l: Layout, i: int) {
    l.c.top + HeaderHeight(l) + RowHeight(l, i) <= Limit(l)
  }

  predicate HasRoom(l: Layout, i: int) {
    HeaderFits(l) && FitsBelowHeader(l, i)
  }

  /** Each page after the first has room for the row that it starts with. */
  ghost predicate RoomAtStarts(l: Layout) {
    forall p: nat :: p > 0 && StartOf(l, p) < |l.rows| ==> HasRoom(l, StartOf(l, p))
  }

  lemma {:induction false} HeightGrows(h: seq<real>, i: int, j: int, k: int)
    requires 0 <= j <= k <= |h| && forall n :: 0 <= n < |h| ==> h[n] >= 0.0
    ensures Height(h, i, j) <= Height(h, i, k) && Height(h, i, j) >= 0.0
    decreases j + k
  {
    if j < k {
      HeightGrows(h, i, j, k - 1);
    } else if i < j && 0 < j {
      HeightGrows(h, i, j - 1, j - 1);
    }
  }

  /** Unless heights are negative, no cell of the header reaches below the header's height. */
  lemma {:induction false} HeaderCellsFit(l: Layout, j: int)
    requires WellFormed(l) && HasHeader(l) && l.first <= j <= l.last && forall i :: 0 <= i < |l.heights| ==> l.heights[i] >= 0.0
    ensures Height(l.heights, l.headerRow - 1, l.rows[j] - 1) + RowHeight(l, j) <= HeaderHeight(l)
  {
    var a, b := l.rows[j], l.rows[l.last];
    assert l.rows[l.first] <= a <= b;
    if a < b {
      HeightGrows(l.heights, l.headerRow - 1, a, b - 1);
      assert Height(l.heights, l.headerRow - 1, a) == Height(l.heights, l.headerRow - 1, a - 1) + l.heights[a - 1];
    }
  }

  /** So the header fits if and only if its last cell does, and there is room for a row if and only if it fits below the header. */
  lemma {:induction false} RoomIff(l: Layout, i: int)
    requires WellFormed(l) && forall k :: 0 <= k < |l.heights| ==> l.heights[k] >= 0.0
    ensures HeaderFits(l) <==> !HasHeader(l) || l.c.top + HeaderHeight(l) <= Limit(l)
    ensures HasRoom(l, i) <==> FitsBelowHeader(l, i)
  {
    hide Height;
    if HasHeader(l) {
      forall j | l.first <= j <= l.last ensures l.c.top + HeaderHeight(l) <= Limit(l) ==> HeaderCellFits(l, j) { HeaderCellsFit(l, j); }
      assert HeaderCellFits(l, l.last) <==> l.c.top + HeaderHeight(l) <= Limit(l);
    }
    assert RowHeight(l, i) >= 0.0;
  }

  lemma {:induction false} OneMoreOnPage(l: Layout, p: nat, i: nat, j: nat)
    requires i <= j
    ensures PageOf(l, p, i, j + 1) == PageOf(l, p, i, j) + [Draw(j, Position(l, p, RowsBefore(l, p, i), j), RowHeight(l, j))]
  {
    var run := MainRun(l, p, RowsBefore(l, p, i), i, j);
    var d := Draw(j, Position(l, p, RowsBefore(l, p, i), j), RowHeight(l, j));
    assert Header(l, p) + (run + [d]) == Header(l, p) + run + [d];
  }

  // ----- The state of the drawing loop

  datatype State = State(pages: nat, cellIdx: int, ulY: real, origHeight: real, startrow: int, drawingHeaders: bool, resumeIdx: int, resumeStartRow: int)

  /** One turn of the drawing loop, without what is drawn. */
  function Turn(l: Layout, s: State): State {
    if !(0 <= s.cellIdx < |l.rows|) then s
    else
      var yrel, h := Height(l.heights, s.startrow, l.rows[s.cellIdx] - 1), RowHeight(l, s.cellIdx);
      if h > s.origHeight - yrel then
        var t := s.(pages := s.pages + 1, ulY := l.c.top, origHeight := Limit(l) - l.c.top, startrow := l.rows[s.cellIdx] - 1);
        if l.first >= 0 then
          t.(resumeIdx := s.cellIdx, cellIdx := l.first, resumeStartRow := t.startrow, startrow := l.headerRow - 1, drawingHeaders := true)
        else EndOfTurn(l, t, 0.0, h)
      else EndOfTurn(l, s, yrel, h)
  }

  function EndOfTurn(l: Layout, s: State, yrel: real, h: real): State {
    if s.drawingHeaders && s.cellIdx + 1 > l.last then
      s.(ulY := s.ulY + yrel + h, origHeight := s.origHeight - (h + yrel), startrow := s.resumeStartRow, cellIdx := s.resumeIdx, drawingHeaders := false)
    else s.(cellIdx := s.cellIdx + 1)
  }

  function Turns(l: Layout, s: State, n: nat): State {
    if n == 0 then s else Turn(l, Turns(l, s, n - 1))
  }

  lemma {:induction false} TurnBack(l: Layout, s: State)
    requires 0 <= s.cellIdx < |l.rows| && HasHeader(l)
    requires RowHeight(l, s.cellIdx) > s.origHeight - Height(l.heights, s.startrow, l.rows[s.cellIdx] - 1)
    ensures Turn(l, s) ==
      State(s.pages + 1, l.first, l.c.top, l.c.pageHeight - l.c.top - l.c.bottom, l.headerRow - 1, true, s.cellIdx, l.rows[s.cellIdx] - 1)
  {
  }

  lemma {:induction false} TurnOn(l: Layout, s: State, pages: nat, ulY: real, origHeight: real, startrow: int, yrel: real)
    requires 0 <= s.cellIdx < |l.rows|
    requires var full := RowHeight(l, s.cellIdx) > s.origHeight - Height(l.heights, s.startrow, l.rows[s.cellIdx] - 1);
      && (full ==> !HasHeader(l) && pages == s.pages + 1 && ulY == l.c.top && origHeight == l.c.pageHeight - l.c.top - l.c.bottom)
      && (full ==> startrow == l.rows[s.cellIdx] - 1 && yrel == 0.0)
      && (!full ==> pages == s.pages && ulY == s.ulY && origHeight == s.origHeight && startrow == s.startrow)
      && (!full ==> yrel == Height(l.heights, s.startrow, l.rows[s.cellIdx] - 1))
    ensures var h := RowHeight(l, s.cellIdx);
      Turn(l, s) ==
      if s.drawingHeaders && s.cellIdx + 1 > l.last then
        State(pages, s.resumeIdx, ulY + yrel + h, origHeight - (h + yrel), s.resumeStartRow, false, s.resumeIdx, s.resumeStartRow)
      else State(pages, s.cellIdx + 1, ulY, origHeight, startrow, s.drawingHeaders, s.resumeIdx, s.resumeStartRow)
  {
  }

  function Start(l: Layout): State {
    State(0, 0, l.c.y, Limit(l) - l.c.y, 0, false, 0, 0)
  }

  // ----- The drawing loop

  /** The pages that are finished, and the page that is being drawn. */
  ghost predicate Finished(l: Layout, pages: seq<Page>, breaks: seq<nat>) {
    && |breaks| == |pages| + 1 && breaks[0] == 0
    && (forall p :: 0 <= p < |pages| ==> breaks[p] <= breaks[p + 1] && (p > 0 ==> breaks[p] < breaks[p + 1]))
    && (forall p :: 0 <= p < |pages| ==> pages[p] == PageOf(l, p, breaks[p], breaks[p + 1]))
    && (forall p :: 0 < p <= |pages| ==> !Fits(l, p - 1, breaks[p - 1], breaks[p]))
    && (forall p, i :: 0 <= p < |pages| && breaks[p] <= i < breaks[p + 1] && (p == 0 || i != breaks[p]) ==> Fits(l, p, breaks[p], i))
  }

  ghost predicate OnPage(l: Layout, pages: seq<Page>, breaks: seq<nat>, block: Page, cellIdx: int) {
    && Finished(l, pages, breaks) && breaks[|pages|] <= cellIdx <= |l.rows| && (|pages| > 0 ==> breaks[|pages|] < |l.rows|)
    && block == PageOf(l, |pages|, breaks[|pages|], cellIdx)
    && forall i :: breaks[|pages|] <= i < cellIdx && (|pages| == 0 || i != breaks[|pages|]) ==> Fits(l, |pages|, breaks[|pages|], i)
  }

  lemma {:induction false} TurnPage(l: Layout, pages: seq<Page>, breaks: seq<nat>, block: Page, cellIdx: nat)
    requires OnPage(l, pages, breaks, block, cellIdx) && !Fits(l, |pages|, breaks[|pages|], cellIdx)
    requires |pages| > 0 ==> breaks[|pages|] < cellIdx
    ensures Finished(l, pages + [block], breaks + [cellIdx])
  {
    hide PageOf, Fits;
    var pages', breaks' := pages + [block], breaks + [cellIdx];
    forall p | 0 <= p < |pages'| ensures pages'[p] == PageOf(l, p, breaks'[p], breaks'[p + 1]) {}
    forall p | 0 < p <= |pages'| ensures !Fits(l, p - 1, breaks'[p - 1], breaks'[p]) {}
    forall p, i | 0 <= p < |pages'| && breaks'[p] <= i < breaks'[p + 1] && (p == 0 || i != breaks'[p])
      ensures Fits(l, p, breaks'[p], i) {}
  }

  lemma {:induction false} LastPageFits(l: Layout, pages: seq<Page>, breaks: seq<nat>, block: Page, p: nat, i: nat)
    requires OnPage(l, pages, breaks, block, |l.rows|) && p <= |pages| && |breaks| == |pages| + 1 && (p == 0 || i != breaks[p])
    requires breaks[p] <= i < (breaks + [|l.rows|])[p + 1]
    ensures Fits(l, p, breaks[p], i)
  {
    hide PageOf, Fits;
  }

  lemma {:induction false} LastPageDone(l: Layout, pages: seq<Page>, breaks: seq<nat>, block: Page)
    requires OnPage(l, pages, breaks, block, |l.rows|)
    ensures Drawn(l, pages + [block], breaks + [|l.rows|])
  {
    hide PageOf, Fits;
    var pages', breaks' := pages + [block], breaks + [|l.rows|];
    forall p | 0 <= p < |pages'| ensures pages'[p] == PageOf(l, p, breaks'[p], breaks'[p + 1]) {}
    forall p | 0 < p < |pages'| ensures !Fits(l, p - 1, breaks'[p - 1], breaks'[p]) {}
    hide OnPage, Finished;
    forall p, i | 0 <= p < |pages'| && breaks'[p] <= i < breaks'[p + 1] && (p == 0 || i != breaks'[p])
      ensures Fits(l, p, breaks'[p], i) { LastPageFits(l, pages, breaks, block, p, i); }
  }

  lemma {:induction false} CellDrawn(l: Layout, pages: seq<Page>, breaks: seq<nat>, block: Page, i: nat)
    requires OnPage(l, pages, breaks, block, i) && i < |l.rows|
    requires var p := |pages|; Fits(l, p, breaks[p], i) || (p > 0 && i == breaks[p])
    ensures var p := |pages|; OnPage(l, pages, breaks, block + [Draw(i, Position(l, p, RowsBefore(l, p, breaks[p]), i), RowHeight(l, i))], i + 1)
  {
    hide PageOf, Fits, Position;
    OneMoreOnPage(l, |pages|, breaks[|pages|], i);
  }

  /** The pages are cut where StartOf says. */
  lemma {:induction false} BreaksAreStarts(l: Layout, pages: seq<Page>, breaks: seq<nat>, p: nat)
    requires Finished(l, pages, breaks) && p <= |pages| && (p > 0 ==> breaks[p] < |l.rows|)
    ensures breaks[p] == StartOf(l, p)
  {
    hide Fits, PageOf;
    if p > 0 {
      BreaksAreStarts(l, pages, breaks, p - 1);
      var i := if p == 1 then 0 else breaks[p - 1] + 1;
      var _ := FirstNotFitting(l, p - 1, breaks[p - 1], i);
    }
  }

  lemma {:induction false} RoomOnPage(l: Layout, pages: seq<Page>, breaks: seq<nat>)
    requires Finished(l, pages, breaks) && |pages| > 0 && breaks[|pages|] < |l.rows| && RoomAtStarts(l)
    ensures HasRoom(l, breaks[|pages|])
  {
    BreaksAreStarts(l, pages, breaks, |pages|);
  }

  /** The loops that add up row heights. */
  method RowsHeight(h: seq<real>, i: int, j: int) returns (y: real)
    requires 0 <= i && j <= |h|
    ensures y == Height(h, i, j)
  {
    y := 0.0;
    if i < j {
      for k := i to j
        invariant y == Height(h, i, k)
      {
        y := y + h[k];
      }
    }
  }

  /** The drawing loop of GeneratePageBlocks: it goes back to the header cells after a page is full, and then resumes. */
  method DrawCells(l: Layout) returns (blocks: seq<Page>)
    requires WellFormed(l) && (HasHeader(l) ==> RoomAtStarts(l))
    ensures exists breaks :: Drawn(l, blocks, breaks)
    ensures exists turns: nat :: Turns(l, Start(l), turns).cellIdx == |l.rows|
  {
    hide PageOf, HeaderRun, Height, Finished, RoomAtStarts, HasRoom, Turn;
    blocks := [];
    ghost var breaks: seq<nat>, turns: nat := [0], 0;
    var block: Page := [];
    var ulY := l.c.y;
    var origHeight := l.c.pageHeight - l.c.y - l.c.bottom;
    var startrow := 0;
    var drawingHeaders := false;
    var resumeIdx, resumeStartRow := 0, 0;
    var cellIdx := 0;
    Begin(l);
    while cellIdx < |l.rows|
      invariant 0 <= cellIdx <= |l.rows| && |breaks| == |blocks| + 1
      invariant Turns(l, Start(l), turns) ==
        State(|blocks|, cellIdx, ulY, origHeight, startrow, drawingHeaders, resumeIdx, resumeStartRow)
      invariant !HasHeader(l) && |blocks| > 0 ==> breaks[|blocks|] < cellIdx
      invariant !drawingHeaders ==> Main(l, blocks, breaks, block, cellIdx, ulY, origHeight, startrow)
      invariant drawingHeaders ==> HasHeader(l) && InHeader(l, blocks, breaks, block, cellIdx, ulY, origHeight, startrow, resumeIdx, resumeStartRow)
      decreases |l.rows| - (if drawingHeaders then resumeIdx else cellIdx),
        if drawingHeaders then 1 + |l.rows| - cellIdx else if |blocks| > 0 && breaks[|blocks|] == cellIdx then 0 else 2 + |l.rows|
    {
      ghost var now := Turns(l, Start(l), turns);
      turns := turns + 1;
      var yrel := RowsHeight(l.heights, startrow, l.rows[cellIdx] - 1);
      var h := l.heights[l.rows[cellIdx] - 1];
      if HasHeader(l) && |blocks| > 0 { RoomOnPage(l, blocks, breaks); }
      if drawingHeaders { HeaderStep(l, cellIdx, resumeIdx); } else { MainStep(l, blocks, breaks, block, cellIdx, ulY, origHeight, startrow); }
      if h > origHeight - yrel {
        TurnPage(l, blocks, breaks, block, cellIdx);
        blocks := blocks + [block];
        breaks := breaks + [cellIdx];
        block := [];
        ulY := l.c.top;
        origHeight := l.c.pageHeight - l.c.top - l.c.bottom;
        startrow := l.rows[cellIdx] - 1;
        yrel := 0.0;
        if l.first >= 0 {
          resumeIdx := cellIdx;
          cellIdx := l.first;
          resumeStartRow := startrow;
          startrow := l.headerRow - 1;
          drawingHeaders := true;
          NoHeaderCells(l);
          TurnBack(l, now);
          continue;
        }
        NoHeaderCells(l);
        NewPage(l, blocks, breaks, cellIdx);
      }
      TurnOn(l, now, |blocks|, ulY, origHeight, startrow, yrel);
      if !drawingHeaders { CellDrawn(l, blocks, breaks, block, cellIdx); }
      block := block + [Draw(cellIdx, ulY + yrel, h)];
      if drawingHeaders { HeaderDrawn(l, cellIdx); }
      if drawingHeaders && cellIdx + 1 > l.last {
        ulY := ulY + yrel + h;
        origHeight := origHeight - (h + yrel);
        startrow := resumeStartRow;
        cellIdx := resumeIdx - 1;
        drawingHeaders := false;
        NewPage(l, blocks, breaks, resumeIdx);
      }
      cellIdx := cellIdx + 1;
    }
    LastPageDone(l, blocks, breaks, block);
    blocks := blocks + [block];
    breaks := breaks + [|l.rows|];
  }

  /** The state of the loop in the cells of the table itself. */
  ghost predicate Main(l: Layout, blocks: seq<Page>, breaks: seq<nat>, block: Page, cellIdx: int, ulY: real, origHeight: real, startrow: int) {
    && OnPage(l, blocks, breaks, block, cellIdx)
    && ulY == Top(l, |blocks|) && origHeight == Limit(l) - ulY && startrow == RowsBefore(l, |blocks|, breaks[|blocks|])
  }

  /** The state of the loop in the header cells at the beginning of a page. */
  ghost predicate InHeader(l: Layout, blocks: seq<Page>, breaks: seq<nat>, block: Page, cellIdx: int, ulY: real, origHeight: real, startrow: int,
                           resumeIdx: int, resumeStartRow: int) {
    && Finished(l, blocks, breaks) && |blocks| > 0 && breaks[|blocks|] == resumeIdx && 0 <= resumeIdx < |l.rows|
    && resumeStartRow == RowsBefore(l, |blocks|, resumeIdx)
    && l.first <= cellIdx <= l.last && block == HeaderRun(l, cellIdx)
    && ulY == l.c.top && origHeight == Limit(l) - ulY && startrow == l.headerRow - 1
  }

  lemma {:induction false} Begin(l: Layout)
    requires WellFormed(l)
    ensures Main(l, [], [0], [], 0, l.c.y, l.c.pageHeight - l.c.y - l.c.bottom, 0)
  {
  }

  lemma {:induction false} NoHeaderCells(l: Layout)
    ensures HeaderRun(l, l.first) == [] && (!HasHeader(l) ==> HeaderRun(l, l.last + 1) == [])
  {
  }

  lemma {:induction false} HeaderDrawn(l: Layout, j: int)
    requires WellFormed(l) && HasHeader(l) && l.first <= j <= l.last
    ensures HeaderRun(l, j + 1) == HeaderRun(l, j) + [Draw(j, l.c.top + Height(l.heights, l.headerRow - 1, l.rows[j] - 1), RowHeight(l, j))]
  {
  }

  lemma {:induction false} HeaderStep(l: Layout, j: int, i: int)
    requires WellFormed(l) && HasHeader(l) && HasRoom(l, i) && l.first <= j <= l.last
    ensures Height(l.heights, l.headerRow - 1, l.rows[j] - 1) + RowHeight(l, j) <= Limit(l) - l.c.top
  {
    assert HeaderCellFits(l, j);
  }

  /** At the first cell of a page with a header there is room; elsewhere the comparison is the one of Fits. */
  lemma {:induction false} MainStep(l: Layout, blocks: seq<Page>, breaks: seq<nat>, block: Page, i: int, ulY: real, origHeight: real, startrow: int)
    requires WellFormed(l) && Main(l, blocks, breaks, block, i, ulY, origHeight, startrow) && 0 <= i < |l.rows|
    ensures startrow >= 0
    ensures RowHeight(l, i) > origHeight - Height(l.heights, startrow, l.rows[i] - 1) <==> !Fits(l, |blocks|, breaks[|blocks|], i)
    ensures HasHeader(l) && HasRoom(l, i) && |blocks| > 0 && breaks[|blocks|] == i ==> Fits(l, |blocks|, breaks[|blocks|], i)
  {
  }

  lemma {:induction false} NewPage(l: Layout, blocks: seq<Page>, breaks: seq<nat>, i: nat)
    requires Finished(l, blocks, breaks) && |blocks| > 0 && breaks[|blocks|] == i < |l.rows|
    ensures OnPage(l, blocks, breaks, HeaderRun(l, l.last + 1), i)
    ensures Height(l.heights, l.rows[i] - 1, l.rows[i] - 1) == 0.0
  {
  }

  // ----- From a table to its pages

  /** Row heights after the cells' contents are measured: a row grows to the height its contents need. */
  function Measured(cells: seq<Cell>, h: seq<real>): (r: seq<real>)
    ensures |r| == |h| && forall i :: 0 <= i < |h| ==> r[i] >= h[i]
  {
    if cells == [] then h
    else
      var before, c := Measured(cells[..|cells| - 1], h), cells[|cells| - 1];
      if c.needs.Some? && 1 <= c.row <= |h| && c.needs.value > before[c.row - 1] then before[c.row - 1 := c.needs.value] else before
  }

  /** Every row is high enough for all that is in it. */
  lemma {:induction false} ContentsFit(cells: seq<Cell>, h: seq<real>, i: nat)
    requires i < |cells| && cells[i].needs.Some? && 1 <= cells[i].row <= |h|
    ensures Measured(cells, h)[cells[i].row - 1] >= cells[i].needs.value
  {
    if i < |cells| - 1 { ContentsFit(cells[..|cells| - 1], h, i); }
  }

  /** The header rows, from start to end. */
  datatype HeaderRows = NoHeader | HeaderRows(start: int, end: int)

  function HeaderRowsOf(t: Table): HeaderRows
    reads t
  {
    if t.hasHeader then HeaderRows(t.headerStartRow, t.headerEndRow) else NoHeader
  }

  predicate InHeaderRows(h: HeaderRows, c: Cell) {
    h.HeaderRows? && h.start <= c.row <= h.end
  }

  /** The first and last of the cells that are in header rows, or -1. */
  ghost predicate HeaderRange(h: HeaderRows, cells: seq<Cell>, first: int, last: int) {
    if first < 0 then forall i :: 0 <= i < |cells| ==> !InHeaderRows(h, cells[i])
    else
      && first <= last < |cells| && InHeaderRows(h, cells[first]) && InHeaderRows(h, cells[last])
      && forall i :: 0 <= i < |cells| && InHeaderRows(h, cells[i]) ==> first <= i <= last
  }

  function RowsOf(cells: seq<Cell>): (r: seq<int>)
    ensures |r| == |cells| && forall i :: 0 <= i < |cells| ==> r[i] == cells[i].row
  {
    seq(|cells|, i requires 0 <= i < |cells| => cells[i].row)
  }

  /** The layout that the drawing loop works on. */
  function LayoutOf(cells: seq<Cell>, heights: seq<real>, h: HeaderRows, first: int, last: int, c: Context): Layout {
    Layout(RowsOf(cells), heights, first, last, if h.HeaderRows? then h.start else 0, c)
  }

  lemma {:induction false} StartMeasure(header: HeaderRows, h: seq<real>)
    ensures HeaderRange(header, [], -1, -1) && Measured([], h) == h
  {
  }

  lemma {:induction false} RangeGrows(h: HeaderRows, cells: seq<Cell>, c: Cell, first: int, last: int)
    requires HeaderRange(h, cells, first, last)
    ensures !InHeaderRows(h, c) ==> HeaderRange(h, cells + [c], first, last)
    ensures InHeaderRows(h, c) ==> HeaderRange(h, cells + [c], if first < 0 then |cells| else first, |cells|)
  {
    hide InHeaderRows;
    forall i | 0 <= i < |cells| ensures (cells + [c])[i] == cells[i] {}
  }

  lemma {:induction false} MeasuredGrows(cells: seq<Cell>, c: Cell, h: seq<real>)
    requires 1 <= c.row <= |h|
    ensures var before := Measured(cells, h);
      Measured(cells + [c], h) ==
      if c.needs.Some? && c.needs.value > before[c.row - 1] then before[c.row - 1 := c.needs.value] else before
  {
    assert (cells + [c])[..|cells|] == cells;
  }

  /** The loop of GeneratePageBlocks that measures contents and finds the header cells. */
  method Measure(t: Table) returns (first: int, last: int)
    requires t.Valid()
    modifies t`rowHeights
    ensures t.Valid() && t.rowHeights == Measured(t.cells, old(t.rowHeights)) && HeaderRange(HeaderRowsOf(t), t.cells, first, last)
  {
    hide HeaderRange, Measured, InHeaderRows, Precedes;
    var heights, header := t.rowHeights, HeaderRowsOf(t);
    StartMeasure(header, heights);
    first, last := -1, -1;
    for k := 0 to |t.cells|
      invariant HeaderRange(header, t.cells[..k], first, last)
      invariant heights == Measured(t.cells[..k], old(t.rowHeights))
    {
      var cell := t.cells[k];
      assert t.cells[..k + 1] == t.cells[..k] + [cell];
      RangeGrows(header, t.cells[..k], cell, first, last);
      MeasuredGrows(t.cells[..k], cell, old(t.rowHeights));
      var h := heights[cell.row - 1];
      if InHeaderRows(header, cell) {
        if first < 0 {
          first := k;
        }
        last := k;
      }
      if cell.needs.Some? && cell.needs.value > h {
        heights := heights[cell.row - 1 := h + (cell.needs.value - h)];
      }
    }
    assert t.cells[..|t.cells|] == t.cells;
    t.rowHeights := heights;
  }

  lemma {:induction false} LayoutIsWellFormed(t: Table, first: int, last: int, c: Context)
    requires t.Valid() && HeaderRange(HeaderRowsOf(t), t.cells, first, last)
    ensures WellFormed(LayoutOf(t.cells, t.rowHeights, HeaderRowsOf(t), first, last, c))
  {
    forall i, j | 0 <= i <= j < |t.cells| ensures t.cells[i].row <= t.cells[j].row {
      assert i < j ==> Precedes(t.cells[i], t.cells[j]);
    }
  }

  /** The context in which the table is drawn has its start moved to the table's own place already. */
  method GeneratePageBlocks(t: Table, c: Context) returns (blocks: seq<Page>, ghost l: Layout)
    requires t.Valid()
    requires forall first, last :: HeaderRange(HeaderRowsOf(t), t.cells, first, last) && first >= 0 ==>
      RoomAtStarts(LayoutOf(t.cells, Measured(t.cells, t.rowHeights), HeaderRowsOf(t), first, last, c))
    modifies t`rowHeights
    ensures t.Valid() && t.rowHeights == Measured(t.cells, old(t.rowHeights))
    ensures l == LayoutOf(t.cells, t.rowHeights, HeaderRowsOf(t), l.first, l.last, c) && HeaderRange(HeaderRowsOf(t), t.cells, l.first, l.last)
    ensures |l.rows| == |t.cells| && (forall i :: 0 <= i < |t.cells| ==> l.rows[i] == t.cells[i].row)
    ensures l.heights == t.rowHeights && l.c == c && (t.hasHeader ==> l.headerRow == t.headerStartRow)
    ensures WellFormed(l) && exists breaks :: Drawn(l, blocks, breaks)
  {
    hide RoomAtStarts, Drawn, WellFormed, HeaderRange, Measured, Precedes, Height;
    ghost var header, cells, heights := HeaderRowsOf(t), t.cells, t.rowHeights;
    var first, last := Measure(t);
    assert HeaderRowsOf(t) == header && t.cells == cells;
    assert HeaderRange(header, cells, first, last);
    LayoutIsWellFormed(t, first, last, c);
    var layout := LayoutOf(t.cells, t.rowHeights, HeaderRowsOf(t), first, last, c);
    l := layout;
    blocks := DrawCells(layout);
  }

  // ----- What the pages show

  function Cells(page: Page): seq<nat> {
    if page == [] then [] else [page[0].cell] + Cells(page[1..])
  }

  function From(i: nat, j: nat): seq<nat>
    requires i <= j
  {
    if i == j then [] else From(i, j - 1) + [j - 1]
  }

  /** The cells of the table itself on pages from p on, the repeated headers left out. */
  function MainCells(l: Layout, pages: seq<Page>, p: nat): seq<nat>
    requires p <= |pages|
    decreases |pages| - p
  {
    if p == |pages| then []
    else Cells(if |Header(l, p)| <= |pages[p]| then pages[p][|Header(l, p)|..] else []) + MainCells(l, pages, p + 1)
  }

  lemma {:induction false} CellsAppend(a: Page, d: Draw)
    ensures Cells(a + [d]) == Cells(a) + [d.cell]
  {
    if a == [] {
      assert [d][1..] == [];
    } else {
      assert (a + [d])[1..] == a[1..] + [d];
      CellsAppend(a[1..], d);
    }
  }

  lemma {:induction false} CellsOfMainRun(l: Layout, p: nat, s: int, i: nat, j: nat)
    requires i <= j
    ensures Cells(MainRun(l, p, s, i, j)) == From(i, j)
  {
    if i < j {
      CellsOfMainRun(l, p, s, i, j - 1);
      CellsAppend(MainRun(l, p, s, i, j - 1), Draw(j - 1, Position(l, p, s, j - 1), RowHeight(l, j - 1)));
    }
  }

  lemma {:induction false} CellsOfHeaderRun(l: Layout, j: int)
    requires HasHeader(l) && l.first <= j
    ensures Cells(HeaderRun(l, j)) == From(l.first, j)
    decreases j - l.first
  {
    if j > l.first {
      CellsOfHeaderRun(l, j - 1);
      CellsAppend(HeaderRun(l, j - 1), HeaderRun(l, j)[|HeaderRun(l, j)| - 1]);
    }
  }

  lemma {:induction false} FromJoins(i: nat, j: nat, k: nat)
    requires i <= j <= k
    ensures From(i, j) + From(j, k) == From(i, k)
  {
    if j < k { FromJoins(i, j, k - 1); }
  }

  /** Every cell is drawn exactly once, in order. */
  lemma {:induction false} EachCellOnce(l: Layout, pages: seq<Page>, breaks: seq<nat>, p: nat)
    requires Drawn(l, pages, breaks) && p <= |pages|
    ensures breaks[p] <= |l.rows| && MainCells(l, pages, p) == From(breaks[p], |l.rows|)
    decreases |pages| - p
  {
    hide MainRun, HeaderRun, Cells;
    if p < |pages| {
      EachCellOnce(l, pages, breaks, p + 1);
      var run := MainRun(l, p, RowsBefore(l, p, breaks[p]), breaks[p], breaks[p + 1]);
      assert pages[p] == Header(l, p) + run;
      assert (Header(l, p) + run)[|Header(l, p)|..] == run;
      CellsOfMainRun(l, p, RowsBefore(l, p, breaks[p]), breaks[p], breaks[p + 1]);
      FromJoins(breaks[p], breaks[p + 1], |l.rows|);
    } else {
      assert MainCells(l, pages, p) == [] == From(breaks[p], |l.rows|);
    }
  }

  /** Every page after the first begins with the header cells, once and in order. */
  lemma {:induction false} HeaderOnEveryPage(l: Layout, pages: seq<Page>, breaks: seq<nat>, p: nat)
    requires WellFormed(l) && Drawn(l, pages, breaks) && 0 < p < |pages| && HasHeader(l)
    ensures Header(l, p) <= pages[p] && Cells(Header(l, p)) == From(l.first, l.last + 1)
  {
    CellsOfHeaderRun(l, l.last + 1);
    assert pages[p] == PageOf(l, p, breaks[p], breaks[p + 1]);
  }

  predicate Above(page: Page, limit: real) {
    forall d :: d in page ==> d.y + d.height <= limit
  }

  lemma {:induction false} MainRunAbove(l: Layout, p: nat, s: nat, i: nat, j: nat)
    requires s <= i <= j <= |l.rows|
    requires forall k :: i <= k < j ==> Fits(l, p, s, k)
    ensures Above(MainRun(l, p, RowsBefore(l, p, s), i, j), Limit(l))
  {
    hide Position, RowHeight;
    if i < j {
      MainRunAbove(l, p, s, i, j - 1);
      assert Fits(l, p, s, j - 1);
    }
  }

  lemma {:induction false} HeaderRunAbove(l: Layout, j: int)
    requires WellFormed(l) && HasHeader(l) && l.first <= j <= l.last + 1
    ensures Above(HeaderRun(l, j), Limit(l)) <==> forall k :: l.first <= k < j ==> HeaderCellFits(l, k)
    decreases j - l.first
  {
    hide Height;
    if j > l.first {
      HeaderRunAbove(l, j - 1);
      var d := Draw(j - 1, l.c.top + Height(l.heights, l.headerRow - 1, l.rows[j - 1] - 1), RowHeight(l, j - 1));
      HeaderDrawn(l, j - 1);
      assert d.y + d.height <= Limit(l) <==> HeaderCellFits(l, j - 1);
      hide HeaderRun, Above, HeaderCellFits;
      AboveOneMore(HeaderRun(l, j - 1), d, Limit(l));
    } else {
      NoHeaderCells(l);
    }
  }

  lemma {:induction false} AboveOneMore(page: Page, d: Draw, limit: real)
    ensures Above(page + [d], limit) <==> Above(page, limit) && d.y + d.height <= limit
  {
    assert d in page + [d] && forall e :: e in page ==> e in page + [d];
  }

  lemma {:induction false} AboveBoth(a: Page, b: Page, limit: real)
    ensures Above(a + b, limit) <==> Above(a, limit) && Above(b, limit)
  {
    assert forall d :: d in a + b <==> d in a || d in b;
  }

  lemma {:induction false} MainRunAt(l: Layout, p: nat, s: int, i: nat, j: nat, k: nat)
    requires i <= k < j
    ensures Draw(k, Position(l, p, s, k), RowHeight(l, k)) in MainRun(l, p, s, i, j)
  {
    hide Position;
    if k < j - 1 { MainRunAt(l, p, s, i, j - 1, k); }
  }

  lemma {:induction false} FirstOnPage(l: Layout, p: nat, i: nat)
    requires p > 0 && i < |l.rows|
    ensures Position(l, p, RowsBefore(l, p, i), i) == l.c.top + HeaderHeight(l) && (Fits(l, p, i, i) <==> FitsBelowHeader(l, i))
  {
  }

  /** Nothing on a page is drawn below the bottom margin if and only if there is room for the row it starts with, or it is the first page. */
  lemma {:induction false} NothingBelowTheMargin(l: Layout, pages: seq<Page>, breaks: seq<nat>, p: nat)
    requires WellFormed(l) && Drawn(l, pages, breaks) && p < |pages|
    ensures Above(pages[p], Limit(l)) <==> p == 0 || HasRoom(l, breaks[p])
  {
    hide HeaderRun, MainRun, HeaderHeight, Position, HeaderFits, FitsBelowHeader, Above;
    var i, j := breaks[p], breaks[p + 1];
    EachCellOnce(l, pages, breaks, p + 1);
    if p > 0 { FirstOnPage(l, p, i); }
    var run := MainRun(l, p, RowsBefore(l, p, i), i, j);
    AboveBoth(Header(l, p), run, Limit(l));
    HeaderAbove(l, p);
    if p == 0 || FitsBelowHeader(l, i) {
      MainRunAbove(l, p, i, i, j);
    } else {
      MainRunAt(l, p, RowsBefore(l, p, i), i, j, i);
      NotAbove(run, Draw(i, Position(l, p, RowsBefore(l, p, i), i), RowHeight(l, i)), Limit(l));
    }
  }

  lemma NotAbove(page: Page, d: Draw, limit: real)
    requires d in page && d.y + d.height > limit
    ensures !Above(page, limit)
  {
  }

  lemma {:induction false} HeaderAbove(l: Layout, p: nat)
    requires WellFormed(l)
    ensures Above(Header(l, p), Limit(l)) <==> p == 0 || HeaderFits(l)
  {
    hide HeaderRun, HeaderCellFits;
    if p > 0 && HasHeader(l) {
      HeaderRunAbove(l, l.last + 1);
    } else {
      NoHeaderCells(l);
    }
  }

  /** The pages of a drawn table are cut where StartOf says, and it starts no other page. */
  lemma {:induction false} DrawnStarts(l: Layout, pages: seq<Page>, breaks: seq<nat>, p: nat)
    requires Drawn(l, pages, breaks)
    ensures p < |pages| ==> breaks[p] == StartOf(l, p)
    ensures p >= |pages| ==> StartOf(l, p) == |l.rows|
    decreases p
  {
    hide Fits, PageOf;
    if p > 0 {
      DrawnStarts(l, pages, breaks, p - 1);
      if p <= |pages| {
        EachCellOnce(l, pages, breaks, p);
        var i := if p == 1 then 0 else breaks[p - 1] + 1;
        var _ := FirstNotFitting(l, p - 1, breaks[p - 1], i);
      }
    }
  }

  /** Nothing of a drawn table lies below the bottom margin if and only if each page after the first has room for the row it starts with. */
  lemma {:induction false} NothingBelowIff(l: Layout, pages: seq<Page>, breaks: seq<nat>)
    requires WellFormed(l) && Drawn(l, pages, breaks)
    ensures (forall p :: 0 <= p < |pages| ==> Above(pages[p], Limit(l))) <==> RoomAtStarts(l)
  {
    hide HasRoom, Above, StartOf, Fits, PageOf, WellFormed;
    forall p: nat
      ensures p < |pages| ==> breaks[p] == StartOf(l, p) && (Above(pages[p], Limit(l)) <==> p == 0 || HasRoom(l, breaks[p]))
      ensures 0 < p < |pages| ==> StartOf(l, p) < |l.rows|
      ensures p >= |pages| ==> StartOf(l, p) == |l.rows|
    {
      DrawnStarts(l, pages, breaks, p);
      if p < |pages| {
        NothingBelowTheMargin(l, pages, breaks, p);
        EachCellOnce(l, pages, breaks, p + 1);
      }
    }
    if RoomAtStarts(l) {
      forall p | 0 <= p < |pages| ensures Above(pages[p], Limit(l)) {}
    }
  }
}
