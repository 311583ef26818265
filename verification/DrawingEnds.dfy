/** When the loop that draws a table ends. */
module DrawingEnds {
  import opened Pagination

  /** In the header cells of a page. */
  predicate AmongHeaders(l: Layout, s: State) {
    && s.drawingHeaders && l.first <= s.cellIdx <= l.last
    && s.ulY == l.c.top && s.origHeight == Limit(l) - l.c.top && s.startrow == l.headerRow - 1
  }

  /** The states that the loop comes through as long as each page has room for the row it starts with. */
  ghost predicate OnTheWay(l: Layout, s: State) {
    var start := StartOf(l, s.pages);
    && (s.pages > 0 ==> start < |l.rows|)
    && if s.drawingHeaders then
         && HasHeader(l) && s.pages > 0 && s.resumeIdx == start && s.resumeStartRow == l.rows[start] - 1 && AmongHeaders(l, s)
       else
         && start <= s.cellIdx <= StartOf(l, s.pages + 1) && (s.pages > 0 && !HasHeader(l) ==> start < s.cellIdx)
         && s.origHeight == Limit(l) - Top(l, s.pages) && s.startrow == RowsBefore(l, s.pages, start)
  }

  /** The loop is at the first cell of a page with a header, which needs room there. */
  ghost predicate RoomOnThisPage(l: Layout, s: State) {
    HasHeader(l) && s.pages > 0 ==> HasRoom(l, StartOf(l, s.pages))
  }

  lemma {:induction false} StartsGrow(l: Layout, p: nat)
    ensures StartOf(l, p) <= StartOf(l, p + 1)
    ensures p > 0 && StartOf(l, p) < |l.rows| ==> StartOf(l, p) < StartOf(l, p + 1)
  {
  }

  lemma {:induction false} StartsGrowFurther(l: Layout, p: nat, q: nat)
    requires p <= q
    ensures StartOf(l, p) <= StartOf(l, q)
  {
    hide StartOf;
    if p < q {
      StartsGrowFurther(l, p, q - 1);
      StartsGrow(l, q - 1);
    }
  }

  /** How far the loop is from its end: cells that are not drawn yet, and then turns until the next of them is. */
  function Left(l: Layout, s: State): int {
    |l.rows| - if s.drawingHeaders then s.resumeIdx else s.cellIdx
  }

  function TurnsLeft(l: Layout, s: State): int {
    if s.drawingHeaders then 1 + |l.rows| - s.cellIdx else if s.pages > 0 && StartOf(l, s.pages) == s.cellIdx then 0 else 2 + |l.rows|
  }

  /** Inside the header the loop goes on to the next header cell, or to the cell that starts the page. */
  lemma {:induction false} TurnInHeader(l: Layout, s: State)
    requires WellFormed(l) && OnTheWay(l, s) && s.drawingHeaders && RoomOnThisPage(l, s)
    ensures var t := Turn(l, s); OnTheWay(l, t) && t.pages == s.pages && Left(l, t) == Left(l, s) && TurnsLeft(l, t) < TurnsLeft(l, s)
  {
    hide Height, StartOf;
    assert HeaderCellFits(l, s.cellIdx);
    StartsGrow(l, s.pages);
  }

  /** The loop turns the page at the cell that starts the next one, and nowhere else. */
  lemma {:induction false} FitsUntilNextStart(l: Layout, s: State)
    requires WellFormed(l) && OnTheWay(l, s) && !s.drawingHeaders && s.cellIdx < |l.rows| && RoomOnThisPage(l, s)
    ensures Fits(l, s.pages, StartOf(l, s.pages), s.cellIdx) <==> s.cellIdx < StartOf(l, s.pages + 1)
  {
    hide Fits, WellFormed, HeaderHeight, RowHeight;
    var start := StartOf(l, s.pages);
    var next := FirstNotFitting(l, s.pages, start, if s.pages == 0 then 0 else start + 1);
    assert next == StartOf(l, s.pages + 1);
    if s.pages > 0 && start == s.cellIdx { FirstOnPage(l, s.pages, start); }
  }

  lemma {:induction false} ComparesAsFits(l: Layout, s: State)
    requires WellFormed(l) && OnTheWay(l, s) && !s.drawingHeaders && s.cellIdx < |l.rows|
    ensures RowHeight(l, s.cellIdx) > s.origHeight - Height(l.heights, s.startrow, l.rows[s.cellIdx] - 1) <==>
      !Fits(l, s.pages, StartOf(l, s.pages), s.cellIdx)
  {
    hide StartOf, Height;
  }

  lemma {:induction false} TurnInTable(l: Layout, s: State)
    requires WellFormed(l) && OnTheWay(l, s) && !s.drawingHeaders && s.cellIdx < |l.rows| && RoomOnThisPage(l, s)
    requires s.cellIdx < StartOf(l, s.pages + 1)
    ensures var t := Turn(l, s); OnTheWay(l, t) && t.pages == s.pages && Left(l, t) < Left(l, s)
  {
    hide Height, StartOf, Fits;
    FitsUntilNextStart(l, s);
    ComparesAsFits(l, s);
  }

  lemma {:induction false} TurnToNextPage(l: Layout, s: State)
    requires WellFormed(l) && OnTheWay(l, s) && !s.drawingHeaders && s.cellIdx < |l.rows| && RoomOnThisPage(l, s)
    requires s.cellIdx == StartOf(l, s.pages + 1)
    ensures var t := Turn(l, s); OnTheWay(l, t) && t.pages == s.pages + 1 && (HasHeader(l) ==> t.drawingHeaders && t.cellIdx == l.first)
    ensures var t := Turn(l, s); Left(l, t) < Left(l, s) || (Left(l, t) == Left(l, s) && TurnsLeft(l, t) < TurnsLeft(l, s))
  {
    hide Height, StartOf, Fits;
    FitsUntilNextStart(l, s);
    ComparesAsFits(l, s);
    StartsGrow(l, s.pages);
    StartsGrow(l, s.pages + 1);
    NoHeight(l.heights, l.rows[s.cellIdx] - 1);
  }

  lemma {:induction false} NoHeight(h: seq<real>, i: int)
    ensures Height(h, i, i) == 0.0
  {
  }

  /** With room on the page the loop goes on, and comes nearer to its end. */
  lemma {:induction false} Advance(l: Layout, s: State)
    requires WellFormed(l) && OnTheWay(l, s) && s.cellIdx < |l.rows| && RoomOnThisPage(l, s)
    ensures var t := Turn(l, s); OnTheWay(l, t) && s.pages <= t.pages <= s.pages + 1
    ensures var t := Turn(l, s); t.pages > s.pages && HasHeader(l) ==> t.drawingHeaders && t.cellIdx == l.first
    ensures var t := Turn(l, s); Left(l, t) < Left(l, s) || (Left(l, t) == Left(l, s) && TurnsLeft(l, t) < TurnsLeft(l, s))
  {
    hide Turn, StartOf, Left, TurnsLeft, WellFormed, Top, RowsBefore;
    if s.drawingHeaders {
      TurnInHeader(l, s);
    } else if s.cellIdx < StartOf(l, s.pages + 1) {
      TurnInTable(l, s);
    } else {
      TurnToNextPage(l, s);
    }
  }

  lemma {:induction false} OneTurnFirst(l: Layout, s: State, n: nat)
    ensures Turns(l, s, n + 1) == Turns(l, Turn(l, s), n)
  {
    hide Turn;
    if n > 0 { OneTurnFirst(l, s, n - 1); }
  }

  lemma {:induction false} Ends(l: Layout, s: State) returns (n: nat)
    requires WellFormed(l) && OnTheWay(l, s) && (HasHeader(l) ==> RoomAtStarts(l))
    ensures Turns(l, s, n).cellIdx == |l.rows|
    decreases Left(l, s), TurnsLeft(l, s)
  {
    hide Turn, StartOf, HasRoom, Top, Height;
    if s.cellIdx == |l.rows| {
      n := 0;
    } else {
      Advance(l, s);
      var m := Ends(l, Turn(l, s));
      n := m + 1;
      OneTurnFirst(l, s, m);
    }
  }

  /** In the header of a page, or just after it, with cell i still to be drawn. */
  predicate WaitingFor(l: Layout, i: int, s: State) {
    0 <= i < |l.rows| &&
    if s.drawingHeaders then AmongHeaders(l, s) && s.resumeIdx == i && s.resumeStartRow == l.rows[i] - 1
    else s.cellIdx == i && s.startrow == l.rows[i] - 1 && s.origHeight == Limit(l) - l.c.top - HeaderHeight(l)
  }

  /** In the header, with a header cell still to come that does not fit. */
  ghost predicate BeforeUnfit(l: Layout, s: State) {
    AmongHeaders(l, s) && exists j :: s.cellIdx <= j <= l.last && !HeaderCellFits(l, j)
  }

  /** The header does not end when not all of it fits on a page; when it does end, cell i does not fit below it. */
  ghost predicate Stuck(l: Layout, i: int, s: State) {
    if HeaderFits(l) then WaitingFor(l, i, s) else BeforeUnfit(l, s)
  }

  lemma {:induction false} StaysStuck(l: Layout, i: nat, s: State)
    requires WellFormed(l) && HasHeader(l) && i < |l.rows| && !HasRoom(l, i) && Stuck(l, i, s)
    ensures Stuck(l, i, Turn(l, s))
  {
    hide Height, HeaderHeight;
    if HeaderFits(l) {
      if s.drawingHeaders { assert HeaderCellFits(l, s.cellIdx); } else { NoHeight(l.heights, l.rows[i] - 1); }
      HeaderEndsAtHeight(l);
    } else {
      StaysBeforeUnfit(l, s);
    }
  }

  lemma {:induction false} HeaderEndsAtHeight(l: Layout)
    requires WellFormed(l) && HasHeader(l)
    ensures HeaderHeight(l) == Height(l.heights, l.headerRow - 1, l.rows[l.last] - 1) + RowHeight(l, l.last)
  {
  }

  lemma {:induction false} StaysBeforeUnfit(l: Layout, s: State)
    requires WellFormed(l) && HasHeader(l) && BeforeUnfit(l, s)
    ensures BeforeUnfit(l, Turn(l, s))
  {
    hide Height;
    var j :| s.cellIdx <= j <= l.last && !HeaderCellFits(l, j);
    var t := Turn(l, s);
    assert t.cellIdx <= j;
  }

  lemma {:induction false} StuckAtFirst(l: Layout, s: State)
    requires WellFormed(l) && HasHeader(l) && OnTheWay(l, s) && s.drawingHeaders && s.cellIdx == l.first
    ensures Stuck(l, StartOf(l, s.pages), s)
  {
    hide StartOf, HeaderCellFits;
  }

  /** Let p be the first page without room for the row it starts with: it is begun again and again, and no later cell is ever drawn. */
  lemma {:induction false} NeverGetsPast(l: Layout, p: nat, n: nat)
    requires WellFormed(l) && HasHeader(l) && p > 0 && StartOf(l, p) < |l.rows| && !HasRoom(l, StartOf(l, p))
    requires forall q :: 0 < q < p ==> HasRoom(l, StartOf(l, q))
    ensures var s := Turns(l, Start(l), n); (OnTheWay(l, s) && s.pages < p) || Stuck(l, StartOf(l, p), s)
    ensures Turns(l, Start(l), n).cellIdx < |l.rows|
  {
    hide Turn, StartOf, HasRoom, HeaderHeight;
    if n > 0 {
      NeverGetsPast(l, p, n - 1);
      var s := Turns(l, Start(l), n - 1);
      if Stuck(l, StartOf(l, p), s) {
        StaysStuck(l, StartOf(l, p), s);
      } else {
        Advance(l, s);
        var t := Turn(l, s);
        if t.pages == p { StuckAtFirst(l, t); }
      }
    } else {
      AtStart(l);
    }
    var t := Turns(l, Start(l), n);
    if !Stuck(l, StartOf(l, p), t) { StartsGrowFurther(l, t.pages + 1, p); }
  }

  /** The first page, up to page p, without room for the row it starts with. */
  lemma {:induction false} FirstWithoutRoom(l: Layout, p: nat) returns (q: nat)
    requires p > 0 && StartOf(l, p) < |l.rows| && !HasRoom(l, StartOf(l, p))
    ensures q > 0 && StartOf(l, q) < |l.rows| && !HasRoom(l, StartOf(l, q))
    ensures forall k :: 0 < k < q ==> HasRoom(l, StartOf(l, k))
  {
    hide StartOf, HasRoom;
    if k: nat :| 0 < k < p && !HasRoom(l, StartOf(l, k)) {
      StartsGrowFurther(l, k, p);
      q := FirstWithoutRoom(l, k);
    } else {
      q := p;
    }
  }

  /** Drawing a table ends if and only if it has no header, or each page after the first has room for the header and the row it starts with. */
  lemma {:induction false} DrawingEndsIff(l: Layout)
    requires WellFormed(l)
    ensures (exists n: nat :: Turns(l, Start(l), n).cellIdx == |l.rows|) <==> !HasHeader(l) || RoomAtStarts(l)
  {
    hide StartOf, HasRoom, Turns, WellFormed;
    if !HasHeader(l) || RoomAtStarts(l) {
      AtStart(l);
      var n := Ends(l, Start(l));
    } else {
      var p: nat :| p > 0 && StartOf(l, p) < |l.rows| && !HasRoom(l, StartOf(l, p));
      var q := FirstWithoutRoom(l, p);
      forall n: nat ensures Turns(l, Start(l), n).cellIdx < |l.rows| {
        NeverGetsPast(l, q, n);
      }
    }
  }

  lemma {:induction false} AtStart(l: Layout)
    ensures OnTheWay(l, Start(l))
  {
    StartsGrow(l, 0);
  }
}
