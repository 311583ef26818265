/** Loading the cross references: sections are merged from the newest to the oldest. */
module XrefTables {

  /** Where an object is: at an offset of the file, or inside an object stream. Generations are not negative. */
  datatype XrefObject =
    | TableEntry(objNum: int, offset: int, gen: nat)
    | Compressed(objNum: int, osObjNum: int, osObjIndex: int)

  type ObjectMap = map<int, XrefObject>

  /** The Generation field; it is left zero for a compressed object. */
  function Generation(x: XrefObject): nat {
    if x.TableEntry? then x.gen else 0
  }

  // ----- The merge rule

  /** An entry is taken when its object is unknown; a table entry also when its generation is greater. */
  function Merge(t: ObjectMap, x: XrefObject): ObjectMap {
    if x.objNum !in t || (x.TableEntry? && x.gen > Generation(t[x.objNum])) then t[x.objNum := x] else t
  }

  function MergeAll(t: ObjectMap, xs: seq<XrefObject>): ObjectMap
    decreases xs
  {
    if xs == [] then t else MergeAll(Merge(t, xs[0]), xs[1..])
  }

  lemma {:induction false} MergeAllAppend(t: ObjectMap, xs: seq<XrefObject>, ys: seq<XrefObject>)
    ensures MergeAll(t, xs + ys) == MergeAll(MergeAll(t, xs), ys)
    decreases xs
  {
    if xs == [] {
      assert xs + ys == ys;
    } else {
      assert (xs + ys)[1..] == xs[1..] + ys;
      MergeAllAppend(Merge(t, xs[0]), xs[1..], ys);
    }
  }

  /** Entry i is the first of its object with the greatest generation. */
  ghost predicate IsBest(xs: seq<XrefObject>, i: nat)
    requires i < |xs|
  {
    && (forall j :: 0 <= j < |xs| && xs[j].objNum == xs[i].objNum ==> Generation(xs[j]) <= Generation(xs[i]))
    && (forall j :: 0 <= j < i && xs[j].objNum == xs[i].objNum ==> Generation(xs[j]) < Generation(xs[i]))
  }

  lemma {:induction false} BestAfterOneMore(xs: seq<XrefObject>, k: nat, i: nat)
    requires |xs| == k + 1 && i < k && IsBest(xs[..k], i)
    requires xs[k].objNum == xs[i].objNum ==> Generation(xs[k]) <= Generation(xs[i])
    ensures IsBest(xs, i)
  {
    hide Generation;
    assert forall j :: 0 <= j < k ==> xs[..k][j] == xs[j];
  }

  lemma {:induction false} LaterIsBest(xs: seq<XrefObject>, k: nat, i: nat)
    requires |xs| == k + 1 && i < k && IsBest(xs[..k], i)
    requires xs[k].objNum == xs[i].objNum && Generation(xs[k]) > Generation(xs[i])
    ensures IsBest(xs, k)
  {
    hide Generation;
    assert forall j :: 0 <= j < k ==> xs[..k][j] == xs[j];
  }

  /** The table of all entries of a list holds, for each object number, the first entry of greatest generation. */
  lemma {:induction false} TableHoldsBest(xs: seq<XrefObject>, n: int)
    ensures n in MergeAll(map[], xs) <==> exists i :: 0 <= i < |xs| && xs[i].objNum == n
    ensures n in MergeAll(map[], xs) ==>
      exists i :: 0 <= i < |xs| && xs[i].objNum == n && IsBest(xs, i) && MergeAll(map[], xs)[n] == xs[i]
    decreases |xs|
  {
    if xs != [] {
      var k := |xs| - 1;
      var front, x := xs[..k], xs[k];
      assert front + [x] == xs;
      MergeAllAppend(map[], front, [x]);
      var t := MergeAll(map[], front);
      assert MergeAll(map[], xs) == Merge(t, x);
      TableHoldsBest(front, n);
      hide MergeAll, IsBest;
      assert forall j :: 0 <= j < k ==> xs[j] == front[j];
      if n in t {
        var i :| 0 <= i < |front| && front[i].objNum == n && IsBest(front, i) && t[n] == front[i];
        if n == x.objNum && Generation(x) > Generation(t[n]) {
          LaterIsBest(xs, k, i);
          assert xs[k] == Merge(t, x)[n];
        } else {
          BestAfterOneMore(xs, k, i);
          assert xs[i] == Merge(t, x)[n];
        }
      } else if n == x.objNum {
        OnlyOne(xs, k);
        assert xs[k] == Merge(t, x)[n];
      }
    }
  }

  lemma {:induction false} OnlyOne(xs: seq<XrefObject>, k: nat)
    requires |xs| == k + 1 && forall j :: 0 <= j < k ==> xs[j].objNum != xs[k].objNum
    ensures IsBest(xs, k)
  {
  }

  // ----- Merging again what is merged already

  /** The table has the object with at least the generation of the entry. */
  predicate Covered(t: ObjectMap, x: XrefObject) {
    x.objNum in t && Generation(x) <= Generation(t[x.objNum])
  }

  lemma {:induction false} MergeCovers(t: ObjectMap, xs: seq<XrefObject>)
    ensures forall i :: 0 <= i < |xs| ==> Covered(MergeAll(t, xs), xs[i])
    ensures forall y :: Covered(t, y) ==> Covered(MergeAll(t, xs), y)
    decreases xs
  {
    if xs != [] {
      var t' := Merge(t, xs[0]);
      MergeCovers(t', xs[1..]);
      assert Covered(t', xs[0]);
      forall i | 0 <= i < |xs| ensures Covered(MergeAll(t, xs), xs[i]) {
        if i > 0 { assert xs[i] == xs[1..][i - 1]; }
      }
      assert forall y :: Covered(t, y) ==> Covered(t', y);
    }
  }

  lemma {:induction false} CoveredChangesNothing(t: ObjectMap, xs: seq<XrefObject>)
    requires forall i :: 0 <= i < |xs| ==> Covered(t, xs[i])
    ensures MergeAll(t, xs) == t
  {
    if xs != [] {
      assert Covered(t, xs[0]) && Merge(t, xs[0]) == t;
      CoveredChangesNothing(t, xs[1..]);
    }
  }

  // ----- The sections of a file

  datatype Pointer = Absent | Offset(off: int) | NotAnInteger

  /** A line of a conventional table, by the first pattern that it matches. */
  datatype Line =
    | Subsection(first: int)
    | EntryLine(offset: int, gen: nat, inUse: bool)
    | Trailer(readable: bool, prev: Pointer, xrefStm: Pointer)
    | EndOfFile
    | Other

  /** An entry of a cross-reference stream: its type and two numbers. */
  datatype Item = Item(ftype: int, n2: int, n3: nat)

  /**
   What is found at an offset. A stream that fails the checks before its rows are read is not valid and has no entries.
   Its items are the rows that are complete; when it is cut short, a row that is not complete comes after them.
   */
  datatype Section =
    | Table(lines: seq<Line>)
    | Stream(ownNumber: int, typesGiven: bool, indexList: seq<int>, items: seq<Item>, cutShort: bool, valid: bool, prev: Pointer, xrefStm: Pointer)

  /** The entries a section merges, whether it was read to its end, and the pointers of its trailer. */
  datatype Contents = Contents(entries: seq<XrefObject>, complete: bool, prev: Pointer, xrefStm: Pointer)

  const Unreadable := Contents([], false, Absent, Absent)

  function LineEntry(cur: int, line: Line): seq<XrefObject>
    requires line.EntryLine?
  {
    if line.inUse && line.offset > 1 then [TableEntry(cur, line.offset, line.gen)] else []
  }

  function Prefix(front: seq<XrefObject>, c: Contents): Contents {
    c.(entries := front + c.entries)
  }

  /** The lines from here on, when the next entry belongs to object number cur. */
  function TableContents(lines: seq<Line>, cur: int, inside: bool): Contents {
    if lines == [] then Unreadable
    else
      match lines[0]
      case Subsection(first) => TableContents(lines[1..], first, true)
      case EntryLine(_, _, _) =>
        if !inside then Unreadable
        else Prefix(LineEntry(cur, lines[0]), TableContents(lines[1..], cur + 1, inside))
      case Trailer(readable, prev, xrefStm) => if readable then Contents([], true, prev, xrefStm) else Unreadable
      case EndOfFile => Unreadable
      case Other => TableContents(lines[1..], cur, inside)
  }

  /** The entry of an item; one that points at the stream itself gets the stream's own number. */
  function ItemEntry(objNum: int, s: Section, xsOffset: int, item: Item): seq<XrefObject>
    requires s.Stream?
  {
    var ftype := if s.typesGiven then item.ftype else 1;
    if ftype == 1 then [TableEntry(if item.n2 == xsOffset then s.ownNumber else objNum, item.n2, item.n3)]
    else if ftype == 2 then [Compressed(objNum, item.n2, item.n3)]
    else []
  }

  function StreamEntries(s: Section, xsOffset: int, k: nat): seq<XrefObject>
    requires s.Stream? && k <= |s.items|
    decreases |s.items| - k
  {
    if k == |s.items| || k >= |s.indexList| then []
    else ItemEntry(s.indexList[k], s, xsOffset, s.items[k]) + StreamEntries(s, xsOffset, k + 1)
  }

  function SectionContents(s: Section, off: int): Contents {
    match s
    case Table(lines) => TableContents(lines, -1, false)
    case Stream(_, _, indexList, items, cutShort, valid, prev, xrefStm) =>
      if !valid then Unreadable
      else if cutShort && |items| <= |indexList| then Contents(StreamEntries(s, off, 0), false, Absent, Absent)
      else Contents(StreamEntries(s, off, 0), true, prev, xrefStm)
  }

  type File = map<int, Section>

  function ContentsAt(f: File, off: int): Contents {
    if off in f then SectionContents(f[off], off) else Unreadable
  }

  // ----- Following the Prev pointers

  /** All offsets that Prev pointers of the file name. */
  ghost function Targets(f: File): set<int> {
    set off | off in f && SectionContents(f[off], off).prev.Offset? :: SectionContents(f[off], off).prev.off
  }

  ghost function SeqSet(xs: seq<int>): set<int> {
    set i | 0 <= i < |xs| :: xs[i]
  }

  /** How the loop over Prev ends. A later Prev that is not an integer fails a type assertion. */
  datatype Ending = Finished | TypePanic

  datatype Walk = Walk(visited: seq<int>, ending: Ending)

  function Visit(off: int, w: Walk): Walk {
    w.(visited := [off] + w.visited)
  }

  /** A Prev offset that is not in the list yet brings the list closer to all Prev offsets of the file. */
  lemma NewTarget(f: File, off: int, prevList: seq<int>)
    requires ContentsAt(f, off).complete && ContentsAt(f, off).prev.Offset? && ContentsAt(f, off).prev.off !in prevList
    ensures var p := ContentsAt(f, off).prev.off;
      SeqSet(prevList + [p]) == SeqSet(prevList) + {p} && p in Targets(f) - SeqSet(prevList)
  {
    var p := ContentsAt(f, off).prev.off;
    var longer := prevList + [p];
    assert longer[|prevList|] == p && forall i :: 0 <= i < |prevList| ==> prevList[i] == longer[i];
  }

  /** The offsets read from off on, given the Prev offsets seen in the loop before. */
  function WalkFrom(f: File, off: int, prevList: seq<int>): Walk
    decreases Targets(f) - SeqSet(prevList)
  {
    var c := ContentsAt(f, off);
    if !c.complete then Walk([off], Finished)
    else if c.prev.Absent? then Walk([off], Finished)
    else if c.prev.NotAnInteger? then Walk([off], TypePanic)
    else if c.prev.off in prevList then Walk([off], Finished)
    else
      NewTarget(f, off, prevList);
      Visit(off, WalkFrom(f, c.prev.off, prevList + [c.prev.off]))
  }

  function EntriesOf(f: File, offs: seq<int>): seq<XrefObject> {
    if offs == [] then [] else ContentsAt(f, offs[0]).entries + EntriesOf(f, offs[1..])
  }

  lemma {:induction false} EntriesOfAppend(f: File, offs: seq<int>, more: seq<int>)
    ensures EntriesOf(f, offs + more) == EntriesOf(f, offs) + EntriesOf(f, more)
  {
    if offs == [] {
      assert offs + more == more;
    } else {
      assert (offs + more)[1..] == offs[1..] + more;
      EntriesOfAppend(f, offs[1..], more);
    }
  }

  /** No section is missed: whatever a visited trailer points to has been visited, in spite of the cycle check. */
  lemma {:induction false} WalkIsClosed(f: File, off: int, prevList: seq<int>, before: set<int>)
    requires SeqSet(prevList) <= before + {off}
    ensures var w := WalkFrom(f, off, prevList);
      off in w.visited &&
      forall v :: v in w.visited && ContentsAt(f, v).complete && ContentsAt(f, v).prev.Offset? ==>
        ContentsAt(f, v).prev.off in w.visited || ContentsAt(f, v).prev.off in before
    decreases Targets(f) - SeqSet(prevList)
  {
    var c := ContentsAt(f, off);
    if c.complete && c.prev.Offset? && c.prev.off !in prevList {
      var longer := prevList + [c.prev.off];
      NewTarget(f, off, prevList);
      WalkIsClosed(f, c.prev.off, longer, before + {off});
      var w, w' := WalkFrom(f, off, prevList), WalkFrom(f, c.prev.off, longer);
      assert w.visited == [off] + w'.visited && w.visited[0] == off;
      forall v | v in w.visited && ContentsAt(f, v).complete && ContentsAt(f, v).prev.Offset?
        ensures ContentsAt(f, v).prev.off in w.visited || ContentsAt(f, v).prev.off in before
      {
      }
    } else {
      assert [off][0] == off;
      if c.complete && c.prev.Offset? { assert c.prev.off in SeqSet(prevList); }
    }
  }

  /** A list of offsets with later visits of the same offset left out. */
  function FirstVisits(offs: seq<int>): seq<int> {
    if offs == [] then []
    else
      var k := |offs| - 1;
      if offs[k] in offs[..k] then FirstVisits(offs[..k]) else FirstVisits(offs[..k]) + [offs[k]]
  }

  lemma {:induction false} VisitCovers(f: File, offs: seq<int>, off: int)
    requires off in offs
    ensures var xs := ContentsAt(f, off).entries;
      forall i :: 0 <= i < |xs| ==> Covered(MergeAll(map[], EntriesOf(f, offs)), xs[i])
  {
    var k :| 0 <= k < |offs| && offs[k] == off;
    var xs, more := ContentsAt(f, off).entries, EntriesOf(f, offs[k + 1..]);
    assert offs == offs[..k] + offs[k..] && offs[k..][1..] == offs[k + 1..];
    EntriesOfAppend(f, offs[..k], offs[k..]);
    var t := MergeAll(map[], EntriesOf(f, offs[..k]));
    MergeAllAppend(map[], EntriesOf(f, offs[..k]), xs + more);
    MergeAllAppend(t, xs, more);
    MergeCovers(t, xs);
    MergeCovers(MergeAll(t, xs), more);
  }

  /** Visiting a section again, at whatever time later, changes nothing. */
  lemma {:induction false} RevisitsChangeNothing(f: File, offs: seq<int>)
    ensures MergeAll(map[], EntriesOf(f, offs)) == MergeAll(map[], EntriesOf(f, FirstVisits(offs)))
  {
    if offs != [] {
      var k := |offs| - 1;
      var front, off := offs[..k], offs[k];
      var xs := ContentsAt(f, off).entries;
      assert offs == front + [off];
      RevisitsChangeNothing(f, front);
      EntriesOfAppend(f, front, [off]);
      assert EntriesOf(f, [off]) == xs + [] == xs;
      MergeAllAppend(map[], EntriesOf(f, front), xs);
      if off in front {
        VisitCovers(f, front, off);
        CoveredChangesNothing(MergeAll(map[], EntriesOf(f, front)), xs);
      } else {
        EntriesOfAppend(f, FirstVisits(front), [off]);
        MergeAllAppend(map[], EntriesOf(f, FirstVisits(front)), xs);
      }
    }
  }

  // ----- The whole load

  datatype Outcome = Loaded | Failed | Panicked

  function StreamAt(f: File, off: int): Contents {
    if off in f && f[off].Stream? then ContentsAt(f, off) else Unreadable
  }

  /** The section that startxref names, and the stream that its trailer names. */
  function FirstSections(f: File, start: int): seq<int> {
    var c := ContentsAt(f, start);
    if c.complete && c.xrefStm.Offset? && c.xrefStm.off in f && f[c.xrefStm.off].Stream? then [start, c.xrefStm.off] else [start]
  }

  datatype Load = Load(visited: seq<int>, outcome: Outcome)

  /** The sections read, in order, from the one that startxref names. */
  function LoadPlan(f: File, start: int): Load {
    var c := ContentsAt(f, start);
    if !c.complete || c.xrefStm.NotAnInteger? then Load([start], Failed)
    else
      var first := FirstSections(f, start);
      if c.xrefStm.Offset? && !StreamAt(f, c.xrefStm.off).complete then Load(first, Failed)
      else if !c.prev.Offset? then Load(first, Loaded)
      else
        var w := WalkFrom(f, c.prev.off, []);
        Load(first + w.visited, if w.ending.TypePanic? then Panicked else Loaded)
  }

  /** The trailer was read and has a Prev that is not an integer. */
  predicate PrevIsBad(f: File, off: int) {
    ContentsAt(f, off).complete && ContentsAt(f, off).prev.NotAnInteger?
  }

  lemma {:induction false} WalkPanicsIff(f: File, off: int, prevList: seq<int>)
    ensures var w := WalkFrom(f, off, prevList);
      w.ending.TypePanic? <==> exists v :: v in w.visited && PrevIsBad(f, v)
    decreases Targets(f) - SeqSet(prevList)
  {
    var c := ContentsAt(f, off);
    var w := WalkFrom(f, off, prevList);
    assert w.visited[0] == off;
    if c.complete && c.prev.Offset? && c.prev.off !in prevList {
      NewTarget(f, off, prevList);
      var w' := WalkFrom(f, c.prev.off, prevList + [c.prev.off]);
      WalkPanicsIff(f, c.prev.off, prevList + [c.prev.off]);
      assert w.visited == [off] + w'.visited;
      assert forall v :: v in w.visited <==> v == off || v in w'.visited;
      assert !PrevIsBad(f, off);
    } else {
      assert forall v :: v in w.visited <==> v == off;
      assert w.ending.TypePanic? <==> PrevIsBad(f, off);
    }
  }

  /** Loading panics if and only if a section read after the first ones has a Prev that is not an integer. */
  lemma {:induction false} LoadPanicsIff(f: File, start: int)
    ensures var l, n := LoadPlan(f, start), |FirstSections(f, start)|;
      && FirstSections(f, start) <= l.visited
      && (l.outcome.Panicked? <==> exists v :: v in l.visited[n..] && PrevIsBad(f, v))
  {
    hide WalkFrom, SectionContents, PrevIsBad;
    var c, l, first := ContentsAt(f, start), LoadPlan(f, start), FirstSections(f, start);
    if l.visited == first {
      assert l.visited[|first|..] == [];
    }
    if c.prev.Offset? {
      WalkPanicsIff(f, c.prev.off, []);
      if l.visited != first { assert l.visited[|first|..] == WalkFrom(f, c.prev.off, []).visited; }
    }
  }

  /** Whatever the Prev pointers do, each object number ends with the earliest entry of greatest generation. */
  lemma {:induction false} LoadedTable(f: File, start: int, n: int)
    ensures var xs := EntriesOf(f, FirstVisits(LoadPlan(f, start).visited));
      var t := MergeAll(map[], EntriesOf(f, LoadPlan(f, start).visited));
      && (n in t <==> exists i :: 0 <= i < |xs| && xs[i].objNum == n)
      && (n in t ==> exists i :: 0 <= i < |xs| && xs[i].objNum == n && IsBest(xs, i) && t[n] == xs[i])
  {
    RevisitsChangeNothing(f, LoadPlan(f, start).visited);
    TableHoldsBest(EntriesOf(f, FirstVisits(LoadPlan(f, start).visited)), n);
  }

  function Walked(done: seq<int>, w: Walk): Walk {
    w.(visited := done + w.visited)
  }

  lemma WalkedFurther(done: seq<int>, off: int, w: Walk)
    ensures Walked(done, Visit(off, w)) == Walked(done + [off], w)
  {
    assert done + ([off] + w.visited) == done + [off] + w.visited;
  }

  lemma NothingVisited(f: File, t: ObjectMap)
    ensures MergeAll(t, EntriesOf(f, [])) == t
  {
  }

  lemma {:induction false} OneMoreVisit(f: File, t: ObjectMap, done: seq<int>, off: int)
    ensures MergeAll(t, EntriesOf(f, done + [off])) == MergeAll(MergeAll(t, EntriesOf(f, done)), ContentsAt(f, off).entries)
  {
    EntriesOfAppend(f, done, [off]);
    assert EntriesOf(f, [off]) == ContentsAt(f, off).entries + [] == ContentsAt(f, off).entries;
    MergeAllAppend(t, EntriesOf(f, done), ContentsAt(f, off).entries);
  }

  lemma {:induction false} RowsUpTo(s: Section, xsOffset: int, k: nat)
    requires s.Stream? && k <= |s.items|
    ensures StreamEntries(s, xsOffset, k) ==
      if k == |s.items| || k >= |s.indexList| then [] else ItemEntry(s.indexList[k], s, xsOffset, s.items[k]) + StreamEntries(s, xsOffset, k + 1)
    ensures SectionContents(s, xsOffset) ==
      if !s.valid then Unreadable
      else if s.cutShort && |s.items| <= |s.indexList| then Contents(StreamEntries(s, xsOffset, 0), false, Absent, Absent)
      else Contents(StreamEntries(s, xsOffset, 0), true, s.prev, s.xrefStm)
  {
  }

  lemma NothingMerged(t: ObjectMap)
    ensures MergeAll(t, []) == t
  {
  }

  lemma OneItem(t: ObjectMap, objNum: int, s: Section, xsOffset: int, item: Item)
    requires s.Stream?
    ensures var ftype := if s.typesGiven then item.ftype else 1;
      MergeAll(t, ItemEntry(objNum, s, xsOffset, item)) ==
      if ftype == 1 then Merge(t, TableEntry(if item.n2 == xsOffset then s.ownNumber else objNum, item.n2, item.n3))
      else if ftype == 2 then Merge(t, Compressed(objNum, item.n2, item.n3))
      else t
  {
  }

  class XrefLoader {
    var objectMap: ObjectMap

    method ParseXrefTable(lines: seq<Line>) returns (complete: bool, prev: Pointer, xrefStm: Pointer)
      modifies this
      ensures var c := TableContents(lines, -1, false);
        objectMap == MergeAll(old(objectMap), c.entries) && complete == c.complete && prev == c.prev && xrefStm == c.xrefStm
    {
      var curObjNum := -1;
      var insideSubsection := false;
      ghost var goal := TableContents(lines, -1, false);
      ghost var read: seq<XrefObject> := [];
      assert goal == Prefix(read, goal);
      for i := 0 to |lines|
        invariant goal == Prefix(read, TableContents(lines[i..], curObjNum, insideSubsection))
        invariant objectMap == MergeAll(old(objectMap), read)
      {
        assert lines[i..][0] == lines[i] && lines[i..][1..] == lines[i + 1..];
        match lines[i] {
          case Subsection(first) =>
            curObjNum, insideSubsection := first, true;
          case EntryLine(offset, gen, inUse) =>
            if !insideSubsection {
              assert read + [] == read;
              return false, Absent, Absent;
            }
            ghost var entry := LineEntry(curObjNum, lines[i]);
            MergeAllAppend(old(objectMap), read, entry);
            assert goal.entries == read + entry + TableContents(lines[i + 1..], curObjNum + 1, true).entries;
            read := read + entry;
            if inUse && offset > 1 {
              if curObjNum !in objectMap || gen > Generation(objectMap[curObjNum]) {
                objectMap := objectMap[curObjNum := TableEntry(curObjNum, offset, gen)];
              }
            }
            curObjNum := curObjNum + 1;
          case Trailer(readable, prev0, xrefStm0) =>
            assert read + [] == read;
            if readable {
              return true, prev0, xrefStm0;
            }
            return false, Absent, Absent;
          case EndOfFile =>
            assert read + [] == read;
            return false, Absent, Absent;
          case Other =>
        }
      }
      assert read + [] == read;
      return false, Absent, Absent;
    }

    /** One row: a free object is left out, and so is a type that is not known. */
    method MergeItem(objNum: int, s: Section, xsOffset: int, item: Item)
      requires s.Stream?
      modifies this
      ensures objectMap == MergeAll(old(objectMap), ItemEntry(objNum, s, xsOffset, item))
    {
      hide MergeAll, ItemEntry;
      OneItem(objectMap, objNum, s, xsOffset, item);
      var ftype := if s.typesGiven then item.ftype else 1;
      var n2, n3 := item.n2, item.n3;
      if ftype == 1 {
        var num := if n2 == xsOffset then s.ownNumber else objNum;
        if num !in objectMap || n3 > Generation(objectMap[num]) {
          objectMap := objectMap[num := TableEntry(num, n2, n3)];
        }
      } else if ftype == 2 {
        if objNum !in objectMap {
          objectMap := objectMap[objNum := Compressed(objNum, n2, n3)];
        }
      }
    }

    method ParseXrefStream(s: Section, xsOffset: int) returns (complete: bool, prev: Pointer, xrefStm: Pointer)
      requires s.Stream?
      modifies this
      ensures var c := SectionContents(s, xsOffset);
        objectMap == MergeAll(old(objectMap), c.entries) && complete == c.complete && prev == c.prev && xrefStm == c.xrefStm
    {
      hide MergeAll, ItemEntry, StreamEntries, SectionContents;
      RowsUpTo(s, xsOffset, 0);
      NothingMerged(objectMap);
      if !s.valid {
        return false, Absent, Absent;
      }
      ghost var goal := MergeAll(objectMap, StreamEntries(s, xsOffset, 0));
      var objIndex := 0;
      for i := 0 to |s.items|
        invariant objIndex == i <= |s.indexList|
        invariant goal == MergeAll(objectMap, StreamEntries(s, xsOffset, i))
      {
        RowsUpTo(s, xsOffset, i);
        if objIndex >= |s.indexList| {
          NothingMerged(objectMap);
          return true, s.prev, s.xrefStm;
        }
        var objNum := s.indexList[objIndex];
        objIndex := objIndex + 1;
        MergeAllAppend(objectMap, ItemEntry(objNum, s, xsOffset, s.items[i]), StreamEntries(s, xsOffset, i + 1));
        MergeItem(objNum, s, xsOffset, s.items[i]);
      }
      RowsUpTo(s, xsOffset, |s.items|);
      NothingMerged(objectMap);
      if s.cutShort {
        return false, Absent, Absent;
      }
      return true, s.prev, s.xrefStm;
    }

    method ParseXref(f: File, off: int) returns (complete: bool, prev: Pointer, xrefStm: Pointer)
      modifies this
      ensures var c := ContentsAt(f, off);
        objectMap == MergeAll(old(objectMap), c.entries) && complete == c.complete && prev == c.prev && xrefStm == c.xrefStm
    {
      if off !in f {
        return false, Absent, Absent;
      }
      if f[off].Stream? {
        complete, prev, xrefStm := ParseXrefStream(f[off], off);
      } else {
        complete, prev, xrefStm := ParseXrefTable(f[off].lines);
      }
    }

    /** The loop over the Prev pointers. */
    method FollowPrev(f: File, first: int) returns (outcome: Outcome)
      modifies this
      ensures var w := WalkFrom(f, first, []);
        objectMap == MergeAll(old(objectMap), EntriesOf(f, w.visited)) &&
        outcome == if w.ending.TypePanic? then Panicked else Loaded
    {
      hide MergeAll, SectionContents, EntriesOf, Targets;
      ghost var goal := WalkFrom(f, first, []);
      ghost var done: seq<int> := [];
      var prevList: seq<int> := [];
      var off := first;
      assert goal.visited == done + goal.visited;
      NothingVisited(f, objectMap);
      while true
        invariant goal == Walked(done, WalkFrom(f, off, prevList))
        invariant objectMap == MergeAll(old(objectMap), EntriesOf(f, done))
        decreases Targets(f) - SeqSet(prevList)
      {
        OneMoreVisit(f, old(objectMap), done, off);
        var complete, prev, _ := ParseXref(f, off);
        if complete && prev.Offset? && prev.off !in prevList {
          NewTarget(f, off, prevList);
          WalkedFurther(done, off, WalkFrom(f, prev.off, prevList + [prev.off]));
        }
        done := done + [off];
        if !complete || prev.Absent? {
          return Loaded;
        }
        if prev.NotAnInteger? {
          return Panicked;
        }
        if prev.off in prevList {
          return Loaded;
        }
        prevList := prevList + [prev.off];
        off := prev.off;
      }
    }

    /** The section at start, the stream its trailer names, and then the older sections. */
    method LoadXrefs(f: File, start: int) returns (outcome: Outcome)
      modifies this
      ensures var plan := LoadPlan(f, start);
        outcome == plan.outcome && objectMap == MergeAll(map[], EntriesOf(f, plan.visited))
    {
      hide WalkFrom, SectionContents;
      objectMap := map[];
      ghost var c := ContentsAt(f, start);
      assert EntriesOf(f, [start]) == c.entries + [] == c.entries;
      var complete, prev, xrefStm := ParseXref(f, start);
      if !complete {
        return Failed;
      }
      ghost var first := [start];
      match xrefStm {
        case NotAnInteger => return Failed;
        case Absent =>
        case Offset(o) =>
          if o !in f || !f[o].Stream? {
            return Failed;
          }
          first := [start, o];
          assert first == [start] + [o];
          EntriesOfAppend(f, [start], [o]);
          assert EntriesOf(f, [o]) == ContentsAt(f, o).entries + [] == ContentsAt(f, o).entries;
          MergeAllAppend(map[], c.entries, ContentsAt(f, o).entries);
          var ok, _, _ := ParseXrefStream(f[o], o);
          if !ok {
            return Failed;
          }
      }
      if !prev.Offset? {
        return Loaded;
      }
      ghost var w := WalkFrom(f, prev.off, []);
      EntriesOfAppend(f, first, w.visited);
      MergeAllAppend(map[], EntriesOf(f, first), EntriesOf(f, w.visited));
      outcome := FollowPrev(f, prev.off);
    }
  }
}
