/** Adding contents to a block: the resources they use are given names that are free in the block's own tables. */
module ResourceMerge {
  import opened Options
  import opened Symbols
  import opened Objects
  import opened ParserSpec
  import opened RoundTrip
  import opened ContentSpec
  import opened Wrapping

  type Text = seq<byte>

  /** The six tables of a page's resources. */
  datatype Kind = XObject | Font | ColorSpace | Pattern | Shading | ExtGState

  datatype Key = Key(kind: Kind, name: Text)

  /**
   What a name stands for in a table: an object, which the getter of its table may refuse (a stream of no known
   subtype, say), a nil object, or a nil stream, on which the getter fails.
   */
  datatype Val = Entity(id: nat, readable: bool) | NilObject | NilStream

  type Tables = map<Key, Val>

  datatype Found = Thing(id: nat) | NotFound | Crash

  /** The getters. */
  function Get(t: Tables, k: Key): Found {
    if k !in t then NotFound
    else
      match t[k]
      case NilObject => NotFound
      case NilStream => Crash
      case Entity(id, readable) => if readable || k.kind.Font? || k.kind.ExtGState? || k.kind.ColorSpace? then Thing(id) else NotFound
  }

  /** Patterns and shadings are wrapped anew by every call of their getter, so no two are ever the same. */
  predicate Same(kind: Kind, a: nat, b: nat) {
    !kind.Pattern? && !kind.Shading? && a == b
  }

  /** Which table an operation takes a name from. */
  function Uses(op: Op): Option<Key> {
    if |op.params| == 0 || !op.params[0].Object? || !op.params[0].o.Name? then None
    else
      var n := op.params[0].o.name;
      var operand := op.operand;
      if operand == Ascii("Do") && |op.params| == 1 then Some(Key(XObject, n))
      else if operand == Ascii("Tf") && |op.params| == 2 then Some(Key(Font, n))
      else if (operand == Ascii("CS") || operand == Ascii("cs")) && |op.params| == 1 then Some(Key(ColorSpace, n))
      else if (operand == Ascii("SCN") || operand == Ascii("scn")) && |op.params| == 1 then Some(Key(Pattern, n))
      else if operand == Ascii("sh") && |op.params| == 1 then Some(Key(Shading, n))
      else if operand == Ascii("gs") && |op.params| == 1 then Some(Key(ExtGState, n))
      else None
  }

  function Renamed(op: Op, name: Text): Op
    requires Uses(op).Some?
  {
    op.(params := op.params[0 := Object(Name(name))])
  }

  // ----- The names that are tried, one after the other

  /** Which characters count as numbers and as space at the ends of a font's name. */
  datatype Classes = Classes(number: byte -> bool, space: byte -> bool)

  function TrimRight(s: Text, p: byte -> bool): Text {
    if s != [] && p(s[|s| - 1]) then TrimRight(s[..|s| - 1], p) else s
  }

  function TrimLeft(s: Text, p: byte -> bool): Text {
    if s != [] && p(s[0]) then TrimLeft(s[1..], p) else s
  }

  const FONT: Text := [0x46, 0x6F, 0x6E, 0x74]
  const GS: Text := [0x47, 0x53]

  function Prefix(c: Classes, name: Text): Text {
    var p := TrimRight(TrimLeft(TrimRight(name, c.space), c.space), c.number);
    if p == [] then FONT else p
  }

  function Zeros(n: nat): (z: Text)
    ensures |z| == n
  {
    if n == 0 then [] else Zeros(n - 1) + [ZERO]
  }

  function Candidate(c: Classes, k: Key, i: nat): Text {
    if i == 0 then k.name
    else
      match k.kind
      case Font => Prefix(c, k.name) + Digits(i)
      case ExtGState => GS + Digits(i)
      case _ => k.name + Zeros(i)
  }

  /** After the first, no two candidates are the same. */
  lemma {:induction false} CandidatesDiffer(c: Classes, k: Key, i: nat, j: nat)
    requires 0 < i && 0 < j && Candidate(c, k, i) == Candidate(c, k, j)
    ensures i == j
  {
    match k.kind
    case Font => DigitsDiffer(Prefix(c, k.name), i, j);
    case ExtGState => DigitsDiffer(GS, i, j);
    case _ =>
      assert |Candidate(c, k, i)| == |k.name| + i;
      assert |Candidate(c, k, j)| == |k.name| + j;
  }

  lemma {:induction false} DigitsDiffer(p: Text, i: nat, j: nat)
    requires p + Digits(i) == p + Digits(j)
    ensures i == j
  {
    assert Digits(i) == (p + Digits(i))[|p|..] == (p + Digits(j))[|p|..] == Digits(j);
    DigitsValueOfDigits(i);
    DigitsValueOfDigits(j);
  }

  /** Whether a name can be used for an object: it stands for nothing yet, or for that object. */
  predicate Free(t: Tables, k: Key, id: nat) {
    match Get(t, k)
    case NotFound => true
    case Thing(other) => Same(k.kind, other, id)
    case Crash => false
  }

  ghost function Untried(t: Tables, kind: Kind, tried: set<Text>): set<Text> {
    (set k | k in t && k.kind == kind :: k.name) - tried
  }

  ghost predicate NoNilStream(t: Tables) {
    forall k :: k in t ==> t[k] != NilStream
  }

  /** The loops that look for a name. Each ends, because a table is finite and the candidates differ. */
  method UnusedName(t: Tables, k: Key, id: nat, c: Classes) returns (ok: bool, name: Text)
    ensures ok ==> Free(t, Key(k.kind, name), id)
    ensures ok ==> exists i: nat :: name == Candidate(c, k, i) && forall j: nat :: j < i ==> !Free(t, Key(k.kind, Candidate(c, k, j)), id)
    ensures NoNilStream(t) ==> ok
  {
    hide Candidate;
    var i: nat := 0;
    name := k.name;
    ghost var tried: set<Text> := {};
    assert name == Candidate(c, k, 0) by { FirstCandidate(c, k); }
    while true
      invariant name == Candidate(c, k, i)
      invariant forall j: nat :: j < i ==> !Free(t, Key(k.kind, Candidate(c, k, j)), id)
      invariant forall n :: n in tried ==> exists j: nat :: 0 < j < i && n == Candidate(c, k, j)
      decreases |Untried(t, k.kind, tried)|, if i == 0 then 1 else 0
    {
      match Get(t, Key(k.kind, name)) {
        case NotFound => return true, name;
        case Crash => return false, name;
        case Thing(other) =>
          if Same(k.kind, other, id) {
            return true, name;
          }
      }
      if i > 0 {
        if name in tried {
          var j: nat :| 0 < j < i && name == Candidate(c, k, j);
          CandidatesDiffer(c, k, i, j);
        }
        Shrinks(t, Key(k.kind, name), tried);
        tried := tried + {name};
      }
      i := i + 1;
      name := Candidate(c, k, i);
    }
  }

  lemma {:induction false} FirstCandidate(c: Classes, k: Key)
    ensures Candidate(c, k, 0) == k.name
  {
  }

  lemma {:induction false} Shrinks(t: Tables, k: Key, tried: set<Text>)
    requires k in t && k.name !in tried
    ensures |Untried(t, k.kind, tried + {k.name})| < |Untried(t, k.kind, tried)|
  {
    assert Untried(t, k.kind, tried + {k.name}) == Untried(t, k.kind, tried) - {k.name};
    assert k.name in Untried(t, k.kind, tried);
  }

  // ----- What merging keeps

  /** The kinds whose setter is called even for a name the source does not have. */
  predicate Overwrites(kind: Kind) {
    kind.XObject? || kind.Font? || kind.ExtGState?
  }

  /** Every name that would overwrite something is found in the source, and no getter fails. */
  ghost predicate NamesFound(ops: seq<Op>, source: Tables) {
    forall i :: 0 <= i < |ops| && Uses(ops[i]).Some? && Overwrites(Uses(ops[i]).value.kind) ==> Get(source, Uses(ops[i]).value).Thing?
  }

  /** Every name still stands for the object it stood for. */
  ghost predicate Keeps(before: Tables, after: Tables) {
    forall k :: Get(before, k).Thing? ==> Get(after, k) == Get(before, k)
  }

  /** Every renamed name stands for the object its old name stands for in the source. */
  ghost predicate RenamesRight(renames: map<Key, Text>, source: Tables, after: Tables) {
    forall k :: k in renames ==> Get(source, k).Thing? && Get(after, Key(k.kind, renames[k])) == Get(source, k)
  }

  /** An operation and its copy: only a name may differ, and it stands for the same object. */
  ghost predicate SameMeaning(op: Op, copy: Op, source: Tables, after: Tables) {
    if Uses(op).Some? && Get(source, Uses(op).value).Thing? then
      Uses(copy).Some? && Uses(copy).value.kind == Uses(op).value.kind && copy == Renamed(op, Uses(copy).value.name)
      && Get(after, Uses(copy).value) == Get(source, Uses(op).value)
    else copy == op
  }

  lemma {:induction false} FreeSetKeeps(t: Tables, k: Key, v: Val, id: nat)
    requires Free(t, k, id) && (Get(t, k).Thing? ==> Get(t[k := v], k) == Thing(id))
    ensures Keeps(t, t[k := v])
  {
  }

  /** Where a name that the source does not have is entered, with nothing to stand for. */
  function Blanked(k: Key): Key {
    if k.kind.Font? then k else Key(k.kind, [])
  }

  /** Processing a name loses what it stood for. */
  predicate Loses(t: Tables, source: Tables, k: Key) {
    Overwrites(k.kind) && Get(source, k).NotFound? && Get(t, Blanked(k)).Thing?
  }

  /** No name that the source does not have takes the place of an object that is there before. */
  ghost predicate NothingToLose(ops: seq<Op>, source: Tables, before: Tables) {
    forall i :: 0 <= i < |ops| && Uses(ops[i]).Some? ==> !Loses(before, source, Uses(ops[i]).value)
  }

  lemma {:induction false} StillKeeps(before: Tables, was: Tables, now: Tables, source: Tables, k: Key)
    requires Keeps(before, was) && !Loses(before, source, k)
    requires !Loses(was, source, k) ==> Keeps(was, now)
    requires Get(source, k).NotFound? ==> forall j :: j != Blanked(k) ==> Get(now, j) == Get(was, j)
    ensures Keeps(before, now)
  {
  }

  lemma {:induction false} SetFree(t: Tables, k: Key, source: Tables, old_: Key, renames: map<Key, Text>, before: Tables)
    requires Keeps(before, t) && RenamesRight(renames, source, t) && NoNilStream(t)
    requires old_.kind == k.kind && Get(source, old_).Thing? && Free(t, k, Get(source, old_).id)
    ensures var after := t[k := source[old_]];
      && Keeps(before, after) && RenamesRight(renames[old_ := k.name], source, after) && NoNilStream(after)
      && Keeps(t, after)
  {
    var after := t[k := source[old_]];
    assert Get(after, k) == Get(source, old_);
    forall j | Get(t, j).Thing? ensures Get(after, j) == Get(t, j) {
      if j == k { assert Same(k.kind, Get(t, k).id, Get(source, old_).id); }
    }
  }

  /** A name that the source does not have was entered under this key, with nothing to stand for. */
  ghost predicate IsBlanked(names: map<Key, Text>, source: Tables, key: Key) {
    exists m :: m in names && Get(source, m).NotFound? && Blanked(m) == key
  }

  /** A name that the source has was entered under this key, and still stands for its object. */
  ghost predicate IsEntered(names: map<Key, Text>, source: Tables, t: Tables, key: Key) {
    exists j :: j in names && Get(source, j).Thing? && Key(j.kind, names[j]) == key && Get(t, key) == Get(source, j)
  }

  /**
   What the new names stand for, missing names among them: the new name of a found one stands for its object, unless a
   missing name was entered in its place; that of a missing one stands for no object but one that was entered there after it.
   */
  ghost predicate NamesStand(names: map<Key, Text>, source: Tables, t: Tables) {
    && (forall k :: k in names && Get(source, k).Thing? ==>
          Get(t, Key(k.kind, names[k])) == Get(source, k) || IsBlanked(names, source, Key(k.kind, names[k])))
    && (forall k :: k in names && !Get(source, k).Thing? ==>
          Get(source, k).NotFound? && Overwrites(k.kind) && names[k] == Blanked(k).name
          && (Get(t, Blanked(k)).Thing? ==> IsEntered(names, source, t, Blanked(k))))
  }

  lemma {:induction false} StillBlanked(names: map<Key, Text>, source: Tables, k: Key, name: Text, key: Key)
    requires k !in names && IsBlanked(names, source, key)
    ensures IsBlanked(names[k := name], source, key)
  {
    var m :| m in names && Get(source, m).NotFound? && Blanked(m) == key;
    assert m in names[k := name];
  }

  lemma {:induction false} StillEntered(names: map<Key, Text>, source: Tables, t: Tables, k: Key, name: Text, after: Tables, key: Key)
    requires k !in names && IsEntered(names, source, t, key) && Get(after, key) == Get(t, key)
    ensures IsEntered(names[k := name], source, after, key)
  {
    var j :| j in names && Get(source, j).Thing? && Key(j.kind, names[j]) == key && Get(t, key) == Get(source, j);
    assert j in names[k := name] && names[k := name][j] == names[j];
  }

  lemma {:induction false} EnterStands(names: map<Key, Text>, source: Tables, t: Tables, k: Key, name: Text)
    requires k !in names && NamesStand(names, source, t)
    requires Get(source, k).Thing? && Free(t, Key(k.kind, name), Get(source, k).id)
    ensures NamesStand(names[k := name], source, t[Key(k.kind, name) := source[k]])
  {
    var key := Key(k.kind, name);
    var names', after := names[k := name], t[key := source[k]];
    assert Get(after, key) == Get(source, k);
    hide Get, Blanked, IsBlanked, IsEntered;
    EnteredOnly(t, key, source[k]);
    forall j | j in names && Get(source, j).Thing?
      ensures Get(after, Key(j.kind, names'[j])) == Get(source, j) || IsBlanked(names', source, Key(j.kind, names'[j]))
    {
      if IsBlanked(names, source, Key(j.kind, names[j])) { StillBlanked(names, source, k, name, Key(j.kind, names[j])); }
    }
    forall j | j in names && !Get(source, j).Thing? && Get(after, Blanked(j)).Thing?
      ensures IsEntered(names', source, after, Blanked(j))
    {
      if Blanked(j) == key { NowEntered(names', source, after, k); } else { StillEntered(names, source, t, k, name, after, Blanked(j)); }
    }
  }

  lemma {:induction false} NowEntered(names: map<Key, Text>, source: Tables, t: Tables, k: Key)
    requires k in names && Get(source, k).Thing? && Get(t, Key(k.kind, names[k])) == Get(source, k)
    ensures IsEntered(names, source, t, Key(k.kind, names[k]))
  {
  }

  lemma EnteredOnly(t: Tables, key: Key, v: Val)
    ensures forall j :: j != key ==> Get(t[key := v], j) == Get(t, j)
  {
  }

  lemma {:induction false} BlankStands(names: map<Key, Text>, source: Tables, t: Tables, k: Key, v: Val)
    requires k !in names && NamesStand(names, source, t)
    requires Get(source, k).NotFound? && Overwrites(k.kind) && !v.Entity?
    ensures NamesStand(names[k := Blanked(k).name], source, t[Blanked(k) := v])
  {
    var key, name := Blanked(k), Blanked(k).name;
    var names', after := names[k := name], t[key := v];
    assert !Get(after, key).Thing?;
    assert k in names' && IsBlanked(names', source, key);
    hide Get, Blanked, IsBlanked, IsEntered;
    EnteredOnly(t, key, v);
    forall j | j in names && Get(source, j).Thing?
      ensures Get(after, Key(j.kind, names'[j])) == Get(source, j) || IsBlanked(names', source, Key(j.kind, names'[j]))
    {
      if IsBlanked(names, source, Key(j.kind, names[j])) { StillBlanked(names, source, k, name, Key(j.kind, names[j])); }
    }
    forall j | j in names && !Get(source, j).Thing? && Get(after, Blanked(j)).Thing?
      ensures IsEntered(names', source, after, Blanked(j))
    {
      StillEntered(names, source, t, k, name, after, Blanked(j));
    }
  }

  lemma {:induction false} NamedRight(names: map<Key, Text>, source: Tables, t: Tables, k: Key)
    requires k in names && NamesStand(names, source, t)
    ensures Get(source, k).Thing? || Overwrites(k.kind)
  {
  }

  /** The operations with their names replaced. */
  ghost predicate Renaming(ops: seq<Op>, copies: seq<Op>, names: map<Key, Text>) {
    |copies| == |ops| && forall i :: 0 <= i < |ops| ==> copies[i] == CopyOf(ops[i], names)
  }

  function CopyOf(op: Op, names: map<Key, Text>): Op {
    if Uses(op).Some? && Uses(op).value in names then Renamed(op, names[Uses(op).value]) else op
  }

  /** The names that are replaced: those the source has, and those that are entered without. */
  ghost predicate AllNamed(ops: seq<Op>, names: map<Key, Text>, source: Tables) {
    forall i :: 0 <= i < |ops| && Uses(ops[i]).Some? ==>
      (Uses(ops[i]).value in names <==> Get(source, Uses(ops[i]).value).Thing? || Overwrites(Uses(ops[i]).value.kind))
  }

  lemma {:induction false} RenamingGrows(ops: seq<Op>, i: nat, copies: seq<Op>, names: map<Key, Text>, names': map<Key, Text>, source: Tables)
    requires i < |ops| && Renaming(ops[..i], copies, names) && AllNamed(ops[..i], names, source)
    requires (forall k :: k in names ==> k in names' && names'[k] == names[k])
    requires forall k :: k in names' && k !in names ==> Uses(ops[i]) == Some(k) && (Get(source, k).Thing? || Overwrites(k.kind))
    requires Uses(ops[i]).Some? ==> (Uses(ops[i]).value in names' <==> Get(source, Uses(ops[i]).value).Thing? || Overwrites(Uses(ops[i]).value.kind))
    ensures Renaming(ops[..i + 1], copies + [CopyOf(ops[i], names')], names') && AllNamed(ops[..i + 1], names', source)
  {
    hide Get, Uses, Renamed;
    forall j | 0 <= j < i + 1
      ensures (copies + [CopyOf(ops[i], names')])[j] == CopyOf(ops[..i + 1][j], names')
      ensures Uses(ops[..i + 1][j]).Some? ==> (Uses(ops[..i + 1][j]).value in names' <==>
        Get(source, Uses(ops[..i + 1][j]).value).Thing? || Overwrites(Uses(ops[..i + 1][j]).value.kind))
    {
      if j < i { assert ops[..i][j] == ops[j]; }
    }
  }

  lemma {:induction false} KeepsMeaning(op: Op, copy: Op, source: Tables, t: Tables, after: Tables)
    requires SameMeaning(op, copy, source, t) && Keeps(t, after)
    ensures SameMeaning(op, copy, source, after)
  {
  }

  datatype Outcome = Merged | TypeError | Panicked

  class PageResources {
    var tables: Tables
    // Patterns and shadings can only be set where their table is a direct dictionary.
    const patternIsDirect: bool
    const shadingIsDirect: bool

    constructor (tables: Tables, patternIsDirect: bool, shadingIsDirect: bool)
      ensures this.tables == tables && this.patternIsDirect == patternIsDirect && this.shadingIsDirect == shadingIsDirect
    {
      this.tables := tables;
      this.patternIsDirect := patternIsDirect;
      this.shadingIsDirect := shadingIsDirect;
    }

    method Set(k: Key, v: Val) returns (ok: bool)
      modifies this
      ensures ok == ((k.kind.Pattern? ==> patternIsDirect) && (k.kind.Shading? ==> shadingIsDirect))
      ensures tables == if ok then old(tables)[k := v] else old(tables)
    {
      ok := (k.kind.Pattern? ==> patternIsDirect) && (k.kind.Shading? ==> shadingIsDirect);
      if ok { tables := tables[k := v]; }
    }
  }

  /** What the loop of mergeContents has reached: the tables, the renaming so far, and the copies made. */
  ghost predicate Reached(before: Tables, source: Tables, t: Tables, renames: map<Key, Text>) {
    NoNilStream(t) && Keeps(before, t) && RenamesRight(renames, source, t)
  }

  /** Finds a new name for one that is not processed yet, and enters it in the tables. */
  method Process(resources: PageResources, source: Tables, k: Key, c: Classes, ghost before: Tables, renames: map<Key, Text>)
    returns (outcome: Outcome, renames': map<Key, Text>)
    requires k !in renames
    modifies resources
    ensures outcome.Merged? ==> (forall j :: j in renames ==> j in renames' && renames'[j] == renames[j]) && renames'.Keys <= renames.Keys + {k}
    ensures outcome.Merged? ==> (Keeps(old(resources.tables), resources.tables) <==> !Loses(old(resources.tables), source, k))
    ensures outcome.Merged? && k !in renames' ==> resources.tables == old(resources.tables)
    ensures outcome.Merged? && NamesStand(renames, source, old(resources.tables)) ==> NamesStand(renames', source, resources.tables)
    ensures outcome.Merged? ==> (k in renames' <==> Get(source, k).Thing? || Overwrites(k.kind))
    ensures Get(source, k).NotFound? ==> forall j :: j != Blanked(k) ==> Get(resources.tables, j) == Get(old(resources.tables), j)
    ensures Safe(before, source, old(resources.tables), renames, k) && outcome.Merged? ==> (
      Reached(before, source, resources.tables, renames') && Keeps(old(resources.tables), resources.tables)
      && (k in renames' <==> Get(source, k).Thing?))
    ensures Safe(before, source, old(resources.tables), renames, k) && resources.patternIsDirect && resources.shadingIsDirect ==>
      outcome.Merged?
  {
    hide Candidate, NamesStand;
    renames' := renames;
    outcome := Merged;
    match Get(source, k)
    case Crash => outcome := Panicked;
    case Thing(id) =>
      var ok, name := UnusedName(resources.tables, k, id, c);
      if !ok {
        return Panicked, renames;
      }
      ghost var was := resources.tables;
      FreeSetKeeps(was, Key(k.kind, name), source[k], id);
      if NamesStand(renames, source, was) { EnterStands(renames, source, was, k, name); }
      if Safe(before, source, was, renames, k) {
        SetFree(was, Key(k.kind, name), source, k, renames, before);
      }
      var done := resources.Set(Key(k.kind, name), source[k]);
      if !done {
        return TypeError, renames;
      }
      renames' := renames[k := name];
    case NotFound =>
      if Overwrites(k.kind) && NamesStand(renames, source, resources.tables) {
        BlankStands(renames, source, resources.tables, k, if k.kind.XObject? then NilStream else NilObject);
      }
      match k.kind {
        case XObject =>
          var _ := resources.Set(Key(XObject, []), NilStream);
          renames' := renames[k := []];
        case Font =>
          var _ := resources.Set(k, NilObject);
          renames' := renames[k := k.name];
        case ExtGState =>
          var _ := resources.Set(Key(ExtGState, []), NilObject);
          renames' := renames[k := []];
        case _ =>
      }
  }

  ghost predicate Safe(before: Tables, source: Tables, t: Tables, renames: map<Key, Text>, k: Key) {
    Reached(before, source, t, renames) && (Overwrites(k.kind) ==> Get(source, k).Thing?) && NoNilStream(source)
  }

  ghost predicate Copied(ops: seq<Op>, copies: seq<Op>, source: Tables, t: Tables) {
    |copies| == |ops| && forall i :: 0 <= i < |ops| ==> SameMeaning(ops[i], copies[i], source, t)
  }

  lemma {:induction false} CopyOneMore(ops: seq<Op>, i: nat, copies: seq<Op>, copy: Op, source: Tables, t: Tables, after: Tables)
    requires i < |ops| && Copied(ops[..i], copies, source, t) && Keeps(t, after) && SameMeaning(ops[i], copy, source, after)
    ensures Copied(ops[..i + 1], copies + [copy], source, after)
  {
    hide SameMeaning;
    forall j | 0 <= j < i + 1 ensures SameMeaning(ops[..i + 1][j], (copies + [copy])[j], source, after) {
      if j < i {
        assert ops[..i][j] == ops[j];
        KeepsMeaning(ops[j], copies[j], source, t, after);
      }
    }
  }

  /** The copy of one operation, once its name is processed. */
  lemma {:induction false} CopyMeans(op: Op, k: Key, renames: map<Key, Text>, before: Tables, source: Tables, t: Tables)
    requires Uses(op) == Some(k) && Reached(before, source, t, renames) && (k in renames <==> Get(source, k).Thing?)
    ensures SameMeaning(op, if k in renames then Renamed(op, renames[k]) else op, source, t)
  {
    if k in renames {
      var copy := Renamed(op, renames[k]);
      assert Uses(copy) == Some(Key(k.kind, renames[k]));
    }
  }

  /**
   mergeContents. When every name that would overwrite is found, what was drawn before and what is added both keep
   the resources they had. For what was drawn before, it is enough that no name that is missing takes the place of an object.
   */
  method MergeContents(contents: seq<Op>, resources: PageResources, toAdd: seq<Op>, source: Tables, c: Classes)
    returns (outcome: Outcome, contents': seq<Op>, ghost names: map<Key, Text>)
    modifies resources
    ensures contents <= contents'
    ensures outcome.Merged? ==>
      Renaming(toAdd, contents'[|contents|..], names) && AllNamed(toAdd, names, source) && NamesStand(names, source, resources.tables)
    ensures NothingToLose(toAdd, source, old(resources.tables)) && outcome.Merged? ==> Keeps(old(resources.tables), resources.tables)
    ensures NamesFound(toAdd, source) && NoNilStream(source) && old(NoNilStream(resources.tables)) && outcome.Merged? ==> (
      Keeps(old(resources.tables), resources.tables) && Copied(toAdd, contents'[|contents|..], source, resources.tables))
    ensures (NamesFound(toAdd, source) && NoNilStream(source) && old(NoNilStream(resources.tables))
             && resources.patternIsDirect && resources.shadingIsDirect) ==> outcome.Merged?
  {
    hide Candidate;
    var renames: map<Key, Text> := map[];
    contents' := contents;
    ghost var before := resources.tables;
    ghost var good := NamesFound(toAdd, source) && NoNilStream(source) && NoNilStream(before);
    ghost var modest := NothingToLose(toAdd, source, before);
    ghost var copies: seq<Op> := [];
    for i := 0 to |toAdd|
      invariant contents' == contents + copies
      invariant Renaming(toAdd[..i], copies, renames) && AllNamed(toAdd[..i], renames, source)
      invariant NamesStand(renames, source, resources.tables)
      invariant modest ==> Keeps(before, resources.tables)
      invariant good ==> Reached(before, source, resources.tables, renames) && Copied(toAdd[..i], copies, source, resources.tables)
      invariant good ==> forall k :: k in renames ==> Get(source, k).Thing?
    {
      hide Copied, Reached, SameMeaning, Uses, Keeps, Loses, Get, Blanked, NamesStand, Renaming, AllNamed, Overwrites;
      var op := toAdd[i];
      ghost var was, named := resources.tables, renames;
      assert good ==> Keeps(was, was);
      match Uses(op) {
        case None =>
        case Some(k) =>
          if k !in renames {
            outcome, renames := Process(resources, source, k, c, before, renames);
            if !outcome.Merged? {
              return outcome, contents', renames;
            }
            if modest { StillKeeps(before, was, resources.tables, source, k); }
          } else {
            NamedRight(renames, source, resources.tables, k);
          }
          if good { CopyMeans(op, k, renames, before, source, resources.tables); }
          if k in renames {
            op := Renamed(op, renames[k]);
          }
      }
      if good { CopyOneMore(toAdd, i, copies, op, source, was, resources.tables); }
      RenamingGrows(toAdd, i, copies, named, renames, source);
      contents' := contents' + [op];
      copies := copies + [op];
    }
    assert toAdd[..|toAdd|] == toAdd;
    outcome, names := Merged, renames;
  }
}
