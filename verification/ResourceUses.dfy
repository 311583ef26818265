/** Which operation takes a name from which table, and what its copy names after the contents are added to a block. */
module ResourceUses {
  import opened Options
  import opened Symbols
  import opened Objects
  import opened ContentSpec
  import opened Wrapping
  import opened ResourceMerge
  import RoundTrip
  import PS = ParserSpec

  // The bytes of the operands that take a name.
  const DO_TEXT: Text := [0x44, 0x6F]
  const TF_TEXT: Text := [0x54, 0x66]
  const STROKING_TEXT: Text := [0x43, 0x53]
  const FILLING_TEXT: Text := [0x63, 0x73]
  const STROKE_PATTERN_TEXT: Text := [0x53, 0x43, 0x4E]
  const FILL_PATTERN_TEXT: Text := [0x73, 0x63, 0x6E]
  const SHADING_TEXT: Text := [0x73, 0x68]
  const STATE_TEXT: Text := [0x67, 0x73]

  /** The operation has this operand, this many parameters, and the name for its first. */
  predicate Takes(op: Op, operand: Text, count: nat, n: Text) {
    op.operand == operand && |op.params| == count && count > 0 && op.params[0] == Object(Name(n))
  }

  /** The operation takes the name from the table of a kind (section 7.8.3 of PDF 32000-1). */
  predicate TakesFrom(op: Op, kind: Kind, n: Text) {
    match kind
    case XObject => Takes(op, DO_TEXT, 1, n)
    case Font => Takes(op, TF_TEXT, 2, n)
    case ColorSpace => Takes(op, STROKING_TEXT, 1, n) || Takes(op, FILLING_TEXT, 1, n)
    case Pattern => Takes(op, STROKE_PATTERN_TEXT, 1, n) || Takes(op, FILL_PATTERN_TEXT, 1, n)
    case Shading => Takes(op, SHADING_TEXT, 1, n)
    case ExtGState => Takes(op, STATE_TEXT, 1, n)
  }

  /** A table has an object under a name, and the object is one that its getter gives. */
  predicate Has(t: Tables, kind: Kind, n: Text, id: nat) {
    && Key(kind, n) in t && t[Key(kind, n)].Entity? && t[Key(kind, n)].id == id
    && (kind.XObject? || kind.Pattern? || kind.Shading? ==> t[Key(kind, n)].readable)
  }

  lemma {:induction false} HasIff(t: Tables, kind: Kind, n: Text, id: nat)
    ensures Has(t, kind, n, id) <==> Get(t, Key(kind, n)) == Thing(id)
  {
  }

  lemma {:induction false} OperandTexts()
    ensures Ascii("Do") == DO_TEXT && Ascii("Tf") == TF_TEXT && Ascii("CS") == STROKING_TEXT && Ascii("cs") == FILLING_TEXT
    ensures Ascii("SCN") == STROKE_PATTERN_TEXT && Ascii("scn") == FILL_PATTERN_TEXT
    ensures Ascii("sh") == SHADING_TEXT && Ascii("gs") == STATE_TEXT
  {
  }

  lemma {:induction false} UsesIff(op: Op, kind: Kind, n: Text)
    ensures Uses(op) == Some(Key(kind, n)) <==> TakesFrom(op, kind, n)
  {
    hide Ascii;
    OperandTexts();
  }

  /** The copy of an operation: only a name may differ, and it stands in the same table for the same object. */
  ghost predicate CopiedRight(op: Op, copy: Op, source: Tables, after: Tables) {
    && (forall kind, n, id :: TakesFrom(op, kind, n) && Has(source, kind, n, id) ==>
          exists m :: copy == Operation(op.operand, op.params[0 := Object(Name(m))]) && TakesFrom(copy, kind, m) && Has(after, kind, m, id))
    && ((forall kind, n, id :: TakesFrom(op, kind, n) ==> !Has(source, kind, n, id)) ==> copy == op)
  }

  lemma {:induction false} CopyIsRight(op: Op, copy: Op, source: Tables, after: Tables)
    requires SameMeaning(op, copy, source, after)
    ensures CopiedRight(op, copy, source, after)
  {
    assert forall kind, n :: TakesFrom(op, kind, n) ==> op.params != [];
    hide Uses, TakesFrom, Has, Get;
    forall kind, n, id | TakesFrom(op, kind, n) && Has(source, kind, n, id)
      ensures exists m :: copy == Operation(op.operand, op.params[0 := Object(Name(m))]) && TakesFrom(copy, kind, m) && Has(after, kind, m, id)
    {
      UsesIff(op, kind, n);
      HasIff(source, kind, n, id);
      var m := Uses(copy).value.name;
      UsesIff(copy, kind, m);
      HasIff(after, kind, m, id);
    }
    if Uses(op).Some? && Get(source, Uses(op).value).Thing? {
      var k := Uses(op).value;
      UsesIff(op, k.kind, k.name);
      HasIff(source, k.kind, k.name, Get(source, k).id);
    }
  }

  /** After a merge in which nothing is missing, every copy names what its operation named. */
  lemma {:induction false} CopiesAreRight(ops: seq<Op>, copies: seq<Op>, source: Tables, after: Tables)
    requires Copied(ops, copies, source, after)
    ensures |copies| == |ops| && forall i :: 0 <= i < |ops| ==> CopiedRight(ops[i], copies[i], source, after)
  {
    hide SameMeaning, CopiedRight;
    forall i | 0 <= i < |ops| ensures CopiedRight(ops[i], copies[i], source, after) { CopyIsRight(ops[i], copies[i], source, after); }
  }

  /** Nothing is missing: the source has every name of an external object, a font or a graphics state. */
  ghost predicate AllFound(ops: seq<Op>, source: Tables) {
    && (forall i, n :: 0 <= i < |ops| && TakesFrom(ops[i], XObject, n) ==> exists id :: Has(source, XObject, n, id))
    && (forall i, n :: 0 <= i < |ops| && TakesFrom(ops[i], Font, n) ==> exists id :: Has(source, Font, n, id))
    && (forall i, n :: 0 <= i < |ops| && TakesFrom(ops[i], ExtGState, n) ==> exists id :: Has(source, ExtGState, n, id))
  }

  lemma {:induction false} FoundOf(ops: seq<Op>, i: nat, kind: Kind, n: Text, source: Tables)
    requires NamesFound(ops, source) && i < |ops| && TakesFrom(ops[i], kind, n) && Overwrites(kind)
    ensures exists id :: Has(source, kind, n, id)
  {
    hide Uses, TakesFrom, Has, Get;
    UsesIff(ops[i], kind, n);
    HasIff(source, kind, n, Get(source, Key(kind, n)).id);
  }

  lemma {:induction false} AllFoundIff(ops: seq<Op>, source: Tables)
    ensures NamesFound(ops, source) <==> AllFound(ops, source)
  {
    hide Uses, TakesFrom, Has, Get;
    if NamesFound(ops, source) {
      forall i, kind, n | 0 <= i < |ops| && TakesFrom(ops[i], kind, n) && Overwrites(kind) ensures exists id :: Has(source, kind, n, id) {
        FoundOf(ops, i, kind, n, source);
      }
    }
    if AllFound(ops, source) {
      forall i | 0 <= i < |ops| && Uses(ops[i]).Some? && Overwrites(Uses(ops[i]).value.kind)
        ensures Get(source, Uses(ops[i]).value).Thing?
      {
        var k := Uses(ops[i]).value;
        UsesIff(ops[i], k.kind, k.name);
        var id :| Has(source, k.kind, k.name, id);
        HasIff(source, k.kind, k.name, id);
      }
    }
  }

  /** The copy of an operation whose name the source does not have. */
  function MissingCopy(op: Op, kind: Kind): Op
    requires op.params != []
  {
    if kind.XObject? || kind.ExtGState? then Operation(op.operand, op.params[0 := Object(Name([]))]) else op
  }

  /** Where a name is missing, an external object or a graphics state is named by nothing, and all else keeps its name. */
  lemma {:induction false} MissingAreBlanked(ops: seq<Op>, copies: seq<Op>, names: map<Key, Text>, source: Tables, after: Tables, i: nat, kind: Kind, n: Text)
    requires Renaming(ops, copies, names) && AllNamed(ops, names, source) && NamesStand(names, source, after)
    requires i < |ops| && TakesFrom(ops[i], kind, n) && forall id :: !Has(source, kind, n, id)
    ensures copies[i] == MissingCopy(ops[i], kind)
  {
    var op := ops[i];
    assert op.params[0] == Object(Name(n)) && op.params[0 := op.params[0]] == op.params;
    hide Uses, TakesFrom, Has, Get;
    UsesIff(op, kind, n);
    if Get(source, Key(kind, n)).Thing? { HasIff(source, kind, n, Get(source, Key(kind, n)).id); }
  }

  /** An operation that takes no name is copied as it is. */
  lemma {:induction false} OthersAreKept(ops: seq<Op>, copies: seq<Op>, names: map<Key, Text>, i: nat)
    requires Renaming(ops, copies, names) && i < |ops| && forall kind, n :: !TakesFrom(ops[i], kind, n)
    ensures copies[i] == ops[i]
  {
    hide Uses, TakesFrom;
    if Uses(ops[i]).Some? { UsesIff(ops[i], Uses(ops[i]).value.kind, Uses(ops[i]).value.name); }
  }

  // ----- The names that are tried

  predicate All(s: Text, p: byte -> bool) {
    forall i :: 0 <= i < |s| ==> p(s[i])
  }

  lemma {:induction false} TrimRightIs(s: Text, p: byte -> bool) returns (rest: Text)
    ensures var r := TrimRight(s, p); s == r + rest && All(rest, p) && (r != [] ==> !p(r[|r| - 1]))
  {
    if s != [] && p(s[|s| - 1]) {
      rest := TrimRightIs(s[..|s| - 1], p);
      assert s == TrimRight(s, p) + (rest + [s[|s| - 1]]);
      rest := rest + [s[|s| - 1]];
    } else {
      rest := [];
    }
  }

  lemma {:induction false} TrimLeftIs(s: Text, p: byte -> bool) returns (front: Text)
    ensures var r := TrimLeft(s, p); s == front + r && All(front, p) && (r != [] ==> !p(r[0]))
  {
    if s != [] && p(s[0]) {
      front := TrimLeftIs(s[1..], p);
      assert s == [s[0]] + front + TrimLeft(s, p);
      front := [s[0]] + front;
    } else {
      front := [];
    }
  }

  /** A font's name is taken apart into space, a prefix, a number and space; the prefix goes before the new number. */
  lemma {:induction false} PrefixIs(c: Classes, name: Text) returns (l: Text, p: Text, d: Text, r: Text)
    ensures name == l + (p + d) + r && All(l, c.space) && All(d, c.number) && All(r, c.space)
    ensures p + d != [] ==> !c.space((p + d)[0])
    ensures p != [] ==> !c.number(p[|p| - 1])
    ensures l + (p + d) != [] ==> !c.space((l + (p + d))[|l + (p + d)| - 1])
    ensures Prefix(c, name) == if p == [] then [0x46, 0x6F, 0x6E, 0x74] else p
  {
    hide All, TrimRight, TrimLeft;
    var a := TrimRight(name, c.space);
    r := TrimRightIs(name, c.space);
    var b := TrimLeft(a, c.space);
    l := TrimLeftIs(a, c.space);
    p := TrimRight(b, c.number);
    d := TrimRightIs(b, c.number);
  }

  lemma {:induction false} ZerosAreZeros(n: nat)
    ensures forall i :: 0 <= i < n ==> Zeros(n)[i] == 0x30
  {
    if n > 0 { ZerosAreZeros(n - 1); }
  }

  /** First the name itself, and then the prefix or GS with a number, or the name with so many zeros after it. */
  lemma {:induction false} CandidateIs(c: Classes, k: Key, i: nat) returns (d: Text)
    ensures Candidate(c, k, 0) == k.name
    ensures i > 0 && (k.kind.Font? || k.kind.ExtGState?) ==> PS.AllDigits(d) && PS.DigitsValue(d) == i
    ensures i > 0 && k.kind.Font? ==> Candidate(c, k, i) == Prefix(c, k.name) + d
    ensures i > 0 && k.kind.ExtGState? ==> Candidate(c, k, i) == [0x47, 0x53] + d
    ensures i > 0 && !k.kind.Font? && !k.kind.ExtGState? ==>
      Candidate(c, k, i) == k.name + d && |d| == i && forall j :: 0 <= j < i ==> d[j] == 0x30
  {
    if i > 0 && (k.kind.Font? || k.kind.ExtGState?) {
      DigitsAre(i);
      d := Digits(i);
    } else {
      ZerosAreZeros(i);
      d := Zeros(i);
    }
  }

  lemma {:induction false} DigitsAre(i: nat)
    ensures PS.AllDigits(Digits(i)) && PS.DigitsValue(Digits(i)) == i
  {
    RoundTrip.DigitsValueOfDigits(i);
  }

  /** A name is free if it stands for no object and is not bound to a nil stream, or stands for the very object; patterns and shadings are never the same. */
  lemma {:induction false} FreeIff(t: Tables, k: Key, id: nat)
    ensures Free(t, k, id) <==>
      !(k in t && t[k].NilStream?)
      && forall other :: Has(t, k.kind, k.name, other) ==> other == id && !k.kind.Pattern? && !k.kind.Shading?
  {
    assert Key(k.kind, k.name) == k;
    if Get(t, k).Thing? { HasIff(t, k.kind, k.name, Get(t, k).id); }
    forall other ensures Has(t, k.kind, k.name, other) <==> Get(t, k) == Thing(other) { HasIff(t, k.kind, k.name, other); }
  }
}
