/** How parsing a content stream goes on after complete operations, and how it ends where there is no complete one. */
module ContentEnds {
  import opened Options
  import opened Symbols
  import opened Objects
  import opened ContentSpec
  import opened ContentPrint
  import opened ContentRoundTrip
  import PS = ParserSpec

  function After(ops: seq<Operation>, o: Outcome): Outcome {
    match o
    case Parsed(more) => Parsed(ops + more)
    case _ => o
  }

  lemma {:induction false} OperationsBefore(ops: seq<Operation>, u: seq<byte>)
    requires forall i :: 0 <= i < |ops| ==> DirectOperation(ops[i]) && WritableOperation(ops[i])
    ensures ParseOps(PutOperations(ops, u), []) == After(ops, ParseOps(u, []))
  {
    hide ParseOps, WritableOperation, DirectOperation, PutOperation;
    var o := ParseOps(u, []);
    if ops == [] {
      if o.Parsed? { assert [] + o.ops == o.ops; }
    } else {
      OperationsBefore(ops[1..], u);
      OperationParsesBack(ops[0], PutOperations(ops[1..], u));
      if o.Parsed? { assert [ops[0]] + (ops[1..] + o.ops) == ops + o.ops; }
    }
  }

  /** What is read after the text of any operations does not depend on them. */
  lemma {:induction false} AfterOperations(ops: seq<Operation>, t: seq<byte>)
    requires forall i :: 0 <= i < |ops| ==> DirectOperation(ops[i])
    ensures forall i :: 0 <= i < |ops| ==> WritableOperation(ops[i])
    ensures Parse(Bytes(ops) + t) == After(ops, Parse(t))
  {
    hide ParseOps, PutOperations, WritableOperation, DirectOperation;
    forall i | 0 <= i < |ops| ensures WritableOperation(ops[i]) { DirectOperationIsWritable(ops[i]); }
    PutOperationsAppends(ops, t + [LF]);
    OperationsBefore(ops, t + [LF]);
    assert Bytes(ops) + t + [LF] == Bytes(ops) + (t + [LF]);
  }

  ghost predicate DirectParams(ps: seq<Arg>) {
    forall i :: 0 <= i < |ps| ==> ps[i].Object? && Direct(ps[i].o) && WritableArg(ps[i])
  }

  lemma {:induction false} ParamsBefore(ps: seq<Arg>, t: seq<byte>, done: seq<Arg>)
    requires DirectParams(ps)
    ensures ParseOps(PutParams(ps, t), done) == ParseOps(t, done + ps)
  {
    hide ParseObject, Put, Direct;
    if ps == [] {
      assert done + ps == done;
    } else {
      var rest := PutParams(ps[1..], t);
      ParsesBack(ps[0].o, [SP] + rest);
      SpaceBefore(SP, rest);
      ParamsBefore(ps[1..], t, done + [ps[0]]);
      assert done + [ps[0]] + ps[1..] == done + ps;
    }
  }

  lemma {:induction false} ParamsFirst(ps: seq<Arg>, t: seq<byte>)
    requires DirectParams(ps)
    ensures Parse(PutParams(ps, t)) == ParseOps(t + [LF], ps)
  {
    PutParamsAppends(ps, t, [LF]);
    ParamsBefore(ps, t + [LF], []);
    hide ParseOps, PutParams, DirectParams;
    assert [] + ps == ps;
  }

  /** Parameters without an operand are dropped, and no error is given. */
  lemma {:induction false} UnfinishedIsDropped(ps: seq<Arg>)
    requires DirectParams(ps)
    ensures Parse(PutParams(ps, [])) == Parsed([])
  {
    ParamsFirst(ps, []);
    assert [] + [LF] == [LF] && [LF][1..] == [];
  }

  /** A delimiter that begins nothing makes parsing fail, whatever comes after it. */
  lemma {:induction false} StrayDelimiterFails(ps: seq<Arg>, c: byte, k: seq<byte>)
    requires DirectParams(ps) && (c == 0x29 || c == 0x3E || c == 0x5D || c == 0x7B || c == 0x7D)
    ensures Parse(PutParams(ps, [c] + k)) == ParseError
  {
    hide DirectParams, PutParams;
    ParamsFirst(ps, [c] + k);
    Stray([c] + k + [LF]);
  }

  lemma {:induction false} Stray(s: seq<byte>)
    requires |s| >= 2 && (s[0] == 0x29 || s[0] == 0x3E || s[0] == 0x5D || s[0] == 0x7B || s[0] == 0x7D)
    ensures ParseObject(s) == Failed(Invalid)
  {
    assert SkipComments(s) == s;
    assert OperandText(s) == Ok([], s);
  }

  lemma {:induction false} NeverClosed(s: seq<byte>, count: int)
    requires 0x29 !in s
    ensures PS.LiteralBody(s, count).Failed?
    decreases |s|
  {
    if s != [] {
      if s[0] == BACKSLASH {
        var p := PS.Escape(s);
        if p.Ok? {
          assert p.rest == s[|s| - |p.rest|..];
          NeverClosed(p.rest, count);
        }
      } else {
        NeverClosed(s[1..], if s[0] == LPAREN then count + 1 else count);
      }
    }
  }

  /** A string that is never closed is dropped with all that comes after it, and no error is given. */
  lemma {:induction false} UnclosedStringIsDropped(ps: seq<Arg>, s: seq<byte>)
    requires DirectParams(ps) && 0x29 !in s
    ensures Parse(PutParams(ps, [0x28] + s)) == Parsed([])
  {
    hide DirectParams, PutParams, PS.LiteralBody;
    ParamsFirst(ps, [0x28] + s);
    NeverClosed(s + [LF], 1);
    var t := [0x28] + s + [LF];
    assert SkipComments(t) == t && t[1..] == s + [LF] && |t| >= 2;
  }
}
