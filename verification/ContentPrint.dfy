/** Writing operations as a content stream. */
module ContentPrint {
  import opened Symbols
  import opened Objects
  import opened ContentSpec
  import opened InlineData

  ghost predicate WritableArg(a: Arg) {
    match a
    case Object(o) => Writable(o)
    case InlineImage(im) => forall f :: f in im.params ==> Writable(im.params[f])
  }

  /** The writer takes the first parameter of BI, and nothing else of it. */
  ghost predicate WritableOperation(op: Operation) {
    (forall i :: 0 <= i < |op.params| ==> WritableArg(op.params[i])) && (op.operand == BI_TEXT ==> op.params != [])
  }

  function PutFields(fs: seq<Field>, params: map<Field, Obj>, k: seq<byte>): seq<byte>
    requires forall f :: f in params ==> Writable(params[f])
  {
    if fs == [] then k
    else if fs[0] in params then
      [SLASH] + (Ascii(Abbreviation(fs[0])) + ([SP] + Put(params[fs[0]], [LF] + PutFields(fs[1..], params, k))))
    else PutFields(fs[1..], params, k)
  }

  function PutData(data: seq<byte>, k: seq<byte>): seq<byte> {
    ID_TEXT + ([SP] + (data + (END_OF_IMAGE + k)))
  }

  function PutArg(a: Arg, k: seq<byte>): seq<byte>
    requires WritableArg(a)
  {
    match a
    case Object(o) => Put(o, k)
    case InlineImage(im) => PutFields(FIELDS, im.params, PutData(im.data, k))
  }

  function PutParams(ps: seq<Arg>, k: seq<byte>): seq<byte>
    requires forall i :: 0 <= i < |ps| ==> WritableArg(ps[i])
  {
    if ps == [] then k else PutArg(ps[0], [SP] + PutParams(ps[1..], k))
  }

  function PutOperation(op: Operation, k: seq<byte>): seq<byte>
    requires WritableOperation(op)
  {
    if op.operand == BI_TEXT then op.operand + ([LF] + PutArg(op.params[0], k))
    else PutParams(op.params, op.operand + ([LF] + k))
  }

  function PutOperations(ops: seq<Operation>, k: seq<byte>): seq<byte>
    requires forall i :: 0 <= i < |ops| ==> WritableOperation(ops[i])
  {
    if ops == [] then k else PutOperation(ops[0], PutOperations(ops[1..], k))
  }

  /** The bytes of a list of operations. */
  function Bytes(ops: seq<Operation>): seq<byte>
    requires forall i :: 0 <= i < |ops| ==> WritableOperation(ops[i])
  {
    PutOperations(ops, [])
  }

  // ----- Writing in front of k is writing followed by k.

  lemma {:induction false} PutFieldsAppends(fs: seq<Field>, params: map<Field, Obj>, a: seq<byte>, k: seq<byte>)
    requires forall f :: f in params ==> Writable(params[f])
    ensures PutFields(fs, params, a + k) == PutFields(fs, params, a) + k
  {
    if fs != [] {
      PutFieldsAppends(fs[1..], params, a, k);
      if fs[0] in params {
        var o, rest := params[fs[0]], PutFields(fs[1..], params, a);
        assert [LF] + (rest + k) == [LF] + rest + k;
        PutAppends(o, [LF] + rest);
        PutAppends(o, [LF] + rest + k);
        var name := Ascii(Abbreviation(fs[0]));
        calc {
          PutFields(fs, params, a + k);
          [SLASH] + (name + ([SP] + (Text(o) + ([LF] + rest + k))));
          [SLASH] + (name + ([SP] + (Text(o) + ([LF] + rest)))) + k;
          PutFields(fs, params, a) + k;
        }
      }
    }
  }

  lemma {:induction false} PutArgAppends(a: Arg, k: seq<byte>)
    requires WritableArg(a)
    ensures PutArg(a, k) == PutArg(a, []) + k
  {
    match a
    case Object(o) => PutAppends(o, k);
    case InlineImage(im) =>
      assert PutData(im.data, k) == PutData(im.data, []) + k;
      PutFieldsAppends(FIELDS, im.params, PutData(im.data, []), k);
  }

  lemma {:induction false} PutParamsAppends(ps: seq<Arg>, a: seq<byte>, k: seq<byte>)
    requires forall i :: 0 <= i < |ps| ==> WritableArg(ps[i])
    ensures PutParams(ps, a + k) == PutParams(ps, a) + k
  {
    if ps != [] {
      PutParamsAppends(ps[1..], a, k);
      var rest := PutParams(ps[1..], a);
      PutArgAppends(ps[0], [SP] + rest);
      PutArgAppends(ps[0], [SP] + (rest + k));
      assert PutArg(ps[0], []) + ([SP] + (rest + k)) == PutArg(ps[0], []) + ([SP] + rest) + k;
    }
  }

  lemma {:induction false} PutOperationAppends(op: Operation, k: seq<byte>)
    requires WritableOperation(op)
    ensures PutOperation(op, k) == PutOperation(op, []) + k
  {
    if op.operand == BI_TEXT {
      PutArgAppends(op.params[0], k);
      var t := PutArg(op.params[0], []);
      assert op.operand + ([LF] + (t + k)) == op.operand + ([LF] + t) + k;
    } else {
      assert op.operand + ([LF] + k) == op.operand + ([LF] + []) + k;
      PutParamsAppends(op.params, op.operand + ([LF] + []), k);
    }
  }

  lemma {:induction false} PutOperationsAppends(ops: seq<Operation>, k: seq<byte>)
    requires forall i :: 0 <= i < |ops| ==> WritableOperation(ops[i])
    ensures PutOperations(ops, k) == Bytes(ops) + k
  {
    if ops != [] {
      hide PutOperation, WritableOperation;
      PutOperationsAppends(ops[1..], k);
      var a, b := PutOperation(ops[0], []), Bytes(ops[1..]);
      PutOperationAppends(ops[0], b + k);
      PutOperationAppends(ops[0], b);
      assert a + (b + k) == a + b + k;
    }
  }
}
