/** The primitive PDF objects of section 7.3 of PDF 32000-1 and their printed form. */
module Objects {
  import opened Options
  import opened Symbols

  /** A direct object. A number with a fraction is kept as the text it was read from. */
  datatype Obj =
    | Null
    | Bool(b: bool)
    | Int(n: int64)
    | Float(lexeme: seq<byte>)
    | Name(name: seq<byte>)
    | Str(val: seq<byte>, isHex: bool)
    | Ref(objNum: int64, genNum: int64)
    | Arr(elems: seq<Obj>)
    | Dict(entries: seq<Entry>)

  /** One key with its value; a dictionary lists its keys in the order they were first set. */
  datatype Entry = Entry(key: seq<byte>, val: Obj)

  /** The value of a key, if the dictionary has the key. */
  function Lookup(d: seq<Entry>, key: seq<byte>): Option<Obj> {
    if d == [] then None else if d[0].key == key then Some(d[0].val) else Lookup(d[1..], key)
  }

  /** Overwrites the value of a key where it stands, or appends the key. */
  function SetEntry(d: seq<Entry>, key: seq<byte>, val: Obj): seq<Entry> {
    if d == [] then [Entry(key, val)]
    else if d[0].key == key then [Entry(key, val)] + d[1..]
    else [d[0]] + SetEntry(d[1..], key, val)
  }

  predicate DistinctKeys(d: seq<Entry>) {
    d != [] ==> Lookup(d[1..], d[0].key) == None && DistinctKeys(d[1..])
  }

  lemma {:induction false} LookupAfterSet(d: seq<Entry>, key: seq<byte>, val: Obj, other: seq<byte>)
    ensures Lookup(SetEntry(d, key, val), other) == if other == key then Some(val) else Lookup(d, other)
  {
    if d != [] {
      LookupAfterSet(d[1..], key, val, other);
    }
  }

  lemma {:induction false} SetKeepsKeysDistinct(d: seq<Entry>, key: seq<byte>, val: Obj)
    requires DistinctKeys(d)
    ensures DistinctKeys(SetEntry(d, key, val))
  {
    if d != [] && d[0].key != key {
      SetKeepsKeysDistinct(d[1..], key, val);
      LookupAfterSet(d[1..], key, val, d[0].key);
    }
  }

  lemma {:induction false} SetOfNewKeyAppends(d: seq<Entry>, key: seq<byte>, val: Obj)
    requires Lookup(d, key) == None
    ensures SetEntry(d, key, val) == d + [Entry(key, val)]
  {
    if d != [] {
      SetOfNewKeyAppends(d[1..], key, val);
    }
  }

  /** What the writer needs: no fractional number anywhere. */
  ghost predicate Writable(o: Obj) {
    match o
    case Float(_) => false
    case Arr(es) => forall i :: 0 <= i < |es| ==> Writable(es[i])
    case Dict(d) => forall i :: 0 <= i < |d| ==> Writable(d[i].val)
    case _ => true
  }

  // ----- Printed form. Each function puts the text of its subject in front of k.

  /** The decimal digits of n. */
  function Digits(n: nat): (d: seq<byte>)
    ensures d != []
    ensures forall i :: 0 <= i < |d| ==> IsDecimalDigit(d[i])
  {
    if n < 10 then [ZERO + n] else Digits(n / 10) + [ZERO + n % 10]
  }

  function FormatInt(n: int64): seq<byte> {
    var m: int := n;
    if m < 0 then [MINUS] + Digits(-m) else Digits(m)
  }

  predicate NeedsHexEscape(c: byte) {
    !IsPrintable(c) || c == HASH || IsDelimiter(c)
  }

  function PutNameBody(n: seq<byte>, k: seq<byte>): seq<byte> {
    if n == [] then k
    else if NeedsHexEscape(n[0]) then
      [HASH, HexDigit(n[0] / 16), HexDigit(n[0] % 16)] + PutNameBody(n[1..], k)
    else [n[0]] + PutNameBody(n[1..], k)
  }

  /** The letter after the backslash in the writer's table of escape sequences, if the byte is in it. */
  function EscapeLetter(c: byte): (l: seq<byte>)
    ensures |l| <= 1
  {
    if c == LF then [0x6E] else if c == CR then [0x72] else if c == TAB then [0x74]
    else if c == 0x08 then [0x62] else if c == 0x0C then [0x66]
    else if c == LPAREN || c == RPAREN || c == BACKSLASH then [c]
    else []
  }

  function PutLiteralBody(v: seq<byte>, k: seq<byte>): seq<byte> {
    if v == [] then [RPAREN] + k
    else if EscapeLetter(v[0]) != [] then [BACKSLASH, EscapeLetter(v[0])[0]] + PutLiteralBody(v[1..], k)
    else [v[0]] + PutLiteralBody(v[1..], k)
  }

  function PutHexBody(v: seq<byte>, k: seq<byte>): seq<byte> {
    if v == [] then [GREATER] + k
    else [HexDigit(v[0] / 16), HexDigit(v[0] % 16)] + PutHexBody(v[1..], k)
  }

  function Put(o: Obj, k: seq<byte>): seq<byte>
    requires Writable(o)
    decreases o, 1
  {
    match o
    case Null => NULL_TEXT + k
    case Bool(b) => (if b then TRUE_TEXT else FALSE_TEXT) + k
    case Int(n) => FormatInt(n) + k
    case Name(n) => [SLASH] + PutNameBody(n, k)
    case Str(v, isHex) => if isHex then [LESS] + PutHexBody(v, k) else [LPAREN] + PutLiteralBody(v, k)
    case Ref(n, g) => FormatInt(n) + ([SP] + (FormatInt(g) + ([SP, UPPER_R] + k)))
    case Arr(es) => [LBRACKET] + PutElems(es, k)
    case Dict(d) => [LESS, LESS] + PutEntries(d, k)
  }

  /** Elements are separated by one space; the bracket closes the last one. */
  function PutElems(es: seq<Obj>, k: seq<byte>): seq<byte>
    requires forall i :: 0 <= i < |es| ==> Writable(es[i])
    decreases es, 0
  {
    if es == [] then [RBRACKET] + k
    else if |es| == 1 then Put(es[0], [RBRACKET] + k)
    else Put(es[0], [SP] + PutElems(es[1..], k))
  }

  /** Nothing separates a value from the key after it. */
  function PutEntries(d: seq<Entry>, k: seq<byte>): seq<byte>
    requires forall i :: 0 <= i < |d| ==> Writable(d[i].val)
    decreases d, 0
  {
    if d == [] then [GREATER, GREATER] + k
    else
      assert d[0].val < d[0];
      [SLASH] + PutNameBody(d[0].key, [SP] + Put(d[0].val, PutEntries(d[1..], k)))
  }

  /** The text of an object as it is written to a file. */
  function Text(o: Obj): seq<byte>
    requires Writable(o)
  {
    Put(o, [])
  }

  // ----- Printing in front of k is printing followed by k.

  lemma {:induction false} PutNameBodyAppends(n: seq<byte>, k: seq<byte>)
    ensures PutNameBody(n, k) == PutNameBody(n, []) + k
  {
    if n != [] { PutNameBodyAppends(n[1..], k); }
  }

  lemma {:induction false} PutLiteralBodyAppends(v: seq<byte>, k: seq<byte>)
    ensures PutLiteralBody(v, k) == PutLiteralBody(v, []) + k
  {
    if v != [] { PutLiteralBodyAppends(v[1..], k); }
  }

  lemma {:induction false} PutHexBodyAppends(v: seq<byte>, k: seq<byte>)
    ensures PutHexBody(v, k) == PutHexBody(v, []) + k
  {
    if v != [] { PutHexBodyAppends(v[1..], k); }
  }

  lemma {:induction false} PutAppends(o: Obj, k: seq<byte>)
    requires Writable(o)
    ensures Put(o, k) == Text(o) + k
    decreases o, 1
  {
    match o
    case Name(n) => PutNameBodyAppends(n, k);
    case Str(v, isHex) => PutLiteralBodyAppends(v, k); PutHexBodyAppends(v, k);
    case Ref(n, g) =>
      assert FormatInt(n) + ([SP] + (FormatInt(g) + ([SP, UPPER_R] + k)))
          == FormatInt(n) + ([SP] + (FormatInt(g) + ([SP, UPPER_R] + []))) + k;
    case Arr(es) => PutElemsAppends(es, k);
    case Dict(d) => PutEntriesAppends(d, k);
    case _ =>
  }

  lemma {:induction false} PutElemsAppends(es: seq<Obj>, k: seq<byte>)
    requires forall i :: 0 <= i < |es| ==> Writable(es[i])
    ensures PutElems(es, k) == PutElems(es, []) + k
    decreases es, 0
  {
    if |es| == 1 {
      PutAppends(es[0], [RBRACKET] + k);
      PutAppends(es[0], [RBRACKET] + []);
    } else if |es| > 1 {
      PutAppends(es[0], [SP] + PutElems(es[1..], k));
      PutAppends(es[0], [SP] + PutElems(es[1..], []));
      PutElemsAppends(es[1..], k);
    }
  }

  lemma {:induction false} PutEntriesAppends(d: seq<Entry>, k: seq<byte>)
    requires forall i :: 0 <= i < |d| ==> Writable(d[i].val)
    ensures PutEntries(d, k) == PutEntries(d, []) + k
    decreases d, 0
  {
    if d != [] {
      assert d[0].val < d[0];
      PutEntriesAppends(d[1..], k);
      var r, r0 := PutEntries(d[1..], k), PutEntries(d[1..], []);
      var body, text := PutNameBody(d[0].key, []), Text(d[0].val);
      PutAppends(d[0].val, r);
      PutAppends(d[0].val, r0);
      PutNameBodyAppends(d[0].key, [SP] + (text + r));
      PutNameBodyAppends(d[0].key, [SP] + (text + r0));
      Regroup([SLASH], body, [SP], text, r0 + k);
      Regroup([SLASH], body, [SP], text, r0);
    }
  }

  // ----- The writer itself, one loop for each composite kind.

  method WriteName(n: seq<byte>) returns (output: seq<byte>)
    ensures output == Text(Name(n))
  {
    output := [SLASH];
    for i := 0 to |n|
      invariant output + PutNameBody(n[i..], []) == Text(Name(n))
    {
      var c := n[i];
      assert n[i..][0] == c && n[i..][1..] == n[i + 1..];
      if !IsPrintable(c) || c == HASH || IsDelimiter(c) {
        output := output + [HASH, HexDigit(c / 16), HexDigit(c % 16)];
      } else {
        output := output + [c];
      }
    }
  }

  method WriteStr(v: seq<byte>, isHex: bool) returns (output: seq<byte>)
    ensures output == Text(Str(v, isHex))
  {
    if isHex {
      output := [LESS];
      for i := 0 to |v|
        invariant output + PutHexBody(v[i..], []) == Text(Str(v, isHex))
      {
        assert v[i..][0] == v[i] && v[i..][1..] == v[i + 1..];
        output := output + [HexDigit(v[i] / 16), HexDigit(v[i] % 16)];
      }
      output := output + [GREATER];
    } else {
      output := [LPAREN];
      for i := 0 to |v|
        invariant output + PutLiteralBody(v[i..], []) == Text(Str(v, isHex))
      {
        assert v[i..][0] == v[i] && v[i..][1..] == v[i + 1..];
        var escape := EscapeLetter(v[i]);
        if escape != [] {
          output := output + [BACKSLASH, escape[0]];
        } else {
          output := output + [v[i]];
        }
      }
      output := output + [RPAREN];
    }
  }

  lemma {:induction false} PutElemsStep(es: seq<Obj>)
    requires es != [] && forall i :: 0 <= i < |es| ==> Writable(es[i])
    ensures PutElems(es, []) == Text(es[0]) + if |es| == 1 then [RBRACKET] else [SP] + PutElems(es[1..], [])
  {
    assert [RBRACKET] + [] == [RBRACKET];
    if |es| == 1 { PutAppends(es[0], [RBRACKET]); } else { PutAppends(es[0], [SP] + PutElems(es[1..], [])); }
  }

  lemma {:induction false} PutEntriesStep(d: seq<Entry>)
    requires d != [] && forall i :: 0 <= i < |d| ==> Writable(d[i].val)
    ensures PutEntries(d, []) == Text(Name(d[0].key)) + [SP] + Text(d[0].val) + PutEntries(d[1..], [])
  {
    var body, text, more := PutNameBody(d[0].key, []), Text(d[0].val), PutEntries(d[1..], []);
    PutAppends(d[0].val, more);
    PutNameBodyAppends(d[0].key, [SP] + (text + more));
    Regroup([SLASH], body, [SP], text, more);
  }

  lemma Regroup(a: seq<byte>, b: seq<byte>, c: seq<byte>, d: seq<byte>, e: seq<byte>)
    ensures a + (b + (c + (d + e))) == a + b + c + d + e
  {
  }

  method WriteArray(es: seq<Obj>) returns (output: seq<byte>)
    requires Writable(Arr(es))
    ensures output == Text(Arr(es))
    decreases es, 0
  {
    output := [LBRACKET];
    for i := 0 to |es|
      invariant i < |es| || es == [] ==> output + PutElems(es[i..], []) == Text(Arr(es))
      invariant i == |es| != 0 ==> output + [RBRACKET] == Text(Arr(es))
    {
      var text := WriteString(es[i]);
      assert es[i..][0] == es[i] && es[i..][1..] == es[i + 1..];
      PutElemsStep(es[i..]);
      output := output + text;
      if i < |es| - 1 {
        output := output + [SP];
      }
    }
    output := output + [RBRACKET];
  }

  method WriteDict(d: seq<Entry>) returns (output: seq<byte>)
    requires Writable(Dict(d))
    ensures output == Text(Dict(d))
    decreases d, 0
  {
    output := [LESS, LESS];
    for i := 0 to |d|
      invariant output + PutEntries(d[i..], []) == Text(Dict(d))
    {
      assert d[i].val < d[i];
      var key := WriteName(d[i].key);
      var text := WriteString(d[i].val);
      assert d[i..][0] == d[i] && d[i..][1..] == d[i + 1..];
      PutEntriesStep(d[i..]);
      output := output + (key + [SP] + text);
    }
    output := output + [GREATER, GREATER];
  }

  method WriteString(o: Obj) returns (output: seq<byte>)
    requires Writable(o)
    ensures output == Text(o)
    decreases o, 1
  {
    match o
    case Null => output := NULL_TEXT;
    case Bool(b) => output := if b then TRUE_TEXT else FALSE_TEXT;
    case Int(n) => output := FormatInt(n);
    case Name(n) => output := WriteName(n);
    case Str(v, isHex) => output := WriteStr(v, isHex);
    case Ref(n, g) => output := FormatInt(n) + [SP] + FormatInt(g) + [SP, UPPER_R];
    case Arr(es) => output := WriteArray(es);
    case Dict(d) => output := WriteDict(d);
  }
}
