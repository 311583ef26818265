/** Decoding what any encoder may write with the run-length filter. */
module RunPackets {
  import opened Symbols
  import opened RunLength

  /** Bytes as they are, or one byte so many times. */
  datatype Packet = Copy(bytes: seq<byte>) | Times(b: byte, n: nat)

  predicate LegalPacket(p: Packet) {
    if p.Copy? then 1 <= |p.bytes| <= 128 else 2 <= p.n <= 128
  }

  function PacketText(p: Packet): seq<byte>
    requires LegalPacket(p)
  {
    if p.Copy? then [|p.bytes| - 1] + p.bytes else [257 - p.n, p.b]
  }

  function PacketBytes(p: Packet): seq<byte> {
    if p.Copy? then p.bytes else seq(p.n, _ => p.b)
  }

  predicate AllPackets(ps: seq<Packet>) {
    forall i :: 0 <= i < |ps| ==> LegalPacket(ps[i])
  }

  function PacketsText(ps: seq<Packet>): seq<byte>
    requires AllPackets(ps)
  {
    if ps == [] then [] else PacketText(ps[0]) + PacketsText(ps[1..])
  }

  function PacketsBytes(ps: seq<Packet>): seq<byte> {
    if ps == [] then [] else PacketBytes(ps[0]) + PacketsBytes(ps[1..])
  }

  lemma {:induction false} PacketIsRead(p: Packet, t: seq<byte>)
    requires LegalPacket(p)
    ensures Decode(PacketText(p) + t) == After(PacketBytes(p), Decode(t))
  {
    hide Decode;
    var s := PacketText(p) + t;
    if p.Copy? {
      assert s[0] == |p.bytes| - 1 && s[1..s[0] + 2] == p.bytes && s[RunSize(s[0])..] == t;
    } else {
      assert s[0] == 257 - p.n && s[1] == p.b && s[RunSize(s[0])..] == t;
      assert Repeat(p.b, p.n) == PacketBytes(p);
    }
    PacketFirst(s);
  }

  lemma PacketFirst(s: seq<byte>)
    requires s != [] && s[0] != END_OF_DATA && |s| >= RunSize(s[0])
    ensures Decode(s) == After(RunBytes(s), Decode(s[RunSize(s[0])..]))
  {
  }

  lemma PacketsFirst(ps: seq<Packet>, tail: seq<byte>)
    requires AllPackets(ps) && ps != []
    ensures LegalPacket(ps[0]) && AllPackets(ps[1..])
    ensures PacketsText(ps) + tail == PacketText(ps[0]) + (PacketsText(ps[1..]) + tail)
    ensures PacketsBytes(ps) == PacketBytes(ps[0]) + PacketsBytes(ps[1..])
  {
    hide LegalPacket, PacketText, PacketBytes;
  }

  lemma {:induction false} PacketsBefore(ps: seq<Packet>, tail: seq<byte>)
    requires AllPackets(ps)
    ensures Decode(PacketsText(ps) + tail) == After(PacketsBytes(ps), Decode(tail))
  {
    if ps == [] {
      assert PacketsText(ps) + tail == tail;
      NothingBefore(Decode(tail));
    } else {
      hide *;
      PacketsFirst(ps, tail);
      PacketsBefore(ps[1..], tail);
      PacketIsRead(ps[0], PacketsText(ps[1..]) + tail);
      AfterTwice(PacketBytes(ps[0]), PacketsBytes(ps[1..]), Decode(tail));
    }
  }

  lemma NothingBefore(d: Decoded)
    ensures After([], d) == d
  {
    if d.Data? { assert [] + d.bytes == d.bytes; }
  }

  /** Whatever packets an encoder writes are decoded up to the byte 128, and what follows it is left out; without it decoding fails. */
  lemma {:induction false} PacketsAreRead(ps: seq<Packet>, k: seq<byte>)
    requires AllPackets(ps)
    ensures Decode(PacketsText(ps) + ([128] + k)) == Data(PacketsBytes(ps))
    ensures Decode(PacketsText(ps)) == UnexpectedEnd
  {
    hide PacketsText, PacketsBytes, AllPackets;
    var end: byte := 128;
    PacketsBefore(ps, [end] + k);
    PacketsBefore(ps, []);
    assert PacketsText(ps) + [] == PacketsText(ps) && PacketsBytes(ps) + [] == PacketsBytes(ps);
  }
}
