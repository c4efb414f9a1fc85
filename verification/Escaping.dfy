/** The escaping that the serial drivers share: a FRAMECHAR in a packet is sent twice. */
module Escaping {
  import opened Bytes

  const FRAMECHAR: byte := 0x70
  const PACKET_MAX := 512
  const TX_BUFFER := 16

  /** The receiver's state: whether the last byte was an escape, and the packet so far. */
  datatype Rx = Rx(inEscape: bool, data: seq<byte>)

  const CLEAN := Rx(false, [])

  function AddInByte(data: seq<byte>, c: byte): seq<byte> {
    if |data| < PACKET_MAX then data + [c] else data
  }

  function Escape(c: byte): seq<byte> { if c == FRAMECHAR then [FRAMECHAR, FRAMECHAR] else [c] }

  function Escaped(p: seq<byte>): seq<byte> {
    if p == [] then [] else Escape(p[0]) + Escaped(p[1..])
  }

  lemma {:induction false} EscapedAppend(p: seq<byte>, q: seq<byte>)
    ensures Escaped(p + q) == Escaped(p) + Escaped(q)
  {
    if p == [] {
      assert p + q == q;
    } else {
      assert (p + q)[1..] == p[1..] + q;
      EscapedAppend(p[1..], q);
    }
  }

  lemma {:induction false} EscapedInjective(p: seq<byte>, q: seq<byte>)
    ensures Escaped(p) == Escaped(q) <==> p == q
  {
    if p == [] || q == [] || Escaped(p) != Escaped(q) {
    } else {
      assert Escaped(p)[0] == p[0] && Escaped(q)[0] == q[0];
      assert Escaped(p)[|Escape(p[0])|..] == Escaped(p[1..]);
      assert Escaped(q)[|Escape(q[0])|..] == Escaped(q[1..]);
      EscapedInjective(p[1..], q[1..]);
      assert p == [p[0]] + p[1..] && q == [q[0]] + q[1..];
    }
  }
}
