/** The packets that plio.asm sends over the parallel port: count, bytes and checksum. */
module NibblePacket {
  import opened Bytes
  import opened Sequences

  const MTU := 512

  /** How often the x86 `loop` instruction goes round from this count: zero wraps to the whole range. */
  function Times(count: nat): nat { if count == 0 then 0x1_0000 else count }

  function Sum(data: seq<byte>): (s: byte) {
    if data == [] then 0 else (Sum(data[..|data| - 1]) as int + data[|data| - 1] as int) % 256
  }

  /** All the bytes given to send_byte for a packet. */
  function Message(count: nat, data: seq<byte>): seq<byte>
    requires count < 0x1_0000
  {
    [count % 256, count / 256] + data + [Sum(data)]
  }

  /** The loop of send_pkt, with its 16-bit count and 8-bit sum. `data` is what follows in memory. */
  method SendPkt(count: nat, data: seq<byte>) returns (refused: bool, given: seq<byte>)
    requires count < 0x1_0000 && |data| == Times(count)
    ensures refused == (count > MTU) && given == if refused then [] else Message(count, data)
  {
    if count > MTU {
      return true, [];
    }
    refused := false;
    given := [count % 256, count / 256];
    var cx, bl: byte, i := count, 0, 0;
    while i == 0 || cx != 0
      invariant i <= |data| && cx < 0x1_0000 && bl == Sum(data[..i]) && given == [count % 256, count / 256] + data[..i]
      invariant if i == 0 then cx == count else cx == Times(count) - i
      decreases |data| - i
    {
      var al := data[i];
      assert data[..i + 1][..i] == data[..i];
      bl := (bl as int + al as int) % 256;
      given := given + [al];
      i := i + 1;
      cx := if cx == 0 then 0xffff else cx - 1;
    }
    assert data[..i] == data;
    given := given + [bl];
  }

  datatype Outcome = Received(count: nat, data: seq<byte>) | WrongChecksum

  /** How many bytes a packet that starts so has in all. */
  function Needed(taken: seq<byte>): nat
    requires |taken| >= 2
  {
    3 + Times(taken[0] as int + 256 * taken[1] as int)
  }

  predicate Complete(taken: seq<byte>) { |taken| >= 2 && |taken| == Needed(taken) }

  /** What comes of all the bytes of a packet. */
  function OutcomeOf(taken: seq<byte>): Outcome
    requires Complete(taken)
  {
    var data := taken[2..|taken| - 1];
    if taken[|taken| - 1] == Sum(data) then Received(taken[0] as int + 256 * taken[1] as int, data) else WrongChecksum
  }

  /** The loop of the receiving end, on the bytes that recv_byte returns. */
  method RecvPkt(stream: seq<byte>) returns (outcome: Outcome)
    requires Complete(stream)
    ensures outcome == OutcomeOf(stream)
  {
    var count := stream[0] as int + 256 * stream[1] as int;
    var cx, bl: byte, di, buffer: seq<byte> := count, 0, 2, [];
    while di == 2 || cx != 0
      invariant 2 <= di < |stream| && cx < 0x1_0000 && buffer == stream[2..di] && bl == Sum(buffer)
      invariant if di == 2 then cx == count else cx == Times(count) - (di - 2)
      decreases |stream| - di
    {
      var al := stream[di];
      assert (buffer + [al])[..|buffer|] == buffer;
      bl := (bl as int + al as int) % 256;
      buffer := buffer + [al];
      di := di + 1;
      cx := if cx == 0 then 0xffff else cx - 1;
    }
    outcome := if stream[di] == bl then Received(count, buffer) else WrongChecksum;
  }

  /** A packet is complete just when all of it has come, and then it is received as it was sent. */
  lemma MessageReceived(count: nat, data: seq<byte>, n: nat)
    requires count < 0x1_0000 && |data| == Times(count) && n <= |Message(count, data)|
    ensures Complete(Message(count, data)[..n]) <==> n == |Message(count, data)|
    ensures OutcomeOf(Message(count, data)) == Received(count, data)
  {
    var m := Message(count, data);
    assert m[2..|m| - 1] == data;
    if n >= 2 { assert m[..n][0] == m[0] && m[..n][1] == m[1]; }
  }

  lemma SumLast(a: seq<byte>)
    requires a != []
    ensures Sum(a) as int == (Sum(a[..|a| - 1]) as int + a[|a| - 1] as int) % 256
  {
  }

  lemma AddMod(x: nat, y: nat, c: nat)
    requires x < 256 && y < 256 && c < 256
    ensures ((x + y) % 256 + c) % 256 == (x + (y + c) % 256) % 256
  {
  }

  /** The checksum is the sum of the bytes modulo 256: a single byte's is that byte, and sums add up. */
  lemma {:induction false} SumsAddUp(a: seq<byte>, b: seq<byte>)
    ensures Sum([]) == 0 && (|a| == 1 ==> Sum(a) == a[0])
    ensures Sum(a + b) as int == (Sum(a) as int + Sum(b) as int) % 256
    decreases |b|
  {
    assert |a| == 1 ==> a[..0] == [];
    if b == [] {
      NothingAdded(a);
    } else {
      var front, last := b[..|b| - 1], b[|b| - 1];
      LastOfTwo(a, b);
      SumsAddUp(a, front);
      SumLast(a + b);
      SumLast(b);
      AddMod(Sum(a), Sum(front), last);
    }
  }

  lemma LastOfTwo(a: seq<byte>, b: seq<byte>)
    requires b != []
    ensures (a + b)[..|a + b| - 1] == a + b[..|b| - 1] && (a + b)[|a + b| - 1] == b[|b| - 1]
  {
  }

  /** A count of zero stands for 65536 bytes. */
  lemma HowMany(count: nat, data: seq<byte>)
    requires count < 0x1_0000 && |data| == Times(count)
    ensures |Message(count, data)| == 3 + if count == 0 then 65536 else count
    ensures Message(count, data)[0] as int + 256 * Message(count, data)[1] as int == count
    ensures Message(count, data)[0] == count % 256
  {
  }

  lemma ByteChanges(x: byte, y: byte, c: byte, d: byte)
    requires (x != y) != (c != d)
    ensures (x as int + c as int) % 256 != (y as int + d as int) % 256
  {
  }

  lemma {:induction false} SumChanges(a: seq<byte>, b: seq<byte>, k: nat)
    requires |a| == |b| && k < |a| && a[k] != b[k] && forall i :: 0 <= i < |a| && i != k ==> a[i] == b[i]
    ensures Sum(a) != Sum(b)
    decreases |a|
  {
    var n := |a| - 1;
    SumLast(a);
    SumLast(b);
    if k == n {
      assert a[..n] == b[..n];
      ByteChanges(Sum(a[..n]), Sum(a[..n]), a[n], b[n]);
    } else {
      SumChanges(a[..n], b[..n], k);
      ByteChanges(Sum(a[..n]), Sum(b[..n]), a[n], a[n]);
    }
  }

  /** A packet in which one byte of the data or the checksum itself has been changed is not received. */
  lemma DamageIsNoticed(count: nat, data: seq<byte>, k: nat, c: byte)
    requires count < 0x1_0000 && |data| == Times(count) && 2 <= k < |Message(count, data)|
    requires c != Message(count, data)[k]
    ensures Complete(Message(count, data)[k := c]) && OutcomeOf(Message(count, data)[k := c]) == WrongChecksum
  {
    var m := Message(count, data);
    var d := m[k := c];
    MessageReceived(count, data, |m|);
    assert m[..|m|] == m && m[2..|m| - 1] == data;
    if k == |m| - 1 {
      assert d[2..|d| - 1] == data;
    } else {
      assert d[2..|d| - 1] == data[k - 2 := c];
      SumChanges(data, data[k - 2 := c], k - 2);
    }
  }
}
