/** The sersetup driver's own state: two rings of bytes, the packet being read and the parser's flags. */
module SerialPort {
  import opened Bytes
  import opened Escaping
  import opened SerialStream

  /** A ring of 2048 bytes whose positions count on for ever. */
  class Que {
    const data: array<byte>
    var head: nat
    var tail: nat

    ghost predicate Valid()
      reads this
    {
      data.Length == QUESIZE && tail <= head <= tail + QUESIZE
    }

    ghost function Contents(): (r: seq<byte>)
      requires Valid()
      reads this, data
      ensures |r| == head - tail
    {
      seq(head - tail, i requires 0 <= i < head - tail && Valid() reads this, data => data[(tail + i) % QUESIZE])
    }

    constructor ()
      ensures Valid() && Contents() == [] && fresh(data)
    {
      data := new byte[QUESIZE];
      head, tail := 0, 0;
    }

    method Put(c: byte)
      requires Valid() && head - tail < QUESIZE
      modifies `head, data
      ensures Valid() && Contents() == old(Contents()) + [c] && tail == old(tail)
    {
      forall i | tail <= i < head ensures i % QUESIZE != head % QUESIZE { Apart(i, head); }
      data[head % QUESIZE] := c;
      head := head + 1;
    }

    method Take() returns (c: byte)
      requires Valid() && tail < head
      modifies `tail
      ensures Valid() && old(Contents()) == [c] + Contents()
    {
      c := data[tail % QUESIZE];
      tail := tail + 1;
    }

    method Clear()
      requires Valid()
      modifies `tail
      ensures Valid() && Contents() == []
    {
      tail := head;
    }
  }

  /** Different positions less than a round apart are different slots. */
  lemma Apart(i: nat, j: nat)
    requires i < j < i + QUESIZE
    ensures i % QUESIZE != j % QUESIZE
  {
    var q := j / QUESIZE - i / QUESIZE;
    assert j - i == q * QUESIZE + (j % QUESIZE - i % QUESIZE);
  }

  class Driver {
    const inque: Que
    const outque: Que
    const packet: array<byte>
    const txBuffer: array<byte>
    var packetlen: nat
    var inescape: bool
    var newpacket: bool

    ghost predicate Valid()
      reads this, inque, outque
    {
      && inque != outque && inque.data != outque.data && packet != txBuffer
      && packet != inque.data && packet != outque.data && txBuffer != inque.data && txBuffer != outque.data
      && inque.Valid() && outque.Valid() && inque.head - inque.tail < QUESIZE
      && packet.Length == PACKET_MAX && txBuffer.Length == TX_BUFFER && packetlen <= PACKET_MAX
    }

    /** The parser that the flags and the packet buffer stand for. */
    ghost function Parser(): Rx
      requires Valid()
      reads this, inque, outque, packet
    {
      Rx(inescape, if newpacket then [] else packet[..packetlen])
    }

    constructor ()
      ensures Valid() && Parser() == CLEAN && inque.Contents() == [] && outque.Contents() == []
      ensures fresh(inque) && fresh(outque) && fresh(packet) && fresh(txBuffer)
    {
      inque := new Que();
      outque := new Que();
      packet := new byte[PACKET_MAX];
      txBuffer := new byte[TX_BUFFER];
      packetlen, inescape, newpacket := 0, false, false;
    }

    method ByteReceived(c: byte) returns (success: bool)
      requires Valid()
      modifies inque`head, inque.data
      ensures Valid() && success == (|old(inque.Contents())| != QUESIZE - 1)
      ensures inque.Contents() == if success then old(inque.Contents()) + [c] else old(inque.Contents())
    {
      FullWhen(inque.tail, inque.head);
      if (inque.head + 1) % QUESIZE == inque.tail % QUESIZE {
        return false;
      }
      inque.Put(c);
      success := true;
    }

    method MoreTXData() returns (n: nat)
      requires Valid()
      modifies outque`tail, txBuffer
      ensures Valid() && n == BlockLen(old(outque.Contents()))
      ensures txBuffer[..n] == old(outque.Contents())[..n] && outque.Contents() == old(outque.Contents())[n..]
    {
      n := 0;
      ghost var was := outque.Contents();
      while outque.tail < outque.head && n < TX_BUFFER
        invariant Valid() && n <= TX_BUFFER && n <= |was| && outque.Contents() == was[n..] && txBuffer[..n] == was[..n]
      {
        txBuffer[n] := outque.Take();
        n := n + 1;
      }
    }

    /** The next byte received, or -1. */
    method ReadByte() returns (c: int)
      requires Valid()
      modifies inque`tail
      ensures Valid()
      ensures if old(inque.Contents()) == [] then c == -1 && inque.Contents() == []
              else 0 <= c < 256 && old(inque.Contents()) == [c] + inque.Contents()
    {
      if inque.tail >= inque.head {
        return -1;
      }
      c := inque.Take();
    }

    method WriteBuffer(buffer: seq<byte>)
      requires Valid() && |buffer| <= QUESIZE
      modifies outque, outque.data
      ensures Valid()
      ensures outque.Contents() == if |old(outque.Contents())| + |buffer| > QUESIZE then buffer
                                   else old(outque.Contents()) + buffer
    {
      if outque.head - outque.tail + |buffer| > QUESIZE {
        outque.Clear();
      }
      ghost var was := outque.Contents();
      for i := 0 to |buffer|
        invariant Valid() && outque.Contents() == was + buffer[..i] && |was| + |buffer| <= QUESIZE
      {
        outque.Put(buffer[i]);
      }
    }

    method WritePacket(p: seq<byte>)
      requires Valid()
      modifies outque, outque.data
      ensures Valid() && outque.Contents() == WriteTo(old(outque.Contents()), p)
    {
      if |p| > PACKET_MAX {
        return;
      }
      var local: seq<byte> := [];
      for i := 0 to |p|
        modifies {}
        invariant local == Escaped(p[..i]) && |local| <= 2 * i
      {
        if p[i] == FRAMECHAR {
          local := local + [FRAMECHAR];
        }
        local := local + [p[i]];
        EscapedAppend(p[..i], [p[i]]);
        assert p[..i + 1] == p[..i] + [p[i]];
      }
      assert p[..|p|] == p;
      WriteBuffer(local + [FRAMECHAR, 0]);
    }

    /** One turn of the parsing loop. */
    method ParseByte(c: byte) returns (done: bool)
      requires Valid() && !newpacket
      modifies packet, `packetlen, `inescape, `newpacket
      ensures Valid() && newpacket == done
      ensures var (rx, p) := DecByte(old(Parser()), c);
        Parser() == rx && done == p.Some? && (done ==> packet[..packetlen] == p.value)
    {
      done := false;
      if inescape {
        inescape := false;
        if c != FRAMECHAR {
          newpacket := true;
          return true;
        }
      } else if c == FRAMECHAR {
        inescape := true;
        return;
      }
      if packetlen < PACKET_MAX {
        packet[packetlen] := c;
        packetlen := packetlen + 1;
      }
    }

    method ReadPacket() returns (got: bool)
      requires Valid()
      modifies inque`tail, packet, `packetlen, `inescape, `newpacket
      ensures Valid()
      ensures var (rx, left, done) := ReadFrom(old(Parser()), old(inque.Contents()));
        && inque.Contents() == left && Parser() == rx && got == done.Some?
        && (got ==> packet[..packetlen] == done.value)
      ensures |old(inque.Contents())| > 2044 ==> !got && inque.Contents() == []
      ensures |old(inque.Contents())| <= 2044 ==>
        var (rx, left, done) := Scan(old(Parser()), old(inque.Contents()));
        inque.Contents() == left && Parser() == rx && got == done.Some? && (got ==> packet[..packetlen] == done.value)
    {
      if inque.head - inque.tail > QUESIZE - 4 {
        inque.Clear();
        newpacket := true;
        return false;
      }
      if newpacket {
        packetlen := 0;
        newpacket := false;
      }
      got := false;
      while true
        invariant Valid() && !newpacket && !got
        invariant Scan(Parser(), inque.Contents()) == Scan(old(Parser()), old(inque.Contents()))
        decreases inque.head - inque.tail
      {
        ghost var rx, left := Parser(), inque.Contents();
        var c := ReadByte();
        if c < 0 {
          return;
        }
        assert left[0] == c && left[1..] == inque.Contents();
        got := ParseByte(c);
        if got {
          return;
        }
      }
    }
  }

  /** The test for a full ring, by slots, is the test by positions. */
  lemma FullWhen(tail: nat, head: nat)
    requires tail <= head < tail + QUESIZE
    ensures (head + 1) % QUESIZE == tail % QUESIZE <==> head - tail == QUESIZE - 1
  {
    if head + 1 < tail + QUESIZE { Apart(tail, head + 1); }
  }
}
