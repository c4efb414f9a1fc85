/** The sirsetup driver's own state: two rings of packets changed in place, and the callbacks of the
    serial port and of the game. */
module SirPort {
  import opened Bytes
  import opened DoomNet
  import opened Escaping
  import opened Ring
  import opened Sequences
  import opened SirFraming
  import opened SirStation

  /** A ring of packets; the slot at `head` is filled before it becomes part of the queue. */
  class Queue {
    const packets: array<seq<byte>>    // packets[].data, as much of it as data_len says
    const valid: array<bool>
    var head: nat
    var tail: nat

    ghost predicate Valid()
      reads this
    {
      packets.Length == valid.Length == QUEUE_LEN && head < QUEUE_LEN && tail < QUEUE_LEN
    }

    ghost function Waiting(): (r: seq<seq<byte>>)
      requires Valid()
      reads this, packets
      ensures |r| < QUEUE_LEN
    {
      Contents(packets[..], tail, head)
    }

    /** Everything waiting is marked as complete. */
    ghost predicate Marked()
      requires Valid()
      reads this, valid
    {
      forall i :: 0 <= i < |Contents(valid[..], tail, head)| ==> Contents(valid[..], tail, head)[i]
    }

    constructor ()
      ensures Valid() && Marked() && Waiting() == [] && packets[head] == []
      ensures fresh(packets) && fresh(valid)
    {
      packets := new seq<byte>[QUEUE_LEN](_ => []);
      valid := new bool[QUEUE_LEN](_ => false);
      head, tail := 0, 0;
    }

    predicate IsEmpty()
      requires Valid()
      reads this, packets
      ensures IsEmpty() <==> Waiting() == []
    {
      head == tail
    }

    predicate IsFull()
      requires Valid()
      reads this, packets
      ensures IsFull() <==> QueueFull(Waiting())
    {
      Full(packets[..], tail, head);
      Wrap(QUEUE_LEN, head + 1) == tail
    }

    /** The packet in the spare slot becomes the last one waiting, and the next slot starts empty. */
    method Commit()
      requires Valid() && !IsFull()
      modifies `head, packets, valid
      ensures Valid() && Waiting() == old(Waiting()) + [old(packets[head])] && packets[head] == []
      ensures old(Marked()) ==> Marked()
    {
      var next := Wrap(QUEUE_LEN, head + 1);
      Push(packets[..], tail, head, packets[head]);
      Push(valid[..], tail, head, true);
      assert packets[..][head := packets[head]] == packets[..];
      valid[head] := true;
      Spare(packets[..], tail, next, []);
      Spare(valid[..], tail, next, false);
      head := next;
      valid[head] := false;
      packets[head] := [];
    }

    /** The packet in the spare slot is given up. */
    method Discard()
      requires Valid()
      modifies packets, valid
      ensures Waiting() == old(Waiting()) && packets[head] == []
      ensures old(Marked()) ==> Marked()
    {
      Spare(packets[..], tail, head, []);
      Spare(valid[..], tail, head, false);
      valid[head] := false;
      packets[head] := [];
    }

    method AddByte(c: byte)
      requires Valid()
      modifies packets
      ensures Waiting() == old(Waiting()) && packets[head] == AddInByte(old(packets[head]), c)
    {
      if |packets[head]| < PACKET_MAX {
        Spare(packets[..], tail, head, packets[head] + [c]);
        packets[head] := packets[head] + [c];
      }
    }

    method Add(p: seq<byte>)
      requires Valid() && !IsFull()
      modifies `head, packets
      ensures Valid() && Waiting() == old(Waiting()) + [p]
    {
      Push(packets[..], tail, head, p);
      packets[head] := p;
      head := Wrap(QUEUE_LEN, head + 1);
    }

    /** The last packet waiting, which is not the first when the queue is full. */
    method ReplaceLast(p: seq<byte>)
      requires Valid() && IsFull()
      modifies packets
      ensures Waiting() == old(Waiting())[QUEUE_LEN - 2 := p]
    {
      SetLast(packets[..], tail, head, p);
      packets[Wrap(QUEUE_LEN, head + QUEUE_LEN - 1)] := p;
    }

    function Last(): (p: seq<byte>)
      requires Valid() && IsFull()
      reads this, packets
      ensures p == Waiting()[QUEUE_LEN - 2]
    {
      At(packets[..], tail, head, QUEUE_LEN - 2);
      packets[Wrap(QUEUE_LEN, head + QUEUE_LEN - 1)]
    }

    method Remove()
      requires Valid() && !IsEmpty()
      modifies `tail
      ensures Valid() && Waiting() == old(Waiting())[1..]
      ensures old(Marked()) ==> Marked()
    {
      Pop(packets[..], tail, head);
      Pop(valid[..], tail, head);
      ghost var marks := Contents(valid[..], tail, head);
      tail := Wrap(QUEUE_LEN, tail + 1);
      assert Contents(valid[..], tail, head) == marks[1..];
    }

    function First(): (p: seq<byte>)
      requires Valid() && !IsEmpty()
      reads this, packets
      ensures p == Waiting()[0]
    {
      Pop(packets[..], tail, head);
      packets[tail]
    }

    lemma FirstMarked()
      requires Valid() && !IsEmpty() && Marked()
      ensures valid[tail]
    {
      Pop(valid[..], tail, head);
      assert Contents(valid[..], tail, head)[0];
    }
  }

  /** The checksum loop. */
  method Hash(a: seq<byte>) returns (r: byte)
    ensures r == HashData(a)
  {
    var result := 5381;
    for i := 0 to |a|
      invariant result == Djb2(a, i)
    {
      result := (result * 32 + result + a[i] as int) % 0x1_0000;
    }
    r := result % 256;
  }

  /** Block `whole` is what has been filled so far and the rest from `off` on. */
  ghost predicate LeadsTo(whole: (seq<byte>, nat), p: seq<byte>, done: seq<byte>, off: nat, slot: nat)
    requires off <= |p|
  {
    whole.0 == done + Block(Written, p, off, slot).0 && whole.1 == Block(Written, p, off, slot).1
  }

  lemma LeadsOn(whole: (seq<byte>, nat), p: seq<byte>, done: seq<byte>, off: nat, slot: nat)
    requires slot < TX_BUFFER && off < |p| && (p[off] != FRAMECHAR || slot < TX_BUFFER - 1)
    requires LeadsTo(whole, p, done, off, slot)
    ensures LeadsTo(whole, p, done + Escape(p[off]), off + 1, slot + |Escape(p[off])|)
  {
    BlockStep(Written, p, off, slot);
    var rest := Block(Written, p, off + 1, slot + |Escape(p[off])|).0;
    Associative(done, Escape(p[off]), rest);
  }

  class Port {
    const inque: Queue
    const outque: Queue
    const txBuffer: array<byte>        // serial_tx_buffer
    const player: array<byte>          // node_data[].player, as the header stores it
    const playerToNode: array<int>
    var txOffset: nat
    var inEscape: bool
    var mode: Mode
    var handoffPartner: nat
    var consoleplayer: byte
    var numnodes: nat
    var numplayers: nat
    var receiving: bool                // whether the serial port is being read
    var remotenode: int
    var data: seq<byte>

    ghost predicate Shape()
      reads this, inque, outque
    {
      && inque != outque && inque.packets != outque.packets && inque.valid != outque.valid
      && inque.Valid() && outque.Valid()
      && txBuffer.Length == TX_BUFFER && txBuffer != player
      && numnodes <= player.Length == MAXNETNODES && numplayers <= playerToNode.Length
    }

    /** The machine that the fields stand for. */
    ghost function Abs(): Station
      requires Shape()
      reads this, inque, outque, inque.packets, outque.packets
    {
      Station(consoleplayer, numnodes, handoffPartner, mode, outque.Waiting(), txOffset,
              Rx(inEscape, inque.packets[inque.head]), inque.Waiting(), !receiving)
    }

    ghost predicate Valid()
      reads this, inque, outque, inque.packets, outque.packets, inque.valid
    {
      Shape() && Ok(Abs()) && inque.Marked()
    }

    lemma StillValid(st: Station)
      requires Shape() && inque.Marked() && Abs() == st && Ok(st)
      ensures Valid()
    {
    }

    /** The machine as the game starts: the players are numbered, and player 0 has the channel. */
    constructor (players: seq<byte>, nodes: seq<int>, n: nat)
      requires |players| == MAXNETNODES && 1 <= n <= MAXNETNODES && |nodes| >= n && (players[0] as int) < n
      ensures Valid() && fresh(inque) && fresh(outque)
      ensures Abs() == Started(players[0], n)
      ensures player[..] == players && playerToNode[..] == nodes && numplayers == n
    {
      inque := new Queue();
      outque := new Queue();
      txBuffer := new byte[TX_BUFFER];
      player := new byte[MAXNETNODES](i requires 0 <= i < |players| => players[i]);
      playerToNode := new int[|nodes|](i requires 0 <= i < |nodes| => nodes[i]);
      txOffset, inEscape, remotenode, data := 0, false, -1, [];
      consoleplayer, numnodes, numplayers, receiving := players[0], n, n, true;
      handoffPartner := if players[0] as int + 1 == n then 0 else players[0] as int + 1;
      mode := if players[0] == 0 then Transmit else Wait;
    }

    method IsForUs(pkt: seq<byte>) returns (r: bool)
      ensures r == Accepts(consoleplayer, pkt)
    {
      if |pkt| <= HEADER { return false; }
      var h := Hash(pkt[1..]);
      r := h == pkt[0] && (pkt[1] == BROADCAST_DEST || pkt[1] == consoleplayer);
    }

    /** The packet being received is complete: keep it if it is good and fits. */
    method EndOfPacket() returns (success: bool)
      requires Valid()
      modifies inque, inque.packets, inque.valid
      ensures Valid()
      ensures Abs() == PacketReceived(old(Abs()).(rx := Rx(inEscape, [])), old(Abs()).rx.data)
      ensures success == (!(Accepts(consoleplayer, old(Abs()).rx.data) && QueueFull(old(Abs()).inbox)) || numnodes > 2)
    {
      ghost var was := Abs();
      var queueFull := false;
      var accepted := IsForUs(inque.packets[inque.head]);
      if accepted {
        queueFull := inque.IsFull();
      }
      if accepted && !queueFull {
        inque.Commit();
      } else {
        inque.Discard();
      }
      success := !queueFull || numnodes > 2;
      PacketReceivedOk(was.(rx := Rx(inEscape, [])), was.rx.data);
      StillValid(PacketReceived(was.(rx := Rx(inEscape, [])), was.rx.data));
    }

    method Handoff()
      requires Valid()
      modifies `mode, outque, outque.packets
      ensures Valid() && Abs() == ReceivedHandoff(old(Abs()))
    {
      ghost var was := Abs();
      if mode == Wait {
        mode := Transmit;
        if outque.IsEmpty() {
          outque.Add([]);
        }
      }
      StillValid(ReceivedHandoff(was));
    }

    /** The byte after an escape. */
    method ByteEscaped(c: byte) returns (success: bool)
      requires Valid() && inEscape
      modifies `inEscape, `mode, inque, inque.packets, inque.valid, outque, outque.packets
      ensures Valid() && Abs() == ByteIn(old(Abs()), c) && success == KeepReceiving(old(Abs()), c)
    {
      ghost var was := Abs();
      success := true;
      inEscape := false;
      if c == FRAMECHAR {
        inque.AddByte(FRAMECHAR);
        StillValid(ByteIn(was, c));
        return;
      }
      StillValid(was.(rx := Rx(false, was.rx.data)));
      if IsTerminator(c) {
        success := EndOfPacket();
        EndedByte(was, c);
      }
      if c == HandoffTo(consoleplayer as int) {
        Handoff();
      }
    }

    method ByteReceived(c: byte) returns (success: bool)
      requires Valid()
      modifies `inEscape, `mode, inque, inque.packets, inque.valid, outque, outque.packets
      ensures Valid() && Abs() == ByteIn(old(Abs()), c) && success == KeepReceiving(old(Abs()), c)
    {
      ghost var was := Abs();
      success := true;
      if inEscape {
        success := ByteEscaped(c);
      } else if c == FRAMECHAR {
        inEscape := true;
        StillValid(ByteIn(was, c));
      } else {
        inque.AddByte(c);
        StillValid(ByteIn(was, c));
      }
    }

    /** A byte read from the port, which is told to stop if the byte could not be made use of. */
    method DoReceiveByte(c: byte)
      requires Valid()
      modifies `inEscape, `mode, `receiving, inque, inque.packets, inque.valid, outque, outque.packets
      ensures Valid() && Abs() == Receive(old(Abs()), c)
    {
      ghost var was := Abs();
      var success := ByteReceived(c);
      if !success {
        receiving := false;
      }
      StillValid(Receive(was, c));
    }

    /** The block loop: fills the transmit buffer from the packet being sent. */
    method FillBlock(p: seq<byte>) returns (i: nat)
      requires Shape() && txOffset < |p|
      modifies `txOffset, txBuffer
      ensures var (b, o) := Block(Written, p, old(txOffset), 0); i <= TX_BUFFER && txBuffer[..i] == b && txOffset == o
    {
      i := 0;
      ghost var whole, done := Block(Written, p, txOffset, 0), [];
      NothingAdded(whole.0);
      while i < TX_BUFFER && txOffset < |p|
        invariant |done| == i <= TX_BUFFER && txOffset <= |p| && forall k :: 0 <= k < i ==> txBuffer[k] == done[k]
        invariant LeadsTo(whole, p, done, txOffset, i)
        decreases |p| - txOffset
      {
        var c := p[txOffset];
        if c != FRAMECHAR {
          LeadsOn(whole, p, done, txOffset, i);
          txOffset := txOffset + 1;
          txBuffer[i] := c;
          i := i + 1;
          done := done + Escape(c);
        } else if i == TX_BUFFER - 1 {
          txOffset := txOffset + 1;
          NothingAdded(done);
          assert txBuffer[..i] == done;
          return;
        } else {
          LeadsOn(whole, p, done, txOffset, i);
          txOffset := txOffset + 1;
          txBuffer[i] := FRAMECHAR;
          txBuffer[i + 1] := FRAMECHAR;
          i := i + 2;
          done := done + Escape(c);
        }
      }
      assert Block(Written, p, txOffset, i) == ([], txOffset);
      NothingAdded(done);
      assert txBuffer[..i] == done;
    }

    /** The packet being sent is finished: the next one is up, or else the channel is handed on. */
    method FinishPacket()
      requires Valid() && !outque.IsEmpty() && mode != Wait && txOffset == |outque.First()|
      modifies `txOffset, `mode, txBuffer, outque`tail
      ensures Valid() && Abs() == MoreTX(old(Abs())).0 && txBuffer[..2] == MoreTX(old(Abs())).1
    {
      ghost var was := Abs();
      outque.Remove();
      txOffset := 0;
      txBuffer[0] := FRAMECHAR;
      if outque.IsEmpty() {
        txBuffer[1] := HANDOFF_BASE as int + handoffPartner;
        if mode != Arbitrate {
          mode := Wait;
        }
      } else {
        txBuffer[1] := END_PACKET;
      }
      assert txBuffer[..2] == [txBuffer[0], txBuffer[1]];
      StillValid(MoreTX(was).0);
    }

    /** The next bytes to send, at the start of the transmit buffer. */
    method MoreTXData() returns (n: nat)
      requires Valid()
      modifies `txOffset, `mode, txBuffer, outque`tail
      ensures Valid() && Abs() == MoreTX(old(Abs())).0
      ensures n <= TX_BUFFER && txBuffer[..n] == MoreTX(old(Abs())).1
    {
      ghost var was := Abs();
      n := 0;
      if mode == Wait || outque.IsEmpty() {
        return;
      }
      if txOffset >= |outque.First()| {
        FinishPacket();
        n := 2;
      } else {
        n := FillBlock(outque.First());
        StillValid(MoreTX(was).0);
      }
    }

    method SendPacket(node: nat, payload: seq<byte>)
      requires Valid() && numnodes >= 1
      modifies outque`head, outque.packets
      ensures Valid()
      ensures Abs() == if node != MAXNETNODES && (node == 0 || node >= numnodes) then old(Abs())
        else Send(old(Abs()), if node == MAXNETNODES then BROADCAST_DEST else player[node], player[0], payload)
    {
      if node != MAXNETNODES && (node == 0 || node >= numnodes) { return; }
      if |payload| > PACKET_MAX - HEADER { return; }
      ghost var was := Abs();
      var dest := if node == MAXNETNODES then BROADCAST_DEST else player[node];
      QueuePacket(dest, player[0], payload);
      SendOk(was, dest, player[0], payload);
      StillValid(Send(was, dest, player[0], payload));
    }

    /** Adds a packet to the queue; on a full queue it replaces the last one if it is longer. */
    method QueuePacket(dest: byte, src: byte, payload: seq<byte>)
      requires Shape() && |payload| <= PACKET_MAX - HEADER
      modifies outque`head, outque.packets
      ensures outque.Valid()
      ensures var q, p := old(outque.Waiting()), Packet(dest, src, payload);
        outque.Waiting() == if !QueueFull(q) then q + [p]
                            else if |payload| + HEADER <= |q[|q| - 1]| then q
                            else q[|q| - 1 := p]
    {
      var full := outque.IsFull();
      if full && |payload| + HEADER <= |outque.Last()| { return; }
      var checksum := Hash([dest, src] + payload);
      var p := [checksum] + ([dest, src] + payload);
      if full {
        outque.ReplaceLast(p);
      } else {
        outque.Add(p);
      }
    }

    /** The first packet received, if any, and the node it came from; taking it, the port is read again. */
    method GetPacket()
      requires Valid()
      modifies `remotenode, `data, `receiving, inque`tail
      ensures Valid()
      ensures if old(Abs()).inbox == [] then remotenode == -1 && Abs() == old(Abs()) && data == old(data)
        else var p := old(Abs()).inbox[0];
          && data == p[HEADER..] && Abs() == Fetch(old(Abs()))
          && remotenode == if mode == Arbitrate then 1
                           else if p[2] as int < numplayers then playerToNode[p[2]] else -1
    {
      if !inque.IsEmpty() { inque.FirstMarked(); }
      if inque.IsEmpty() || !inque.valid[inque.tail] {
        remotenode := -1;
        return;
      }
      ghost var was := Abs();
      var pkt := inque.First();
      TakeApart(pkt);
      inque.Remove();
      receiving := true;
      FetchOk(was);
      StillValid(Fetch(was));
    }

    /** Takes a packet received apart: its payload, and the node of its sender. */
    method TakeApart(pkt: seq<byte>)
      requires Shape() && |pkt| >= HEADER
      modifies `remotenode, `data
      ensures data == pkt[HEADER..]
      ensures remotenode == if mode == Arbitrate then 1
                            else if pkt[2] as int < numplayers then playerToNode[pkt[2]] else -1
    {
      data := pkt[HEADER..];
      if mode == Arbitrate {
        remotenode := 1;
      } else if pkt[2] as int < numplayers {
        remotenode := playerToNode[pkt[2]];
      } else {
        remotenode := -1;
      }
    }

    /** `expired` says that no handoff has come for too long. */
    method CheckTimeout(expired: bool)
      requires Valid()
      modifies `mode
      ensures Valid() && Abs() == if expired then TimedOut(old(Abs())) else old(Abs())
    {
      if mode == Arbitrate || consoleplayer != 0 { return; }
      if expired {
        mode := Transmit;
      }
    }
  }
}
