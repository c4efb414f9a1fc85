/** The fragmenting driver itself: buffers changed in place, a receive loop and a send loop. */
module FragmentDriver {
  import opened Bytes
  import opened Fragments
  import opened Sequences
  import opened Wrappers

  /** A packet of the driver underneath, with the node it came from or goes to. */
  datatype Frame = Frame(node: int, bytes: seq<byte>)

  function Encoded(f: Fragment): seq<byte> { [f.seqno, f.place] + f.payload }

  function Parsed(b: seq<byte>): Fragment
    requires |b| >= 2
  {
    Fragment(b[0], b[1], b[2..])
  }

  // A machine still looking for the players sends a magic string, whether this is a reply, and its player.
  const MAGIC_STRING: seq<byte> := [0x56, 0x7E, 0x55, 0x54, 0x69, 0x4C, 0x53, 0x21]

  predicate LateDiscover(b: seq<byte>) { |b| == |MAGIC_STRING| + 2 && b[..8] == MAGIC_STRING && b[8] == 0 }

  function Reply(player: byte): seq<byte> { MAGIC_STRING + [1, player] }

  /** What is answered is exactly the magic string with no reply flag and any one byte behind it; an answer never is. */
  lemma WhatIsAnswered(b: seq<byte>, player: byte)
    ensures LateDiscover(b) <==> |b| == 10 && b[..8] == [0x56, 0x7E, 0x55, 0x54, 0x69, 0x4C, 0x53, 0x21] && b[8] == 0
    ensures Reply(player) == [0x56, 0x7E, 0x55, 0x54, 0x69, 0x4C, 0x53, 0x21, 1, player] && !LateDiscover(Reply(player))
  {
  }

  /** No fragment is taken for such a message, and fragments are read as they were written. */
  lemma FragmentIsRead(f: Fragment)
    requires FragmentOk(f)
    ensures Parsed(Encoded(f)) == f && !LateDiscover(Encoded(f))
  {
    assert Encoded(f)[1] == f.place != MAGIC_STRING[1];
  }

  predicate FrameOk(frame: Frame) {
    LateDiscover(frame.bytes) || (|frame.bytes| >= 2 && Fits(Parsed(frame.bytes)))
  }

  predicate FramesOk(frames: seq<Frame>) {
    forall i :: 0 <= i < |frames| ==> FrameOk(frames[i])
  }

  /** The buffers, the frames not read yet, the packet completed if any, and what has been answered. */
  datatype Drained = Drained(buffers: seq<Buffer>, rest: seq<Frame>, packet: Option<Buffer>, answers: seq<Frame>)

  /** Frames arrive one by one until one completes a packet or there are none left; players still being
      looked for are answered. */
  function Drain(bs: seq<Buffer>, frames: seq<Frame>, player: byte): Drained
    requires Sized(bs) && FramesOk(frames)
    decreases |frames|
  {
    if frames == [] then Drained(bs, [], None, [])
    else if LateDiscover(frames[0].bytes) then
      Answered(Frame(frames[0].node, Reply(player)), Drain(bs, frames[1..], player))
    else
      assert FrameOk(frames[0]);
      var (after, done) := Arrive(bs, frames[0].node, Parsed(frames[0].bytes));
      ArriveSized(bs, frames[0].node, Parsed(frames[0].bytes));
      if done.Some? then Drained(after, frames[1..], done, []) else Drain(after, frames[1..], player)
  }

  function Answered(answer: Frame, d: Drained): Drained { d.(answers := [answer] + d.answers) }

  function WithoutDiscovers(frames: seq<Frame>): seq<Frame> {
    if frames == [] then []
    else if LateDiscover(frames[0].bytes) then WithoutDiscovers(frames[1..])
    else [frames[0]] + WithoutDiscovers(frames[1..])
  }

  /** Late discovery messages do not matter to the packets put together. */
  lemma {:induction false} DiscoversDoNotMatter(bs: seq<Buffer>, frames: seq<Frame>, player: byte)
    requires Sized(bs) && FramesOk(frames)
    ensures FramesOk(WithoutDiscovers(frames))
    ensures var d, e := Drain(bs, frames, player), Drain(bs, WithoutDiscovers(frames), player);
      && d.buffers == e.buffers && d.packet == e.packet && e.rest == WithoutDiscovers(d.rest) && e.answers == []
    decreases |frames|
  {
    if frames == [] {
    } else if LateDiscover(frames[0].bytes) {
      DiscoversDoNotMatter(bs, frames[1..], player);
    } else {
      assert FrameOk(frames[0]);
      var (after, done) := Arrive(bs, frames[0].node, Parsed(frames[0].bytes));
      ArriveSized(bs, frames[0].node, Parsed(frames[0].bytes));
      DiscoversDoNotMatter(after, frames[1..], player);
      DiscoversDoNotMatter(bs, frames[1..], player);
      assert WithoutDiscovers(frames)[1..] == WithoutDiscovers(frames[1..]);
    }
  }

  /** The answers to the late discovery messages among these. */
  function AnswersTo(frames: seq<Frame>, player: byte): seq<Frame> {
    if frames == [] then []
    else (if LateDiscover(frames[0].bytes) then [Frame(frames[0].node, Reply(player))] else [])
         + AnswersTo(frames[1..], player)
  }

  /** Each late discovery message among the frames that have been read is answered, once and in order, to the node
      it came from, and nothing else is. */
  lemma {:induction false} AllAreAnswered(bs: seq<Buffer>, frames: seq<Frame>, player: byte) returns (read: seq<Frame>)
    requires Sized(bs) && FramesOk(frames)
    ensures var d := Drain(bs, frames, player); frames == read + d.rest && d.answers == AnswersTo(read, player)
    decreases |frames|
  {
    if frames == [] {
      read := [];
    } else {
      var first, rest := frames[0], frames[1..];
      OneAndRest(frames);
      if LateDiscover(first.bytes) {
        read := AllAreAnswered(bs, rest, player);
      } else {
        assert FrameOk(first);
        var (after, done) := Arrive(bs, first.node, Parsed(first.bytes));
        ArriveSized(bs, first.node, Parsed(first.bytes));
        if done.Some? { read := []; } else { read := AllAreAnswered(after, rest, player); }
      }
      NothingAdded(AnswersTo(read, player));
      Associative([first], read, Drain(bs, frames, player).rest);
      assert ([first] + read)[1..] == read;
      read := [first] + read;
    }
  }

  /** The buffers after these frames have arrived, and the packets completed on the way. */
  function ArriveAll(bs: seq<Buffer>, frames: seq<Frame>): (r: (seq<Buffer>, seq<Buffer>))
    requires Sized(bs) && FramesOk(frames)
    ensures Sized(r.0)
    decreases |frames|
  {
    if frames == [] then (bs, [])
    else if LateDiscover(frames[0].bytes) then ArriveAll(bs, frames[1..])
    else
      assert FrameOk(frames[0]);
      var (after, done) := Arrive(bs, frames[0].node, Parsed(frames[0].bytes));
      ArriveSized(bs, frames[0].node, Parsed(frames[0].bytes));
      var (last, packets) := ArriveAll(after, frames[1..]);
      (last, (if done.Some? then [done.value] else []) + packets)
  }

  /** One more frame in front. */
  lemma MoreRead(bs: seq<Buffer>, first: Frame, read: seq<Frame>)
    requires Sized(bs) && FrameOk(first) && FramesOk(read)
    ensures FramesOk([first] + read)
    ensures LateDiscover(first.bytes) ==> ArriveAll(bs, [first] + read) == ArriveAll(bs, read)
    ensures !LateDiscover(first.bytes) ==>
      var (after, done) := Arrive(bs, first.node, Parsed(first.bytes));
      && Sized(after)
      && ArriveAll(bs, [first] + read) ==
           (ArriveAll(after, read).0, (if done.Some? then [done.value] else []) + ArriveAll(after, read).1)
    ensures read != [] ==> ([first] + read)[..|read|] == [first] + read[..|read| - 1] && FramesOk(read[..|read| - 1])
  {
    assert ([first] + read)[1..] == read;
    if !LateDiscover(first.bytes) { ArriveSized(bs, first.node, Parsed(first.bytes)); }
  }

  /** These frames are what a call has read that ends like this. */
  predicate ReadsTo(bs: seq<Buffer>, frames: seq<Frame>, read: seq<Frame>, d: Drained)
    requires Sized(bs)
  {
    && frames == read + d.rest && FramesOk(read)
    && ArriveAll(bs, read) == (d.buffers, if d.packet.Some? then [d.packet.value] else [])
    && (if d.packet.Some? then read != [] && FramesOk(read[..|read| - 1]) && ArriveAll(bs, read[..|read| - 1]).1 == []
        else d.rest == [])
  }

  /** A call that reads on after a frame that completes nothing. */
  lemma ReadsOn(bs: seq<Buffer>, frames: seq<Frame>, read: seq<Frame>, next: seq<Buffer>, d: Drained, e: Drained)
    requires Sized(bs) && Sized(next) && frames != [] && FrameOk(frames[0]) && ReadsTo(next, frames[1..], read, d)
    requires if LateDiscover(frames[0].bytes) then next == bs
             else Arrive(bs, frames[0].node, Parsed(frames[0].bytes)) == (next, None)
    requires e.buffers == d.buffers && e.packet == d.packet && e.rest == d.rest
    ensures ReadsTo(bs, frames, [frames[0]] + read, e)
  {
    OneAndRest(frames);
    Associative([frames[0]], read, d.rest);
    MoreRead(bs, frames[0], read);
    NothingAdded(ArriveAll(next, read).1);
    if read != [] {
      MoreRead(bs, frames[0], read[..|read| - 1]);
      NothingAdded(ArriveAll(next, read[..|read| - 1]).1);
    }
  }

  lemma ReadsOne(bs: seq<Buffer>, frames: seq<Frame>, player: byte)
    requires Sized(bs) && FramesOk(frames) && frames != [] && !LateDiscover(frames[0].bytes)
    requires FrameOk(frames[0]) && Arrive(bs, frames[0].node, Parsed(frames[0].bytes)).1.Some?
    ensures ReadsTo(bs, frames, [frames[0]], Drain(bs, frames, player))
  {
    OneAndRest(frames);
    MoreRead(bs, frames[0], []);
    NothingAdded([frames[0]]);
    var first := [frames[0]];
    assert first[..|first| - 1] == [];
    NothingAdded([Arrive(bs, frames[0].node, Parsed(frames[0].bytes)).1.value]);
  }

  /** A call reads the frames up to the one that completes a packet, and returns that packet; or it reads all of
      them, and none was completed. */
  lemma {:induction false} UpToFirstPacket(bs: seq<Buffer>, frames: seq<Frame>, player: byte) returns (read: seq<Frame>)
    requires Sized(bs) && FramesOk(frames)
    ensures ReadsTo(bs, frames, read, Drain(bs, frames, player))
    decreases |frames|
  {
    if frames == [] {
      read := [];
    } else if LateDiscover(frames[0].bytes) {
      assert FrameOk(frames[0]);
      read := UpToFirstPacket(bs, frames[1..], player);
      ReadsOn(bs, frames, read, bs, Drain(bs, frames[1..], player), Drain(bs, frames, player));
      read := [frames[0]] + read;
    } else {
      assert FrameOk(frames[0]);
      var (after, done) := Arrive(bs, frames[0].node, Parsed(frames[0].bytes));
      ArriveSized(bs, frames[0].node, Parsed(frames[0].bytes));
      if done.Some? {
        ReadsOne(bs, frames, player);
        read := [frames[0]];
      } else {
        read := UpToFirstPacket(after, frames[1..], player);
        ReadsOn(bs, frames, read, after, Drain(after, frames[1..], player), Drain(bs, frames, player));
        read := [frames[0]] + read;
      }
    }
  }

  /** What sending a packet puts on the network, in order. */
  function FramesOf(node: int, seqno: byte, packet: seq<byte>): (r: seq<Frame>)
    requires |packet| <= MAX_PACKET
    ensures |r| == NumFragments(|packet|)
    ensures forall i :: 0 <= i < |r| ==> r[i] == Frame(node, Encoded(FragmentOf(seqno, packet, i)))
  {
    seq(NumFragments(|packet|),
        i requires 0 <= i < NumFragments(|packet|) => Frame(node, Encoded(FragmentOf(seqno, packet, i))))
  }

  lemma ArriveBy(bs: seq<Buffer>, node: int, f: Fragment)
    requires Sized(bs) && Fits(f)
    ensures var i := Slot(bs, node, f.seqno);
      var b := Put(bs[i], Evicts(bs, node, f.seqno), node, f);
      Arrive(bs, node, f) ==
        if b.received == FullMask(Count(f)) then (bs[i := b][i := b.(received := 0)], Some(b.(received := 0)))
        else (bs[i := b], None)
  {
    var i := Slot(bs, node, f.seqno);
    var b := Put(bs[i], Evicts(bs, node, f.seqno), node, f);
    assert bs[i := b][i := b.(received := 0)] == bs[i := b.(received := 0)];
  }

  /** The loop leads to `whole` after these answers and what is still to come. */
  ghost predicate DrainsTo(whole: Drained, answers: seq<Frame>, d: Drained) {
    whole == d.(answers := answers + d.answers)
  }

  lemma DrainsOn(whole: Drained, answers: seq<Frame>, answer: Frame, d: Drained)
    requires DrainsTo(whole, answers, Answered(answer, d))
    ensures DrainsTo(whole, answers + [answer], d)
  {
    Associative(answers, [answer], d.answers);
  }

  class Driver {
    const buffers: array<Buffer>
    const consoleplayer: byte
    var sendSeq: byte
    var incoming: seq<Frame>
    var sent: seq<Frame>

    ghost predicate Valid()
      reads this, buffers
    {
      Sized(buffers[..]) && FramesOk(incoming)
    }

    constructor (player: byte)
      ensures Valid() && fresh(buffers) && consoleplayer == player && sendSeq == 0 && incoming == sent == []
      ensures forall i :: 0 <= i < buffers.Length ==> buffers[i].received == 0
    {
      var zeros := seq(MAX_PACKET, _ => 0);
      buffers := new Buffer[REASSEMBLY_BUFFERS](_ => Buffer(0, 0, 0, 0, zeros));
      consoleplayer, sendSeq, incoming, sent := player, 0, [], [];
    }

    /** The loop over the buffers that the three searches below share. */
    method Search(w: Wanted) returns (i: nat)
      requires Valid()
      ensures i <= buffers.Length
      ensures First(buffers[..], w, buffers.Length) == if i < buffers.Length then i else -1
    {
      i := 0;
      while i < buffers.Length && !Suits(buffers[i], w)
        invariant i <= buffers.Length && forall j :: 0 <= j < i ==> !Suits(buffers[j], w)
      {
        i := i + 1;
      }
      assert i < buffers.Length ==> Suits(buffers[..][i], w);
    }

    method FindOrAllocateBuffer(node: int, seqno: byte) returns (i: nat)
      requires Valid()
      modifies buffers
      ensures i == Slot(old(buffers[..]), node, seqno) < buffers.Length
      ensures buffers[..] == if Evicts(old(buffers[..]), node, seqno)
                             then old(buffers[..])[i := old(buffers[i]).(received := 0)] else old(buffers[..])
    {
      i := Search(Of(node, seqno));
      if i < buffers.Length { return; }
      i := Search(Unused);
      if i < buffers.Length { return; }
      i := Search(From(node));
      if i == buffers.Length { i := 0; }
      buffers[i] := buffers[i].(received := 0);
    }

    /** The chosen buffer's fields are filled. */
    method FillIn(i: nat, node: int, f: Fragment)
      requires Valid() && i < buffers.Length && Fits(f)
      modifies buffers
      ensures buffers[..] == old(buffers[..])[i := Fill(old(buffers[i]), node, f)]
    {
      var result := buffers[i];
      assert |buffers[..][i].data| == MAX_PACKET;
      result := result.(seqno := f.seqno);
      result := result.(remotenode := node);
      if Which(f) == Count(f) - 1 {
        result := result.(datalength := (Count(f) - 1) * FRAGMENT_SIZE + |f.payload|);
      }
      result := result.(data := Splice(result.data, Which(f) * FRAGMENT_SIZE, f.payload));
      result := result.(received := result.received | Bit(Which(f)));
      assert result == Fill(buffers[i], node, f);
      buffers[i] := result;
    }

    method PutInBuffer(node: int, f: Fragment) returns (i: nat)
      requires Valid() && Fits(f)
      modifies buffers
      ensures i == Slot(old(buffers[..]), node, f.seqno) < buffers.Length
      ensures buffers[..] == old(buffers[..])[i := Put(old(buffers[i]), Evicts(old(buffers[..]), node, f.seqno), node, f)]
    {
      i := FindOrAllocateBuffer(node, f.seqno);
      FillIn(i, node, f);
    }

    /** One arriving fragment. */
    method Accept(node: int, f: Fragment) returns (done: Option<Buffer>)
      requires Valid() && Fits(f)
      modifies buffers
      ensures Valid() && (buffers[..], done) == Arrive(old(buffers[..]), node, f)
    {
      ArriveBy(buffers[..], node, f);
      ArriveSized(buffers[..], node, f);
      var i := PutInBuffer(node, f);
      var n := Count(f);
      var bit := Bit(n);
      BitIs(n, bit);
      done := None;
      if buffers[i].received == bit - 1 {
        buffers[i] := buffers[i].(received := 0);
        done := Some(buffers[i]);
      }
    }

    /** Whether a packet is a late discovery message, which is answered. */
    method CheckLateDiscover(frame: Frame) returns (late: bool)
      modifies `sent
      ensures late == LateDiscover(frame.bytes)
      ensures sent == if late then old(sent) + [Frame(frame.node, Reply(consoleplayer))] else old(sent)
    {
      late := LateDiscover(frame.bytes);
      if late {
        sent := sent + [Frame(frame.node, Reply(consoleplayer))];
      }
    }

    method GetPacket() returns (packet: Option<Buffer>)
      requires Valid()
      modifies `incoming, `sent, buffers
      ensures Valid()
      ensures var r := Drain(old(buffers[..]), old(incoming), consoleplayer);
        && buffers[..] == r.buffers && incoming == r.rest && packet == r.packet && sent == old(sent) + r.answers
    {
      packet := None;
      ghost var whole, answers := Drain(buffers[..], incoming, consoleplayer), [];
      while incoming != []
        invariant Valid() && packet == None
        invariant DrainsTo(whole, answers, Drain(buffers[..], incoming, consoleplayer))
        invariant sent == old(sent) + answers
        decreases |incoming|
      {
        var frame := incoming[0];
        ghost var bs, rest := buffers[..], incoming[1..];
        assert FrameOk(frame);
        incoming := incoming[1..];
        var late := CheckLateDiscover(frame);
        if late {
          DrainsOn(whole, answers, Frame(frame.node, Reply(consoleplayer)), Drain(bs, rest, consoleplayer));
          answers := answers + [Frame(frame.node, Reply(consoleplayer))];
          continue;
        }
        packet := Accept(frame.node, Parsed(frame.bytes));
        if packet.Some? {
          NothingAdded(answers);
          return;
        }
      }
      NothingAdded(answers);
    }

    method SendPacket(node: int, packet: seq<byte>)
      requires |packet| <= MAX_PACKET
      modifies `sent, `sendSeq
      ensures sent == old(sent) + FramesOf(node, old(sendSeq), packet)
      ensures sendSeq as int == (old(sendSeq) as int + 1) % 256
    {
      var buf := packet;
      var n := NumFragments(|packet|);
      ghost var frames := FramesOf(node, sendSeq, packet);
      var i := 0;
      while i < n
        invariant i <= n && sendSeq == old(sendSeq)
        invariant buf == if i * FRAGMENT_SIZE < |packet| then packet[i * FRAGMENT_SIZE..] else []
        invariant sent == old(sent) + frames[..i]
      {
        var sendbytes := Min(|buf|, FRAGMENT_SIZE);
        var f := Fragment(sendSeq, i % 16 + 16 * n, buf[..sendbytes]);
        assert f.payload == FragmentOf(sendSeq, packet, i).payload;
        assert frames[..i + 1] == frames[..i] + [Frame(node, Encoded(f))];
        sent := sent + [Frame(node, Encoded(f))];
        buf := buf[sendbytes..];
        i := i + 1;
      }
      assert frames[..n] == frames;
      sendSeq := (sendSeq as int + 1) % 256;
    }
  }
}
