/** What comes out of the reassembly buffers: only packets that were sent, and all of them when not too
    many are in progress at once. */
module Reassembly {
  import opened Bytes
  import opened Counting
  import opened Fragments
  import opened Wrappers

  /** What tells packets apart on arrival: the sender and its 8-bit sequence number. */
  datatype Key = Key(node: int, seqno: byte)

  function KeyOf(b: Buffer): Key { Key(b.remotenode, b.seqno) }

  predicate Sendable(packet: seq<byte>) { 0 < |packet| <= MAX_PACKET }

  function AllOf(packet: seq<byte>): set<nat> { Below(NumFragments(|packet|)) }

  /** The buffer holds the fragments `s` of the packet. */
  ghost predicate Tracks(b: Buffer, packet: seq<byte>, s: set<nat>) {
    && Sendable(packet) && |b.data| == MAX_PACKET
    && s <= AllOf(packet) && NumFragments(|packet|) < 16 && b.received == Mask(s, NumFragments(|packet|))
    && (forall q :: 0 <= q < |packet| && q / FRAGMENT_SIZE in s ==> b.data[q] == packet[q])
    && (NumFragments(|packet|) - 1 in s ==> b.datalength == |packet|)
  }

  /** The buffer is a packet of this sender, byte for byte and length for length. */
  predicate Holds(b: Buffer, node: int, packet: seq<byte>) {
    && b.remotenode == node && b.datalength == |packet| <= |b.data|
    && b.data[..|packet|] == packet
  }

  lemma PutTracks(b: Buffer, evict: bool, key: Key, packet: seq<byte>, s: set<nat>, i: nat)
    requires Sendable(packet) && i < NumFragments(|packet|) && |b.data| == MAX_PACKET
    requires if s == {} then evict || b.received == 0 else !evict && Tracks(b, packet, s)
    ensures var r := Put(b, evict, key.node, FragmentOf(key.seqno, packet, i));
      Tracks(r, packet, s + {i}) && KeyOf(r) == key
  {
    FewFragments(|packet|);
    MaskNone(NumFragments(|packet|));
    FillTracks(if evict then b.(received := 0) else b, key, packet, s, i);
  }

  lemma FillTracks(b: Buffer, key: Key, packet: seq<byte>, s: set<nat>, i: nat)
    requires Tracks(b, packet, s) && i < NumFragments(|packet|)
    ensures var r := Fill(b, key.node, FragmentOf(key.seqno, packet, i));
      Tracks(r, packet, s + {i}) && KeyOf(r) == key
  {
    FewFragments(|packet|);
    MaskAdd(s, i, NumFragments(|packet|));
    FillData(b, key, packet, s, i);
  }

  lemma FillData(b: Buffer, key: Key, packet: seq<byte>, s: set<nat>, i: nat)
    requires Sendable(packet) && i < NumFragments(|packet|) && |b.data| == MAX_PACKET
    requires forall q :: 0 <= q < |packet| && q / FRAGMENT_SIZE in s ==> b.data[q] == packet[q]
    ensures var r := Fill(b, key.node, FragmentOf(key.seqno, packet, i));
      forall q :: 0 <= q < |packet| && q / FRAGMENT_SIZE in s + {i} ==> r.data[q] == packet[q]
  {
    var f := FragmentOf(key.seqno, packet, i);
    var r := Fill(b, key.node, f);
    forall q | 0 <= q < |packet| && q / FRAGMENT_SIZE in s + {i} ensures r.data[q] == packet[q] {
      if q / FRAGMENT_SIZE == i {
        assert i * FRAGMENT_SIZE <= q < i * FRAGMENT_SIZE + |f.payload|;
        assert f.payload[q - i * FRAGMENT_SIZE] == packet[q];
      } else {
        assert !(i * FRAGMENT_SIZE <= q < i * FRAGMENT_SIZE + |f.payload|);
      }
    }
  }

  lemma CompleteMask(s: set<nat>, n: nat)
    requires n <= MAX_FRAGMENTS && s <= Below(n)
    ensures Mask(s, n) == FullMask(n) <==> s == Below(n)
    ensures Mask(s, n) == 0 <==> s == {}
  {
    MaskFull(s, n);
  }

  lemma AllHeld(b: Buffer, packet: seq<byte>)
    requires Tracks(b, packet, AllOf(packet))
    ensures Holds(b, b.remotenode, packet)
  {
    assert NumFragments(|packet|) - 1 in AllOf(packet);
    forall q | 0 <= q < |packet| ensures b.data[q] == packet[q] { assert q / FRAGMENT_SIZE in AllOf(packet); }
  }

  lemma HeldWhenAll(b: Buffer, packet: seq<byte>, s: set<nat>)
    requires Tracks(b, packet, s)
    ensures s == AllOf(packet) ==> Holds(b, b.remotenode, packet)
  {
    if s == AllOf(packet) { AllHeld(b, packet); }
  }

  /** A tracked packet's mask is full just when all its fragments are there, and then it is the packet. */
  lemma CompleteHolds(b: Buffer, packet: seq<byte>, s: set<nat>)
    requires Tracks(b, packet, s)
    ensures b.received == FullMask(NumFragments(|packet|)) <==> s == AllOf(packet)
    ensures b.received == 0 <==> s == {}
    ensures s == AllOf(packet) ==> Holds(b, b.remotenode, packet)
  {
    FewFragments(|packet|);
    CompleteMask(s, NumFragments(|packet|));
    HeldWhenAll(b, packet, s);
  }

  /** What an arriving fragment does to a buffer known to hold the fragments `s` of its packet. */
  lemma ArriveResult(bs: seq<Buffer>, key: Key, packet: seq<byte>, s: set<nat>, i: nat) returns (k: nat, b: Buffer)
    requires Sized(bs) && Sendable(packet) && i < NumFragments(|packet|)
    requires var k, out := Slot(bs, key.node, key.seqno), Evicts(bs, key.node, key.seqno);
      if s == {} then out || bs[k].received == 0 else !out && Tracks(bs[k], packet, s)
    ensures k == Slot(bs, key.node, key.seqno)
    ensures Tracks(b, packet, s + {i}) && KeyOf(b) == key
    ensures s + {i} == AllOf(packet) ==> Holds(b.(received := 0), key.node, packet)
    ensures Arrive(bs, key.node, FragmentOf(key.seqno, packet, i)) ==
            if s + {i} == AllOf(packet) then (bs[k := b.(received := 0)], Some(b.(received := 0))) else (bs[k := b], None)
  {
    k := Slot(bs, key.node, key.seqno);
    var out := Evicts(bs, key.node, key.seqno);
    PutTracks(bs[k], out, key, packet, s, i);
    b := Put(bs[k], out, key.node, FragmentOf(key.seqno, packet, i));
    ArriveAt(bs, key.node, FragmentOf(key.seqno, packet, i), k, b);
    CompleteHolds(b, packet, s + {i});
    StillHolds(b, key.node, packet);
  }

  lemma StillHolds(b: Buffer, node: int, packet: seq<byte>)
    ensures Holds(b, node, packet) ==> Holds(b.(received := 0), node, packet)
  {
  }

  // Integrity.

  /** `meaning` is the packet that each sender's current use of a sequence number stands for, and `log`
      everything ever sent. */
  datatype World = World(buffers: seq<Buffer>, meaning: map<Key, seq<byte>>, log: set<(int, seq<byte>)>,
                         returned: seq<Buffer>)

  datatype Event = Send(key: Key, packet: seq<byte>) | Arrives(key: Key, i: nat)

  /** A sequence number is not used again while fragments of the packet before are still about: none in
      a buffer, and none to arrive any more. Fragments may be lost, repeated and overtaken. */
  predicate Enabled(w: World, e: Event) {
    match e
    case Send(key, packet) =>
      Sendable(packet) && forall i :: 0 <= i < |w.buffers| && w.buffers[i].received != 0 ==> KeyOf(w.buffers[i]) != key
    case Arrives(key, i) => key in w.meaning && i < NumFragments(|w.meaning[key]|)
  }

  ghost predicate Inv(w: World) {
    && Sized(w.buffers)
    && (forall key :: key in w.meaning ==> Sendable(w.meaning[key]) && (key.node, w.meaning[key]) in w.log)
    && (forall i :: 0 <= i < |w.buffers| && w.buffers[i].received != 0 ==> Partial(w.buffers[i], w.meaning))
    && (forall i :: 0 <= i < |w.returned| ==> Genuine(w.returned[i], w.log))
  }

  ghost predicate Partial(b: Buffer, meaning: map<Key, seq<byte>>) {
    KeyOf(b) in meaning && exists s :: Tracks(b, meaning[KeyOf(b)], s)
  }

  ghost predicate Genuine(b: Buffer, log: set<(int, seq<byte>)>) {
    exists packet :: (b.remotenode, packet) in log && Holds(b, b.remotenode, packet)
  }

  ghost predicate Shape(w: World) {
    Sized(w.buffers) && forall key :: key in w.meaning ==> Sendable(w.meaning[key])
  }

  function Next(w: World, e: Event): World
    requires Shape(w) && Enabled(w, e)
  {
    match e
    case Send(key, packet) => w.(meaning := w.meaning[key := packet], log := w.log + {(key.node, packet)})
    case Arrives(key, i) =>
      assert Sendable(w.meaning[key]);
      var (bs, done) := Arrive(w.buffers, key.node, FragmentOf(key.seqno, w.meaning[key], i));
      w.(buffers := bs, returned := w.returned + if done.Some? then [done.value] else [])
  }

  /** Only packets their senders really sent are ever handed up. */
  lemma IntegrityStep(w: World, e: Event)
    requires Inv(w) && Enabled(w, e)
    ensures Inv(Next(w, e))
  {
    match e
    case Send(key, packet) => SendKeeps(w, key, packet);
    case Arrives(key, i) => ArrivalKeeps(w, key, i);
  }

  lemma SendKeeps(w: World, key: Key, packet: seq<byte>)
    requires Inv(w) && Enabled(w, Send(key, packet))
    ensures Inv(Next(w, Send(key, packet)))
  {
    var r := Next(w, Send(key, packet));
    forall i | 0 <= i < |w.buffers| && w.buffers[i].received != 0 ensures Partial(w.buffers[i], r.meaning) {
      assert Partial(w.buffers[i], w.meaning);
      assert r.meaning[KeyOf(w.buffers[i])] == w.meaning[KeyOf(w.buffers[i])];
    }
    forall i | 0 <= i < |w.returned| ensures Genuine(w.returned[i], r.log) {
      assert Genuine(w.returned[i], w.log);
    }
  }

  /** The chosen buffer holds some fragments of the packet, or nothing that counts. */
  lemma SlotTracks(w: World, key: Key) returns (s: set<nat>)
    requires Inv(w) && key in w.meaning
    ensures var k, out := Slot(w.buffers, key.node, key.seqno), Evicts(w.buffers, key.node, key.seqno);
      if s == {} then out || w.buffers[k].received == 0 else !out && Tracks(w.buffers[k], w.meaning[key], s)
  {
    s := {};
    var k := Slot(w.buffers, key.node, key.seqno);
    if w.buffers[k].received != 0 && !Evicts(w.buffers, key.node, key.seqno) {
      assert Suits(w.buffers[k], Of(key.node, key.seqno));
      assert Partial(w.buffers[k], w.meaning);
      s :| Tracks(w.buffers[k], w.meaning[key], s);
      CompleteHolds(w.buffers[k], w.meaning[key], s);
    }
  }

  lemma ArrivalKeeps(w: World, key: Key, i: nat)
    requires Inv(w) && Enabled(w, Arrives(key, i))
    ensures Inv(Next(w, Arrives(key, i)))
  {
    var packet, bs := w.meaning[key], w.buffers;
    var s := SlotTracks(w, key);
    var k, b := ArriveResult(bs, key, packet, s, i);
    if s + {i} == AllOf(packet) {
      assert Genuine(b.(received := 0), w.log);
      SetBuffer(w, k, b.(received := 0));
    } else {
      assert Partial(b, w.meaning);
      SetBuffer(w, k, b);
    }
  }

  lemma SetBuffer(w: World, k: nat, b: Buffer)
    requires Inv(w) && k < |w.buffers| && |b.data| == MAX_PACKET && (b.received != 0 ==> Partial(b, w.meaning))
    ensures Inv(w.(buffers := w.buffers[k := b]))
  {
  }

  ghost predicate Possible(w: World, es: seq<Event>)
    decreases es
  {
    es == [] || (Shape(w) && Enabled(w, es[0]) && Possible(Next(w, es[0]), es[1..]))
  }

  function After(w: World, es: seq<Event>): World
    requires Possible(w, es)
    decreases es
  {
    if es == [] then w else After(Next(w, es[0]), es[1..])
  }

  lemma {:induction false} Integrity(w: World, es: seq<Event>)
    requires Inv(w) && Possible(w, es)
    ensures Inv(After(w, es))
    ensures forall i :: 0 <= i < |After(w, es).returned| ==> Genuine(After(w, es).returned[i], After(w, es).log)
    decreases es
  {
    if es == [] {
    } else {
      IntegrityStep(w, es[0]);
      Integrity(Next(w, es[0]), es[1..]);
    }
  }
}
