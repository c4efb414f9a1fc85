/** When fragments arrive once each, in any order and mixed with those of at most seven other unfinished
    packets, every packet comes out whole at its last missing fragment. */
module ReassemblyComplete {
  import opened Bytes
  import opened Counting
  import opened Fragments
  import opened Wrappers
  import opened Reassembly

  datatype Sent = Sent(key: Key, bytes: seq<byte>)

  /** All the packets of a run. Later ones may use the sequence numbers of earlier ones again. */
  type Packets = seq<Sent>

  /** The arrival of one fragment: which packet's, and which of its fragments. */
  datatype Arrival = Arrival(id: nat, i: nat)

  predicate Expected(packets: Packets, d: Arrival) {
    d.id < |packets| && Sendable(packets[d.id].bytes) && d.i < NumFragments(|packets[d.id].bytes|)
  }

  predicate ArrivalsOk(packets: Packets, ds: seq<Arrival>) {
    Distinct(ds) && forall j :: 0 <= j < |ds| ==> Expected(packets, ds[j])
  }

  function Deliver(bs: seq<Buffer>, packets: Packets, d: Arrival): (seq<Buffer>, Option<Buffer>)
    requires Sized(bs) && Expected(packets, d)
  {
    var p := packets[d.id];
    Arrive(bs, p.key.node, FragmentOf(p.key.seqno, p.bytes, d.i))
  }

  /** The fragments of a packet that have arrived. */
  function Got(ds: seq<Arrival>, id: nat): (s: set<nat>) {
    if ds == [] then {}
    else Got(ds[..|ds| - 1], id) + if ds[|ds| - 1].id == id then {ds[|ds| - 1].i} else {}
  }

  lemma {:induction false} InGot(ds: seq<Arrival>, id: nat, i: nat)
    ensures i in Got(ds, id) <==> Arrival(id, i) in ds
  {
    if ds == [] {
    } else {
      InGot(ds[..|ds| - 1], id, i);
    }
  }

  /** Some but not all of its fragments have arrived. */
  predicate Unfinished(packets: Packets, ds: seq<Arrival>, id: nat) {
    id < |packets| && Got(ds, id) != {} && Got(ds, id) != AllOf(packets[id].bytes)
  }

  /** The senders and sequence numbers of the unfinished packets. */
  function LiveKeys(packets: Packets, ds: seq<Arrival>): set<Key> {
    set id | 0 <= id < |packets| && Unfinished(packets, ds, id) :: packets[id].key
  }

  /** No other packet with this one's sender and sequence number is unfinished. */
  ghost predicate Alone(packets: Packets, ds: seq<Arrival>, id: nat)
    requires id < |packets|
  {
    forall other: nat :: Unfinished(packets, ds, other) && packets[other].key == packets[id].key ==> other == id
  }

  /** At every arrival at most seven other packets are unfinished, and none under the same number. */
  ghost predicate NeverCrowded(packets: Packets, ds: seq<Arrival>)
    requires ArrivalsOk(packets, ds)
  {
    forall j :: 0 <= j < |ds| ==> Fits(packets, ds[..j], ds[j].id)
  }

  ghost predicate Fits(packets: Packets, ds: seq<Arrival>, id: nat) {
    id < |packets| && Alone(packets, ds, id) && |LiveKeys(packets, ds) - {packets[id].key}| < REASSEMBLY_BUFFERS
  }

  function AsOf(key: Key): Wanted { Of(key.node, key.seqno) }

  /** Every unfinished packet has a buffer, the first with its key. */
  ghost predicate Housed(bs: seq<Buffer>, packets: Packets, ds: seq<Arrival>) {
    forall id: nat :: Unfinished(packets, ds, id) ==> HousedAt(bs, packets, ds, id)
  }

  ghost predicate HousedAt(bs: seq<Buffer>, packets: Packets, ds: seq<Arrival>, id: nat)
    requires id < |packets|
  {
    var h := First(bs, AsOf(packets[id].key), |bs|);
    h >= 0 && bs[h].received != 0 && Tracks(bs[h], packets[id].bytes, Got(ds, id))
  }

  /** No other buffer is in use. */
  ghost predicate OthersFree(bs: seq<Buffer>, packets: Packets, ds: seq<Arrival>) {
    forall b :: 0 <= b < |bs| && bs[b].received != 0 ==>
      KeyOf(bs[b]) in LiveKeys(packets, ds) && First(bs, AsOf(KeyOf(bs[b])), |bs|) == b
  }

  ghost predicate Placed(bs: seq<Buffer>, packets: Packets, ds: seq<Arrival>) {
    Sized(bs) && Housed(bs, packets, ds) && OthersFree(bs, packets, ds)
  }

  function Keys(bs: seq<Buffer>): (r: seq<Key>)
    ensures |r| == |bs| && forall b :: 0 <= b < |bs| ==> r[b] == KeyOf(bs[b])
  {
    seq(|bs|, b requires 0 <= b < |bs| => KeyOf(bs[b]))
  }

  lemma KeysDistinct(bs: seq<Buffer>)
    requires forall b :: 0 <= b < |bs| ==> First(bs, AsOf(KeyOf(bs[b])), |bs|) == b
    ensures Distinct(Keys(bs))
  {
  }

  /** There is an unused buffer for a packet that has none yet. */
  lemma RoomForOne(bs: seq<Buffer>, packets: Packets, ds: seq<Arrival>, key: Key)
    requires OthersFree(bs, packets, ds) && key !in LiveKeys(packets, ds)
    requires |LiveKeys(packets, ds) - {key}| < |bs|
    ensures First(bs, Unused, |bs|) >= 0
  {
    if First(bs, Unused, |bs|) < 0 {
      forall b | 0 <= b < |bs| ensures bs[b].received != 0 { assert !Suits(bs[b], Unused); }
      KeysDistinct(bs);
      TooMany(Keys(bs), LiveKeys(packets, ds) - {key});
      assert false;
    }
  }

  lemma TooMany(keys: seq<Key>, busy: set<Key>)
    requires Distinct(keys) && forall b :: 0 <= b < |keys| ==> keys[b] in busy
    ensures |keys| <= |busy|
  {
    SubsetSize(Elements(keys), busy);
  }

  lemma NotLive(packets: Packets, ds: seq<Arrival>, id: nat)
    requires id < |packets| && Alone(packets, ds, id)
    ensures packets[id].key in LiveKeys(packets, ds) <==> Unfinished(packets, ds, id)
  {
  }

  /** So the fragment's buffer holds what has arrived of its packet so far, and nothing is thrown away. */
  lemma SlotIsRight(bs: seq<Buffer>, packets: Packets, ds: seq<Arrival>, id: nat)
    requires Placed(bs, packets, ds) && Fits(packets, ds, id) && Got(ds, id) != AllOf(packets[id].bytes)
    ensures var key := packets[id].key;
      var k := Slot(bs, key.node, key.seqno);
      && !Evicts(bs, key.node, key.seqno)
      && (if Got(ds, id) == {} then bs[k].received == 0 else Tracks(bs[k], packets[id].bytes, Got(ds, id)))
      && (bs[k].received != 0 ==> KeyOf(bs[k]) == key)
      && (forall b :: 0 <= b < k ==> !Suits(bs[b], AsOf(key)))
  {
    var key := packets[id].key;
    NotLive(packets, ds, id);
    if Unfinished(packets, ds, id) {
      assert HousedAt(bs, packets, ds, id);
    } else {
      RoomForOne(bs, packets, ds, key);
    }
    var m := First(bs, AsOf(key), |bs|);
    if m >= 0 && bs[m].received != 0 {
      assert KeyOf(bs[m]) == key;
    }
  }

  /** Other packets' arrivals leave a packet's buffer alone. */
  lemma OthersUnchanged(bs: seq<Buffer>, key: Key, k: nat, b: Buffer, other: Key)
    requires k < |bs| && KeyOf(b) == key && other != key && (bs[k].received != 0 ==> KeyOf(bs[k]) == key)
    requires var h := First(bs, AsOf(other), |bs|); h >= 0 && bs[h].received != 0
    ensures var h := First(bs, AsOf(other), |bs|); h != k && First(bs[k := b], AsOf(other), |bs|) == h
  {
    var h := First(bs, AsOf(other), |bs|);
    assert Suits(bs[h], AsOf(other)) && KeyOf(bs[h]) == other;
    assert bs[k := b][h] == bs[h];
    assert !Suits(b, AsOf(other));
    FirstIs(bs[k := b], AsOf(other), h, |bs|);
  }

  lemma FirstIs(bs: seq<Buffer>, w: Wanted, h: nat, n: nat)
    requires h < n <= |bs| && Suits(bs[h], w) && forall i :: 0 <= i < h ==> !Suits(bs[i], w)
    ensures First(bs, w, n) == h
  {
    var r := First(bs, w, n);
    assert r >= 0;
  }

  lemma GotMore(packets: Packets, ds: seq<Arrival>, d: Arrival)
    requires ArrivalsOk(packets, ds) && Expected(packets, d) && d !in ds
    ensures d.i !in Got(ds, d.id) && Got(ds + [d], d.id) == Got(ds, d.id) + {d.i}
    ensures forall other :: other != d.id ==> Got(ds + [d], other) == Got(ds, other)
    ensures Got(ds + [d], d.id) <= AllOf(packets[d.id].bytes)
  {
    var e := ds + [d];
    assert e[..|ds|] == ds && e[|ds|] == d;
    InGot(ds, d.id, d.i);
    forall i | i in Got(e, d.id) ensures i in AllOf(packets[d.id].bytes) {
      InGot(e, d.id, i);
      var j :| 0 <= j < |e| && e[j] == Arrival(d.id, i);
    }
  }

  /** One arrival keeps everything in place, and completes the packet if it is the last one missing. */
  lemma OneArrival(bs: seq<Buffer>, packets: Packets, ds: seq<Arrival>, d: Arrival)
    requires Placed(bs, packets, ds) && ArrivalsOk(packets, ds) && Expected(packets, d) && d !in ds
    requires Fits(packets, ds, d.id)
    ensures Placed(Deliver(bs, packets, d).0, packets, ds + [d])
    ensures var done := Deliver(bs, packets, d).1;
      && (done.Some? <==> Got(ds + [d], d.id) == AllOf(packets[d.id].bytes))
      && (done.Some? ==> Holds(done.value, packets[d.id].key.node, packets[d.id].bytes))
  {
    GotMore(packets, ds, d);
    SlotIsRight(bs, packets, ds, d.id);
    var k, b := ArriveResult(bs, packets[d.id].key, packets[d.id].bytes, Got(ds, d.id), d.i);
    if Unfinished(packets, ds, d.id) { assert HousedAt(bs, packets, ds, d.id); }
    PlacedAfter(bs, packets, ds, d, k, b);
  }

  lemma PlacedAfter(bs: seq<Buffer>, packets: Packets, ds: seq<Arrival>, d: Arrival, k: nat, b: Buffer)
    requires Placed(bs, packets, ds) && d.id < |packets| && Alone(packets, ds, d.id)
    requires k < |bs| && KeyOf(b) == packets[d.id].key && (bs[k].received != 0 ==> KeyOf(bs[k]) == packets[d.id].key)
    requires forall c :: 0 <= c < k ==> !Suits(bs[c], AsOf(packets[d.id].key))
    requires Unfinished(packets, ds, d.id) ==> First(bs, AsOf(packets[d.id].key), |bs|) == k
    requires forall other :: other != d.id ==> Got(ds + [d], other) == Got(ds, other)
    requires d.i in Got(ds + [d], d.id) && Tracks(b, packets[d.id].bytes, Got(ds + [d], d.id))
    ensures Placed(if Got(ds + [d], d.id) == AllOf(packets[d.id].bytes) then bs[k := b.(received := 0)] else bs[k := b],
                   packets, ds + [d])
  {
    var full := Got(ds + [d], d.id) == AllOf(packets[d.id].bytes);
    CompleteHolds(b, packets[d.id].bytes, Got(ds + [d], d.id));
    Replaced(bs, packets, ds, ds + [d], d.id, k, if full then b.(received := 0) else b);
  }

  lemma Replaced(bs: seq<Buffer>, packets: Packets, ds: seq<Arrival>, e: seq<Arrival>, id: nat, k: nat, c: Buffer)
    requires Placed(bs, packets, ds) && id < |packets| && Alone(packets, ds, id)
    requires k < |bs| && |c.data| == MAX_PACKET && KeyOf(c) == packets[id].key
    requires bs[k].received != 0 ==> KeyOf(bs[k]) == packets[id].key
    requires forall b :: 0 <= b < k ==> !Suits(bs[b], AsOf(packets[id].key))
    requires forall other :: other != id ==> Got(e, other) == Got(ds, other)
    requires Unfinished(packets, e, id) <==> c.received != 0
    requires c.received != 0 ==> Tracks(c, packets[id].bytes, Got(e, id))
    requires Unfinished(packets, ds, id) ==> First(bs, AsOf(packets[id].key), |bs|) == k
    ensures Placed(bs[k := c], packets, e)
  {
    var r := bs[k := c];
    FirstIs(r, AsOf(packets[id].key), k, |r|);
    forall other: nat | Unfinished(packets, e, other) ensures HousedAt(r, packets, e, other) {
      if other != id {
        assert Unfinished(packets, ds, other) && HousedAt(bs, packets, ds, other);
        OthersUnchanged(bs, packets[id].key, k, c, packets[other].key);
      }
    }
    forall b | 0 <= b < |r| && r[b].received != 0
      ensures KeyOf(r[b]) in LiveKeys(packets, e) && First(r, AsOf(KeyOf(r[b])), |r|) == b
    {
      if b != k {
        assert r[b] == bs[b] && First(bs, AsOf(KeyOf(bs[b])), |bs|) == b;
        StillLive(bs, packets, ds, e, id, k, b);
        OthersUnchanged(bs, packets[id].key, k, c, KeyOf(bs[b]));
      }
    }
  }

  /** Another buffer in use belongs to another packet, which is as unfinished as before. */
  lemma StillLive(bs: seq<Buffer>, packets: Packets, ds: seq<Arrival>, e: seq<Arrival>, id: nat, k: nat, b: nat)
    requires Placed(bs, packets, ds) && id < |packets| && Alone(packets, ds, id)
    requires k < |bs| && b < |bs| && b != k && bs[b].received != 0
    requires Unfinished(packets, ds, id) ==> First(bs, AsOf(packets[id].key), |bs|) == k
    requires forall other :: other != id ==> Got(e, other) == Got(ds, other)
    ensures KeyOf(bs[b]) != packets[id].key && KeyOf(bs[b]) in LiveKeys(packets, e)
  {
    assert First(bs, AsOf(KeyOf(bs[b])), |bs|) == b;
    NotLive(packets, ds, id);
    var other :| 0 <= other < |packets| && Unfinished(packets, ds, other) && packets[other].key == KeyOf(bs[b]);
    assert Unfinished(packets, e, other);
  }

  // Whole sequences of arrivals.

  function BuffersAfter(bs: seq<Buffer>, packets: Packets, ds: seq<Arrival>, n: nat): (r: seq<Buffer>)
    requires Sized(bs) && n <= |ds| && forall j :: 0 <= j < |ds| ==> Expected(packets, ds[j])
    ensures Sized(r)
  {
    if n == 0 then bs else Deliver(BuffersAfter(bs, packets, ds, n - 1), packets, ds[n - 1]).0
  }

  predicate AllUnused(bs: seq<Buffer>) {
    forall b :: 0 <= b < |bs| ==> bs[b].received == 0
  }

  predicate FinishedAt(packets: Packets, ds: seq<Arrival>, n: nat, id: nat)
    requires n <= |ds| && id < |packets|
  {
    forall i: nat :: i < NumFragments(|packets[id].bytes|) ==> Arrival(id, i) in ds[..n]
  }

  lemma PrefixOk(packets: Packets, ds: seq<Arrival>, n: nat)
    requires ArrivalsOk(packets, ds) && n <= |ds|
    ensures ArrivalsOk(packets, ds[..n])
    ensures n < |ds| ==> ds[n] !in ds[..n] && ds[..n + 1] == ds[..n] + [ds[n]]
  {
    assert forall j :: 0 <= j < n ==> ds[..n][j] == ds[j];
  }

  lemma NthPlaced(bs: seq<Buffer>, packets: Packets, ds: seq<Arrival>, n: nat, next: seq<Buffer>)
    requires ArrivalsOk(packets, ds) && NeverCrowded(packets, ds) && n < |ds|
    requires Placed(bs, packets, ds[..n]) && next == Deliver(bs, packets, ds[n]).0
    ensures Placed(next, packets, ds[..n + 1])
  {
    PrefixOk(packets, ds, n);
    OneArrival(bs, packets, ds[..n], ds[n]);
  }

  lemma NthArrival(bs: seq<Buffer>, packets: Packets, ds: seq<Arrival>, n: nat)
    requires ArrivalsOk(packets, ds) && NeverCrowded(packets, ds) && n < |ds|
    requires Placed(bs, packets, ds[..n])
    ensures var done, p := Deliver(bs, packets, ds[n]).1, packets[ds[n].id];
      && (done.Some? <==> FinishedAt(packets, ds, n + 1, ds[n].id))
      && (done.Some? ==> Holds(done.value, p.key.node, p.bytes))
  {
    PrefixOk(packets, ds, n);
    OneArrival(bs, packets, ds[..n], ds[n]);
    PrefixOk(packets, ds, n + 1);
    GotAll(packets, ds[..n + 1], ds[n].id);
  }

  lemma {:induction false} StaysPlaced(bs: seq<Buffer>, packets: Packets, ds: seq<Arrival>, n: nat)
    requires Sized(bs) && AllUnused(bs)
    requires ArrivalsOk(packets, ds) && NeverCrowded(packets, ds) && n <= |ds|
    ensures Placed(BuffersAfter(bs, packets, ds, n), packets, ds[..n])
  {
    if n == 0 {
    } else {
      StaysPlaced(bs, packets, ds, n - 1);
      NthPlaced(BuffersAfter(bs, packets, ds, n - 1), packets, ds, n - 1, BuffersAfter(bs, packets, ds, n));
    }
  }

  /** Starting from unused buffers, an arrival hands up a packet exactly when it is the last fragment of
      it to arrive, and then it is that packet. */
  lemma Completeness(bs: seq<Buffer>, packets: Packets, ds: seq<Arrival>, n: nat)
    requires Sized(bs) && AllUnused(bs)
    requires ArrivalsOk(packets, ds) && NeverCrowded(packets, ds) && n < |ds|
    ensures var done, p := Deliver(BuffersAfter(bs, packets, ds, n), packets, ds[n]).1, packets[ds[n].id];
      && (done.Some? <==> FinishedAt(packets, ds, n + 1, ds[n].id))
      && (done.Some? ==> Holds(done.value, p.key.node, p.bytes))
  {
    StaysPlaced(bs, packets, ds, n);
    NthArrival(BuffersAfter(bs, packets, ds, n), packets, ds, n);
  }

  lemma GotAll(packets: Packets, ds: seq<Arrival>, id: nat)
    requires ArrivalsOk(packets, ds) && id < |packets|
    ensures Got(ds, id) == AllOf(packets[id].bytes) <==>
            forall i: nat :: i < NumFragments(|packets[id].bytes|) ==> Arrival(id, i) in ds
  {
    forall i: nat ensures i in Got(ds, id) <==> Arrival(id, i) in ds { InGot(ds, id, i); }
    forall i: nat | i in Got(ds, id) ensures i in AllOf(packets[id].bytes) {
      var j :| 0 <= j < |ds| && ds[j] == Arrival(id, i);
    }
  }
}
