/** Splitting packets into fragments, and the buffers in which they are put together again. */
module Fragments {
  import opened Bytes
  import opened Wrappers

  const FRAGMENT_SIZE := 500
  const REASSEMBLY_BUFFERS := 8
  const MAX_PACKET := 2048
  const MAX_FRAGMENTS := 5

  /** A fragment as it travels: the high nibble of `place` is how many there are, the low one which. */
  datatype Fragment = Fragment(seqno: byte, place: byte, payload: seq<byte>)

  datatype Buffer = Buffer(remotenode: int, seqno: byte, received: bv16, datalength: int, data: seq<byte>)

  function NumFragments(len: nat): nat { (len + FRAGMENT_SIZE - 1) / FRAGMENT_SIZE }

  lemma FewFragments(len: nat)
    requires 0 < len <= MAX_PACKET
    ensures 1 <= NumFragments(len) <= MAX_FRAGMENTS
  {
  }

  /** The i-th fragment of a packet. */
  function FragmentOf(seqno: byte, packet: seq<byte>, i: nat): (f: Fragment)
    requires 0 < |packet| <= MAX_PACKET && i < NumFragments(|packet|)
    ensures FragmentOk(f) && Which(f) == i && Count(f) == NumFragments(|packet|)
  {
    Fragment(seqno, i + 16 * NumFragments(|packet|),
             packet[i * FRAGMENT_SIZE..Min((i + 1) * FRAGMENT_SIZE, |packet|)])
  }

  function Which(f: Fragment): nat { f.place % 16 }

  function Count(f: Fragment): nat { f.place / 16 }

  /** How the two nibbles are packed. */
  lemma PlaceBits(seqno: byte, packet: seq<byte>, i: nat, k: bv8, n: bv8)
    requires 0 < |packet| <= MAX_PACKET && i < NumFragments(|packet|)
    requires k as int == i && n as int == NumFragments(|packet|)
    ensures FragmentOf(seqno, packet, i).place as int == ((k & 0x0f) | (n << 4)) as int
  {
    assert k < 16 && n < 16;
  }

  /** A fragment that stays inside the buffer. */
  predicate Fits(f: Fragment) { Which(f) * FRAGMENT_SIZE + |f.payload| <= MAX_PACKET }

  /** A fragment that some packet of legal size has. */
  predicate FragmentOk(f: Fragment) {
    && Which(f) < Count(f) <= MAX_FRAGMENTS && 0 < |f.payload| <= FRAGMENT_SIZE
    && (Which(f) < Count(f) - 1 ==> |f.payload| == FRAGMENT_SIZE)
    && Fits(f)
  }

  // The bit mask of fragments received.

  /** The mask of n fragments that are all there: n ones, written out. */
  function FullMask(n: nat): bv16
    requires n < 16
  {
    if n == 0 then 0 else if n == 1 then 1 else if n == 2 then 3 else if n == 3 then 7 else if n == 4 then 0xf else
    if n == 5 then 0x1f else if n == 6 then 0x3f else if n == 7 then 0x7f else if n == 8 then 0xff else
    if n == 9 then 0x1ff else if n == 10 then 0x3ff else if n == 11 then 0x7ff else if n == 12 then 0xfff else
    if n == 13 then 0x1fff else if n == 14 then 0x3fff else 0x7fff
  }

  /** The next bit above those. */
  function Bit(k: nat): bv16
    requires k < 16
  {
    if k == 0 then 1 else if k == 1 then 2 else if k == 2 then 4 else if k == 3 then 8 else if k == 4 then 0x10 else
    if k == 5 then 0x20 else if k == 6 then 0x40 else if k == 7 then 0x80 else if k == 8 then 0x100 else
    if k == 9 then 0x200 else if k == 10 then 0x400 else if k == 11 then 0x800 else if k == 12 then 0x1000 else
    if k == 13 then 0x2000 else if k == 14 then 0x4000 else 0x8000
  }

  /** The bits are one shifted up k times, and a mask of n ones is the n-th bit less one. */
  lemma BitIs(k: nat, b: bv16)
    requires k < 16 && b == Bit(k)
    ensures FullMask(k) == b - 1
    ensures b == if k == 0 then 1 << 0 else if k == 1 then 1 << 1 else if k == 2 then 1 << 2 else if k == 3 then 1 << 3
      else if k == 4 then 1 << 4 else if k == 5 then 1 << 5 else if k == 6 then 1 << 6 else if k == 7 then 1 << 7
      else if k == 8 then 1 << 8 else if k == 9 then 1 << 9 else if k == 10 then 1 << 10 else if k == 11 then 1 << 11
      else if k == 12 then 1 << 12 else if k == 13 then 1 << 13 else if k == 14 then 1 << 14 else 1 << 15
  {
  }

  /** The mask of those of the first n fragments that are in the set. */
  function Mask(s: set<nat>, n: nat): bv16
    requires n <= 16
  {
    if n == 0 then 0 else WithBit(Mask(s, n - 1), n - 1 in s, Bit(n - 1))
  }

  function WithBit(m: bv16, has: bool, b: bv16): bv16 { if has then m | b else m }

  /** Another bit above those of x, which has the bits of m at most. */
  lemma OneMoreBit(x: bv16, b: bv16, m: bv16, full: bv16, has: bool)
    requires (b == 1 && m == 0 && full == 1) || (b == 2 && m == 1 && full == 3) || (b == 4 && m == 3 && full == 7)
             || (b == 8 && m == 7 && full == 0xf) || (b == 0x10 && m == 0xf && full == 0x1f)
    requires x <= m
    ensures WithBit(x, has, b) <= full && (WithBit(x, has, b) == full <==> x == m && has)
    ensures WithBit(x, has, b) == 0 <==> x == 0 && !has
  {
  }

  lemma {:induction false} MaskNone(n: nat)
    requires n <= 16
    ensures Mask({}, n) == 0
  {
    if n == 0 {
    } else {
      MaskNone(n - 1);
    }
  }

  lemma {:induction false} MaskSame(s: set<nat>, k: nat, n: nat)
    requires n <= k < 16
    ensures Mask(s + {k}, n) == Mask(s, n)
  {
    if n == 0 {
    } else {
      MaskSame(s, k, n - 1);
    }
  }

  lemma OrTwice(x: bv16, b: bv16)
    ensures (x | b) | b == x | b
  {
  }

  lemma OrSwap(x: bv16, b: bv16, c: bv16)
    ensures (x | c) | b == (x | b) | c
  {
  }

  lemma BitAgain(x: bv16, has: bool, b: bv16)
    ensures WithBit(WithBit(x, has, b), true, b) == WithBit(x, true, b)
  {
    OrTwice(x, b);
  }

  lemma BitLater(x: bv16, has: bool, b: bv16, c: bv16)
    ensures WithBit(WithBit(x, true, c), has, b) == WithBit(WithBit(x, has, b), true, c)
  {
    OrSwap(x, b, c);
  }

  lemma {:induction false} MaskAdd(s: set<nat>, k: nat, n: nat)
    requires k < n <= MAX_FRAGMENTS
    ensures Mask(s + {k}, n) == WithBit(Mask(s, n), true, Bit(k))
  {
    if k == n - 1 {
      MaskSame(s, k, n - 1);
      BitAgain(Mask(s, n - 1), n - 1 in s, Bit(k));
    } else {
      MaskAdd(s, k, n - 1);
      BitLater(Mask(s, n - 1), n - 1 in s, Bit(n - 1), Bit(k));
    }
  }

  /** A mask of n fragments is complete just when all n have been received. */
  lemma {:induction false} MaskFull(s: set<nat>, n: nat)
    requires n <= MAX_FRAGMENTS
    ensures Mask(s, n) == FullMask(n) <==> forall k :: 0 <= k < n ==> k in s
    ensures Mask(s, n) == 0 <==> forall k :: 0 <= k < n ==> k !in s
    ensures Mask(s, n) <= FullMask(n)
  {
    if n == 0 {
    } else {
      MaskFull(s, n - 1);
      OneMoreBit(Mask(s, n - 1), Bit(n - 1), FullMask(n - 1), FullMask(n), n - 1 in s);
    }
  }

  // Choosing a buffer.

  datatype Wanted = Of(node: int, seqno: byte) | Unused | From(node: int)

  predicate Suits(b: Buffer, w: Wanted) {
    match w
    case Of(node, seqno) => b.remotenode == node && b.seqno == seqno
    case Unused => b.received == 0
    case From(node) => b.remotenode == node
  }

  /** The first of the first n buffers that suits, or -1. */
  function First(bs: seq<Buffer>, w: Wanted, n: nat): (r: int)
    requires n <= |bs|
    ensures -1 <= r < n
    ensures r >= 0 ==> Suits(bs[r], w)
    ensures forall i :: 0 <= i < n && (r < 0 || i < r) ==> !Suits(bs[i], w)
  {
    if n == 0 then -1
    else
      var r := First(bs, w, n - 1);
      if r >= 0 then r else if Suits(bs[n - 1], w) then n - 1 else -1
  }

  /** The buffer a fragment goes to: its packet's, else an unused one, else one of the same sender, else
      the first. */
  function Slot(bs: seq<Buffer>, node: int, seqno: byte): (i: nat)
    requires bs != []
    ensures i < |bs|
  {
    var n := |bs|;
    if First(bs, Of(node, seqno), n) >= 0 then First(bs, Of(node, seqno), n)
    else if First(bs, Unused, n) >= 0 then First(bs, Unused, n)
    else if First(bs, From(node), n) >= 0 then First(bs, From(node), n)
    else 0
  }

  /** Whether what was in that buffer is thrown away. */
  predicate Evicts(bs: seq<Buffer>, node: int, seqno: byte) {
    First(bs, Of(node, seqno), |bs|) < 0 && First(bs, Unused, |bs|) < 0
  }

  /** The buffer after the fragment has been put in. */
  function Fill(b: Buffer, node: int, f: Fragment): Buffer
    requires |b.data| == MAX_PACKET && Fits(f)
  {
    Buffer(node, f.seqno, b.received | Bit(Which(f)),
           if Which(f) == Count(f) - 1 then (Count(f) - 1) * FRAGMENT_SIZE + |f.payload| else b.datalength,
           Splice(b.data, Which(f) * FRAGMENT_SIZE, f.payload))
  }

  /** The same, when what was there may first be thrown away. */
  function Put(b: Buffer, evict: bool, node: int, f: Fragment): Buffer
    requires |b.data| == MAX_PACKET && Fits(f)
  {
    Fill(if evict then b.(received := 0) else b, node, f)
  }

  ghost predicate Sized(bs: seq<Buffer>) {
    |bs| == REASSEMBLY_BUFFERS && forall i :: 0 <= i < |bs| ==> |bs[i].data| == MAX_PACKET
  }

  /** The buffers after a fragment has arrived, and the buffer handed to the caller if its packet is
      complete. */
  function Arrive(bs: seq<Buffer>, node: int, f: Fragment): (seq<Buffer>, Option<Buffer>)
    requires Sized(bs) && Fits(f)
  {
    var i := Slot(bs, node, f.seqno);
    var b := Put(bs[i], Evicts(bs, node, f.seqno), node, f);
    if b.received == FullMask(Count(f)) then (bs[i := b.(received := 0)], Some(b.(received := 0)))
    else (bs[i := b], None)
  }

  /** The same, with the buffer that takes the fragment named. */
  lemma ArriveAt(bs: seq<Buffer>, node: int, f: Fragment, i: nat, b: Buffer)
    requires Sized(bs) && Fits(f) && i == Slot(bs, node, f.seqno)
    requires b == Put(bs[i], Evicts(bs, node, f.seqno), node, f)
    ensures Arrive(bs, node, f) ==
            if b.received == FullMask(Count(f)) then (bs[i := b.(received := 0)], Some(b.(received := 0)))
            else (bs[i := b], None)
  {
  }

  lemma ArriveSized(bs: seq<Buffer>, node: int, f: Fragment)
    requires Sized(bs) && Fits(f)
    ensures Sized(Arrive(bs, node, f).0)
  {
  }

  // What has to go.

  /** The buffer has fragments of this packet. */
  predicate IsOf(b: Buffer, node: int, seqno: byte) { b.remotenode == node && b.seqno == seqno }

  /** While the packet has a buffer, or some buffer is unused, nothing is thrown away: the fragment goes to the first
      buffer of its packet, or else to the first one unused. */
  lemma NothingHasToGo(bs: seq<Buffer>, node: int, seqno: byte, i: nat)
    requires i < |bs| && (IsOf(bs[i], node, seqno) || bs[i].received == 0)
    ensures var k := Slot(bs, node, seqno);
      && !Evicts(bs, node, seqno)
      && (IsOf(bs[k], node, seqno) || (bs[k].received == 0 && forall j :: 0 <= j < |bs| ==> !IsOf(bs[j], node, seqno)))
      && (IsOf(bs[i], node, seqno) ==> k <= i)
      && ((forall j :: 0 <= j < |bs| ==> !IsOf(bs[j], node, seqno)) ==> k <= i)
  {
    assert IsOf(bs[i], node, seqno) ==> Suits(bs[i], Of(node, seqno));
    assert bs[i].received == 0 ==> Suits(bs[i], Unused);
    forall j | 0 <= j < |bs| ensures Suits(bs[j], Of(node, seqno)) <==> IsOf(bs[j], node, seqno) {}
  }

  /** When all are in use and none is the packet's, what its sender has in the first buffer of its own has to go, and
      what is in the first of all only if the sender has none. */
  lemma WhoHasToGo(bs: seq<Buffer>, node: int, seqno: byte)
    requires bs != []
    requires forall j :: 0 <= j < |bs| ==> bs[j].received != 0 && !IsOf(bs[j], node, seqno)
    ensures var k := Slot(bs, node, seqno);
      && Evicts(bs, node, seqno)
      && (forall j :: 0 <= j < k ==> bs[j].remotenode != node)
      && (bs[k].remotenode == node || (k == 0 && forall j :: 0 <= j < |bs| ==> bs[j].remotenode != node))
  {
    forall j | 0 <= j < |bs|
      ensures !Suits(bs[j], Unused) && !Suits(bs[j], Of(node, seqno)) && (Suits(bs[j], From(node)) <==> bs[j].remotenode == node)
    {
    }
  }

  /** Then only the new fragment is in that buffer. Every other buffer is left alone, whatever happens. */
  lemma OnlyOneGoes(bs: seq<Buffer>, node: int, f: Fragment, j: nat)
    requires Sized(bs) && Fits(f) && j < |bs|
    ensures var k, r := Slot(bs, node, f.seqno), Arrive(bs, node, f);
      && (j != k ==> r.0[j] == bs[j])
      && (Evicts(bs, node, f.seqno) && r.1.None? ==> r.0[k].received == Bit(Which(f)))
      && IsOf(r.0[k], node, f.seqno)
  {
  }

  /** So a machine that has a buffer of its own never costs another one a packet. */
  lemma OthersAreSafe(bs: seq<Buffer>, node: int, f: Fragment, i: nat, j: nat)
    requires Sized(bs) && Fits(f) && i < |bs| && j < |bs|
    requires bs[i].remotenode == node && bs[j].remotenode != node && bs[j].received != 0
    ensures Arrive(bs, node, f).0[j] == bs[j]
  {
    assert Suits(bs[i], From(node));
    assert !Suits(bs[j], From(node)) && !Suits(bs[j], Unused) && !Suits(bs[j], Of(node, f.seqno));
  }
}
