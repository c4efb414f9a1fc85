/** How sirsetup puts packets on the wire: escaping, blocks of 16 bytes, and the bytewise receiver. */
module SirFraming {
  import opened Bytes
  import opened DoomNet
  import opened Escaping
  import opened Sequences

  const END_PACKET: byte := 0x00
  const HANDOFF_BASE: byte := 0x10

  // The receiver.

  /** The end of a packet is heard together with the code that ends it. */
  datatype Heard = Nothing | Ended(data: seq<byte>, code: byte)

  predicate IsTerminator(c: byte) { c == END_PACKET || HANDOFF_BASE as int <= c < HANDOFF_BASE as int + MAXNETNODES }

  function RxByte(rx: Rx, c: byte): (Rx, Heard) {
    if rx.inEscape then
      if c == FRAMECHAR then (Rx(false, AddInByte(rx.data, c)), Nothing)
      else if IsTerminator(c) then (CLEAN, Ended(rx.data, c))
      else (Rx(false, rx.data), Nothing)
    else if c == FRAMECHAR then (Rx(true, rx.data), Nothing)
    else (Rx(false, AddInByte(rx.data, c)), Nothing)
  }

  /** Everything heard in a run of bytes, and the state afterwards. */
  function Hear(rx: Rx, wire: seq<byte>): (r: (Rx, seq<Heard>))
    ensures forall i :: 0 <= i < |r.1| ==> r.1[i].Ended?
    decreases |wire|
  {
    if wire == [] then (rx, [])
    else
      var (next, h) := RxByte(rx, wire[0]);
      var (after, hs) := Hear(next, wire[1..]);
      (after, Said(h) + hs)
  }

  function Said(h: Heard): (r: seq<Heard>)
    ensures forall i :: 0 <= i < |r| ==> r[i].Ended?
  {
    if h.Nothing? then [] else [h]
  }

  lemma HearByte(rx: Rx, c: byte)
    ensures Hear(rx, [c]) == (RxByte(rx, c).0, Said(RxByte(rx, c).1))
  {
    var (next, h) := RxByte(rx, c);
    assert [c][1..] == [] && Hear(next, []) == (next, []);
    assert Said(h) + [] == Said(h);
  }

  lemma HearTwo(rx: Rx, c: byte, d: byte)
    ensures var (mid, h) := RxByte(rx, c); var (last, i) := RxByte(mid, d);
      Hear(rx, [c, d]) == (last, Said(h) + Said(i))
  {
    HearByte(RxByte(rx, c).0, d);
    assert [c, d][1..] == [d];
  }

  /** What comes after a FRAMECHAR: itself once more, the end of a packet, one of sixteen handoffs, or what is ignored. */
  lemma AfterFramechar(data: seq<byte>, c: byte)
    ensures Hear(Rx(false, data), [0x70, c]) ==
            if c == 0x70 then (Rx(false, AddInByte(data, 0x70)), [])
            else if c == 0x00 || 0x10 <= c <= 0x1f then (Rx(false, []), [Ended(data, c)])
            else (Rx(false, data), [])
  {
    HearTwo(Rx(false, data), 0x70, c);
    assert Said(Nothing) + Said(RxByte(Rx(true, data), c).1) == Said(RxByte(Rx(true, data), c).1);
  }

  lemma {:induction false} HearAppend(rx: Rx, a: seq<byte>, b: seq<byte>)
    ensures Hear(rx, a + b).0 == Hear(Hear(rx, a).0, b).0
    ensures Hear(rx, a + b).1 == Hear(rx, a).1 + Hear(Hear(rx, a).0, b).1
    decreases |a|
  {
    if a == [] {
      NothingAdded(b);
      NothingAdded(Hear(rx, b).1);
    } else {
      var (next, h) := RxByte(rx, a[0]);
      FirstOfTwo(a, b);
      HearAppend(next, a[1..], b);
      HearCons(rx, a);
      HearCons(rx, a + b);
      Associative(Said(h), Hear(next, a[1..]).1, Hear(Hear(rx, a).0, b).1);
    }
  }

  lemma HearCons(rx: Rx, wire: seq<byte>)
    requires wire != []
    ensures var (next, h) := RxByte(rx, wire[0]);
      Hear(rx, wire).0 == Hear(next, wire[1..]).0 && Hear(rx, wire).1 == Said(h) + Hear(next, wire[1..]).1
  {
  }

  /** No byte of a packet is ever taken for the end of one: the receiver just gathers the packet. */
  lemma {:induction false} HearEscaped(data: seq<byte>, p: seq<byte>)
    requires |data| + |p| <= PACKET_MAX
    ensures Hear(Rx(false, data), Escaped(p)) == (Rx(false, data + p), [])
    decreases |p|
  {
    if p == [] {
      NothingAdded(data);
    } else {
      HearOne(data, p[0]);
      HearEscaped(data + [p[0]], p[1..]);
      HearAppend(Rx(false, data), Escape(p[0]), Escaped(p[1..]));
      OneAndRest(p);
      Associative(data, [p[0]], p[1..]);
    }
  }

  lemma HearOne(data: seq<byte>, c: byte)
    requires |data| < PACKET_MAX
    ensures Hear(Rx(false, data), Escape(c)) == (Rx(false, data + [c]), [])
  {
    assert Said(Nothing) + Said(Nothing) == [];
    if c == FRAMECHAR { HearTwo(Rx(false, data), c, c); } else { HearByte(Rx(false, data), c); }
  }

  function Frame(p: seq<byte>, code: byte): seq<byte> { Escaped(p) + [FRAMECHAR, code] }

  lemma HearFrame(p: seq<byte>, code: byte)
    requires |p| <= PACKET_MAX && IsTerminator(code)
    ensures Hear(CLEAN, Frame(p, code)) == (CLEAN, [Ended(p, code)])
  {
    HearEscaped([], p);
    HearAppend(CLEAN, Escaped(p), [FRAMECHAR, code]);
    assert [] + p == p;
    HearTwo(Rx(false, p), FRAMECHAR, code);
    assert [] + (Said(Nothing) + Said(Ended(p, code))) == [Ended(p, code)];
  }

  /** A run of packets, each with the code that ends it. */
  function Stream(ps: seq<Heard>): seq<byte>
    requires forall i :: 0 <= i < |ps| ==> ps[i].Ended?
  {
    if ps == [] then [] else Frame(ps[0].data, ps[0].code) + Stream(ps[1..])
  }

  lemma {:induction false} StreamSnoc(ps: seq<Heard>, last: Heard)
    requires last.Ended? && forall i :: 0 <= i < |ps| ==> ps[i].Ended?
    ensures Stream(ps + [last]) == Stream(ps) + Frame(last.data, last.code)
    decreases |ps|
  {
    if ps == [] {
      assert ps + [last] == [last] && [last][1..] == [];
      assert Frame(last.data, last.code) + [] == [] + Frame(last.data, last.code);
    } else {
      assert (ps + [last])[1..] == ps[1..] + [last] && (ps + [last])[0] == ps[0];
      StreamSnoc(ps[1..], last);
      assert Frame(ps[0].data, ps[0].code) + (Stream(ps[1..]) + Frame(last.data, last.code))
          == (Frame(ps[0].data, ps[0].code) + Stream(ps[1..])) + Frame(last.data, last.code);
    }
  }

  predicate Sendable(ps: seq<Heard>) {
    forall i :: 0 <= i < |ps| ==> ps[i].Ended? && |ps[i].data| <= PACKET_MAX && IsTerminator(ps[i].code)
  }

  /** A stream of packets is heard as exactly those packets, with exactly those boundaries and handoffs. */
  lemma {:induction false} StreamRoundTrip(ps: seq<Heard>)
    requires Sendable(ps)
    ensures Hear(CLEAN, Stream(ps)) == (CLEAN, ps)
  {
    if ps == [] {
    } else {
      HearFrame(ps[0].data, ps[0].code);
      StreamRoundTrip(ps[1..]);
      HearAppend(CLEAN, Frame(ps[0].data, ps[0].code), Stream(ps[1..]));
      assert ps == [ps[0]] + ps[1..];
    }
  }

  /** All but the last byte of a frame. */
  lemma FrameButLast(p: seq<byte>)
    requires |p| <= PACKET_MAX
    ensures Hear(CLEAN, Escaped(p) + [FRAMECHAR]) == (Rx(true, p), [])
  {
    HearEscaped([], p);
    assert [] + p == p;
    HearAppend(CLEAN, Escaped(p), [FRAMECHAR]);
    HearByte(Rx(false, p), FRAMECHAR);
    assert [] + Said(Nothing) == [];
  }

  /** All but the last byte of a stream: all its packets have been heard but the last. */
  lemma StreamButLast(ps: seq<Heard>, last: Heard) returns (wire: seq<byte>)
    requires Sendable(ps) && last.Ended? && |last.data| <= PACKET_MAX
    ensures Stream(ps + [last]) == wire + [last.code] && Hear(CLEAN, wire).1 == ps
  {
    var most := Escaped(last.data) + [FRAMECHAR];
    wire := Stream(ps) + most;
    StreamSnoc(ps, last);
    assert Escaped(last.data) + [FRAMECHAR, last.code] == most + [last.code];
    assert Stream(ps) + (most + [last.code]) == wire + [last.code];
    StreamRoundTrip(ps);
    FrameButLast(last.data);
    HearAppend(CLEAN, Stream(ps), most);
    assert ps + [] == ps;
  }

  // The sender's blocks.

  /** One block of a packet from `off` on, when `slot` bytes of it are filled already, and where it
      leaves off. A FRAMECHAR that meets the last slot ends the block: the comment in the source leaves
      it for the next block (`Intended`), the code has stepped past it by then (`Written`). */
  datatype Variant = Intended | Written

  function Block(v: Variant, p: seq<byte>, off: nat, slot: nat): (r: (seq<byte>, nat))
    requires off <= |p|
    ensures off <= r.1 <= |p| && slot + |r.0| <= if slot <= TX_BUFFER then TX_BUFFER else slot
    ensures slot == 0 && off < |p| ==> off < r.1 && r.0 != []
    decreases |p| - off
  {
    if slot >= TX_BUFFER || off == |p| then ([], off)
    else if p[off] != FRAMECHAR then
      var (rest, o) := Block(v, p, off + 1, slot + 1);
      ([p[off]] + rest, o)
    else if slot == TX_BUFFER - 1 then ([], if v == Written then off + 1 else off)
    else
      var (rest, o) := Block(v, p, off + 1, slot + 2);
      ([FRAMECHAR, FRAMECHAR] + rest, o)
  }

  lemma BlockStep(v: Variant, p: seq<byte>, off: nat, slot: nat)
    requires slot < TX_BUFFER && off < |p| && (p[off] != FRAMECHAR || slot < TX_BUFFER - 1)
    ensures var (b, o) := Block(v, p, off + 1, slot + |Escape(p[off])|);
      Block(v, p, off, slot) == (Escape(p[off]) + b, o)
  {
  }

  /** All the blocks of a packet from `off` on. */
  function Blocks(v: Variant, p: seq<byte>, off: nat): seq<byte>
    requires off <= |p|
    decreases |p| - off
  {
    if off == |p| then [] else Block(v, p, off, 0).0 + Blocks(v, p, Block(v, p, off, 0).1)
  }

  lemma EscapedFrom(p: seq<byte>, off: nat)
    requires off < |p|
    ensures Escaped(p[off..]) == Escape(p[off]) + Escaped(p[off + 1..])
  {
    assert p[off..][1..] == p[off + 1..];
  }

  /** As intended, the blocks put together are the escaped packet. */
  lemma {:induction false} IntendedBlock(p: seq<byte>, off: nat, slot: nat)
    requires off <= |p|
    ensures var (b, o) := Block(Intended, p, off, slot); Escaped(p[off..]) == b + Escaped(p[o..])
    decreases |p| - off
  {
    if slot < TX_BUFFER && off < |p| && (p[off] != FRAMECHAR || slot < TX_BUFFER - 1) {
      BlockStep(Intended, p, off, slot);
      var (b, o) := Block(Intended, p, off + 1, slot + |Escape(p[off])|);
      IntendedBlock(p, off + 1, slot + |Escape(p[off])|);
      EscapedFrom(p, off);
      Associative(Escape(p[off]), b, Escaped(p[o..]));
    } else {
      assert Block(Intended, p, off, slot) == ([], off);
      NothingAdded(Escaped(p[off..]));
    }
  }

  lemma {:induction false} IntendedBlocks(p: seq<byte>, off: nat)
    requires off <= |p|
    ensures Blocks(Intended, p, off) == Escaped(p[off..])
    decreases |p| - off
  {
    if off == |p| {
    } else {
      IntendedBlock(p, off, 0);
      IntendedBlocks(p, Block(Intended, p, off, 0).1);
    }
  }

  // What the code as written sends.

  function NextSlot(slot: nat, c: byte): nat
    requires slot < TX_BUFFER
  {
    if c != FRAMECHAR then (slot + 1) % TX_BUFFER
    else if slot == TX_BUFFER - 1 then 0
    else (slot + 2) % TX_BUFFER
  }

  /** The slot of its block that the k-th byte of a packet meets. */
  function SlotOf(p: seq<byte>, k: nat): (s: nat)
    requires k <= |p|
    ensures s < TX_BUFFER
  {
    if k == 0 then 0 else NextSlot(SlotOf(p, k - 1), p[k - 1])
  }

  predicate Lost(p: seq<byte>, k: nat)
    requires k < |p|
  {
    p[k] == FRAMECHAR && SlotOf(p, k) == TX_BUFFER - 1
  }

  /** The bytes from `off` on that do get sent. */
  function Kept(p: seq<byte>, off: nat): (r: seq<byte>)
    requires off <= |p|
    ensures |r| <= |p| - off
    decreases |p| - off
  {
    if off == |p| then [] else if Lost(p, off) then Kept(p, off + 1) else [p[off]] + Kept(p, off + 1)
  }

  predicate AtSlot(p: seq<byte>, off: nat, slot: nat) {
    off <= |p| && slot <= TX_BUFFER && SlotOf(p, off) == slot % TX_BUFFER
  }

  lemma NextAtSlot(p: seq<byte>, off: nat, slot: nat)
    requires AtSlot(p, off, slot) && slot < TX_BUFFER && off < |p| && !Lost(p, off)
    ensures AtSlot(p, off + 1, slot + |Escape(p[off])|)
  {
  }

  lemma {:induction false} BlockEnds(p: seq<byte>, off: nat, slot: nat)
    requires AtSlot(p, off, slot)
    ensures var o := Block(Written, p, off, slot).1; o < |p| ==> SlotOf(p, o) == 0
    decreases |p| - off
  {
    if slot == TX_BUFFER || off == |p| {
      assert Block(Written, p, off, slot) == ([], off);
    } else if Lost(p, off) {
      assert Block(Written, p, off, slot) == ([], off + 1);
    } else {
      NextAtSlot(p, off, slot);
      BlockStep(Written, p, off, slot);
      BlockEnds(p, off + 1, slot + |Escape(p[off])|);
    }
  }

  /** The bytes from `off` on as they go out. */
  function Sent(p: seq<byte>, off: nat): seq<byte>
    requires off <= |p|
    decreases |p| - off
  {
    if off == |p| then [] else if Lost(p, off) then Sent(p, off + 1) else Escape(p[off]) + Sent(p, off + 1)
  }

  lemma SentStep(p: seq<byte>, off: nat, b: seq<byte>, o: nat)
    requires off < |p| && !Lost(p, off) && o <= |p| && Sent(p, off + 1) == b + Sent(p, o)
    ensures Sent(p, off) == (Escape(p[off]) + b) + Sent(p, o)
  {
    assert (Escape(p[off]) + b) + Sent(p, o) == Escape(p[off]) + (b + Sent(p, o));
  }

  lemma {:induction false} WrittenBlock(p: seq<byte>, off: nat, slot: nat)
    requires AtSlot(p, off, slot)
    ensures Sent(p, off) == Block(Written, p, off, slot).0 + Sent(p, Block(Written, p, off, slot).1)
    decreases |p| - off
  {
    if slot == TX_BUFFER || off == |p| {
      assert Block(Written, p, off, slot) == ([], off);
      NothingAdded(Sent(p, off));
    } else if Lost(p, off) {
      assert Block(Written, p, off, slot) == ([], off + 1);
      assert Sent(p, off) == Sent(p, off + 1);
      NothingAdded(Sent(p, off + 1));
    } else {
      var next := slot + |Escape(p[off])|;
      NextAtSlot(p, off, slot);
      BlockStep(Written, p, off, slot);
      WrittenBlock(p, off + 1, next);
      SentStep(p, off, Block(Written, p, off + 1, next).0, Block(Written, p, off + 1, next).1);
    }
  }

  lemma {:induction false} SentIsKept(p: seq<byte>, off: nat)
    requires off <= |p|
    ensures Sent(p, off) == Escaped(Kept(p, off))
    decreases |p| - off
  {
    if off == |p| {
    } else {
      SentIsKept(p, off + 1);
      if !Lost(p, off) {
        assert Kept(p, off)[1..] == Kept(p, off + 1);
      }
    }
  }

  /** The code sends the packet without the bytes marked lost. */
  lemma {:induction false} WrittenBlocks(p: seq<byte>, off: nat)
    requires off <= |p| && (off < |p| ==> SlotOf(p, off) == 0)
    ensures Blocks(Written, p, off) == Escaped(Kept(p, off))
    decreases |p| - off
  {
    SentIsKept(p, off);
    if off == |p| {
    } else {
      var o := Block(Written, p, off, 0).1;
      WrittenBlock(p, off, 0);
      BlockEnds(p, off, 0);
      WrittenBlocks(p, o);
      SentIsKept(p, o);
    }
  }

  /** Whether the code as written preserves a packet: no FRAMECHAR in it may meet the last slot of a block. */
  predicate Unharmed(p: seq<byte>) {
    forall k :: 0 <= k < |p| ==> !Lost(p, k)
  }

  lemma {:induction false} KeptAll(p: seq<byte>, off: nat)
    requires off <= |p| && forall k :: off <= k < |p| ==> !Lost(p, k)
    ensures Kept(p, off) == p[off..]
    decreases |p| - off
  {
    if off == |p| {
    } else {
      KeptAll(p, off + 1);
      assert p[off..] == [p[off]] + p[off + 1..];
    }
  }

  lemma {:induction false} KeptFewer(p: seq<byte>, off: nat, k: nat)
    requires off <= k < |p| && Lost(p, k)
    ensures |Kept(p, off)| < |p| - off
    decreases |p| - off
  {
    if off == k {
    } else {
      KeptFewer(p, off + 1, k);
    }
  }

  lemma KeptIffUnharmed(p: seq<byte>)
    ensures Kept(p, 0) == p <==> Unharmed(p)
  {
    assert p[0..] == p;
    if Unharmed(p) {
      KeptAll(p, 0);
    } else {
      var k :| 0 <= k < |p| && Lost(p, k);
      KeptFewer(p, 0, k);
    }
  }

  /** The code as written puts the packet on the wire as intended exactly when it is unharmed. */
  lemma WrittenIsIntended(p: seq<byte>)
    ensures Blocks(Written, p, 0) == Blocks(Intended, p, 0) <==> Unharmed(p)
  {
    WrittenBlocks(p, 0);
    IntendedBlocks(p, 0);
    assert p[0..] == p;
    EscapedInjective(Kept(p, 0), p);
    KeptIffUnharmed(p);
  }

  lemma RunStep(slot: nat, n: nat)
    requires slot + 2 * n + 2 <= TX_BUFFER
    ensures NextSlot((slot + 2 * n) % TX_BUFFER, FRAMECHAR) == (slot + 2 * (n + 1)) % TX_BUFFER
  {
  }

  /** A run of FRAMECHARs that starts after k bytes puts each of them two slots further. */
  lemma {:induction false} SlotsOfRun(p: seq<byte>, k: nat, n: nat)
    requires k + n <= |p| && SlotOf(p, k) + 2 * n <= TX_BUFFER && forall i :: k <= i < k + n ==> p[i] == FRAMECHAR
    ensures SlotOf(p, k + n) == (SlotOf(p, k) + 2 * n) % TX_BUFFER
    decreases n
  {
    if n == 0 {
    } else {
      SlotsOfRun(p, k, n - 1);
      RunStep(SlotOf(p, k), n - 1);
      assert SlotOf(p, k + n) == NextSlot(SlotOf(p, k + (n - 1)), p[k + n - 1]);
    }
  }
}
