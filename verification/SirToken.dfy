/** The channel is shared: N machines, what each has still to hear, and who may transmit. */
module SirToken {
  import opened Bytes
  import opened DoomNet
  import opened Escaping
  import opened Sequences
  import opened SirFraming
  import opened SirStation

  /** `wires[p]` are the bytes on their way to machine p. */
  datatype Net = Net(stations: seq<Station>, wires: seq<seq<byte>>)

  /** A block is transmitted to everybody else, `deaf` machines missing it; machine p reads a byte; while
      it has told its port to stop, the port may lose any byte on the way; the game sends or fetches a
      packet; a machine finds that no handoff has come for too long. */
  datatype Step = Transmits(p: nat, deaf: set<nat>) | Hears(p: nat) | Misses(p: nat, k: nat)
                | Sends(p: nat, dest: byte, src: byte, payload: seq<byte>) | Fetches(p: nat) | Impatient(p: nat)

  ghost predicate Shaped(net: Net) {
    && 2 <= |net.stations| == |net.wires| <= MAXNETNODES
    && forall p :: 0 <= p < |net.stations| ==> ShapedAt(net, p)
  }

  /** Machine p is player p of N, and has paused only if there are two and its queue is full. */
  ghost predicate ShapedAt(net: Net, p: nat)
    requires p < |net.stations| == |net.wires|
  {
    var st, n := net.stations[p], |net.stations|;
    && Ok(st) && st.me as int == p && st.numnodes == n && st.partner == PartnerOf(p, n) && st.mode != Arbitrate
    && (st.paused ==> n == 2 && QueueFull(st.inbox))
  }

  /** What is on its way to machine p does not stop in the middle of an escape. */
  ghost predicate Balanced(net: Net, p: nat)
    requires p < |net.stations| == |net.wires|
  {
    !Hear(net.stations[p].rx, net.wires[p]).0.inEscape
  }

  ghost predicate GoodAt(net: Net, p: nat)
    requires p < |net.stations| == |net.wires|
  {
    ShapedAt(net, p) && Balanced(net, p)
  }

  ghost predicate Good(net: Net) {
    Shaped(net) && forall p :: 0 <= p < |net.stations| ==> Balanced(net, p)
  }

  lemma AllGood(net: Net)
    requires 2 <= |net.stations| == |net.wires| <= MAXNETNODES
    requires forall p :: 0 <= p < |net.stations| ==> GoodAt(net, p)
    ensures Good(net)
  {
    forall p | 0 <= p < |net.stations| ensures ShapedAt(net, p) && Balanced(net, p) { assert GoodAt(net, p); }
  }

  predicate Enabled(net: Net, s: Step) {
    match s
    case Transmits(p, deaf) => p < |net.stations|
    case Hears(p) => p < |net.stations| == |net.wires| && !net.stations[p].paused && net.wires[p] != []
    case Misses(p, k) => p < |net.stations| == |net.wires| && net.stations[p].paused && k < |net.wires[p]|
    case Sends(p, dest, src, payload) => p < |net.stations|
    case Fetches(p) => p < |net.stations| && net.stations[p].inbox != []
    case Impatient(p) => p < |net.stations|
  }

  function Deliver(wires: seq<seq<byte>>, block: seq<byte>, from: nat, deaf: set<nat>): (r: seq<seq<byte>>)
    ensures |r| == |wires|
    ensures forall q :: 0 <= q < |r| ==> r[q] == if q == from || q in deaf then wires[q] else wires[q] + block
  {
    seq(|wires|, q requires 0 <= q < |wires| => if q == from || q in deaf then wires[q] else wires[q] + block)
  }

  function Next(net: Net, s: Step): (r: Net)
    requires Shaped(net) && Enabled(net, s)
    ensures |r.stations| == |r.wires| == |net.stations|
  {
    match s
    case Transmits(p, deaf) =>
      assert ShapedAt(net, p);
      var (st, block) := MoreTX(net.stations[p]);
      Net(net.stations[p := st], Deliver(net.wires, block, p, deaf))
    case Hears(p) =>
      assert ShapedAt(net, p);
      Net(net.stations[p := Receive(net.stations[p], net.wires[p][0])], net.wires[p := net.wires[p][1..]])
    case Misses(p, k) => net.(wires := net.wires[p := net.wires[p][..k] + net.wires[p][k + 1..]])
    case Sends(p, dest, src, payload) => net.(stations := net.stations[p := Send(net.stations[p], dest, src, payload)])
    case Fetches(p) => net.(stations := net.stations[p := Fetch(net.stations[p])])
    case Impatient(p) => net.(stations := net.stations[p := TimedOut(net.stations[p])])
  }

  /** Every step keeps the shape. Nobody pauses where there are more than two. */
  lemma NextShaped(net: Net, s: Step)
    requires Shaped(net) && Enabled(net, s)
    ensures Shaped(Next(net, s))
  {
    var r := Next(net, s);
    forall q | 0 <= q < |r.stations| ensures ShapedAt(r, q) {
      assert ShapedAt(net, q);
      match s
      case Hears(p) => if q == p { ReceiveShaped(net.stations[p], net.wires[p][0]); }
      case _ =>
    }
  }

  /** Only a two-player machine whose queue stays full pauses. */
  lemma ReceiveShaped(st: Station, c: byte)
    requires Ok(st) && (st.paused ==> st.numnodes == 2 && QueueFull(st.inbox)) && 2 <= st.numnodes
    ensures var r := Receive(st, c);
      && (r.paused ==> r.numnodes == 2 && QueueFull(r.inbox))
      && r.mode in {st.mode, Transmit} && r.rx == RxByte(st.rx, c).0
  {
  }

  // Tokens.

  /** How many of these packets end with this code. */
  function Count(hs: seq<Heard>, code: int): nat {
    if hs == [] then 0 else (if hs[0].Ended? && hs[0].code == code then 1 else 0) + Count(hs[1..], code)
  }

  lemma {:induction false} CountAppend(a: seq<Heard>, b: seq<Heard>, code: int)
    ensures Count(a + b, code) == Count(a, code) + Count(b, code)
  {
    if a == [] {
      assert a + b == b;
    } else {
      assert (a + b)[1..] == a[1..] + b;
      CountAppend(a[1..], b, code);
    }
  }

  /** The handoffs to player p that are on their way to it. */
  function Coming(p: nat, rx: Rx, wire: seq<byte>): nat {
    Count(Hear(rx, wire).1, HANDOFF_BASE as int + p)
  }

  function Holds(st: Station): nat { if st.mode == Transmit then 1 else 0 }

  function TokensAt(net: Net, p: nat): nat
    requires p < |net.stations| == |net.wires|
  {
    Holds(net.stations[p]) + Coming(p, net.stations[p].rx, net.wires[p])
  }

  function Counts(net: Net): (ts: seq<nat>)
    requires |net.stations| == |net.wires|
    ensures |ts| == |net.stations| && forall p :: 0 <= p < |ts| ==> ts[p] == TokensAt(net, p)
  {
    seq(|net.stations|, p requires 0 <= p < |net.stations| => TokensAt(net, p))
  }

  /** The sum of the first n numbers. */
  function Sum(ts: seq<nat>, n: nat): nat
    requires n <= |ts|
  {
    if n == 0 then 0 else Sum(ts, n - 1) + ts[n - 1]
  }

  /** All the tokens. */
  function Total(net: Net): nat
    requires |net.stations| == |net.wires|
  {
    Sum(Counts(net), |net.stations|)
  }

  predicate SameSize(a: Net, b: Net) { |a.stations| == |a.wires| == |b.stations| == |b.wires| }

  lemma {:induction false} SumSame(a: seq<nat>, b: seq<nat>, n: nat)
    requires |a| == |b| && n <= |a| && forall q :: 0 <= q < n ==> a[q] == b[q]
    ensures Sum(a, n) == Sum(b, n)
  {
    if n == 0 {
    } else {
      SumSame(a, b, n - 1);
    }
  }

  /** If only the number at p changes, the sum changes with it. */
  lemma {:induction false} SumChanges(a: seq<nat>, b: seq<nat>, p: nat, n: nat)
    requires |a| == |b| && p < n <= |a| && forall q :: 0 <= q < n && q != p ==> a[q] == b[q]
    ensures Sum(b, n) == Sum(a, n) - a[p] + b[p]
  {
    if p == n - 1 { SumSame(a, b, n - 1); } else { SumChanges(a, b, p, n - 1); }
  }

  /** The same when those at p and q do. */
  lemma {:induction false} SumMoves(a: seq<nat>, b: seq<nat>, p: nat, q: nat, n: nat)
    requires |a| == |b| && p < n <= |a| && q < n && p != q
    requires forall r :: 0 <= r < n && r != p && r != q ==> a[r] == b[r]
    ensures Sum(b, n) == Sum(a, n) - a[p] + b[p] - a[q] + b[q]
  {
    if p == n - 1 { SumChanges(a, b, q, n - 1); }
    else if q == n - 1 { SumChanges(a, b, p, n - 1); }
    else { SumMoves(a, b, p, q, n - 1); }
  }

  lemma {:induction false} SumAtLeast(ts: seq<nat>, p: nat, n: nat)
    requires p < n <= |ts|
    ensures ts[p] <= Sum(ts, n)
  {
    if p == n - 1 {
    } else {
      SumAtLeast(ts, p, n - 1);
    }
  }

  lemma {:induction false} SumOfTwo(ts: seq<nat>, p: nat, q: nat, n: nat)
    requires p < q < n <= |ts|
    ensures ts[p] + ts[q] <= Sum(ts, n)
  {
    if q == n - 1 { SumAtLeast(ts, p, n - 1); } else { SumOfTwo(ts, p, q, n - 1); }
  }

  lemma TokensChange(a: Net, b: Net, p: nat)
    requires SameSize(a, b) && p < |a.stations|
    requires forall q :: 0 <= q < |a.stations| && q != p ==> TokensAt(a, q) == TokensAt(b, q)
    ensures Total(b) == Total(a) - TokensAt(a, p) + TokensAt(b, p)
  {
    SumChanges(Counts(a), Counts(b), p, |a.stations|);
  }

  lemma TokensMove(a: Net, b: Net, p: nat, q: nat)
    requires SameSize(a, b) && p < |a.stations| && q < |a.stations| && p != q
    requires forall r :: 0 <= r < |a.stations| && r != p && r != q ==> TokensAt(a, r) == TokensAt(b, r)
    ensures Total(b) == Total(a) - TokensAt(a, p) + TokensAt(b, p) - TokensAt(a, q) + TokensAt(b, q)
  {
    SumMoves(Counts(a), Counts(b), p, q, |a.stations|);
  }

  lemma TokensAtLeast(net: Net, p: nat)
    requires p < |net.stations| == |net.wires|
    ensures TokensAt(net, p) <= Total(net)
  {
    SumAtLeast(Counts(net), p, |net.stations|);
  }

  lemma TwoTokens(net: Net, p: nat, q: nat)
    requires p < |net.stations| == |net.wires| && q < |net.stations| && p != q
    ensures TokensAt(net, p) + TokensAt(net, q) <= Total(net)
  {
    SumOfTwo(Counts(net), if p < q then p else q, if p < q then q else p, |net.stations|);
  }

  // What blocks sound like.

  /** Bytes in which nothing ends, between escapes. */
  predicate Quiet(rx: Rx, wire: seq<byte>) {
    !Hear(rx, wire).0.inEscape && Hear(rx, wire).1 == []
  }

  lemma OneIsQuiet(rx: Rx, c: byte)
    requires !rx.inEscape
    ensures Quiet(rx, Escape(c))
  {
    NothingAdded(Said(Nothing));
    if c == FRAMECHAR { HearTwo(rx, c, c); } else { HearByte(rx, c); }
  }

  lemma BothQuiet(rx: Rx, a: seq<byte>, b: seq<byte>)
    requires Quiet(rx, a) && Quiet(Hear(rx, a).0, b)
    ensures Quiet(rx, a + b)
  {
    HearAppend(rx, a, b);
  }

  lemma BlockFull(p: seq<byte>, off: nat, slot: nat)
    requires off <= |p| && (slot >= TX_BUFFER || off == |p| || (p[off] == FRAMECHAR && slot == TX_BUFFER - 1))
    ensures Block(Written, p, off, slot).0 == []
  {
  }

  lemma BlockGoesOn(rx: Rx, p: seq<byte>, off: nat, slot: nat)
    requires slot < TX_BUFFER && off < |p| && (p[off] != FRAMECHAR || slot < TX_BUFFER - 1)
    requires Quiet(rx, Escape(p[off]))
    requires Quiet(Hear(rx, Escape(p[off])).0, Block(Written, p, off + 1, slot + |Escape(p[off])|).0)
    ensures Quiet(rx, Block(Written, p, off, slot).0)
  {
    BlockStep(Written, p, off, slot);
    BothQuiet(rx, Escape(p[off]), Block(Written, p, off + 1, slot + |Escape(p[off])|).0);
  }

  /** A block of a packet is heard as part of a packet, from whatever state between escapes. */
  lemma {:induction false} BlockIsQuiet(rx: Rx, p: seq<byte>, off: nat, slot: nat)
    requires !rx.inEscape && off <= |p|
    ensures Quiet(rx, Block(Written, p, off, slot).0)
    decreases |p| - off
  {
    if slot >= TX_BUFFER || off == |p| || (p[off] == FRAMECHAR && slot == TX_BUFFER - 1) {
      BlockFull(p, off, slot);
    } else {
      OneIsQuiet(rx, p[off]);
      BlockIsQuiet(Hear(rx, Escape(p[off])).0, p, off + 1, slot + |Escape(p[off])|);
      BlockGoesOn(rx, p, off, slot);
    }
  }

  /** The machine's next block ends a packet, with this code. */
  predicate EndsWith(st: Station, code: int)
    requires Ok(st)
  {
    && st.mode != Wait && st.out != [] && st.offset == |st.out[0]|
    && code == if |st.out| == 1 then HANDOFF_BASE as int + st.partner else END_PACKET as int
  }

  lemma EndHeard(rx: Rx, code: byte)
    requires !rx.inEscape && IsTerminator(code)
    ensures Hear(rx, [FRAMECHAR, code]) == (CLEAN, [Ended(rx.data, code)])
  {
    HearTwo(rx, FRAMECHAR, code);
    NothingAdded([Ended(rx.data, code)]);
  }

  lemma BlockAlone(st: Station, rx: Rx, code: int)
    requires Ok(st) && !rx.inEscape
    ensures var r := Hear(rx, MoreTX(st).1);
      !r.0.inEscape && Count(r.1, code) == if EndsWith(st, code) then 1 else 0
  {
    var block := MoreTX(st).1;
    if st.mode == Wait || st.out == [] {
    } else if st.offset == |st.out[0]| {
      EndHeard(rx, block[1]);
    } else {
      BlockIsQuiet(rx, st.out[0], st.offset, 0);
    }
  }

  /** A block adds to what a machine will hear just the end code, if there is one. */
  lemma BlockHeard(st: Station, rx: Rx, wire: seq<byte>, code: int)
    requires Ok(st) && !Hear(rx, wire).0.inEscape
    ensures var r := Hear(rx, wire + MoreTX(st).1);
      !r.0.inEscape && Count(r.1, code) == Count(Hear(rx, wire).1, code) + if EndsWith(st, code) then 1 else 0
  {
    var mid := Hear(rx, wire).0;
    BlockAlone(st, mid, code);
    HearAppend(rx, wire, MoreTX(st).1);
    CountAppend(Hear(rx, wire).1, Hear(mid, MoreTX(st).1).1, code);
  }

  lemma ByteCounts(p: nat, rx: Rx, wire: seq<byte>)
    requires wire != []
    ensures var (next, h) := RxByte(rx, wire[0]);
      && Hear(rx, wire).0 == Hear(next, wire[1..]).0
      && Coming(p, rx, wire) ==
         Coming(p, next, wire[1..]) + if h.Ended? && h.code as int == HANDOFF_BASE as int + p then 1 else 0
  {
    var (next, h) := RxByte(rx, wire[0]);
    CountAppend(Said(h), Hear(next, wire[1..]).1, HANDOFF_BASE as int + p);
  }

  /** Hearing its handoff makes a waiting machine transmit; nothing else that is heard changes who may. */
  lemma ByteHeard(st: Station, c: byte)
    requires Ok(st)
    ensures var h := RxByte(st.rx, c).1;
      Receive(st, c).mode == if st.mode == Wait && h.Ended? && h.code == HandoffTo(st.me as int) then Transmit else st.mode
  {
  }

  // The steps.

  /** The tokens and the escapes at machine q before and after. */
  ghost predicate SameAt(a: Net, b: Net, q: nat)
    requires q < |a.stations| && SameSize(a, b)
  {
    b.stations[q] == a.stations[q] && b.wires[q] == a.wires[q]
  }

  /** A byte heard takes nothing from the total, unless a machine that already transmits is handed the
      channel again: that handoff is absorbed. */
  lemma HearsStep(net: Net, p: nat)
    requires Good(net) && Enabled(net, Hears(p))
    ensures var r := Next(net, Hears(p));
      && Good(r) && Total(r) <= Total(net)
      && (net.stations[p].mode == Wait ==> Total(r) == Total(net))
  {
    var r := Next(net, Hears(p));
    assert GoodAt(net, p);
    var st, wire := net.stations[p], net.wires[p];
    ByteCounts(p, st.rx, wire);
    ByteHeard(st, wire[0]);
    ReceiveShaped(st, wire[0]);
    forall q | 0 <= q < |r.stations| ensures GoodAt(r, q) {
      assert GoodAt(net, q);
      assert q != p ==> SameAt(net, r, q);
    }
    AllGood(r);
    TokensChange(net, r, p);
  }

  /** Sending, fetching and the like do not matter to who may transmit. */
  lemma LocalStep(net: Net, p: nat, st: Station)
    requires Good(net) && p < |net.stations|
    requires var was := net.stations[p];
      && Ok(st) && st.me == was.me && st.partner == was.partner && st.rx == was.rx && st.mode != Arbitrate
      && st.numnodes == was.numnodes && (st.paused ==> was.paused && QueueFull(st.inbox))
    ensures var r := net.(stations := net.stations[p := st]);
      Good(r) && Total(r) == Total(net) - Holds(net.stations[p]) + Holds(st)
  {
    var r := net.(stations := net.stations[p := st]);
    assert GoodAt(net, p);
    forall q | 0 <= q < |r.stations| ensures GoodAt(r, q) {
      assert GoodAt(net, q);
      assert q != p ==> SameAt(net, r, q);
    }
    AllGood(r);
    TokensChange(net, r, p);
  }

  /** The machine's next block hands the channel on. */
  predicate LetsGo(st: Station) {
    st.mode == Transmit && |st.out| == 1 && st.offset == |st.out[0]|
  }

  /** What a transmission by p leaves at machine q. */
  ghost predicate Transmitted(net: Net, r: Net, p: nat, deaf: set<nat>, q: nat)
    requires p < |net.stations| && q < |net.stations| && SameSize(net, r)
  {
    var st := net.stations[p];
    GoodAt(r, q) && TokensAt(r, q) ==
      if q == p then TokensAt(net, q) - (if LetsGo(st) then 1 else 0)
      else TokensAt(net, q) + (if LetsGo(st) && q == st.partner && q !in deaf then 1 else 0)
  }

  lemma SenderAfter(st: Station, q: nat)
    requires Ok(st) && st.mode != Arbitrate
    ensures var r := MoreTX(st).0;
      && r.me == st.me && r.partner == st.partner && r.rx == st.rx && r.mode != Arbitrate
      && r.numnodes == st.numnodes && r.paused == st.paused && r.inbox == st.inbox
      && Holds(r) == Holds(st) - (if LetsGo(st) then 1 else 0)
    ensures EndsWith(st, HANDOFF_BASE as int + q) <==> LetsGo(st) && q == st.partner
  {
  }

  lemma NextTransmits(net: Net, p: nat, deaf: set<nat>, q: nat)
    requires Good(net) && p < |net.stations| && q < |net.stations|
    ensures Ok(net.stations[p])
    ensures var r, (st, block) := Next(net, Transmits(p, deaf)), MoreTX(net.stations[p]);
      && SameSize(net, r) && r.stations[q] == (if q == p then st else net.stations[q])
      && r.wires[q] == if q == p || q in deaf then net.wires[q] else net.wires[q] + block
  {
    assert GoodAt(net, p);
  }

  lemma SenderTransmitted(net: Net, r: Net, p: nat, deaf: set<nat>)
    requires p < |net.stations| && SameSize(net, r) && GoodAt(net, p)
    requires r.stations[p] == MoreTX(net.stations[p]).0 && r.wires[p] == net.wires[p]
    ensures Transmitted(net, r, p, deaf, p)
  {
    SenderAfter(net.stations[p], p);
  }

  lemma OtherTransmitted(net: Net, r: Net, p: nat, deaf: set<nat>, q: nat)
    requires p < |net.stations| && q < |net.stations| && p != q && SameSize(net, r) && GoodAt(net, p) && GoodAt(net, q)
    requires r.stations[q] == net.stations[q]
    requires r.wires[q] == if q in deaf then net.wires[q] else net.wires[q] + MoreTX(net.stations[p]).1
    ensures Transmitted(net, r, p, deaf, q)
  {
    if q !in deaf {
      SenderAfter(net.stations[p], q);
      BlockHeard(net.stations[p], net.stations[q].rx, net.wires[q], HANDOFF_BASE as int + q);
    }
  }

  lemma TransmitsAt(net: Net, p: nat, deaf: set<nat>, q: nat)
    requires Good(net) && p < |net.stations| && q < |net.stations|
    ensures Transmitted(net, Next(net, Transmits(p, deaf)), p, deaf, q)
  {
    assert GoodAt(net, p) && GoodAt(net, q);
    NextTransmits(net, p, deaf, q);
    if q == p { SenderTransmitted(net, Next(net, Transmits(p, deaf)), p, deaf); }
    else { OtherTransmitted(net, Next(net, Transmits(p, deaf)), p, deaf, q); }
  }

  lemma TransmittedSum(net: Net, r: Net, p: nat, deaf: set<nat>)
    requires 2 <= |net.stations| <= MAXNETNODES && SameSize(net, r) && p < |net.stations|
    requires net.stations[p].partner == PartnerOf(p, |net.stations|)
    requires forall q :: 0 <= q < |net.stations| ==> Transmitted(net, r, p, deaf, q)
    ensures Good(r) && Total(r) == Total(net) - if LetsGo(net.stations[p]) && net.stations[p].partner in deaf then 1 else 0
  {
    var partner := PartnerOf(p, |net.stations|);
    assert Transmitted(net, r, p, deaf, p) && Transmitted(net, r, p, deaf, partner);
    forall q | 0 <= q < |net.stations| && q != p && q != partner ensures TokensAt(net, q) == TokensAt(r, q) {
      assert Transmitted(net, r, p, deaf, q);
    }
    TokensMove(net, r, p, partner);
    forall q | 0 <= q < |r.stations| ensures GoodAt(r, q) { assert Transmitted(net, r, p, deaf, q); }
    AllGood(r);
  }

  /** Transmitting takes from the sender what it adds to the one it hands on to, if that one hears it. */
  lemma TransmitsStep(net: Net, p: nat, deaf: set<nat>)
    requires Good(net) && p < |net.stations|
    ensures var r, st := Next(net, Transmits(p, deaf)), net.stations[p];
      && Good(r) && Total(r) == Total(net) - (if LetsGo(st) && st.partner in deaf then 1 else 0)
      && forall q :: 0 <= q < |net.stations| ==> Transmitted(net, r, p, deaf, q)
  {
    assert GoodAt(net, p);
    var r := Next(net, Transmits(p, deaf));
    forall q | 0 <= q < |net.stations| ensures Transmitted(net, r, p, deaf, q) { TransmitsAt(net, p, deaf, q); }
    TransmittedSum(net, r, p, deaf);
  }

  // Runs.

  predicate Lossless(s: Step) {
    match s
    case Transmits(p, deaf) => deaf == {}
    case Misses(_, _) => false
    case Impatient(p) => p != 0
    case _ => true
  }

  /** While the only token is a machine's right to transmit, no handoff is on its way to it. */
  lemma NothingComing(net: Net, p: nat)
    requires Good(net) && p < |net.stations| && net.stations[p].mode == Transmit && Total(net) == 1
    ensures Coming(p, net.stations[p].rx, net.wires[p]) == 0
    ensures Enabled(net, Hears(p)) ==> Total(Next(net, Hears(p))) == 1
  {
    TokensAtLeast(net, p);
    if Enabled(net, Hears(p)) {
      var r := Next(net, Hears(p));
      HearsStep(net, p);
      assert GoodAt(net, p);
      ByteHeard(net.stations[p], net.wires[p][0]);
      assert r.stations[p].mode == Transmit;
      TokensAtLeast(r, p);
    }
  }

  /** Only player 0 acts on its impatience. */
  predicate IsTimeout(s: Step) { s.Impatient? && s.p == 0 }

  lemma OthersArePatient(net: Net, p: nat)
    requires Shaped(net) && p < |net.stations| && p != 0
    ensures Next(net, Impatient(p)) == net
  {
    assert ShapedAt(net, p);
    assert net.stations[p := net.stations[p]] == net.stations;
  }

  /** No token has been made, but for one by a timeout, and without loss the one token is still there. */
  ghost predicate TokensKept(net: Net, s: Step, r: Net) {
    && Good(r) && |net.stations| == |net.wires|
    && Total(r) <= Total(net) + (if IsTimeout(s) then 1 else 0)
    && (Lossless(s) && Total(net) == 1 ==> Total(r) == 1)
  }

  lemma HearsTokens(net: Net, p: nat)
    requires Good(net) && Enabled(net, Hears(p))
    ensures TokensKept(net, Hears(p), Next(net, Hears(p)))
  {
    HearsStep(net, p);
    assert GoodAt(net, p);
    if net.stations[p].mode != Wait && Total(net) == 1 { NothingComing(net, p); }
  }

  lemma SendsTokens(net: Net, p: nat, dest: byte, src: byte, payload: seq<byte>)
    requires Good(net) && p < |net.stations|
    ensures TokensKept(net, Sends(p, dest, src, payload), Next(net, Sends(p, dest, src, payload)))
  {
    assert GoodAt(net, p);
    LocalStep(net, p, Send(net.stations[p], dest, src, payload));
  }

  lemma FetchesTokens(net: Net, p: nat)
    requires Good(net) && Enabled(net, Fetches(p))
    ensures TokensKept(net, Fetches(p), Next(net, Fetches(p)))
  {
    assert GoodAt(net, p);
    LocalStep(net, p, Fetch(net.stations[p]));
  }

  lemma ImpatientTokens(net: Net, p: nat)
    requires Good(net) && p < |net.stations|
    ensures TokensKept(net, Impatient(p), Next(net, Impatient(p)))
  {
    assert GoodAt(net, 0);
    if p == 0 { LocalStep(net, 0, TimedOut(net.stations[0])); } else { OthersArePatient(net, p); }
  }

  /** No step but the timeout makes a second token, and it makes at most one more, as long as no port loses
      bytes. */
  lemma StepTokens(net: Net, s: Step)
    requires Good(net) && Enabled(net, s) && !s.Misses?
    ensures TokensKept(net, s, Next(net, s))
  {
    match s
    case Transmits(p, deaf) => TransmitsStep(net, p, deaf);
    case Hears(p) => HearsTokens(net, p);
    case Sends(p, dest, src, payload) => SendsTokens(net, p, dest, src, payload);
    case Fetches(p) => FetchesTokens(net, p);
    case Impatient(p) => ImpatientTokens(net, p);
  }

  ghost predicate Possible(net: Net, steps: seq<Step>)
    decreases |steps|
  {
    steps == [] || (Shaped(net) && Enabled(net, steps[0]) && Possible(Next(net, steps[0]), steps[1..]))
  }

  function Run(net: Net, steps: seq<Step>): Net
    requires Possible(net, steps)
    decreases |steps|
  {
    if steps == [] then net else Run(Next(net, steps[0]), steps[1..])
  }

  function Timeouts(steps: seq<Step>): nat {
    if steps == [] then 0 else (if IsTimeout(steps[0]) then 1 else 0) + Timeouts(steps[1..])
  }

  predicate NothingMissed(steps: seq<Step>) { forall i :: 0 <= i < |steps| ==> !steps[i].Misses? }

  predicate AllLossless(steps: seq<Step>) { forall i :: 0 <= i < |steps| ==> Lossless(steps[i]) }

  /** In no state of the run does any machine have its port stopped. */
  ghost predicate NobodyPauses(net: Net, steps: seq<Step>)
    requires Possible(net, steps)
    decreases |steps|
  {
    && (forall p :: 0 <= p < |net.stations| ==> !net.stations[p].paused)
    && (steps == [] || NobodyPauses(Next(net, steps[0]), steps[1..]))
  }

  lemma MissMeansPaused(net: Net, s: Step)
    requires Shaped(net) && Enabled(net, s) && s.Misses?
    ensures |net.stations| == 2 && net.stations[s.p].paused
  {
    assert ShapedAt(net, s.p);
  }

  /** Ports lose bytes only where there are two machines and one pauses. */
  lemma {:induction false} NothingToMiss(net: Net, steps: seq<Step>)
    requires Shaped(net) && Possible(net, steps) && (|net.stations| > 2 || NobodyPauses(net, steps))
    ensures NothingMissed(steps)
    decreases |steps|
  {
    if steps == [] {
    } else {
      NextShaped(net, steps[0]);
      NothingToMiss(Next(net, steps[0]), steps[1..]);
      if steps[0].Misses? {
        MissMeansPaused(net, steps[0]);
        assert false;
      }
      assert forall i :: 0 < i < |steps| ==> steps[i] == steps[1..][i - 1];
    }
  }

  lemma {:induction false} NothingMissedSafe(net: Net, steps: seq<Step>)
    requires Good(net) && Possible(net, steps) && NothingMissed(steps)
    ensures Good(Run(net, steps)) && Total(Run(net, steps)) <= Total(net) + Timeouts(steps)
    ensures AllLossless(steps) && Total(net) == 1 ==> Total(Run(net, steps)) == 1
    decreases |steps|
  {
    if steps == [] {
    } else {
      StepTokens(net, steps[0]);
      NothingMissedSafe(Next(net, steps[0]), steps[1..]);
    }
  }

  /** In every run, blocks lost or not, there are never more tokens than at the start plus the timeouts:
      of more than two machines always, and of two as long as neither pauses. */
  lemma TokenSafety(net: Net, steps: seq<Step>)
    requires Good(net) && Possible(net, steps) && (|net.stations| > 2 || NobodyPauses(net, steps))
    ensures Good(Run(net, steps)) && Total(Run(net, steps)) <= Total(net) + Timeouts(steps)
    ensures AllLossless(steps) && Total(net) == 1 ==> Total(Run(net, steps)) == 1
  {
    NothingToMiss(net, steps);
    NothingMissedSafe(net, steps);
  }

  /** The machines as the game starts, with nothing on its way. */
  function StartNet(n: nat): (net: Net)
    requires 2 <= n <= MAXNETNODES
    ensures |net.stations| == |net.wires| == n
  {
    Net(seq(n, p requires 0 <= p < n => Started(p, n)), seq(n, p => []))
  }

  lemma StartGood(n: nat)
    requires 2 <= n <= MAXNETNODES
    ensures Good(StartNet(n))
  {
    var net := StartNet(n);
    forall p | 0 <= p < n ensures GoodAt(net, p) {
      assert Hear(net.stations[p].rx, net.wires[p]) == (CLEAN, []);
    }
    AllGood(net);
  }

  /** At the start player 0 has the one token. */
  lemma StartTokens(n: nat)
    requires 2 <= n <= MAXNETNODES
    ensures Total(StartNet(n)) == 1 && TokensAt(StartNet(n), 0) == 1
  {
    FirstOnly(Counts(StartNet(n)), n);
  }

  lemma {:induction false} FirstOnly(ts: seq<nat>, n: nat)
    requires 0 < n <= |ts| && ts[0] == 1 && forall p :: 0 < p < n ==> ts[p] == 0
    ensures Sum(ts, n) == 1
  {
    if n == 1 {
    } else {
      FirstOnly(ts, n - 1);
    }
  }

  /** Without timeouts, at most one machine transmits at any time, and while one does no handoff is on
      its way to it or to any other. */
  lemma MutualExclusion(n: nat, steps: seq<Step>, p: nat, q: nat)
    requires 2 <= n <= MAXNETNODES && Possible(StartNet(n), steps) && Timeouts(steps) == 0
    requires n > 2 || NobodyPauses(StartNet(n), steps)
    requires p < n && q < n && p != q
    ensures var r := Run(StartNet(n), steps);
      && |r.stations| == n == |r.wires| && TokensAt(r, p) + TokensAt(r, q) <= 1
      && !(r.stations[p].mode == Transmit && r.stations[q].mode == Transmit)
  {
    StartGood(n);
    TokenSafety(StartNet(n), steps);
    StartTokens(n);
    RunSize(StartNet(n), steps);
    TwoTokens(Run(StartNet(n), steps), p, q);
  }

  lemma {:induction false} RunSize(net: Net, steps: seq<Step>)
    requires Shaped(net) && Possible(net, steps)
    ensures |Run(net, steps).stations| == |net.stations| && Shaped(Run(net, steps))
    decreases |steps|
  {
    if steps == [] {
    } else {
      NextShaped(net, steps[0]);
      RunSize(Next(net, steps[0]), steps[1..]);
    }
  }

  // The order of the holders.

  /** The one token is with machine p: it transmits, or its handoff is on its way. */
  predicate TokenWith(net: Net, p: nat)
    requires |net.stations| == |net.wires|
  {
    p < |net.stations| && TokensAt(net, p) == 1 && Total(net) == 1
  }

  lemma OnlyOne(net: Net, p: nat, q: nat)
    requires |net.stations| == |net.wires| && TokenWith(net, p) && q < |net.stations| && q != p
    ensures TokensAt(net, q) == 0
  {
    TwoTokens(net, p, q);
  }

  lemma TransmittedMoves(net: Net, r: Net, a: nat, p: nat)
    requires 2 <= |net.stations| && SameSize(net, r) && a < |net.stations| && TokenWith(net, p) && Total(r) == 1
    requires net.stations[p].partner == PartnerOf(p, |net.stations|)
    requires forall q :: 0 <= q < |net.stations| ==> Transmitted(net, r, a, {}, q)
    ensures LetsGo(net.stations[a]) ==> a == p
    ensures TokenWith(r, if LetsGo(net.stations[a]) then PartnerOf(p, |net.stations|) else p)
  {
    var next := PartnerOf(p, |net.stations|);
    assert Transmitted(net, r, a, {}, p) && Transmitted(net, r, a, {}, next);
    if a == p {
      OnlyOne(net, p, next);
    } else {
      OnlyOne(net, p, a);
    }
  }

  /** Whether a step hands the channel on. */
  predicate HandsOver(net: Net, s: Step)
    requires Enabled(net, s)
  {
    s.Transmits? && LetsGo(net.stations[s.p])
  }

  lemma TransmitMoves(net: Net, a: nat, p: nat)
    requires Good(net) && a < |net.stations| && TokenWith(net, p)
    ensures TokenWith(Next(net, Transmits(a, {})), if LetsGo(net.stations[a]) then PartnerOf(p, |net.stations|) else p)
    ensures LetsGo(net.stations[a]) ==> a == p
  {
    TransmitsStep(net, a, {});
    assert GoodAt(net, p);
    TransmittedMoves(net, Next(net, Transmits(a, {})), a, p);
  }

  lemma HearMoves(net: Net, a: nat, p: nat)
    requires Good(net) && Enabled(net, Hears(a)) && TokenWith(net, p) && Total(Next(net, Hears(a))) == 1
    ensures TokenWith(Next(net, Hears(a)), p)
  {
    var r := Next(net, Hears(a));
    if a == p {
      forall q | 0 <= q < |net.stations| && q != p ensures TokensAt(r, q) == TokensAt(net, q) { assert SameAt(net, r, q); }
      TokensChange(net, r, p);
    } else {
      assert SameAt(net, r, p);
    }
  }

  lemma StationMoves(net: Net, a: nat, st: Station, p: nat)
    requires |net.stations| == |net.wires| && a < |net.stations| && TokenWith(net, p)
    requires st.mode == net.stations[a].mode && st.rx == net.stations[a].rx
    requires Total(net.(stations := net.stations[a := st])) == 1
    ensures TokenWith(net.(stations := net.stations[a := st]), p)
  {
  }

  lemma SendMoves(net: Net, a: nat, dest: byte, src: byte, payload: seq<byte>, p: nat)
    requires Good(net) && a < |net.stations| && TokenWith(net, p)
    ensures TokenWith(Next(net, Sends(a, dest, src, payload)), p)
  {
    SendsTokens(net, a, dest, src, payload);
    assert GoodAt(net, a);
    StationMoves(net, a, Send(net.stations[a], dest, src, payload), p);
  }

  lemma FetchMoves(net: Net, a: nat, p: nat)
    requires Good(net) && Enabled(net, Fetches(a)) && TokenWith(net, p)
    ensures TokenWith(Next(net, Fetches(a)), p)
  {
    FetchesTokens(net, a);
    assert GoodAt(net, a);
    StationMoves(net, a, Fetch(net.stations[a]), p);
  }

  /** Without loss or timeouts the token stays where it is, except that the machine that has it passes it
      to the next player in number, round from the last to the first. */
  lemma TokenMoves(net: Net, s: Step, p: nat)
    requires Good(net) && Enabled(net, s) && Lossless(s) && TokenWith(net, p)
    ensures TokenWith(Next(net, s), if HandsOver(net, s) then PartnerOf(p, |net.stations|) else p)
    ensures HandsOver(net, s) ==> s.p == p
  {
    match s
    case Transmits(a, deaf) => TransmitMoves(net, a, p);
    case Hears(a) =>
      HearsTokens(net, a);
      HearMoves(net, a, p);
    case Sends(a, dest, src, payload) => SendMoves(net, a, dest, src, payload, p);
    case Fetches(a) => FetchMoves(net, a, p);
    case Impatient(a) => OthersArePatient(net, a);
  }

  function Handovers(net: Net, steps: seq<Step>): nat
    requires Possible(net, steps)
    decreases |steps|
  {
    if steps == [] then 0 else (if HandsOver(net, steps[0]) then 1 else 0) + Handovers(Next(net, steps[0]), steps[1..])
  }

  /** The k-th player after p, going round. */
  function Later(p: nat, k: nat, n: nat): (q: nat)
    requires p < n
    ensures q < n
    decreases k
  {
    if k == 0 then p else Later(PartnerOf(p, n), k - 1, n)
  }

  /** The token after one step. */
  lemma TokenAfter(net: Net, s: Step, p: nat)
    requires Good(net) && Enabled(net, s) && Lossless(s) && TokenWith(net, p)
    ensures Good(Next(net, s)) && TokenWith(Next(net, s), Later(p, if HandsOver(net, s) then 1 else 0, |net.stations|))
  {
    StepTokens(net, s);
    TokenMoves(net, s, p);
  }

  lemma {:induction false} LaterAgain(p: nat, h: nat, k: nat, n: nat)
    requires p < n
    ensures Later(Later(p, h, n), k, n) == Later(p, h + k, n)
    decreases h
  {
    if h == 0 {
    } else {
      LaterAgain(PartnerOf(p, n), h - 1, k, n);
    }
  }

  /** At the end of the run the token has gone as many players further as there were handovers. */
  ghost predicate GoneRound(net: Net, steps: seq<Step>, p: nat)
    requires Possible(net, steps) && p < |net.stations|
  {
    var r := Run(net, steps);
    |r.stations| == |net.stations| == |r.wires| && TokenWith(r, Later(p, Handovers(net, steps), |net.stations|))
  }

  lemma WithLater(r: Net, p: nat, h: nat, k: nat, n: nat)
    requires p < n && |r.stations| == |r.wires| && TokenWith(r, Later(Later(p, h, n), k, n))
    ensures TokenWith(r, Later(p, h + k, n))
  {
    LaterAgain(p, h, k, n);
  }

  lemma FirstStepFirst(net: Net, steps: seq<Step>)
    requires Possible(net, steps) && steps != []
    ensures Run(net, steps) == Run(Next(net, steps[0]), steps[1..])
    ensures Handovers(net, steps) ==
            (if HandsOver(net, steps[0]) then 1 else 0) + Handovers(Next(net, steps[0]), steps[1..])
  {
  }

  lemma GoneRoundFirst(net: Net, steps: seq<Step>, p: nat)
    requires Possible(net, steps) && steps != [] && p < |net.stations|
    requires GoneRound(Next(net, steps[0]), steps[1..], Later(p, if HandsOver(net, steps[0]) then 1 else 0, |net.stations|))
    ensures GoneRound(net, steps, p)
  {
    FirstStepFirst(net, steps);
    WithLater(Run(Next(net, steps[0]), steps[1..]), p, if HandsOver(net, steps[0]) then 1 else 0,
              Handovers(Next(net, steps[0]), steps[1..]), |net.stations|);
  }

  lemma {:induction false} TokenGoesRound(net: Net, steps: seq<Step>, p: nat)
    requires Good(net) && Possible(net, steps) && AllLossless(steps) && TokenWith(net, p)
    ensures GoneRound(net, steps, p)
    decreases |steps|
  {
    if steps == [] {
    } else {
      TokenAfter(net, steps[0], p);
      var q := Later(p, if HandsOver(net, steps[0]) then 1 else 0, |net.stations|);
      TokenGoesRound(Next(net, steps[0]), steps[1..], q);
      GoneRoundFirst(net, steps, p);
    }
  }

  /** In every run without loss or timeouts the players have the channel in turn, as far round from player 0
      as there have been handovers. */
  lemma InTurn(n: nat, steps: seq<Step>)
    requires 2 <= n <= MAXNETNODES && Possible(StartNet(n), steps) && AllLossless(steps)
    ensures GoneRound(StartNet(n), steps, 0)
  {
    StartGood(n);
    StartTokens(n);
    TokenGoesRound(StartNet(n), steps, 0);
  }

  /** The k-th player after player p is player p + k modulo their number. */
  lemma {:induction false} LaterIsModulo(p: nat, k: nat, n: nat)
    requires p < n
    ensures Later(p, k, n) == (p + k) % n
    decreases k
  {
    if k == 0 {
    } else if p + 1 == n {
      LaterIsModulo(0, k - 1, n);
      ModPlus(k - 1, n);
    } else {
      LaterIsModulo(p + 1, k - 1, n);
    }
  }

  lemma ModPlus(k: nat, n: nat)
    requires n > 0
    ensures (k + n) % n == k % n
  {
    var d := (k + n) / n - (k / n + 1);
    assert d * n == k % n - (k + n) % n by {
      assert ((k + n) / n) * n - (k / n + 1) * n == d * n;
    }
    if d >= 1 { MulAtLeast(d, n); } else if d <= -1 { MulAtLeast(-d, n); }
  }

  lemma MulAtLeast(d: nat, n: nat)
    requires d >= 1
    ensures d * n >= n
  {
  }

  // What a holder has to send.

  /** If machine p may transmit it has something to send, so that it will pass the channel on. */
  predicate Busy(net: Net, p: nat)
    requires p < |net.stations|
  {
    net.stations[p].mode == Transmit ==> net.stations[p].out != []
  }

  /** A machine that has been handed the channel has something to send until it lets go; only a timeout
      leaves player 0 transmitting with nothing to send. */
  lemma StaysBusy(net: Net, s: Step, p: nat)
    requires Shaped(net) && Enabled(net, s) && p < |net.stations| && Busy(net, p) && (p == 0 ==> !IsTimeout(s))
    ensures Busy(Next(net, s), p)
  {
    assert ShapedAt(net, p);
  }

  /** So whoever may transmit, but for player 0 at the start or after a timeout, hands the channel on after
      finitely many calls if it is given nothing more to send. */
  lemma {:induction false} HoldersHandOn(net: Net, steps: seq<Step>, p: nat) returns (calls: nat)
    requires Shaped(net) && Possible(net, steps) && p < |net.stations| && Busy(net, p)
    requires p == 0 ==> Timeouts(steps) == 0
    ensures var r := Run(net, steps);
      |r.stations| == |net.stations| && Ok(r.stations[p]) && (r.stations[p].mode == Transmit ==> HandsOnAt(r.stations[p], calls))
    decreases |steps|
  {
    if steps == [] {
      assert ShapedAt(net, p);
      calls := 0;
      if net.stations[p].mode == Transmit { calls := HandsOn(net.stations[p]); }
    } else {
      StaysBusy(net, steps[0], p);
      NextShaped(net, steps[0]);
      calls := HoldersHandOn(Next(net, steps[0]), steps[1..], p);
    }
  }

  /** At the start that holds of every player but the first. */
  lemma StartBusy(n: nat, p: nat)
    requires 2 <= n <= MAXNETNODES && 0 < p < n
    ensures Busy(StartNet(n), p)
  {
  }

  // When the token is lost.

  /** When nobody has the token any more, player 0 has it again once it loses patience, and it is the only one. */
  lemma LostTokenReturns(net: Net)
    requires Good(net) && Total(net) == 0
    ensures var r := Next(net, Impatient(0));
      Good(r) && TokenWith(r, 0) && r.stations[0].mode == Transmit && r.wires == net.wires
  {
    assert GoodAt(net, 0);
    TokensAtLeast(net, 0);
    LocalStep(net, 0, TimedOut(net.stations[0]));
  }

  lemma SentHandsOn(st: Station, dest: byte, src: byte, payload: seq<byte>) returns (calls: nat)
    requires Ok(st) && st.mode == Transmit && |payload| <= PACKET_MAX - HEADER
    ensures Ok(Send(st, dest, src, payload)) && HandsOnAt(Send(st, dest, src, payload), calls)
  {
    SendOk(st, dest, src, payload);
    calls := HandsOn(Send(st, dest, src, payload));
  }

  /** A machine that transmits and is given something to send hands on. */
  lemma SendHandsOn(net: Net, dest: byte, src: byte, payload: seq<byte>) returns (calls: nat)
    requires Good(net) && TokenWith(net, 0) && net.stations[0].mode == Transmit && |payload| <= PACKET_MAX - HEADER
    ensures var r := Next(net, Sends(0, dest, src, payload));
      Good(r) && TokenWith(r, 0) && Ok(r.stations[0]) && HandsOnAt(r.stations[0], calls)
  {
    SendMoves(net, 0, dest, src, payload, 0);
    SendsTokens(net, 0, dest, src, payload);
    assert GoodAt(net, 0);
    calls := SentHandsOn(net.stations[0], dest, src, payload);
  }

  /** And it passes it on again after finitely many calls, as it loses patience when it is about to send something. */
  lemma ReturnedTokenIsHandedOn(net: Net, dest: byte, src: byte, payload: seq<byte>) returns (calls: nat)
    requires Good(net) && Total(net) == 0 && |payload| <= PACKET_MAX - HEADER
    ensures Good(Next(net, Impatient(0)))
    ensures var r := Next(Next(net, Impatient(0)), Sends(0, dest, src, payload));
      Good(r) && TokenWith(r, 0) && Ok(r.stations[0]) && HandsOnAt(r.stations[0], calls)
  {
    LostTokenReturns(net);
    calls := SendHandsOn(Next(net, Impatient(0)), dest, src, payload);
  }
}
