/** Two players, one of which pauses: a run in which both end up transmitting, with nothing lost on the
    channel and nobody impatient. */
module SirTwoPlayers {
  import opened Bytes
  import opened DoomNet
  import opened Escaping
  import opened Sequences
  import opened SirFraming
  import opened SirStation
  import opened SirToken

  /** No block is lost on the channel, and nobody loses patience. */
  predicate Undisturbed(steps: seq<Step>) {
    forall i :: 0 <= i < |steps| ==> (steps[i].Transmits? ==> steps[i].deaf == {}) && !steps[i].Impatient?
  }

  /** The steps are possible and lead from one state to the other. */
  ghost predicate Leads(net: Net, steps: seq<Step>, r: Net) {
    Shaped(net) && Possible(net, steps) && Run(net, steps) == r && Shaped(r) && Undisturbed(steps)
  }

  lemma OneStep(net: Net, s: Step)
    requires Shaped(net) && Enabled(net, s) && Undisturbed([s])
    ensures Leads(net, [s], Next(net, s))
  {
    NextShaped(net, s);
    assert [s][1..] == [] && [s][0] == s;
    assert Possible(Next(net, s), []) && Run(Next(net, s), []) == Next(net, s);
  }

  lemma {:induction false} LeadsOn(a: Net, s: seq<Step>, b: Net, t: seq<Step>, c: Net)
    requires Leads(a, s, b) && Leads(b, t, c)
    ensures Leads(a, s + t, c)
    decreases |s|
  {
    if s == [] {
      assert s + t == t;
    } else {
      var next := Next(a, s[0]);
      NextShaped(a, s[0]);
      assert (s + t)[1..] == s[1..] + t && (s + t)[0] == s[0];
      assert Undisturbed(s[1..]);
      LeadsOn(next, s[1..], b, t, c);
      assert Undisturbed(s + t);
    }
  }

  // Whole turns and runs of bytes.

  lemma DeliverTwice(wires: seq<seq<byte>>, a: seq<byte>, b: seq<byte>, from: nat)
    ensures Deliver(Deliver(wires, a, from, {}), b, from, {}) == Deliver(wires, a + b, from, {})
    ensures Deliver(wires, [], from, {}) == wires
  {
    forall q | 0 <= q < |wires| ensures wires[q] + a + b == wires[q] + (a + b) && wires[q] + [] == wires[q] {}
  }

  /** A machine transmits until its turn is over. */
  lemma {:induction false} WholeTurn(net: Net, p: nat) returns (steps: seq<Step>)
    requires Shaped(net) && p < |net.stations| && Ok(net.stations[p])
    ensures var (st, block) := Turn(net.stations[p]);
      Leads(net, steps, Net(net.stations[p := st], Deliver(net.wires, block, p, {})))
    decreases TurnWork(net.stations[p])
  {
    var st := net.stations[p];
    if st.mode == Wait || st.out == [] {
      steps := [];
      DeliverTwice(net.wires, [], [], p);
      assert net.stations[p := st] == net.stations;
    } else {
      var first := Transmits(p, {});
      WorkShrinks(st);
      OneStep(net, first);
      var next := Next(net, first);
      var rest := WholeTurn(next, p);
      steps := [first] + rest;
      DeliverTwice(net.wires, MoreTX(st).1, Turn(MoreTX(st).0).1, p);
      assert net.stations[p := MoreTX(st).0][p := Turn(st).0] == net.stations[p := Turn(st).0];
      LeadsOn(net, [first], next, rest, Net(net.stations[p := Turn(st).0], Deliver(net.wires, Turn(st).1, p, {})));
    }
  }

  /** A machine reads k bytes, and pauses with the last of them if at all. */
  lemma {:induction false} ReadsBytes(net: Net, q: nat, k: nat) returns (steps: seq<Step>)
    requires Shaped(net) && q < |net.stations| && k <= |net.wires[q]| && Ok(net.stations[q])
    requires k > 0 ==> !TakeIn(net.stations[q], net.wires[q][..k - 1]).paused
    ensures Leads(net, steps, Net(net.stations[q := TakeIn(net.stations[q], net.wires[q][..k])],
                                  net.wires[q := net.wires[q][k..]]))
    decreases k
  {
    var st, wire := net.stations[q], net.wires[q];
    if k == 0 {
      steps := [];
      assert wire[0..] == wire && wire[..0] == [] && net.stations[q := st] == net.stations && net.wires[q := wire] == net.wires;
    } else {
      if st.paused { StaysPaused(st, wire[..k - 1]); }
      OneStep(net, Hears(q));
      var next := Next(net, Hears(q));
      if k > 1 {
        assert wire[..k - 1][0] == wire[0] && wire[..k - 1][1..] == wire[1..][..k - 2];
        assert TakeIn(next.stations[q], wire[1..][..k - 2]) == TakeIn(st, wire[..k - 1]);
      }
      var rest := ReadsBytes(next, q, k - 1);
      steps := [Hears(q)] + rest;
      assert wire[..k][0] == wire[0] && wire[..k][1..] == wire[1..][..k - 1] && wire[1..][k - 1..] == wire[k..];
      var r := Net(net.stations[q := TakeIn(st, wire[..k])], net.wires[q := wire[k..]]);
      assert next.stations[q := TakeIn(st, wire[..k])] == r.stations && next.wires[q := wire[k..]] == r.wires;
      LeadsOn(net, [Hears(q)], next, rest, r);
    }
  }

  /** The port of a paused machine loses k bytes. */
  lemma {:induction false} LosesBytes(net: Net, q: nat, k: nat) returns (steps: seq<Step>)
    requires Shaped(net) && q < |net.stations| && k <= |net.wires[q]| && net.stations[q].paused
    ensures Leads(net, steps, net.(wires := net.wires[q := net.wires[q][k..]]))
    decreases k
  {
    var wire := net.wires[q];
    if k == 0 {
      steps := [];
      assert wire[0..] == wire && net.wires[q := wire] == net.wires;
    } else {
      OneStep(net, Misses(q, 0));
      var next := Next(net, Misses(q, 0));
      assert next.wires[q] == wire[1..] by { assert wire[..0] + wire[1..] == wire[1..]; }
      var rest := LosesBytes(next, q, k - 1);
      steps := [Misses(q, 0)] + rest;
      assert wire[1..][k - 1..] == wire[k..];
      var r := net.(wires := net.wires[q := wire[k..]]);
      assert next.wires[q := wire[k..]] == r.wires;
      LeadsOn(net, [Misses(q, 0)], next, rest, r);
    }
  }

  // The collision.

  /** Whenever a two-player machine waits, paused, with a FRAMECHAR and then the code of its own handoff
      anywhere in what it has not read, while the other transmits, both may end up transmitting. */
  lemma Collision(net: Net, k: nat) returns (steps: seq<Step>, r: Net)
    requires Shaped(net) && |net.stations| == 2 && net.stations[0].mode == Transmit
    requires net.stations[1].mode == Wait && net.stations[1].paused && net.stations[1].rx == CLEAN
    requires k + 2 <= |net.wires[1]| && net.wires[1][k] == FRAMECHAR && net.wires[1][k + 1] == HandoffTo(1)
    ensures Leads(net, steps, r) && |r.stations| == 2 && r.stations[0].mode == r.stations[1].mode == Transmit
  {
    assert ShapedAt(net, 1);
    var lost := LosesBytes(net, 1, k);
    var a := net.(wires := net.wires[1 := net.wires[1][k..]]);
    OneStep(a, Fetches(1));
    var b := Next(a, Fetches(1));
    assert ShapedAt(b, 1);
    assert b.wires[1][..1] == [FRAMECHAR] && [FRAMECHAR][1..] == [];
    assert TakeIn(b.stations[1], b.wires[1][..1]) == Receive(b.stations[1], FRAMECHAR);
    var read := ReadsBytes(b, 1, 2);
    assert b.wires[1][..2] == [FRAMECHAR, HandoffTo(1)];
    TakeInHears(b.stations[1], b.wires[1][..2]);
    HearTwo(CLEAN, FRAMECHAR, HandoffTo(1));
    assert Said(Nothing) + Said(Ended([], HandoffTo(1))) == [Ended([], HandoffTo(1))];
    r := Net(b.stations[1 := TakeIn(b.stations[1], b.wires[1][..2])], b.wires[1 := b.wires[1][2..]]);
    LeadsOn(net, lost, a, [Fetches(1)], b);
    LeadsOn(net, lost + [Fetches(1)], b, read, r);
    steps := lost + [Fetches(1)] + read;
    assert [Ended([], HandoffTo(1))][0].code == HandoffTo(1);
  }

  // Short packets go out in one block, unharmed.

  lemma {:induction false} ShortSlots(p: seq<byte>, k: nat)
    requires k <= |p| && 2 * k < TX_BUFFER
    ensures SlotOf(p, k) <= 2 * k
  {
    if k == 0 {
    } else {
      ShortSlots(p, k - 1);
    }
  }

  lemma ShortUnharmed(p: seq<byte>)
    requires 2 * |p| < TX_BUFFER
    ensures Unharmed(p) && Kept(p, 0) == p
  {
    forall k | 0 <= k < |p| ensures !Lost(p, k) { ShortSlots(p, k); }
    KeptIffUnharmed(p);
  }

  lemma {:induction false} ShortBlock(p: seq<byte>, off: nat, slot: nat)
    requires off <= |p| && slot + 2 * (|p| - off) < TX_BUFFER
    ensures Block(Written, p, off, slot) == (Escaped(p[off..]), |p|)
    decreases |p| - off
  {
    if off == |p| {
    } else {
      BlockStep(Written, p, off, slot);
      ShortBlock(p, off + 1, slot + |Escape(p[off])|);
      assert p[off..][1..] == p[off + 1..];
    }
  }

  // Filling the other's queue.

  const PLAIN := Packet(1, 0, [1])
  const TRICKY := Packet(1, 0, [FRAMECHAR, HandoffTo(1)])

  lemma PlainAccepted()
    ensures |PLAIN| == 4 && IsFor(1, PLAIN)
  {
    assert PLAIN[1..] == [1, 0] + [1];
    assert PLAIN[3..] == [1];
  }

  /** Packets that are all for a machine fill up its queue. */
  lemma {:induction false} AllAccepted(me: byte, inbox: seq<seq<byte>>, hs: seq<Heard>)
    requires forall i :: 0 <= i < |hs| ==> hs[i].Ended? && IsFor(me, hs[i].data)
    requires |inbox| + |hs| < QUEUE_LEN
    ensures AllFit(me, inbox, hs) && |Enqueue(me, inbox, hs)| == |inbox| + |hs|
    decreases |hs|
  {
    if hs == [] {
    } else {
      AllAccepted(me, inbox + [hs[0].data], hs[1..]);
    }
  }

  /** Player 0 has n plain packets to send. */
  function Loaded(net: Net, n: nat): Net
    requires |net.stations| == 2
  {
    net.(stations := net.stations[0 := net.stations[0].(out := net.stations[0].out + seq(n, i => PLAIN))])
  }

  lemma {:induction false} SendsPlain(net: Net, n: nat) returns (steps: seq<Step>)
    requires Shaped(net) && |net.stations| == 2 && |net.stations[0].out| + n < QUEUE_LEN
    ensures Leads(net, steps, Loaded(net, n))
    decreases n
  {
    var out := net.stations[0].out;
    if n == 0 {
      steps := [];
      assert out + seq(0, i => PLAIN) == out && net.stations[0 := net.stations[0].(out := out)] == net.stations;
    } else {
      var s := Sends(0, 1, 0, [1]);
      OneStep(net, s);
      var rest := SendsPlain(Next(net, s), n - 1);
      steps := [s] + rest;
      assert out + [PLAIN] + seq(n - 1, i => PLAIN) == out + seq(n, i => PLAIN);
      assert Loaded(Next(net, s), n - 1).stations == Loaded(net, n).stations;
      LeadsOn(net, [s], Next(net, s), rest, Loaded(net, n));
    }
  }

  lemma PlainHeard(a: Station, b: Station)
    requires Ok(a) && a.out == seq(QUEUE_LEN - 1, i => PLAIN) && a.partner == 1
    requires Ok(b) && b.me == 1 && b.mode == Wait && b.out == [] && b.inbox == [] && !b.paused
    ensures var r := Informed(b, CLEAN, Announced(a.out, 1));
      QueueFull(r.inbox) && r.mode == Transmit && r.out == [[]] && !r.paused
  {
    PlainAccepted();
    ShortUnharmed(PLAIN);
    var hs := Announced(a.out, 1);
    AllAccepted(1, [], hs);
    assert hs[|hs| - 1].code == HandoffTo(1);
  }

  /** Two machines after one has had its turn and the other has read all of it. */
  function TurnOver(net: Net, p: nat): Net
    requires |net.stations| == 2 && p < 2 && Ok(net.stations[p]) && Ok(net.stations[1 - p])
  {
    var a, b := net.stations[p], net.stations[1 - p];
    net.(stations := net.stations[p := a.(out := [], mode := Wait)][1 - p := Informed(b, CLEAN, Announced(a.out, a.partner))])
  }

  /** What a machine with these packets puts on the wire in its turn. */
  function TurnBytes(a: Station): seq<byte>
    requires a.partner < MAXNETNODES
  {
    Stream(Announced(a.out, a.partner))
  }

  predicate TurnStarts(a: Station) { Ok(a) && a.mode == Transmit && a.out != [] && a.offset == 0 }

  lemma TurnBytesHeard(a: Station)
    requires TurnStarts(a)
    ensures Hear(CLEAN, TurnBytes(a)) == (CLEAN, Announced(a.out, a.partner))
    ensures Turn(a) == (a.(out := [], mode := Wait), TurnBytes(a))
  {
    TurnSends(a);
    TurnIsHeard(a);
  }

  lemma DeliverOther(wires: seq<seq<byte>>, wire: seq<byte>, p: nat)
    requires |wires| == 2 && p < 2 && wires[1 - p] == []
    ensures Deliver(wires, wire, p, {}) == wires[1 - p := wire]
  {
    assert [] + wire == wire;
  }

  /** A whole turn is on its way to the other machine. */
  lemma TurnSent(net: Net, p: nat) returns (steps: seq<Step>)
    requires Shaped(net) && |net.stations| == 2 && p < 2 && net.wires[1 - p] == [] && TurnStarts(net.stations[p])
    ensures var a := net.stations[p];
      Leads(net, steps, Net(net.stations[p := a.(out := [], mode := Wait)], net.wires[1 - p := TurnBytes(a)]))
  {
    steps := WholeTurn(net, p);
    TurnBytesHeard(net.stations[p]);
    DeliverOther(net.wires, TurnBytes(net.stations[p]), p);
  }

  /** A machine reads all there is, without pausing. */
  lemma ReadsAll(net: Net, q: nat, hs: seq<Heard>) returns (steps: seq<Step>)
    requires Shaped(net) && q < |net.stations| && Ok(net.stations[q]) && Hear(net.stations[q].rx, net.wires[q]) == (CLEAN, hs)
    requires !Informed(net.stations[q], CLEAN, hs).paused
    ensures Leads(net, steps, Net(net.stations[q := Informed(net.stations[q], CLEAN, hs)], net.wires[q := []]))
  {
    var st, wire := net.stations[q], net.wires[q];
    TakeInHears(st, wire);
    if wire != [] {
      RestAndLast(wire);
      TakeInSnoc(st, wire[..|wire| - 1], wire[|wire| - 1]);
    }
    steps := ReadsBytes(net, q, |wire|);
    assert wire[..|wire|] == wire && wire[|wire|..] == [];
  }

  lemma ReadAgain(wires: seq<seq<byte>>, q: nat, wire: seq<byte>)
    requires q < |wires| && wires[q] == []
    ensures wires[q := wire][q := []] == wires
  {
  }

  lemma ReadIsOver(net: Net, p: nat, mid: Net)
    requires |net.stations| == |net.wires| == 2 && p < 2 && net.wires[1 - p] == []
    requires Ok(net.stations[p]) && Ok(net.stations[1 - p])
    requires mid == Net(net.stations[p := net.stations[p].(out := [], mode := Wait)],
                        net.wires[1 - p := TurnBytes(net.stations[p])])
    ensures var a, q := net.stations[p], 1 - p;
      Net(mid.stations[q := Informed(mid.stations[q], CLEAN, Announced(a.out, a.partner))], mid.wires[q := []]) ==
        TurnOver(net, p)
  {
    ReadAgain(net.wires, 1 - p, TurnBytes(net.stations[p]));
  }

  lemma TurnHeard(net: Net, p: nat) returns (steps: seq<Step>)
    requires Shaped(net) && |net.stations| == 2 && p < 2 && net.wires[1 - p] == [] && TurnStarts(net.stations[p])
    requires Ok(net.stations[1 - p]) && net.stations[1 - p].rx == CLEAN
    requires !Informed(net.stations[1 - p], CLEAN, Announced(net.stations[p].out, net.stations[p].partner)).paused
    ensures Leads(net, steps, TurnOver(net, p))
  {
    var a, q := net.stations[p], 1 - p;
    var sent := TurnSent(net, p);
    TurnBytesHeard(a);
    var mid := Net(net.stations[p := a.(out := [], mode := Wait)], net.wires[q := TurnBytes(a)]);
    var read := ReadsAll(mid, q, Announced(a.out, a.partner));
    ReadIsOver(net, p, mid);
    LeadsOn(net, sent, mid, read, TurnOver(net, p));
    steps := sent + read;
  }

  /** At the start, with seven packets for player 1. */
  lemma LoadedStart()
    ensures var r := Loaded(StartNet(2), QUEUE_LEN - 1);
      && r.stations == [Started(0, 2).(out := seq(QUEUE_LEN - 1, i => PLAIN)), Started(1, 2)] && r.wires == [[], []]
  {
    var out := seq(QUEUE_LEN - 1, i => PLAIN);
    NothingAdded(out);
  }

  /** From the start, player 0 sends seven packets and hands the channel on; player 1's queue is full. */
  lemma FillQueue() returns (steps: seq<Step>, r: Net)
    ensures Leads(StartNet(2), steps, r) && |r.stations| == 2 && r.wires == [[], []]
    ensures r.stations[0] == Started(0, 2).(mode := Wait)
    ensures var st := r.stations[1];
      && QueueFull(st.inbox) && st.mode == Transmit && st.out == [[]] && st.offset == 0 && st.rx == CLEAN && !st.paused
      && st.me == 1 && st.numnodes == 2 && st.partner == 0
  {
    var net := StartNet(2);
    StartGood(2);
    var load := SendsPlain(net, QUEUE_LEN - 1);
    var a := Loaded(net, QUEUE_LEN - 1);
    LoadedStart();
    assert ShapedAt(a, 0) && ShapedAt(a, 1);
    PlainHeard(a.stations[0], a.stations[1]);
    var turn := TurnHeard(a, 0);
    r := TurnOver(a, 0);
    LeadsOn(net, load, a, turn, r);
    steps := load + turn;
  }

  lemma EmptyTurnHeard(b: Station)
    requires Ok(b) && b.me == 0 && b == Started(0, 2).(mode := Wait)
    ensures Informed(b, CLEAN, Announced([[]], 0)) == Started(0, 2).(out := [[]])
  {
    var hs := Announced([[]], 0);
    assert Kept([], 0) == [] && hs == [Ended([], HandoffTo(0))];
    assert hs[0].code == HandoffTo(0);
  }

  /** Then player 1 hands the channel back. */
  lemma HandBack() returns (steps: seq<Step>, r: Net)
    ensures Leads(StartNet(2), steps, r) && |r.stations| == 2 && r.wires == [[], []]
    ensures r.stations[0] == Started(0, 2).(out := [[]])
    ensures var st := r.stations[1];
      && QueueFull(st.inbox) && st.mode == Wait && st.out == [] && st.rx == CLEAN && !st.paused
      && st.me == 1 && st.numnodes == 2
  {
    var fill, a := FillQueue();
    assert ShapedAt(a, 0) && ShapedAt(a, 1);
    EmptyTurnHeard(a.stations[0]);
    var turn := TurnHeard(a, 1);
    r := TurnOver(a, 1);
    LeadsOn(StartNet(2), fill, a, turn, r);
    steps := fill + turn;
  }

  /** Player 0 puts its next block on the way to player 1. */
  lemma Emits(net: Net, st: Station, block: seq<byte>)
    requires Shaped(net) && |net.stations| == 2 && Ok(net.stations[0]) && MoreTX(net.stations[0]) == (st, block)
    ensures Leads(net, [Transmits(0, {})], Net([st, net.stations[1]], [net.wires[0], net.wires[1] + block]))
  {
    OneStep(net, Transmits(0, {}));
    assert Deliver(net.wires, block, 0, {}) == [net.wires[0], net.wires[1] + block];
    assert net.stations[0 := st] == [st, net.stations[1]];
  }

  /** A whole packet, short enough for one block, and then its end. */
  lemma EmitsPacket(net: Net) returns (steps: seq<Step>)
    requires Shaped(net) && |net.stations| == 2 && Ok(net.stations[0])
    requires var st := net.stations[0];
      st.mode == Transmit && |st.out| >= 2 && st.offset == 0 && 0 < 2 * |st.out[0]| < TX_BUFFER
    ensures var st := net.stations[0];
      Leads(net, steps, Net([st.(out := st.out[1..]), net.stations[1]],
                            [net.wires[0], net.wires[1] + Frame(st.out[0], END_PACKET)]))
  {
    var st := net.stations[0];
    var p := st.out[0];
    ShortBlock(p, 0, 0);
    assert p[0..] == p;
    Emits(net, st.(offset := |p|), Escaped(p));
    var mid := Net([st.(offset := |p|), net.stations[1]], [net.wires[0], net.wires[1] + Escaped(p)]);
    Emits(mid, st.(out := st.out[1..]), [FRAMECHAR, END_PACKET]);
    assert net.wires[1] + Escaped(p) + [FRAMECHAR, END_PACKET] == net.wires[1] + Frame(p, END_PACKET);
    LeadsOn(net, [Transmits(0, {})], mid, [Transmits(0, {})],
            Net([st.(out := st.out[1..]), net.stations[1]], [net.wires[0], net.wires[1] + Frame(p, END_PACKET)]));
    steps := [Transmits(0, {})] + [Transmits(0, {})];
  }

  /** Player 0, having just been handed the channel, queues a plain packet and a tricky one. */
  lemma SendsTwo(net: Net) returns (steps: seq<Step>)
    requires Shaped(net) && |net.stations| == 2 && |net.wires| == 2 && net.stations[0] == Started(0, 2).(out := [[]])
    ensures Leads(net, steps, Net([Started(0, 2).(out := [[], PLAIN, TRICKY]), net.stations[1]], net.wires))
  {
    var s, t := Sends(0, 1, 0, [1]), Sends(0, 1, 0, [FRAMECHAR, HandoffTo(1)]);
    OneStep(net, s);
    var mid := Next(net, s);
    OneStep(mid, t);
    assert [[]] + [PLAIN] + [TRICKY] == [[], PLAIN, TRICKY];
    LeadsOn(net, [s], mid, [t], Next(mid, t));
    steps := [s] + [t];
  }

  /** All but the end of the tricky packet goes out. */
  lemma EmitsTwo(net: Net) returns (steps: seq<Step>)
    requires Shaped(net) && |net.stations| == 2 && net.wires == [[], []]
    requires net.stations[0] == Started(0, 2).(out := [[], PLAIN, TRICKY])
    ensures Leads(net, steps, Net([Started(0, 2).(out := [TRICKY], offset := |TRICKY|), net.stations[1]],
                                  [[], Frame([], END_PACKET) + Frame(PLAIN, END_PACKET) + Escaped(TRICKY)]))
  {
    var one, w := [Transmits(0, {})], Frame([], END_PACKET);
    assert w == [FRAMECHAR, END_PACKET] && [] + w == w;
    Emits(net, Started(0, 2).(out := [PLAIN, TRICKY]), w);
    var a := Net([Started(0, 2).(out := [PLAIN, TRICKY]), net.stations[1]], [[], w]);
    PlainAccepted();
    var rest := EmitsPacket(a);
    var b := Net([Started(0, 2).(out := [TRICKY]), net.stations[1]], [[], w + Frame(PLAIN, END_PACKET)]);
    ShortBlock(TRICKY, 0, 0);
    assert TRICKY[0..] == TRICKY;
    Emits(b, Started(0, 2).(out := [TRICKY], offset := |TRICKY|), Escaped(TRICKY));
    var c := Net([Started(0, 2).(out := [TRICKY], offset := |TRICKY|), net.stations[1]],
                 [[], w + Frame(PLAIN, END_PACKET) + Escaped(TRICKY)]);
    LeadsOn(net, one, a, rest, b);
    LeadsOn(net, one + rest, b, one, c);
    steps := one + rest + one;
  }

  /** A two-player machine with a full queue pauses when it hears a packet for it. */
  lemma NoRoom(st: Station, p: seq<byte>)
    requires Ok(st) && st.numnodes == 2 && QueueFull(st.inbox) && st.mode == Wait && IsFor(st.me, p)
    ensures var r := Informed(st, CLEAN, [Ended([], END_PACKET), Ended(p, END_PACKET)]);
      r.paused && r.mode == Wait && r.rx == CLEAN
  {
    var hs := [Ended([], END_PACKET), Ended(p, END_PACKET)];
    assert hs[1..] == [Ended(p, END_PACKET)];
    assert !AllFit(st.me, st.inbox, hs[1..]);
  }

  lemma TwoFrames(p: seq<byte>, q: seq<byte>)
    requires |p| <= PACKET_MAX && |q| <= PACKET_MAX
    ensures Hear(CLEAN, Frame(p, END_PACKET) + Frame(q, END_PACKET)) == (CLEAN, [Ended(p, END_PACKET), Ended(q, END_PACKET)])
  {
    HearFrame(p, END_PACKET);
    HearFrame(q, END_PACKET);
    HearAppend(CLEAN, Frame(p, END_PACKET), Frame(q, END_PACKET));
    assert [Ended(p, END_PACKET)] + [Ended(q, END_PACKET)] == [Ended(p, END_PACKET), Ended(q, END_PACKET)];
  }

  lemma PausesAtPlain(st: Station)
    requires Ok(st) && st.me == 1 && st.numnodes == 2 && QueueFull(st.inbox) && st.rx == CLEAN && st.mode == Wait
    ensures var r := TakeIn(st, Frame([], END_PACKET) + Frame(PLAIN, END_PACKET));
      r.paused && r.mode == Wait && r.rx == CLEAN
  {
    PlainAccepted();
    TwoFrames([], PLAIN);
    NoRoom(st, PLAIN);
    TakeInHears(st, Frame([], END_PACKET) + Frame(PLAIN, END_PACKET));
  }

  /** But not before the packet has ended. */
  lemma GoesOnTo(st: Station, p: seq<byte>) returns (wire: seq<byte>)
    requires Ok(st) && st.rx == CLEAN && !st.paused && |p| <= PACKET_MAX
    ensures Frame([], END_PACKET) + Frame(p, END_PACKET) == wire + [END_PACKET] && !TakeIn(st, wire).paused
  {
    var first, last := [Ended([], END_PACKET)], Ended(p, END_PACKET);
    wire := StreamButLast(first, last);
    StreamSnoc(first, last);
    assert first[1..] == [];
    NothingAdded(Frame([], END_PACKET));
    TakeInHears(st, wire);
    assert AllFit(st.me, st.inbox, first);
  }

  /** Where the handoff is to be found in the tricky packet. */
  lemma TrickyPart() returns (k: nat)
    ensures k + 2 == |Escaped(TRICKY)| && Escaped(TRICKY)[k] == FRAMECHAR && Escaped(TRICKY)[k + 1] == HandoffTo(1)
  {
    var head, tail := TRICKY[..HEADER], [FRAMECHAR, HandoffTo(1)];
    assert TRICKY == head + tail;
    EscapedAppend(head, tail);
    assert tail[1..] == [HandoffTo(1)] && [HandoffTo(1)][1..] == [];
    assert Escaped([HandoffTo(1)]) == [HandoffTo(1)];
    assert Escaped(tail) == [FRAMECHAR, FRAMECHAR, HandoffTo(1)];
    k := |Escaped(head)| + 1;
  }

  /** Player 1 reads on until it pauses. */
  lemma ReadsPlain(net: Net) returns (steps: seq<Step>, r: Net)
    requires Shaped(net) && |net.stations| == 2 == |net.wires|
    requires var st := net.stations[1]; QueueFull(st.inbox) && st.mode == Wait && st.rx == CLEAN && !st.paused
    requires net.wires[1] == Frame([], END_PACKET) + Frame(PLAIN, END_PACKET) + Escaped(TRICKY)
    ensures Leads(net, steps, r) && |r.stations| == 2 == |r.wires| && r.stations[0] == net.stations[0]
    ensures r.stations[1].paused && r.stations[1].mode == Wait && r.stations[1].rx == CLEAN
    ensures r.wires[1] == Escaped(TRICKY)
  {
    assert ShapedAt(net, 1);
    var wire := Frame([], END_PACKET) + Frame(PLAIN, END_PACKET);
    PlainAccepted();
    var before := GoesOnTo(net.stations[1], PLAIN);
    assert net.wires[1][..|wire| - 1] == before;
    steps := ReadsBytes(net, 1, |wire|);
    assert net.wires[1][..|wire|] == wire && net.wires[1][|wire|..] == Escaped(TRICKY);
    PausesAtPlain(net.stations[1]);
    r := Net(net.stations[1 := TakeIn(net.stations[1], wire)], net.wires[1 := Escaped(TRICKY)]);
  }

  /** From the start of a two-player game, with no block lost on the channel and no timeout, both players
      may end up transmitting: one of them has to pause with its queue full. */
  lemma TwoPlayersCollide() returns (steps: seq<Step>, r: Net)
    ensures Possible(StartNet(2), steps) && Run(StartNet(2), steps) == r && Undisturbed(steps)
    ensures |r.stations| == 2 && r.stations[0].mode == r.stations[1].mode == Transmit
  {
    var net := StartNet(2);
    var start, a := HandBack();
    var load := SendsTwo(a);
    var b := Net([Started(0, 2).(out := [[], PLAIN, TRICKY]), a.stations[1]], a.wires);
    var emit := EmitsTwo(b);
    var c := Net([Started(0, 2).(out := [TRICKY], offset := |TRICKY|), a.stations[1]],
                 [[], Frame([], END_PACKET) + Frame(PLAIN, END_PACKET) + Escaped(TRICKY)]);
    var read, d := ReadsPlain(c);
    var k := TrickyPart();
    var crash;
    crash, r := Collision(d, k);
    LeadsOn(net, start, a, load, b);
    LeadsOn(net, start + load, b, emit, c);
    LeadsOn(net, start + load + emit, c, read, d);
    LeadsOn(net, start + load + emit + read, d, crash, r);
    steps := start + load + emit + read + crash;
  }
}
