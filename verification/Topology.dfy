/** A network of machines joined by links. Every machine numbers its interfaces (drivers) and,
    on each of them, the other machines on that link; a hop byte names one such neighbour. */
module Topology {
  import opened Bytes

  /** One neighbour on a link: which machine it is, and the hop byte by which it names us. */
  datatype Port = Port(peer: nat, back: byte)

  /** `nodes[u][d][k-1]` is machine u's remote node k on driver d. */
  datatype Network = Network(nodes: seq<seq<seq<Port>>>)

  const NO_DRIVER := -1

  function AddrDriver(h: byte): int { h / 32 }

  function AddrNode(h: byte): nat { h % 32 }

  function MakeAddress(driver: nat, node: nat): (h: byte)
    requires driver < 8 && node < 32
    ensures AddrDriver(h) == driver && AddrNode(h) == node
  {
    driver * 32 + node
  }

  /** The driver is in the upper three bits of a hop, the node in the lower five. */
  lemma DriverBits(h: bv8)
    ensures AddrDriver(h as int) == ((h >> 5) & 0x07) as int
  {
  }

  lemma NodeBits(h: bv8)
    ensures AddrNode(h as int) == (h & 0x1f) as int
  {
  }

  predicate ValidHop(t: Network, u: nat, h: byte) {
    && u < |t.nodes|
    && AddrDriver(h) < |t.nodes[u]|
    && 1 <= AddrNode(h) <= |t.nodes[u][AddrDriver(h)]|
  }

  /** Where a packet sent to hop h arrives, and who it then appears to come from. */
  function Across(t: Network, u: nat, h: byte): Port {
    if ValidHop(t, u, h) then t.nodes[u][AddrDriver(h)][AddrNode(h) - 1] else Port(u, 0)
  }

  function Peer(t: Network, u: nat, h: byte): nat { Across(t, u, h).peer }

  function Back(t: Network, u: nat, h: byte): byte { Across(t, u, h).back }

  /** At most eight drivers, between 2 and 16 machines to a link, and links are symmetric. */
  ghost predicate WellFormed(t: Network) {
    && (forall u :: 0 <= u < |t.nodes| ==> |t.nodes[u]| <= 8)
    && (forall u, d :: 0 <= u < |t.nodes| && 0 <= d < |t.nodes[u]| ==> 1 <= |t.nodes[u][d]| <= 15)
    && (forall u: nat, h: byte {:trigger ValidHop(t, u, h)} :: ValidHop(t, u, h) ==>
          ValidHop(t, Peer(t, u, h), Back(t, u, h)) && Across(t, Peer(t, u, h), Back(t, u, h)) == Port(u, h))
  }

  /** A link joins all its machines to each other. */
  ghost predicate LanClosed(t: Network) {
    forall u: nat, h1: byte, h2: byte {:trigger ValidHop(t, u, h1), ValidHop(t, u, h2)} ::
      ValidHop(t, u, h1) && ValidHop(t, u, h2) && h1 != h2 && AddrDriver(h1) == AddrDriver(h2) ==>
        exists g: byte {:trigger ValidHop(t, Peer(t, u, h1), g)} ::
          && ValidHop(t, Peer(t, u, h1), g)
          && AddrDriver(g) == AddrDriver(Back(t, u, h1))
          && Peer(t, Peer(t, u, h1), g) == Peer(t, u, h2)
          && AddrDriver(Back(t, Peer(t, u, h1), g)) == AddrDriver(Back(t, u, h2))
  }

  // Walks: sequences of hop bytes followed from a machine.

  type Walk = seq<byte>

  function End(t: Network, u: nat, w: Walk): nat
    decreases w
  {
    if w == [] then u else End(t, Peer(t, u, w[0]), w[1..])
  }

  /** The driver on which the walk last arrived. */
  function Arrival(t: Network, u: nat, arr: int, w: Walk): int
    decreases w
  {
    if w == [] then arr else Arrival(t, Peer(t, u, w[0]), AddrDriver(Back(t, u, w[0])), w[1..])
  }

  /** Every hop exists, and no machine is left by the interface it was reached on. */
  predicate Legal(t: Network, u: nat, arr: int, w: Walk)
    decreases w
  {
    w == [] ||
    (&& ValidHop(t, u, w[0])
     && AddrDriver(w[0]) != arr
     && Legal(t, Peer(t, u, w[0]), AddrDriver(Back(t, u, w[0])), w[1..]))
  }

  /** The way back, named by the machines at the other end of each hop. */
  function Reverse(t: Network, u: nat, w: Walk): (r: Walk)
    ensures |r| == |w|
    decreases w
  {
    if w == [] then [] else Reverse(t, Peer(t, u, w[0]), w[1..]) + [Back(t, u, w[0])]
  }

  lemma {:induction false} Append(t: Network, u: nat, arr: int, a: Walk, b: Walk)
    ensures Legal(t, u, arr, a + b) <==> Legal(t, u, arr, a) && Legal(t, End(t, u, a), Arrival(t, u, arr, a), b)
    ensures End(t, u, a + b) == End(t, End(t, u, a), b)
    ensures Arrival(t, u, arr, a + b) == Arrival(t, End(t, u, a), Arrival(t, u, arr, a), b)
    ensures Reverse(t, u, a + b) == Reverse(t, End(t, u, a), b) + Reverse(t, u, a)
    decreases a
  {
    if a == [] {
      assert a + b == b;
      assert Reverse(t, u, b) + [] == Reverse(t, u, b);
    } else {
      assert (a + b)[1..] == a[1..] + b;
      Append(t, Peer(t, u, a[0]), AddrDriver(Back(t, u, a[0])), a[1..], b);
    }
  }

  lemma LegalFromRest(t: Network, u: nat, arr: int, w: Walk)
    requires Legal(t, u, arr, w)
    ensures Legal(t, u, NO_DRIVER, w)
  {
  }

  /** Reversing a legal walk gives a legal walk back to its start, and reversing that gives the walk again. */
  lemma {:induction false} ReverseIsWayBack(t: Network, u: nat, arr: int, w: Walk)
    requires WellFormed(t) && Legal(t, u, arr, w)
    ensures var e, r := End(t, u, w), Reverse(t, u, w);
      && Legal(t, e, NO_DRIVER, r)
      && End(t, e, r) == u
      && Reverse(t, e, r) == w
      && Arrival(t, e, NO_DRIVER, r) == (if w == [] then NO_DRIVER else AddrDriver(w[0]))
    decreases w
  {
    if w == [] {
    } else {
      var v, b := Peer(t, u, w[0]), Back(t, u, w[0]);
      var e, r := End(t, v, w[1..]), Reverse(t, v, w[1..]);
      ReverseIsWayBack(t, v, AddrDriver(b), w[1..]);
      Append(t, e, NO_DRIVER, r, [b]);
      assert Across(t, v, b) == Port(u, w[0]);
      assert Reverse(t, v, [b]) == [w[0]];
      assert w == [w[0]] + w[1..];
    }
  }

  lemma LastHop(t: Network, u: nat, arr: int, w: Walk)
    requires w != [] && Legal(t, u, arr, w)
    ensures var p, h := w[..|w| - 1], w[|w| - 1];
      var m := End(t, u, p);
      && w == p + [h]
      && Legal(t, u, arr, p) && ValidHop(t, m, h) && AddrDriver(h) != Arrival(t, u, arr, p)
      && End(t, u, w) == Peer(t, m, h)
      && Reverse(t, u, w) == [Back(t, m, h)] + Reverse(t, u, p)
      && Arrival(t, u, arr, w) == AddrDriver(Back(t, m, h))
  {
    var p, h := w[..|w| - 1], w[|w| - 1];
    assert w == p + [h];
    Append(t, u, arr, p, [h]);
  }

  // Acyclic networks.

  ghost predicate OnCycle(t: Network, u: nat) {
    exists c: Walk :: c != [] && Legal(t, u, NO_DRIVER, c) && End(t, u, c) == u
  }

  /** No legal walk leads from a machine back to itself. */
  ghost predicate Acyclic(t: Network) {
    forall u: nat :: !OnCycle(t, u)
  }

  /** Going out by one walk and back by another closes a cycle when they meet on different drivers. */
  lemma OutAndBack(t: Network, u: nat, p: Walk, q: Walk)
    requires WellFormed(t) && Legal(t, u, NO_DRIVER, p) && Legal(t, u, NO_DRIVER, q)
    requires End(t, u, p) == End(t, u, q) && p != []
    requires q == [] || Arrival(t, u, NO_DRIVER, p) != Arrival(t, u, NO_DRIVER, q)
    ensures OnCycle(t, u)
  {
    var r := Reverse(t, u, q);
    ReverseIsWayBack(t, u, NO_DRIVER, q);
    if q == [] {
    } else {
      LastHop(t, u, NO_DRIVER, q);
      assert Legal(t, End(t, u, q), Arrival(t, u, NO_DRIVER, p), r);
    }
    Append(t, u, NO_DRIVER, p, r);
    assert p + r != [];
  }

  /** The hop across a link between two machines that a third one reaches over it. */
  lemma LinkHop(t: Network, v: nat, b1: byte, b2: byte) returns (g: byte)
    requires LanClosed(t)
    requires ValidHop(t, v, b1) && ValidHop(t, v, b2) && b1 != b2 && AddrDriver(b1) == AddrDriver(b2)
    ensures var m := Peer(t, v, b1);
      && ValidHop(t, m, g) && AddrDriver(g) == AddrDriver(Back(t, v, b1))
      && Peer(t, m, g) == Peer(t, v, b2)
      && AddrDriver(Back(t, m, g)) == AddrDriver(Back(t, v, b2))
  {
    g :| && ValidHop(t, Peer(t, v, b1), g)
         && AddrDriver(g) == AddrDriver(Back(t, v, b1))
         && Peer(t, Peer(t, v, b1), g) == Peer(t, v, b2)
         && AddrDriver(Back(t, Peer(t, v, b1), g)) == AddrDriver(Back(t, v, b2));
  }

  /** Two walks that meet over one link, coming from different machines on it, close a cycle across it. */
  lemma MeetOnLink(t: Network, u: nat, p: Walk, hp: byte, q: Walk, hq: byte)
    requires WellFormed(t) && LanClosed(t)
    requires Legal(t, u, NO_DRIVER, p) && Legal(t, u, NO_DRIVER, q)
    requires var mp, mq := End(t, u, p), End(t, u, q);
      && ValidHop(t, mp, hp) && ValidHop(t, mq, hq)
      && AddrDriver(hp) != Arrival(t, u, NO_DRIVER, p) && AddrDriver(hq) != Arrival(t, u, NO_DRIVER, q)
      && Peer(t, mp, hp) == Peer(t, mq, hq)
      && Back(t, mp, hp) != Back(t, mq, hq) && AddrDriver(Back(t, mp, hp)) == AddrDriver(Back(t, mq, hq))
    ensures OnCycle(t, u)
  {
    var mp, mq := End(t, u, p), End(t, u, q);
    var v, bp, bq := Peer(t, mp, hp), Back(t, mp, hp), Back(t, mq, hq);
    assert Across(t, v, bp) == Port(mp, hp) && Across(t, v, bq) == Port(mq, hq);
    var g := LinkHop(t, v, bp, bq);
    Append(t, u, NO_DRIVER, p, [g]);
    assert Legal(t, mp, Arrival(t, u, NO_DRIVER, p), [g]);
    assert End(t, mp, [g]) == mq;
    OutAndBack(t, u, p + [g], q);
  }

  /** Two different legal walks between the same machines close a cycle, so an acyclic network has
      at most one. The last hops are compared: equal ones are dropped, ones on different drivers
      meet in a cycle, and ones on the same link are short-cut across it. */
  lemma {:induction false} TwoWalksCloseCycle(t: Network, u: nat, p: Walk, q: Walk)
    requires WellFormed(t) && LanClosed(t)
    requires Legal(t, u, NO_DRIVER, p) && Legal(t, u, NO_DRIVER, q)
    requires End(t, u, p) == End(t, u, q) && p != q
    ensures OnCycle(t, u)
    decreases |p|
  {
    if p == [] {
      OutAndBack(t, u, q, p);
    } else if q == [] {
      OutAndBack(t, u, p, q);
    } else {
      LastHop(t, u, NO_DRIVER, p);
      LastHop(t, u, NO_DRIVER, q);
      var p', hp := p[..|p| - 1], p[|p| - 1];
      var q', hq := q[..|q| - 1], q[|q| - 1];
      var mp, mq := End(t, u, p'), End(t, u, q');
      var v := End(t, u, p);
      var bp, bq := Back(t, mp, hp), Back(t, mq, hq);
      assert Across(t, v, bp) == Port(mp, hp) && Across(t, v, bq) == Port(mq, hq);
      if bp == bq {
        TwoWalksCloseCycle(t, u, p', q');
      } else if AddrDriver(bp) != AddrDriver(bq) {
        OutAndBack(t, u, p, q);
      } else {
        MeetOnLink(t, u, p', hp, q', hq);
      }
    }
  }

  lemma UniqueWalk(t: Network, u: nat, p: Walk, q: Walk)
    requires WellFormed(t) && LanClosed(t) && Acyclic(t)
    requires Legal(t, u, NO_DRIVER, p) && Legal(t, u, NO_DRIVER, q) && End(t, u, p) == End(t, u, q)
    ensures p == q
  {
    if p != q { TwoWalksCloseCycle(t, u, p, q); }
  }
}
