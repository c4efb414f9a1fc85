/** Packets travelling through the network: every schedule of arrivals delivers the same things. */
module MetaForwarding {
  import opened Bytes
  import opened Topology
  import opened MetaRouting

  /** A packet about to be read by machine `at`, which sees it as coming from its neighbour `via`. */
  datatype Flight<B> = Flight(at: nat, via: byte, packet: Packet<B>)

  /** Packets on the links, and those already handed to the machines they were for. */
  datatype World<B> = World(flight: seq<Flight<B>>, arrived: seq<Flight<B>>)

  predicate FlightOk<B>(t: Network, f: Flight<B>) { ValidHop(t, f.at, f.via) }

  function Fly<B>(t: Network, u: nat, sends: seq<Send<B>>): (r: seq<Flight<B>>)
    ensures |r| == |sends|
  {
    seq(|sends|, i requires 0 <= i < |sends| =>
      Flight(Peer(t, u, sends[i].hop), Back(t, u, sends[i].hop), sends[i].packet))
  }

  /** What reading the packet `f` puts back on the links. */
  function Onward<B>(t: Network, f: Flight<B>): seq<Flight<B>> {
    if FlightOk(t, f) && ValidConfig(LocalConfig(t, f.at))
    then Fly(t, f.at, ForwardSends(LocalConfig(t, f.at), f.via, f.packet))
    else []
  }

  function Local<B>(f: Flight<B>): seq<Flight<B>> { if IsLocal(f.packet) then [f] else [] }

  function Remove<T>(s: seq<T>, k: nat): seq<T>
    requires k < |s|
  {
    s[..k] + s[k + 1..]
  }

  /** The k-th packet in flight is read by the machine it has reached. */
  function Receive<B>(t: Network, s: World<B>, k: nat): World<B>
    requires k < |s.flight|
  {
    World(Remove(s.flight, k) + Onward(t, s.flight[k]), s.arrived + Local(s.flight[k]))
  }

  /** A schedule picks, at each step, which packet in flight is read next. */
  predicate Schedule<B>(t: Network, s: World<B>, ks: seq<nat>)
    decreases ks
  {
    ks == [] || (ks[0] < |s.flight| && Schedule(t, Receive(t, s, ks[0]), ks[1..]))
  }

  function Run<B>(t: Network, s: World<B>, ks: seq<nat>): World<B>
    requires Schedule(t, s, ks)
    decreases ks
  {
    if ks == [] then s else Run(t, Receive(t, s, ks[0]), ks[1..])
  }

  // Termination.

  /** How many more hops the source address has room for. */
  function Room(src: Addr): nat {
    if src[3] != 0 then 0 else if src[2] != 0 then 1 else if src[1] != 0 then 2 else if src[0] != 0 then 3 else 4
  }

  lemma OnwardHasLessRoom<B>(t: Network, f: Flight<B>, i: nat)
    requires i < |Onward(t, f)|
    ensures Room(Onward(t, f)[i].packet.src) + 1 == Room(f.packet.src)
  {
  }

  lemma OnwardOk<B>(t: Network, f: Flight<B>, i: nat)
    requires WellFormed(t) && i < |Onward(t, f)|
    ensures FlightOk(t, Onward(t, f)[i])
  {
    var c, p := LocalConfig(t, f.at), f.packet;
    if p.dest == BROADCAST {
      var hs := HopsExcept(c, AddrDriver(f.via), |c|);
      assert ForwardSends(c, f.via, p)[i].hop == hs[i];
      ConfigOfNetwork(t, f.at, f.via, hs[i]);
      assert hs[i] in hs;
    } else {
      ConfigOfNetwork(t, f.at, f.via, p.dest[0]);
    }
  }

  function MaxRoom<B>(fs: seq<Flight<B>>): nat {
    if fs == [] then 0
    else if Room(fs[0].packet.src) > MaxRoom(fs[1..]) then Room(fs[0].packet.src) else MaxRoom(fs[1..])
  }

  lemma {:induction false} MaxRoomBound<B>(fs: seq<Flight<B>>, r: nat)
    requires forall i :: 0 <= i < |fs| ==> Room(fs[i].packet.src) < r
    ensures fs == [] || MaxRoom(fs) < r
  {
    if |fs| <= 1 {
    } else {
      MaxRoomBound(fs[1..], r);
    }
  }

  lemma OnwardMaxRoom<B>(t: Network, f: Flight<B>)
    ensures Onward(t, f) == [] || MaxRoom(Onward(t, f)) < Room(f.packet.src)
  {
    forall i | 0 <= i < |Onward(t, f)| ensures Room(Onward(t, f)[i].packet.src) < Room(f.packet.src) {
      OnwardHasLessRoom(t, f, i);
    }
    MaxRoomBound(Onward(t, f), Room(f.packet.src));
  }

  /** The number of reads that `f` and everything forwarded because of it will cause. */
  function Work<B>(t: Network, f: Flight<B>): nat
    decreases Room(f.packet.src)
  {
    OnwardMaxRoom(t, f);
    if Onward(t, f) == [] then 1 else 1 + TotalWork(t, Onward(t, f))
  }

  function TotalWork<B>(t: Network, fs: seq<Flight<B>>): nat
    decreases MaxRoom(fs) + 1, |fs|
  {
    if fs == [] then 0 else Work(t, fs[0]) + TotalWork(t, fs[1..])
  }

  lemma {:induction false} TotalWorkAppend<B>(t: Network, a: seq<Flight<B>>, b: seq<Flight<B>>)
    ensures TotalWork(t, a + b) == TotalWork(t, a) + TotalWork(t, b)
    decreases a
  {
    if a == [] {
      assert a + b == b;
    } else {
      assert (a + b)[1..] == a[1..] + b;
      TotalWorkAppend(t, a[1..], b);
    }
  }

  /** On every topology, cyclic ones included, a schedule can only be as long as the work in flight:
      each read uses up one unit of it, whichever packet is read. */
  lemma {:induction false} ForwardingTerminates<B>(t: Network, s: World<B>, ks: seq<nat>)
    requires Schedule(t, s, ks)
    ensures |ks| + TotalWork(t, Run(t, s, ks).flight) == TotalWork(t, s.flight)
    decreases ks
  {
    if ks == [] {
    } else {
      var k, fs := ks[0], s.flight;
      assert fs == fs[..k] + ([fs[k]] + fs[k + 1..]);
      TotalWorkAppend(t, fs[..k], [fs[k]] + fs[k + 1..]);
      TotalWorkAppend(t, fs[..k], fs[k + 1..]);
      TotalWorkAppend(t, Remove(fs, k), Onward(t, fs[k]));
      assert ([fs[k]] + fs[k + 1..])[1..] == fs[k + 1..];
      ForwardingTerminates(t, Receive(t, s, k), ks[1..]);
    }
  }

  /** With 8 drivers of at most 15 neighbours each, a packet costs at most 1 + f + .. + f^4 reads. */
  const MAX_FANOUT := 120

  function Bound(room: nat): nat {
    if room == 0 then 1 else 1 + MAX_FANOUT * Bound(room - 1)
  }

  lemma OnwardFanout<B>(t: Network, f: Flight<B>)
    ensures |Onward(t, f)| <= MAX_FANOUT
  {
    if FlightOk(t, f) && ValidConfig(LocalConfig(t, f.at)) {
      var c := LocalConfig(t, f.at);
      HopsExceptLength(c, AddrDriver(f.via), |c|);
    }
  }

  lemma {:induction false} WorkBound<B>(t: Network, f: Flight<B>)
    ensures Work(t, f) <= Bound(Room(f.packet.src))
    decreases Room(f.packet.src)
  {
    var fs, r := Onward(t, f), Room(f.packet.src);
    if fs == [] {
    } else {
      OnwardHasLessRoom(t, f, 0);
      forall i | 0 <= i < |fs| ensures Work(t, fs[i]) <= Bound(r - 1) {
        OnwardHasLessRoom(t, f, i);
        WorkBound(t, fs[i]);
      }
      TotalWorkBound(t, fs, Bound(r - 1));
      OnwardFanout(t, f);
      MulMonotone(|fs|, MAX_FANOUT, Bound(r - 1));
    }
  }

  lemma MulMonotone(a: nat, b: nat, c: nat)
    requires a <= b
    ensures a * c <= b * c
  {
  }

  lemma {:induction false} TotalWorkBound<B>(t: Network, fs: seq<Flight<B>>, m: nat)
    requires forall i :: 0 <= i < |fs| ==> Work(t, fs[i]) <= m
    ensures TotalWork(t, fs) <= |fs| * m
  {
    if fs == [] {
    } else {
      TotalWorkBound(t, fs[1..], m);
      OneMore(|fs| - 1, m, TotalWork(t, fs[1..]), Work(t, fs[0]));
    }
  }

  lemma OneMore(n: nat, m: nat, rest: nat, first: nat)
    requires rest <= n * m && first <= m
    ensures first + rest <= (n + 1) * m
  {
  }

  // What arrives.

  /** Everything that will be handed to some machine because of `f`. */
  function Yield<B(==)>(t: Network, f: Flight<B>): multiset<Flight<B>>
    decreases Room(f.packet.src)
  {
    OnwardMaxRoom(t, f);
    multiset(Local(f)) + if Onward(t, f) == [] then multiset{} else YieldAll(t, Onward(t, f))
  }

  function YieldAll<B(==)>(t: Network, fs: seq<Flight<B>>): multiset<Flight<B>>
    decreases MaxRoom(fs) + 1, |fs|
  {
    if fs == [] then multiset{} else Yield(t, fs[0]) + YieldAll(t, fs[1..])
  }

  lemma YieldLocal<B>(t: Network, f: Flight<B>)
    requires IsLocal(f.packet) && Onward(t, f) == []
    ensures Yield(t, f) == multiset{f}
  {
    assert Local(f) == [f];
  }

  lemma YieldVia<B>(t: Network, f: Flight<B>, g: Flight<B>)
    requires !IsLocal(f.packet) && Onward(t, f) == [g]
    ensures Yield(t, f) == Yield(t, g)
  {
    assert Local(f) == [];
    assert YieldAll(t, [g]) == Yield(t, g) + YieldAll(t, []);
  }

  lemma {:induction false} YieldAllAppend<B>(t: Network, a: seq<Flight<B>>, b: seq<Flight<B>>)
    ensures YieldAll(t, a + b) == YieldAll(t, a) + YieldAll(t, b)
    decreases a
  {
    if a == [] {
      assert a + b == b;
    } else {
      assert (a + b)[1..] == a[1..] + b;
      YieldAllAppend(t, a[1..], b);
    }
  }

  function Outcome<B(==)>(t: Network, s: World<B>): multiset<Flight<B>> {
    multiset(s.arrived) + YieldAll(t, s.flight)
  }

  lemma ReceiveKeepsOutcome<B>(t: Network, s: World<B>, k: nat)
    requires k < |s.flight|
    ensures Outcome(t, Receive(t, s, k)) == Outcome(t, s)
  {
    var fs := s.flight;
    assert fs == fs[..k] + ([fs[k]] + fs[k + 1..]);
    YieldAllAppend(t, fs[..k], [fs[k]] + fs[k + 1..]);
    YieldAllAppend(t, fs[..k], fs[k + 1..]);
    YieldAllAppend(t, Remove(fs, k), Onward(t, fs[k]));
    assert ([fs[k]] + fs[k + 1..])[1..] == fs[k + 1..];
  }

  /** However the arrivals interleave, once nothing is left in flight exactly the foretold packets
      have arrived, each as often as foretold. */
  lemma {:induction false} ScheduleDoesNotMatter<B>(t: Network, s: World<B>, ks: seq<nat>)
    requires Schedule(t, s, ks)
    ensures Outcome(t, Run(t, s, ks)) == Outcome(t, s)
    ensures Run(t, s, ks).flight == [] ==>
              multiset(Run(t, s, ks).arrived) == multiset(s.arrived) + YieldAll(t, s.flight)
    decreases ks
  {
    if ks == [] {
    } else {
      ReceiveKeepsOutcome(t, s, ks[0]);
      ScheduleDoesNotMatter(t, Receive(t, s, ks[0]), ks[1..]);
    }
  }
}
