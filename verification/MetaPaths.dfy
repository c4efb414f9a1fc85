/** Where unicast and broadcast packets end up: path reversal, and broadcast reaching everyone once. */
module MetaPaths {
  import opened Bytes
  import opened Counting
  import opened Topology
  import opened MetaRouting
  import opened Sequences
  import opened MetaForwarding

  /** The longest walk an address can spell: a first hop and four address bytes. */
  const MAX_WALK := 5

  function Pad(w: Walk): Addr
    requires |w| <= 4
  {
    w + seq(4 - |w|, i => 0)
  }

  /** The hops an address spells: up to its first zero byte. */
  function Strip(a: Addr): (w: Walk)
    ensures |w| <= 4
  {
    if a[0] == 0 then [] else if a[1] == 0 then a[..1] else if a[2] == 0 then a[..2]
    else if a[3] == 0 then a[..3] else a
  }

  lemma StripPad(w: Walk)
    requires |w| <= 4 && forall i :: 0 <= i < |w| ==> w[i] != 0
    ensures Strip(Pad(w)) == w
  {
    var a := Pad(w);
    assert forall i :: 0 <= i < 4 ==> (a[i] == 0 <==> i >= |w|);
    assert a[..|w|] == w;
  }

  /** The packet sent from `u` along `w + r`, about to be read after travelling `w`. */
  function OnTheWay<B>(t: Network, u: nat, kind: nat, w: Walk, r: Walk, body: B): Flight<B>
    requires w != [] && |w| + |r| <= MAX_WALK
  {
    var back := Reverse(t, u, w);
    Flight(End(t, u, w), back[0], Packet(kind, Pad(back[1..]), Pad(r), body))
  }

  /** The packet a machine hands to its driver for the table entry `p` (first hop, then address). */
  function Launch<B>(t: Network, u: nat, kind: nat, p: Walk, body: B): Flight<B>
    requires p != [] && |p| <= MAX_WALK
  {
    Fly(t, u, [Send(p[0], Packet(kind, NO_HOPS, Pad(p[1..]), body))])[0]
  }

  lemma LaunchIsOnTheWay<B>(t: Network, u: nat, kind: nat, p: Walk, body: B)
    requires p != [] && |p| <= MAX_WALK
    ensures Launch(t, u, kind, p, body) == OnTheWay(t, u, kind, p[..1], p[1..], body)
  {
    assert p[..1] == [p[0]];
    var back := Reverse(t, u, [p[0]]);
    assert back == [Back(t, u, p[0])];
    assert back[1..] == [] && Pad(back[1..]) == NO_HOPS;
    assert End(t, u, [p[0]]) == Peer(t, u, p[0]);
  }

  /** The walk a packet has made is a legal walk; so is the way back. */
  lemma SplitWalk(t: Network, u: nat, w: Walk, r: Walk)
    requires WellFormed(t) && w != [] && Legal(t, u, NO_DRIVER, w + r)
    ensures Legal(t, u, NO_DRIVER, w)
    ensures Legal(t, End(t, u, w), AddrDriver(Reverse(t, u, w)[0]), r)
    ensures ValidHop(t, End(t, u, w), Reverse(t, u, w)[0])
  {
    Append(t, u, NO_DRIVER, w, r);
    LastHop(t, u, NO_DRIVER, w);
  }

  lemma {:induction false} LegalHopsNotZero(t: Network, u: nat, arr: int, w: Walk)
    requires Legal(t, u, arr, w)
    ensures forall i :: 0 <= i < |w| ==> w[i] != 0
    decreases w
  {
    if w == [] {
    } else {
      LegalHopsNotZero(t, Peer(t, u, w[0]), AddrDriver(Back(t, u, w[0])), w[1..]);
    }
  }

  /** A machine reading a unicast packet that is not for itself passes it to the next hop. */
  lemma OnwardUnicast<B>(t: Network, f: Flight<B>)
    requires WellFormed(t) && FlightOk(t, f) && !Full(f.packet.src) && f.packet.dest != BROADCAST
    requires ValidHop(t, f.at, f.packet.dest[0]) && AddrDriver(f.packet.dest[0]) != AddrDriver(f.via)
    ensures var h, p := f.packet.dest[0], f.packet;
      Onward(t, f) == [Flight(Peer(t, f.at, h), Back(t, f.at, h),
                              Packet(p.kind, Prepend(f.via, p.src), p.dest[1..] + [0], p.body))]
  {
    ConfigOfNetwork(t, f.at, f.via, f.packet.dest[0]);
  }

  /** A machine reading a broadcast passes it to every neighbour on its other links. */
  lemma OnwardBroadcast<B>(t: Network, f: Flight<B>)
    requires WellFormed(t) && FlightOk(t, f) && !Full(f.packet.src) && f.packet.dest == BROADCAST
    ensures ValidConfig(LocalConfig(t, f.at))
    ensures var c := LocalConfig(t, f.at);
      Onward(t, f) == Fly(t, f.at, ToEach(HopsExcept(c, AddrDriver(f.via), |c|),
                                          Packet(DATA, Prepend(f.via, f.packet.src), BROADCAST, f.packet.body)))
  {
    ConfigOfNetwork(t, f.at, f.via, 0);
    var c := LocalConfig(t, f.at);
    if |c| < 2 {
      assert HopsExcept(c, 0, 0) == [];
      assert HopsExcept(c, AddrDriver(f.via), |c|) == [];
    }
  }

  lemma WalkExtended(t: Network, u: nat, w: Walk, h: byte)
    requires w != []
    ensures End(t, u, w + [h]) == Peer(t, End(t, u, w), h)
    ensures Reverse(t, u, w + [h]) == [Back(t, End(t, u, w), h)] + Reverse(t, u, w)
  {
    Append(t, u, NO_DRIVER, w, [h]);
    assert Reverse(t, End(t, u, w), [h]) == [Back(t, End(t, u, w), h)];
  }

  lemma PrependPad(back: Walk)
    requires 1 <= |back| <= 4
    ensures Prepend(back[0], Pad(back[1..])) == Pad(back) && !Full(Pad(back[1..]))
  {
  }

  /** Reading a packet at an inner machine of its path sends it one hop on; at the end it stays. */
  lemma PathStep<B>(t: Network, u: nat, kind: nat, w: Walk, r: Walk, body: B)
    requires WellFormed(t) && w != [] && |w| + |r| <= MAX_WALK && Legal(t, u, NO_DRIVER, w + r)
    ensures r == [] ==> var f := OnTheWay(t, u, kind, w, r, body); IsLocal(f.packet) && Onward(t, f) == []
    ensures r != [] ==> var f := OnTheWay(t, u, kind, w, r, body);
      !IsLocal(f.packet) && Onward(t, f) == [OnTheWay(t, u, kind, w + [r[0]], r[1..], body)]
  {
    if r != [] {
      SplitWalk(t, u, w, r);
      WalkExtended(t, u, w, r[0]);
      PrependPad(Reverse(t, u, w));
      assert Pad(r)[1..] + [0] == Pad(r[1..]);
      var f := OnTheWay(t, u, kind, w, r, body);
      assert f.packet.dest[0] == r[0] != 0xff by { assert AddrNode(0xff) == 31; }
      OnwardUnicast(t, f);
      var v, b := Peer(t, f.at, r[0]), Back(t, f.at, r[0]);
      assert ([b] + Reverse(t, u, w))[1..] == Reverse(t, u, w);
    }
  }

  lemma {:induction false} PathYield<B>(t: Network, u: nat, kind: nat, w: Walk, r: Walk, all: Walk, body: B)
    requires WellFormed(t) && w != [] && |all| <= MAX_WALK && Legal(t, u, NO_DRIVER, all) && all == w + r
    ensures Yield(t, OnTheWay(t, u, kind, w, r, body)) == multiset{OnTheWay(t, u, kind, all, [], body)}
    decreases r
  {
    PathStep(t, u, kind, w, r, body);
    var f := OnTheWay(t, u, kind, w, r, body);
    if r == [] {
      NothingAdded(w);
      YieldLocal(t, f);
    } else {
      OneAndRest(r);
      Associative(w, [r[0]], r[1..]);
      PathYield(t, u, kind, w + [r[0]], r[1..], all, body);
      YieldVia(t, f, OnTheWay(t, u, kind, w + [r[0]], r[1..], body));
    }
  }

  /** A packet sent along any path is handed over once, at the path's end and nowhere else, with its
      body unchanged and (arrival hop, source) spelling the reversed path, whatever the schedule; and
      an answer sent to that address comes back to the sender the same way. */
  lemma PathReversal<B>(t: Network, u: nat, kind: nat, p: Walk, body: B, answer: B, ks: seq<nat>)
    requires WellFormed(t) && p != [] && |p| <= MAX_WALK && Legal(t, u, NO_DRIVER, p)
    ensures var e, back := End(t, u, p), Reverse(t, u, p);
      && YieldAll(t, [Launch(t, u, kind, p, body)]) ==
           multiset{Flight(e, back[0], Packet(kind, Pad(back[1..]), NO_HOPS, body))}
      && YieldAll(t, [Launch(t, e, kind, back, answer)]) ==
           multiset{Flight(u, p[0], Packet(kind, Pad(p[1..]), NO_HOPS, answer))}
    ensures var s := World([Launch(t, u, kind, p, body)], []);
      Schedule(t, s, ks) && Run(t, s, ks).flight == [] ==>
        var back := Reverse(t, u, p);
        Run(t, s, ks).arrived == [Flight(End(t, u, p), back[0], Packet(kind, Pad(back[1..]), NO_HOPS, body))]
  {
    OneWay(t, u, kind, p, body);
    ReverseIsWayBack(t, u, NO_DRIVER, p);
    OneWay(t, End(t, u, p), kind, Reverse(t, u, p), answer);
    var s := World([Launch(t, u, kind, p, body)], []);
    if Schedule(t, s, ks) && Run(t, s, ks).flight == [] {
      ScheduleDoesNotMatter(t, s, ks);
      var back := Reverse(t, u, p);
      OneElement(Run(t, s, ks).arrived, Flight(End(t, u, p), back[0], Packet(kind, Pad(back[1..]), NO_HOPS, body)));
    }
  }

  lemma OneWay<B>(t: Network, u: nat, kind: nat, p: Walk, body: B)
    requires WellFormed(t) && p != [] && |p| <= MAX_WALK && Legal(t, u, NO_DRIVER, p)
    ensures var back := Reverse(t, u, p);
      YieldAll(t, [Launch(t, u, kind, p, body)]) ==
        multiset{Flight(End(t, u, p), back[0], Packet(kind, Pad(back[1..]), NO_HOPS, body))}
  {
    LaunchIsOnTheWay(t, u, kind, p, body);
    assert p[..1] + p[1..] == p;
    PathYield(t, u, kind, p[..1], p[1..], p, body);
    var f := Launch(t, u, kind, p, body);
    assert YieldAll(t, [f]) == Yield(t, f) + YieldAll(t, []);
    assert Pad([]) == NO_HOPS;
  }

  lemma OneElement<T>(s: seq<T>, x: T)
    requires multiset(s) == multiset{x}
    ensures s == [x]
  {
    assert |s| == |multiset(s)| == 1;
    assert s == [s[0]];
    assert multiset(s)[s[0]] == 1;
  }

  // Broadcasts.

  /** The copy of u's broadcast that has travelled the walk `w`. */
  function Flooded<B>(t: Network, u: nat, w: Walk, body: B): Flight<B>
    requires w != [] && |w| <= MAX_WALK
  {
    var back := Reverse(t, u, w);
    Flight(End(t, u, w), back[0], Packet(DATA, Pad(back[1..]), BROADCAST, body))
  }

  function FloodedFrom<B>(t: Network, u: nat, w: Walk, hops: seq<byte>, body: B): (r: seq<Flight<B>>)
    requires |w| < MAX_WALK
    ensures |r| == |hops|
  {
    seq(|hops|, i requires 0 <= i < |hops| => Flooded(t, u, w + [hops[i]], body))
  }

  /** What a machine puts on its links when it broadcasts. */
  function BroadcastLaunch<B>(t: Network, u: nat, body: B): seq<Flight<B>>
    requires WellFormed(t) && u < |t.nodes|
  {
    ConfigOfNetwork(t, u, 0, 0);
    Fly(t, u, BroadcastSends(LocalConfig(t, u), NO_DRIVER, NO_HOPS, body))
  }

  /** The hops by which a broadcast that came by `w` leaves again. */
  function HopsFrom(t: Network, u: nat, w: Walk): seq<byte>
    requires WellFormed(t) && Legal(t, u, NO_DRIVER, w) && End(t, u, w) < |t.nodes|
  {
    var v := End(t, u, w);
    ConfigOfNetwork(t, v, 0, 0);
    HopsExcept(LocalConfig(t, v), Arrival(t, u, NO_DRIVER, w), |t.nodes[v]|)
  }

  lemma WalkEndsAtMachine(t: Network, u: nat, w: Walk)
    requires WellFormed(t) && u < |t.nodes| && Legal(t, u, NO_DRIVER, w)
    ensures End(t, u, w) < |t.nodes|
  {
    if w != [] { LastHop(t, u, NO_DRIVER, w); }
  }

  /** They are exactly the hops by which the walk can be continued, each once. */
  lemma HopsFromExtend(t: Network, u: nat, w: Walk, h: byte)
    requires WellFormed(t) && u < |t.nodes| && Legal(t, u, NO_DRIVER, w)
    ensures End(t, u, w) < |t.nodes|
    ensures h in HopsFrom(t, u, w) <==> Legal(t, u, NO_DRIVER, w + [h])
    ensures Distinct(HopsFrom(t, u, w))
  {
    WalkEndsAtMachine(t, u, w);
    var v, arr := End(t, u, w), Arrival(t, u, NO_DRIVER, w);
    Append(t, u, NO_DRIVER, w, [h]);
    ConfigOfNetwork(t, v, 0, h);
    InHopsExcept(LocalConfig(t, v), arr, |t.nodes[v]|, h);
    HopsExceptDistinct(LocalConfig(t, v), arr, |t.nodes[v]|);
    assert Legal(t, v, arr, [h]) <==> ValidHop(t, v, h) && AddrDriver(h) != arr;
  }

  lemma FlyHops<B>(t: Network, u: nat, w: Walk, hops: seq<byte>, body: B, src: Addr)
    requires w == [] ==> src == NO_HOPS
    requires w != [] ==> |w| < MAX_WALK && src == Pad(Reverse(t, u, w))
    ensures Fly(t, End(t, u, w), ToEach(hops, Packet(DATA, src, BROADCAST, body))) == FloodedFrom(t, u, w, hops, body)
  {
    var v := End(t, u, w);
    forall i | 0 <= i < |hops|
      ensures Flight(Peer(t, v, hops[i]), Back(t, v, hops[i]), Packet(DATA, src, BROADCAST, body))
           == Flooded(t, u, w + [hops[i]], body)
    {
      Append(t, u, NO_DRIVER, w, [hops[i]]);
      assert Reverse(t, v, [hops[i]]) == [Back(t, v, hops[i])];
      assert Reverse(t, u, w + [hops[i]])[1..] == Reverse(t, u, w);
    }
  }

  /** A machine passes a broadcast on along every continuation of its walk, up to five hops. */
  lemma FloodStep<B>(t: Network, u: nat, w: Walk, body: B)
    requires WellFormed(t) && u < |t.nodes| && Legal(t, u, NO_DRIVER, w) && w != [] && |w| <= MAX_WALK
    ensures End(t, u, w) < |t.nodes|
    ensures var f := Flooded(t, u, w, body);
      && IsLocal(f.packet)
      && Onward(t, f) == if |w| < MAX_WALK then FloodedFrom(t, u, w, HopsFrom(t, u, w), body) else []
  {
    WalkEndsAtMachine(t, u, w);
    LastHop(t, u, NO_DRIVER, w);
    ReverseIsWayBack(t, u, NO_DRIVER, w);
    var v, back := End(t, u, w), Reverse(t, u, w);
    LegalHopsNotZero(t, v, NO_DRIVER, back);
    var f := Flooded(t, u, w, body);
    if |w| < MAX_WALK {
      PrependPad(back);
      OnwardBroadcast(t, f);
      assert HopsExcept(LocalConfig(t, v), AddrDriver(f.via), |LocalConfig(t, v)|) == HopsFrom(t, u, w);
      FlyHops(t, u, w, HopsFrom(t, u, w), body, Pad(back));
    } else {
      assert f.packet.src[3] == back[4] != 0;
      assert Full(f.packet.src);
    }
  }

  lemma BroadcastLaunchIsFlood<B>(t: Network, u: nat, body: B)
    requires WellFormed(t) && u < |t.nodes|
    ensures BroadcastLaunch(t, u, body) == FloodedFrom(t, u, [], HopsFrom(t, u, []), body)
  {
    ConfigOfNetwork(t, u, 0, 0);
    FlyHops(t, u, [], HopsFrom(t, u, []), body, NO_HOPS);
  }

  /** Different walks give different copies. */
  lemma FloodedInjective<B>(t: Network, u: nat, w: Walk, x: Walk, body: B)
    requires WellFormed(t) && Legal(t, u, NO_DRIVER, w) && Legal(t, u, NO_DRIVER, x)
    requires 1 <= |w| <= MAX_WALK && 1 <= |x| <= MAX_WALK
    requires Flooded(t, u, w, body) == Flooded(t, u, x, body)
    ensures w == x
  {
    ReverseIsWayBack(t, u, NO_DRIVER, w);
    ReverseIsWayBack(t, u, NO_DRIVER, x);
    var bw, bx := Reverse(t, u, w), Reverse(t, u, x);
    LegalHopsNotZero(t, End(t, u, w), NO_DRIVER, bw);
    LegalHopsNotZero(t, End(t, u, x), NO_DRIVER, bx);
    StripPad(bw[1..]);
    StripPad(bx[1..]);
    assert bw == [bw[0]] + bw[1..] && bx == [bx[0]] + bx[1..];
  }

  predicate Extends(w: Walk, x: Walk) { |w| <= |x| && x[..|w|] == w }

  /** The copies a flood leads to: one for each legal continuation of the walk, and no others. */
  lemma {:induction false} FloodCount<B>(t: Network, u: nat, w: Walk, x: Walk, body: B)
    requires WellFormed(t) && u < |t.nodes| && Legal(t, u, NO_DRIVER, w) && Legal(t, u, NO_DRIVER, x)
    requires 1 <= |w| <= MAX_WALK && 1 <= |x| <= MAX_WALK
    ensures Yield(t, Flooded(t, u, w, body))[Flooded(t, u, x, body)] == if Extends(w, x) then 1 else 0
    decreases MAX_WALK - |w|, 2
  {
    FloodStep(t, u, w, body);
    var f, g := Flooded(t, u, w, body), Flooded(t, u, x, body);
    if f == g { FloodedInjective(t, u, w, x, body); }
    assert x[..|x|] == x;
    YieldCount(t, f, g);
    if |w| < MAX_WALK {
      var hops := HopsFrom(t, u, w);
      forall h | h in hops ensures Legal(t, u, NO_DRIVER, w + [h]) { HopsFromExtend(t, u, w, h); }
      HopsFromExtend(t, u, w, 0);
      FloodCountHops(t, u, w, hops, x, body);
      if Extends(w, x) && x != w { FirstStep(t, u, w, x); }
    }
  }

  lemma YieldCount<B>(t: Network, f: Flight<B>, g: Flight<B>)
    requires IsLocal(f.packet)
    ensures Yield(t, f)[g] == (if f == g then 1 else 0) + YieldAll(t, Onward(t, f))[g]
  {
  }

  /** A walk that properly extends w continues it by one of the hops on offer. */
  lemma FirstStep(t: Network, u: nat, w: Walk, x: Walk)
    requires WellFormed(t) && u < |t.nodes| && Legal(t, u, NO_DRIVER, w) && Legal(t, u, NO_DRIVER, x)
    requires Extends(w, x) && x != w
    ensures End(t, u, w) < |t.nodes| && |w| < |x| && x[|w|] in HopsFrom(t, u, w)
  {
    assert x[..|x|] == x;
    var h := x[|w|];
    assert x == (w + [h]) + x[|w| + 1..];
    Append(t, u, NO_DRIVER, w + [h], x[|w| + 1..]);
    HopsFromExtend(t, u, w, h);
  }

  lemma {:induction false} FloodCountHops<B>(t: Network, u: nat, w: Walk, hops: seq<byte>, x: Walk, body: B)
    requires WellFormed(t) && u < |t.nodes| && |w| < MAX_WALK && Legal(t, u, NO_DRIVER, x) && 1 <= |x| <= MAX_WALK
    requires Distinct(hops) && forall h :: h in hops ==> Legal(t, u, NO_DRIVER, w + [h])
    ensures YieldAll(t, FloodedFrom(t, u, w, hops, body))[Flooded(t, u, x, body)] ==
            if Extends(w, x) && |x| > |w| && x[|w|] in hops then 1 else 0
    decreases MAX_WALK - |w|, 1, hops
  {
    if hops == [] {
    } else {
      NotAgain(hops);
      FloodedCons(t, u, w, hops, body, Flooded(t, u, x, body));
      FloodCountFirst(t, u, w, hops[0], x, body);
      FloodCountHops(t, u, w, hops[1..], x, body);
    }
  }

  lemma FloodCountFirst<B>(t: Network, u: nat, w: Walk, h: byte, x: Walk, body: B)
    requires WellFormed(t) && u < |t.nodes| && |w| < MAX_WALK && Legal(t, u, NO_DRIVER, x) && 1 <= |x| <= MAX_WALK
    requires Legal(t, u, NO_DRIVER, w + [h])
    ensures Yield(t, Flooded(t, u, w + [h], body))[Flooded(t, u, x, body)] ==
            if Extends(w, x) && |x| > |w| && x[|w|] == h then 1 else 0
    decreases MAX_WALK - |w|, 0
  {
    FloodCount(t, u, w + [h], x, body);
    ExtendsByOne(w, h, x);
  }

  lemma NotAgain(hops: seq<byte>)
    requires Distinct(hops) && hops != []
    ensures hops[0] !in hops[1..] && Distinct(hops[1..])
    ensures forall h :: h in hops <==> h == hops[0] || h in hops[1..]
  {
    assert forall i :: 0 <= i < |hops[1..]| ==> hops[1..][i] == hops[i + 1] != hops[0];
    assert hops == [hops[0]] + hops[1..];
  }

  lemma FloodedCons<B>(t: Network, u: nat, w: Walk, hops: seq<byte>, body: B, g: Flight<B>)
    requires |w| < MAX_WALK && hops != []
    ensures YieldAll(t, FloodedFrom(t, u, w, hops, body))[g] ==
            Yield(t, Flooded(t, u, w + [hops[0]], body))[g] + YieldAll(t, FloodedFrom(t, u, w, hops[1..], body))[g]
  {
    var fs := FloodedFrom(t, u, w, hops, body);
    assert fs[1..] == FloodedFrom(t, u, w, hops[1..], body);
    assert YieldAll(t, fs) == Yield(t, fs[0]) + YieldAll(t, fs[1..]);
  }

  lemma ExtendsByOne(w: Walk, h: byte, x: Walk)
    ensures Extends(w + [h], x) <==> Extends(w, x) && |x| > |w| && x[|w|] == h
  {
    if |x| > |w| { assert x[..|w| + 1] == x[..|w|] + [x[|w|]]; }
  }

  /** Nothing but copies of the broadcast arrives. */
  lemma {:induction false} FloodSound<B>(t: Network, u: nat, w: Walk, body: B, g: Flight<B>) returns (x: Walk)
    requires WellFormed(t) && u < |t.nodes| && Legal(t, u, NO_DRIVER, w) && 1 <= |w| <= MAX_WALK
    requires g in Yield(t, Flooded(t, u, w, body))
    ensures 1 <= |x| <= MAX_WALK && Legal(t, u, NO_DRIVER, x) && g == Flooded(t, u, x, body)
    decreases MAX_WALK - |w|, 1
  {
    FloodStep(t, u, w, body);
    if g == Flooded(t, u, w, body) {
      x := w;
    } else {
      var hops := HopsFrom(t, u, w);
      forall h | h in hops ensures Legal(t, u, NO_DRIVER, w + [h]) { HopsFromExtend(t, u, w, h); }
      x := FloodSoundHops(t, u, w, hops, body, g);
    }
  }

  lemma {:induction false} FloodSoundHops<B>(t: Network, u: nat, w: Walk, hops: seq<byte>, body: B, g: Flight<B>)
    returns (x: Walk)
    requires WellFormed(t) && u < |t.nodes| && |w| < MAX_WALK
    requires forall h :: h in hops ==> Legal(t, u, NO_DRIVER, w + [h])
    requires g in YieldAll(t, FloodedFrom(t, u, w, hops, body))
    ensures 1 <= |x| <= MAX_WALK && Legal(t, u, NO_DRIVER, x) && g == Flooded(t, u, x, body)
    decreases MAX_WALK - |w|, 0, hops
  {
    var fs := FloodedFrom(t, u, w, hops, body);
    assert fs[1..] == FloodedFrom(t, u, w, hops[1..], body);
    assert YieldAll(t, fs) == Yield(t, fs[0]) + YieldAll(t, fs[1..]);
    assert hops[0] in hops;
    if g in Yield(t, fs[0]) {
      x := FloodSound(t, u, w + [hops[0]], body, g);
    } else {
      x := FloodSoundHops(t, u, w, hops[1..], body, g);
    }
  }

  /** On every topology a broadcast arrives once for each legal walk of one to five hops from its
      sender, carrying that walk reversed, and in no other way. */
  lemma BroadcastFollowsWalks<B>(t: Network, u: nat, body: B)
    requires WellFormed(t) && u < |t.nodes|
    ensures var y := YieldAll(t, BroadcastLaunch(t, u, body));
      && (forall x: Walk :: 1 <= |x| <= MAX_WALK && Legal(t, u, NO_DRIVER, x) ==> y[Flooded(t, u, x, body)] == 1)
      && (forall g :: g in y ==> exists x: Walk ::
            1 <= |x| <= MAX_WALK && Legal(t, u, NO_DRIVER, x) && g == Flooded(t, u, x, body))
  {
    BroadcastLaunchIsFlood(t, u, body);
    var hops, y := HopsFrom(t, u, []), YieldAll(t, BroadcastLaunch(t, u, body));
    forall h | h in hops ensures Legal(t, u, NO_DRIVER, [] + [h]) { HopsFromExtend(t, u, [], h); }
    HopsFromExtend(t, u, [], 0);
    forall x: Walk | 1 <= |x| <= MAX_WALK && Legal(t, u, NO_DRIVER, x) ensures y[Flooded(t, u, x, body)] == 1 {
      FirstStep(t, u, [], x);
      FloodCountHops(t, u, [], hops, x, body);
    }
    forall g | g in y ensures exists x: Walk ::
        1 <= |x| <= MAX_WALK && Legal(t, u, NO_DRIVER, x) && g == Flooded(t, u, x, body) {
      var x := FloodSoundHops(t, u, [], hops, body, g);
    }
  }

  predicate Reachable(t: Network, u: nat, v: nat, x: Walk) {
    1 <= |x| <= MAX_WALK && Legal(t, u, NO_DRIVER, x) && End(t, u, x) == v
  }

  /** `g` is u's broadcast come by the walk `x`; apart from its destination field it is what a unicast
      from u to that machine would have delivered. */
  ghost predicate CopyOf<B>(t: Network, u: nat, body: B, x: Walk, g: Flight<B>) {
    && Reachable(t, u, g.at, x)
    && g == Flooded(t, u, x, body)
    && YieldAll(t, [Launch(t, u, DATA, x, body)]) == multiset{g.(packet := g.packet.(dest := NO_HOPS))}
  }

  lemma ArrivedCopy<B>(t: Network, u: nat, body: B, arrived: seq<Flight<B>>, i: nat) returns (x: Walk)
    requires WellFormed(t) && u < |t.nodes| && i < |arrived|
    requires multiset(arrived) == YieldAll(t, BroadcastLaunch(t, u, body))
    ensures CopyOf(t, u, body, x, arrived[i])
  {
    BroadcastFollowsWalks(t, u, body);
    assert arrived[i] in multiset(arrived);
    x :| 1 <= |x| <= MAX_WALK && Legal(t, u, NO_DRIVER, x) && arrived[i] == Flooded(t, u, x, body);
    OneWay(t, u, DATA, x, body);
  }

  lemma ArrivedApart<B>(t: Network, u: nat, body: B, arrived: seq<Flight<B>>, i: nat, j: nat)
    requires WellFormed(t) && LanClosed(t) && Acyclic(t) && u < |t.nodes| && i < j < |arrived|
    requires multiset(arrived) == YieldAll(t, BroadcastLaunch(t, u, body))
    ensures arrived[i].at != arrived[j].at
  {
    var x := ArrivedCopy(t, u, body, arrived, i);
    var z := ArrivedCopy(t, u, body, arrived, j);
    if arrived[i].at == arrived[j].at {
      UniqueWalk(t, u, x, z);
      TwiceInMultiset(arrived, i, j);
      BroadcastFollowsWalks(t, u, body);
      assert false;
    }
  }

  /** Every machine within five links has u's broadcast exactly once, u itself never, and each copy
      carries the receiver's own path back to u. */
  ghost predicate EveryoneHasItOnce<B>(t: Network, u: nat, body: B, arrived: seq<Flight<B>>) {
    && (forall i, j :: 0 <= i < j < |arrived| ==> arrived[i].at != arrived[j].at)
    && (forall i :: 0 <= i < |arrived| ==> arrived[i].at != u && exists x: Walk :: CopyOf(t, u, body, x, arrived[i]))
    && (forall v: nat, x: Walk :: Reachable(t, u, v, x) ==> Flooded(t, u, x, body) in arrived)
  }

  lemma ArrivedEverywhere<B>(t: Network, u: nat, body: B, arrived: seq<Flight<B>>)
    requires WellFormed(t) && LanClosed(t) && Acyclic(t) && u < |t.nodes|
    requires multiset(arrived) == YieldAll(t, BroadcastLaunch(t, u, body))
    ensures EveryoneHasItOnce(t, u, body, arrived)
  {
    forall i | 0 <= i < |arrived|
      ensures arrived[i].at != u && exists x: Walk :: CopyOf(t, u, body, x, arrived[i])
    {
      var x := ArrivedCopy(t, u, body, arrived, i);
      assert !OnCycle(t, u);
    }
    forall i, j | 0 <= i < j < |arrived| ensures arrived[i].at != arrived[j].at {
      ArrivedApart(t, u, body, arrived, i, j);
    }
    forall v: nat, x: Walk | Reachable(t, u, v, x) ensures Flooded(t, u, x, body) in arrived {
      BroadcastFollowsWalks(t, u, body);
      assert Flooded(t, u, x, body) in multiset(arrived);
    }
  }

  /** Whatever the schedule, a broadcast on an acyclic network ends with everyone having it once. */
  lemma BroadcastReachesEveryoneOnce<B>(t: Network, u: nat, body: B, s: World<B>, ks: seq<nat>)
    requires WellFormed(t) && LanClosed(t) && Acyclic(t) && u < |t.nodes|
    requires s == World(BroadcastLaunch(t, u, body), [])
    requires Schedule(t, s, ks) && Run(t, s, ks).flight == []
    ensures EveryoneHasItOnce(t, u, body, Run(t, s, ks).arrived)
  {
    ScheduleDoesNotMatter(t, s, ks);
    assert multiset(s.arrived) == multiset{};
    ArrivedEverywhere(t, u, body, Run(t, s, ks).arrived);
  }

  lemma TwiceInMultiset<T>(s: seq<T>, i: nat, j: nat)
    requires i < j < |s| && s[i] == s[j]
    ensures multiset(s)[s[i]] >= 2
  {
    assert s == s[..i] + [s[i]] + s[i + 1..j] + [s[j]] + s[j + 1..];
  }
}
