/** The whole network running: machines announcing themselves, forwarding, and delivering data, with
    packets lost, repeated and overtaken at will. In every run the tables stay sound. */
module MetaDiscovery {
  import opened Bytes
  import opened DoomNet
  import opened Topology
  import opened MetaRouting
  import opened MetaForwarding
  import opened MetaPaths
  import opened MetaTable

  /** `origin` is for the proof only: who made the packet. It is not on the wire. */
  datatype Body = Data(origin: nat, bytes: seq<byte>) | Discover(origin: nat, a: Announcement)

  datatype Delivery = Delivery(remote: int, origin: nat, bytes: seq<byte>)

  datatype Machine = Machine(table: Table, inbox: seq<Delivery>)

  datatype State = State(machines: seq<Machine>, flight: seq<Flight<Body>>, sent: set<(nat, seq<byte>)>)

  datatype Step =
    | Announce(u: nat, i: nat)
    | SendTo(u: nat, i: nat, bytes: seq<byte>)
    | SendToAll(u: nat, bytes: seq<byte>)
    | Quit(u: nat)
    | MarkReady(u: nat)
    | MarkLaunched(u: nat)
    | Read(k: nat)
    | Lose(k: nat)
    | Repeat(k: nat)

  function Start(t: Network, ids: seq<Identity>): State
    requires WellFormed(t) && |ids| == |t.nodes|
  {
    State(seq(|t.nodes|, u requires 0 <= u < |t.nodes| =>
      Machine(InitNodes(Config(t, u), ids[u]), [])), [], {})
  }

  /** A packet for a table entry, handed to the driver of its first hop. */
  function ToEntry(e: NodeData, kind: nat, body: Body): Send<Body> {
    Send(e.firstHop, Packet(kind, NO_HOPS, e.addr, body))
  }

  function SendDiscover(u: nat, table: Table, config: seq<nat>, e: NodeData): Send<Body>
    requires table != [] && ValidConfig(config)
  {
    ToEntry(e, DISCOVER, Discover(u, AnnouncementFor(table, config, e.firstHop)))
  }

  /** What the machine does with a packet that is for itself, and what it answers. */
  function Handle(u: nat, m: Machine, config: seq<nat>, via: byte, p: Packet<Body>): (Machine, seq<Send<Body>>)
    requires m.table != [] && ValidConfig(config)
  {
    if p.kind == DATA && p.body.Data? then
      var remote := NodeForAddr(m.table, via, p.src);
      (if remote < 0 then m else m.(inbox := m.inbox + [Delivery(remote, p.body.origin, p.body.bytes)]), [])
    else if p.kind == DISCOVER && p.body.Discover? then
      var table := HandleDiscover(m.table, via, p.src, p.body.a);
      var i := NodeForAddr(table, via, p.src);
      (m.(table := table),
       if AnswersOnly(m.table, p.body.a) && i >= 0 && table != [] then [SendDiscover(u, table, config, table[i])] else [])
    else if p.kind == QUIT then (m.(table := NodeQuit(m.table, via, p.src)), [])
    else (m, [])
  }

  predicate AllAnnounced(table: Table) {
    forall i :: 0 <= i < |table| ==> table[i].flags.gotDiscover
  }

  ghost predicate Shape(t: Network, s: State) {
    && WellFormed(t) && |s.machines| == |t.nodes|
    && (forall u :: 0 <= u < |s.machines| ==> s.machines[u].table != [])
  }

  predicate Launched(s: State, u: nat)
    requires u < |s.machines|
  {
    s.machines[u].table != [] && s.machines[u].table[0].flags.launched
  }

  /** A machine announces itself until it launches, and it launches once it has been ready. */
  predicate Enabled(t: Network, s: State, step: Step) {
    match step
    case Announce(u, i) => u < |s.machines| && 1 <= i < |s.machines[u].table| && !Launched(s, u)
    case SendTo(u, i, _) => u < |s.machines| && 1 <= i < |s.machines[u].table|
    case SendToAll(u, _) => u < |s.machines|
    case Quit(u) => u < |s.machines|
    case MarkReady(u) => u < |s.machines| && AllAnnounced(s.machines[u].table)
    case MarkLaunched(u) => u < |s.machines| && s.machines[u].table != [] && s.machines[u].table[0].flags.ready
    case Read(k) => k < |s.flight| && s.flight[k].at < |s.machines|
    case Lose(k) => k < |s.flight|
    case Repeat(k) => k < |s.flight|
  }

  function Config(t: Network, u: nat): (c: seq<nat>)
    requires WellFormed(t) && u < |t.nodes|
    ensures ValidConfig(c) && c == LocalConfig(t, u)
  {
    ConfigOfNetwork(t, u, 0, 0);
    LocalConfig(t, u)
  }

  /** A machine that quits tells each of its neighbours. The message has no contents, and where it is passed on
      it becomes a broadcast of no data. */
  function QuitLaunch(t: Network, u: nat): seq<Flight<Body>>
    requires WellFormed(t) && u < |t.nodes|
  {
    var c := Config(t, u);
    Fly(t, u, ToEach(HopsExcept(c, NO_DRIVER, |c|), Packet(QUIT, NO_HOPS, BROADCAST, Data(u, []))))
  }

  function Launches(s: State, more: seq<Flight<Body>>): State { s.(flight := s.flight + more) }

  function SetOwnFlags(s: State, u: nat, flags: Flags): State
    requires u < |s.machines| && s.machines[u].table != []
  {
    var m := s.machines[u];
    s.(machines := s.machines[u := m.(table := m.table[0 := m.table[0].(flags := flags)])])
  }

  function ReadBy(t: Network, s: State, k: nat): State
    requires Shape(t, s) && k < |s.flight| && s.flight[k].at < |s.machines|
  {
    var f := s.flight[k];
    var u := f.at;
    var (m, answers) := if IsLocal(f.packet) then Handle(u, s.machines[u], Config(t, u), f.via, f.packet)
                        else (s.machines[u], []);
    s.(machines := s.machines[u := m], flight := Remove(s.flight, k) + Onward(t, f) + Fly(t, u, answers))
  }

  function Next(t: Network, s: State, step: Step): State
    requires Shape(t, s) && Enabled(t, s, step)
  {
    match step
    case Announce(u, i) =>
      var table := s.machines[u].table;
      Launches(s, Fly(t, u, [SendDiscover(u, table, Config(t, u), table[i])]))
    case SendTo(u, i, bytes) =>
      Launches(s, Fly(t, u, [ToEntry(s.machines[u].table[i], DATA, Data(u, bytes))])).(sent := s.sent + {(u, bytes)})
    case SendToAll(u, bytes) =>
      Launches(s, BroadcastLaunch(t, u, Data(u, bytes))).(sent := s.sent + {(u, bytes)})
    case Quit(u) => Launches(s, QuitLaunch(t, u)).(sent := s.sent + {(u, [])})
    case MarkReady(u) => SetOwnFlags(s, u, s.machines[u].table[0].flags.(ready := true))
    case MarkLaunched(u) => SetOwnFlags(s, u, s.machines[u].table[0].flags.(launched := true))
    case Read(k) => ReadBy(t, s, k)
    case Lose(k) => s.(flight := Remove(s.flight, k))
    case Repeat(k) => s.(flight := s.flight + [s.flight[k]])
  }

  // The invariant.

  /** The walk a packet's (arrival hop, source) pair spells leads back to the machine that made it. */
  ghost predicate PacketOk(t: Network, ids: seq<Identity>, sent: set<(nat, seq<byte>)>, f: Flight<Body>) {
    var back := [f.via] + Strip(f.packet.src);
    && f.at < |ids| && Padded(f.packet.src)
    && Legal(t, f.at, NO_DRIVER, back)
    && End(t, f.at, back) == f.packet.body.origin < |ids|
    && (f.packet.body.Discover? ==>
          AnnouncementOk(t, ids, f.at, back, f.packet.body.a) && |f.packet.body.a.neighbors| <= MAXNETNODES)
    && (f.packet.body.Data? ==> (f.packet.body.origin, f.packet.body.bytes) in sent)
  }

  /** Data is handed up under the entry that leads to the machine which really sent it. */
  ghost predicate DeliveryOk(t: Network, u: nat, table: Table, sent: set<(nat, seq<byte>)>, d: Delivery) {
    && 1 <= d.remote < |table|
    && End(t, u, Path(table[d.remote])) == d.origin
    && (d.origin, d.bytes) in sent
  }

  ghost predicate Inv(t: Network, ids: seq<Identity>, s: State) {
    && WellFormed(t) && |s.machines| == |t.nodes| == |ids|
    && (forall u :: 0 <= u < |ids| ==> TableOk(t, ids, u, s.machines[u].table))
    && (forall u, i :: 0 <= u < |ids| && 0 <= i < |s.machines[u].inbox| ==>
          DeliveryOk(t, u, s.machines[u].table, s.sent, s.machines[u].inbox[i]))
    && (forall k :: 0 <= k < |s.flight| ==> PacketOk(t, ids, s.sent, s.flight[k]))
  }

  lemma PrependWalk(t: Network, v: nat, h: byte, u: nat, via: byte, w: Walk)
    requires ValidHop(t, v, h) && Peer(t, v, h) == u && AddrDriver(Back(t, v, h)) != AddrDriver(via)
    requires Legal(t, u, NO_DRIVER, [via] + w)
    ensures Legal(t, v, NO_DRIVER, [h] + ([via] + w)) && End(t, v, [h] + ([via] + w)) == End(t, u, [via] + w)
  {
    assert ([h] + ([via] + w))[1..] == [via] + w;
    assert ([via] + w)[1..] == w;
  }

  lemma StripPrepend(via: byte, src: Addr)
    requires via != 0 && Padded(src) && !Full(src)
    ensures Padded(Prepend(via, src)) && Strip(Prepend(via, src)) == [via] + Strip(src)
  {
    var w := [via] + Strip(src);
    assert forall i :: 0 <= i < |w| ==> w[i] != 0;
    assert Prepend(via, src) == Pad(w);
    PaddedPad(w);
  }

  /** A packet is passed on over another link, with the hop it came by put in front of its source. */
  lemma PassedOn(t: Network, f: Flight<Body>, i: nat)
    requires WellFormed(t) && i < |Onward(t, f)|
    ensures !Full(f.packet.src) && FlightOk(t, f)
    ensures var g := Onward(t, f)[i];
      && g.packet.src == Prepend(f.via, f.packet.src) && g.packet.body == f.packet.body
      && g.at < |t.nodes| && ValidHop(t, g.at, g.via) && Peer(t, g.at, g.via) == f.at
      && AddrDriver(Back(t, g.at, g.via)) != AddrDriver(f.via)
  {
    var p, c, g := f.packet, LocalConfig(t, f.at), Onward(t, f)[i];
    var h := ForwardSends(c, f.via, p)[i].hop;
    ConfigOfNetwork(t, f.at, f.via, h);
    if p.dest == BROADCAST { assert h in HopsExcept(c, AddrDriver(f.via), |c|); }
    assert ValidHop(t, f.at, h) && AddrDriver(h) != AddrDriver(f.via);
    assert Across(t, g.at, g.via) == Port(f.at, h);
  }

  /** So it still spells the way back to its maker. */
  lemma PassedOnOk(t: Network, ids: seq<Identity>, sent: set<(nat, seq<byte>)>, f: Flight<Body>, i: nat)
    requires WellFormed(t) && |ids| == |t.nodes| && PacketOk(t, ids, sent, f) && i < |Onward(t, f)|
    ensures PacketOk(t, ids, sent, Onward(t, f)[i])
  {
    PassedOn(t, f, i);
    var g, back := Onward(t, f)[i], [f.via] + Strip(f.packet.src);
    StripPrepend(f.via, f.packet.src);
    PrependWalk(t, g.at, g.via, f.at, f.via, Strip(f.packet.src));
    if f.packet.body.Discover? {
      PassedAnnouncementOk(t, ids, f.at, f.via, Strip(f.packet.src), g.at, g.via, f.packet.body.a);
    }
  }

  lemma PassedAnnouncementOk(t: Network, ids: seq<Identity>, u: nat, via: byte, w: Walk, v: nat, h: byte, a: Announcement)
    requires AnnouncementOk(t, ids, u, [via] + w, a)
    requires ValidHop(t, v, h) && Peer(t, v, h) == u && AddrDriver(Back(t, v, h)) != AddrDriver(via)
    ensures AnnouncementOk(t, ids, v, [h] + ([via] + w), a)
  {
    PrependWalk(t, v, h, u, via, w);
    forall n | n in a.neighbors ensures Legal(t, v, NO_DRIVER, [h] + ([via] + w) + [n]) {
      assert [via] + w + [n] == [via] + (w + [n]);
      PrependWalk(t, v, h, u, via, w + [n]);
      assert [h] + ([via] + w) + [n] == [h] + ([via] + (w + [n]));
    }
  }

  /** A packet just handed to a driver spells the one hop back. */
  lemma LaunchedOk(t: Network, u: nat, h: byte)
    requires WellFormed(t) && ValidHop(t, u, h)
    ensures var v, b := Peer(t, u, h), Back(t, u, h);
      && Legal(t, v, NO_DRIVER, [b]) && End(t, v, [b]) == u && v < |t.nodes|
      && (forall n: byte :: Legal(t, v, NO_DRIVER, [b] + [n]) <==> ValidHop(t, u, n) && AddrDriver(n) != AddrDriver(h))
      && Strip(NO_HOPS) == [] && [b] + [] == [b]
  {
    var v, b := Peer(t, u, h), Back(t, u, h);
    assert Across(t, v, b) == Port(u, h);
    assert [b][1..] == [];
    forall n: byte ensures Legal(t, v, NO_DRIVER, [b] + [n]) <==> ValidHop(t, u, n) && AddrDriver(n) != AddrDriver(h) {
      Append(t, v, NO_DRIVER, [b], [n]);
      assert Arrival(t, v, NO_DRIVER, [b]) == AddrDriver(h);
      assert Legal(t, u, AddrDriver(h), [n]) <==> ValidHop(t, u, n) && AddrDriver(n) != AddrDriver(h);
    }
  }

  /** The neighbours announced over a hop are among those that can be reached by going on. */
  lemma AnnouncedHops(t: Network, u: nat, h: byte, n: byte)
    requires WellFormed(t) && u < |t.nodes|
    ensures |Announced(Config(t, u), h)| <= MAXNETNODES
    ensures n in Announced(Config(t, u), h) ==> ValidHop(t, u, n) && AddrDriver(n) != AddrDriver(h)
  {
    ConfigOfNetwork(t, u, h, n);
  }

  lemma SendDiscoverOk(t: Network, ids: seq<Identity>, sent: set<(nat, seq<byte>)>, u: nat, table: Table, e: NodeData)
    requires WellFormed(t) && |ids| == |t.nodes| && TableOk(t, ids, u, table) && EntryOk(t, ids, u, e)
    ensures PacketOk(t, ids, sent, Fly(t, u, [SendDiscover(u, table, Config(t, u), e)])[0])
  {
    assert Path(e)[0] == e.firstHop;
    LaunchedOk(t, u, e.firstHop);
    var a := AnnouncementFor(table, Config(t, u), e.firstHop);
    AnnouncedHops(t, u, e.firstHop, 0);
    var v, b := Peer(t, u, e.firstHop), Back(t, u, e.firstHop);
    forall n | n in a.neighbors ensures Legal(t, v, NO_DRIVER, [b] + [n]) { AnnouncedHops(t, u, e.firstHop, n); }
  }

  lemma DataToEntryOk(t: Network, ids: seq<Identity>, sent: set<(nat, seq<byte>)>, u: nat, e: NodeData, bytes: seq<byte>)
    requires WellFormed(t) && u < |ids| == |t.nodes| && EntryOk(t, ids, u, e) && (u, bytes) in sent
    ensures PacketOk(t, ids, sent, Fly(t, u, [ToEntry(e, DATA, Data(u, bytes))])[0])
  {
    assert Path(e)[0] == e.firstHop;
    LaunchedOk(t, u, e.firstHop);
  }

  lemma BroadcastOk(t: Network, ids: seq<Identity>, sent: set<(nat, seq<byte>)>, u: nat, bytes: seq<byte>, i: nat)
    requires WellFormed(t) && u < |ids| == |t.nodes| && (u, bytes) in sent
    requires i < |BroadcastLaunch(t, u, Data(u, bytes))|
    ensures PacketOk(t, ids, sent, BroadcastLaunch(t, u, Data(u, bytes))[i])
  {
    var hops := HopsExcept(Config(t, u), NO_DRIVER, |Config(t, u)|);
    InHopsExcept(Config(t, u), NO_DRIVER, |Config(t, u)|, hops[i]);
    assert hops[i] in hops;
    assert ValidHop(t, u, hops[i]);
    LaunchedOk(t, u, hops[i]);
  }

  lemma QuitLaunchOk(t: Network, ids: seq<Identity>, sent: set<(nat, seq<byte>)>, u: nat, i: nat)
    requires WellFormed(t) && u < |ids| == |t.nodes| && (u, []) in sent && i < |QuitLaunch(t, u)|
    ensures PacketOk(t, ids, sent, QuitLaunch(t, u)[i])
  {
    var hops := HopsExcept(Config(t, u), NO_DRIVER, |Config(t, u)|);
    InHopsExcept(Config(t, u), NO_DRIVER, |Config(t, u)|, hops[i]);
    assert hops[i] in hops;
    assert ValidHop(t, u, hops[i]);
    LaunchedOk(t, u, hops[i]);
  }

  lemma QuitOk(t: Network, ids: seq<Identity>, sent: set<(nat, seq<byte>)>, m: Machine, f: Flight<Body>)
    requires WellFormed(t) && |ids| == |t.nodes| && TableOk(t, ids, f.at, m.table) && f.packet.kind == QUIT
    requires forall i :: 0 <= i < |m.inbox| ==> DeliveryOk(t, f.at, m.table, sent, m.inbox[i])
    ensures var (n, answers) := Handle(f.at, m, Config(t, f.at), f.via, f.packet);
      && TableOk(t, ids, f.at, n.table) && answers == []
      && (forall i :: 0 <= i < |n.inbox| ==> DeliveryOk(t, f.at, n.table, sent, n.inbox[i]))
  {
    QuitKeeps(t, ids, f.at, m.table, f.via, f.packet.src);
    var table := NodeQuit(m.table, f.via, f.packet.src);
    forall i | 0 <= i < |m.inbox| ensures DeliveryOk(t, f.at, table, sent, m.inbox[i]) {
      assert Path(table[m.inbox[i].remote]) == Path(m.table[m.inbox[i].remote]);
    }
  }

  lemma DataOk(t: Network, ids: seq<Identity>, sent: set<(nat, seq<byte>)>, m: Machine, f: Flight<Body>)
    requires WellFormed(t) && |ids| == |t.nodes| && PacketOk(t, ids, sent, f) && TableOk(t, ids, f.at, m.table)
    requires forall i :: 0 <= i < |m.inbox| ==> DeliveryOk(t, f.at, m.table, sent, m.inbox[i])
    requires f.packet.kind == DATA && f.packet.body.Data?
    ensures var (n, answers) := Handle(f.at, m, Config(t, f.at), f.via, f.packet);
      && n.table == m.table && answers == []
      && (forall i :: 0 <= i < |n.inbox| ==> DeliveryOk(t, f.at, n.table, sent, n.inbox[i]))
  {
    var r := NodeForAddr(m.table, f.via, f.packet.src);
    if r >= 0 {
      assert f.via != 0;
      assert Path(m.table[r]) == [f.via] + Strip(f.packet.src);
    }
  }

  lemma DiscoverOk(t: Network, ids: seq<Identity>, sent: set<(nat, seq<byte>)>, m: Machine, f: Flight<Body>)
    requires WellFormed(t) && |ids| == |t.nodes| && PacketOk(t, ids, sent, f) && TableOk(t, ids, f.at, m.table)
    requires forall i :: 0 <= i < |m.inbox| ==> DeliveryOk(t, f.at, m.table, sent, m.inbox[i])
    requires f.packet.kind == DISCOVER && f.packet.body.Discover?
    ensures var (n, answers) := Handle(f.at, m, Config(t, f.at), f.via, f.packet);
      && TableOk(t, ids, f.at, n.table)
      && (forall i :: 0 <= i < |n.inbox| ==> DeliveryOk(t, f.at, n.table, sent, n.inbox[i]))
      && (forall i :: 0 <= i < |answers| ==> PacketOk(t, ids, sent, Fly(t, f.at, answers)[i]))
  {
    var u, p := f.at, f.packet;
    HandleDiscoverOk(t, ids, u, m.table, f.via, p.src, p.body.a);
    var table := HandleDiscover(m.table, f.via, p.src, p.body.a);
    forall i | 0 <= i < |m.inbox| ensures DeliveryOk(t, u, table, sent, m.inbox[i]) {
      var d := m.inbox[i];
      assert Matches(table[d.remote], m.table[d.remote].firstHop, m.table[d.remote].addr);
    }
    var i := NodeForAddr(table, f.via, p.src);
    if Handle(u, m, Config(t, u), f.via, p).1 != [] {
      assert f.via != 0;
      SendDiscoverOk(t, ids, sent, u, table, table[i]);
    }
  }

  /** What a machine does with a packet of its own keeps its table and inbox sound, and so is its answer. */
  lemma HandleOk(t: Network, ids: seq<Identity>, sent: set<(nat, seq<byte>)>, m: Machine, f: Flight<Body>)
    requires WellFormed(t) && |ids| == |t.nodes| && PacketOk(t, ids, sent, f)
    requires TableOk(t, ids, f.at, m.table)
    requires forall i :: 0 <= i < |m.inbox| ==> DeliveryOk(t, f.at, m.table, sent, m.inbox[i])
    ensures var (n, answers) := Handle(f.at, m, Config(t, f.at), f.via, f.packet);
      && TableOk(t, ids, f.at, n.table)
      && (forall i :: 0 <= i < |n.inbox| ==> DeliveryOk(t, f.at, n.table, sent, n.inbox[i]))
      && (forall i :: 0 <= i < |answers| ==> PacketOk(t, ids, sent, Fly(t, f.at, answers)[i]))
  {
    if f.packet.kind == DATA && f.packet.body.Data? {
      DataOk(t, ids, sent, m, f);
    } else if f.packet.kind == DISCOVER && f.packet.body.Discover? {
      DiscoverOk(t, ids, sent, m, f);
    } else if f.packet.kind == QUIT {
      QuitOk(t, ids, sent, m, f);
    }
  }

  lemma LaunchesKeepInv(t: Network, ids: seq<Identity>, s: State, more: seq<Flight<Body>>)
    requires Inv(t, ids, s)
    requires forall i :: 0 <= i < |more| ==> PacketOk(t, ids, s.sent, more[i])
    ensures Inv(t, ids, Launches(s, more))
  {
  }

  lemma SentMore(t: Network, ids: seq<Identity>, s: State, more: seq<Flight<Body>>, u: nat, bytes: seq<byte>)
    requires Inv(t, ids, s)
    requires forall i :: 0 <= i < |more| ==> PacketOk(t, ids, s.sent + {(u, bytes)}, more[i])
    ensures Inv(t, ids, Launches(s, more).(sent := s.sent + {(u, bytes)}))
  {
    var sent := s.sent + {(u, bytes)};
    forall k | 0 <= k < |s.flight| ensures PacketOk(t, ids, sent, s.flight[k]) {
      assert PacketOk(t, ids, s.sent, s.flight[k]);
    }
    forall v, i | 0 <= v < |ids| && 0 <= i < |s.machines[v].inbox|
      ensures DeliveryOk(t, v, s.machines[v].table, sent, s.machines[v].inbox[i]) {
      assert DeliveryOk(t, v, s.machines[v].table, s.sent, s.machines[v].inbox[i]);
    }
  }

  lemma OwnFlagsKeepInv(t: Network, ids: seq<Identity>, s: State, u: nat, flags: Flags)
    requires Inv(t, ids, s) && u < |s.machines| && flags.gotDiscover
    requires flags.forwarder == s.machines[u].table[0].flags.forwarder
    ensures Inv(t, ids, SetOwnFlags(s, u, flags))
  {
    var m := s.machines[u];
    var table := m.table[0 := m.table[0].(flags := flags)];
    assert forall i :: 1 <= i < |table| ==> table[i] == m.table[i];
    assert TableOk(t, ids, u, table);
    forall i | 0 <= i < |m.inbox| ensures DeliveryOk(t, u, table, s.sent, m.inbox[i]) {
      assert DeliveryOk(t, u, m.table, s.sent, m.inbox[i]);
    }
  }

  lemma AnnounceKeepsInv(t: Network, ids: seq<Identity>, s: State, u: nat, i: nat)
    requires Inv(t, ids, s) && Enabled(t, s, Announce(u, i))
    ensures Inv(t, ids, Next(t, s, Announce(u, i)))
  {
    var table := s.machines[u].table;
    SendDiscoverOk(t, ids, s.sent, u, table, table[i]);
    LaunchesKeepInv(t, ids, s, Fly(t, u, [SendDiscover(u, table, Config(t, u), table[i])]));
  }

  lemma SendKeepsInv(t: Network, ids: seq<Identity>, s: State, u: nat, i: nat, bytes: seq<byte>)
    requires Inv(t, ids, s) && u < |s.machines|
    ensures Inv(t, ids, Next(t, s, SendToAll(u, bytes)))
    ensures 1 <= i < |s.machines[u].table| ==> Inv(t, ids, Next(t, s, SendTo(u, i, bytes)))
  {
    var sent, all := s.sent + {(u, bytes)}, BroadcastLaunch(t, u, Data(u, bytes));
    forall k | 0 <= k < |all| ensures PacketOk(t, ids, sent, all[k]) { BroadcastOk(t, ids, sent, u, bytes, k); }
    SentMore(t, ids, s, all, u, bytes);
    if 1 <= i < |s.machines[u].table| {
      var e := s.machines[u].table[i];
      DataToEntryOk(t, ids, sent, u, e, bytes);
      SentMore(t, ids, s, Fly(t, u, [ToEntry(e, DATA, Data(u, bytes))]), u, bytes);
    }
  }

  lemma QuitKeepsInv(t: Network, ids: seq<Identity>, s: State, u: nat)
    requires Inv(t, ids, s) && u < |s.machines|
    ensures Inv(t, ids, Next(t, s, Quit(u)))
  {
    var sent, all := s.sent + {(u, [])}, QuitLaunch(t, u);
    forall k | 0 <= k < |all| ensures PacketOk(t, ids, sent, all[k]) { QuitLaunchOk(t, ids, sent, u, k); }
    SentMore(t, ids, s, all, u, []);
  }

  lemma LoseKeepsInv(t: Network, ids: seq<Identity>, s: State, k: nat)
    requires Inv(t, ids, s) && k < |s.flight|
    ensures Inv(t, ids, s.(flight := Remove(s.flight, k)))
  {
    assert forall i :: 0 <= i < |s.flight| - 1 ==> Remove(s.flight, k)[i] == s.flight[if i < k then i else i + 1];
  }

  lemma SetMachineKeepsInv(t: Network, ids: seq<Identity>, s: State, u: nat, m: Machine)
    requires Inv(t, ids, s) && u < |s.machines| && TableOk(t, ids, u, m.table)
    requires forall i :: 0 <= i < |m.inbox| ==> DeliveryOk(t, u, m.table, s.sent, m.inbox[i])
    ensures Inv(t, ids, s.(machines := s.machines[u := m]))
  {
  }

  lemma ReadKeepsInv(t: Network, ids: seq<Identity>, s: State, k: nat)
    requires Inv(t, ids, s) && k < |s.flight| && s.flight[k].at < |s.machines|
    ensures Inv(t, ids, ReadBy(t, s, k))
  {
    var f := s.flight[k];
    var u, m := f.at, s.machines[f.at];
    if IsLocal(f.packet) { HandleOk(t, ids, s.sent, m, f); }
    var (n, answers) := if IsLocal(f.packet) then Handle(u, m, Config(t, u), f.via, f.packet) else (m, []);
    LoseKeepsInv(t, ids, s, k);
    var s1 := s.(flight := Remove(s.flight, k));
    SetMachineKeepsInv(t, ids, s1, u, n);
    var s2 := s1.(machines := s.machines[u := n]);
    forall i | 0 <= i < |Onward(t, f)| ensures PacketOk(t, ids, s.sent, Onward(t, f)[i]) {
      PassedOnOk(t, ids, s.sent, f, i);
    }
    LaunchesKeepInv(t, ids, s2, Onward(t, f));
    LaunchesKeepInv(t, ids, Launches(s2, Onward(t, f)), Fly(t, u, answers));
  }

  /** Every step keeps the invariant. */
  lemma NextKeepsInv(t: Network, ids: seq<Identity>, s: State, step: Step)
    requires Inv(t, ids, s) && Enabled(t, s, step)
    ensures Inv(t, ids, Next(t, s, step))
  {
    match step
    case Announce(u, i) => AnnounceKeepsInv(t, ids, s, u, i);
    case SendTo(u, i, bytes) => SendKeepsInv(t, ids, s, u, i, bytes);
    case SendToAll(u, bytes) => SendKeepsInv(t, ids, s, u, 0, bytes);
    case Quit(u) => QuitKeepsInv(t, ids, s, u);
    case MarkReady(u) => OwnFlagsKeepInv(t, ids, s, u, s.machines[u].table[0].flags.(ready := true));
    case MarkLaunched(u) => OwnFlagsKeepInv(t, ids, s, u, s.machines[u].table[0].flags.(launched := true));
    case Read(k) => ReadKeepsInv(t, ids, s, k);
    case Lose(k) => LoseKeepsInv(t, ids, s, k);
    case Repeat(k) => LaunchesKeepInv(t, ids, s, [s.flight[k]]);
  }

  /** At first a table holds the machine itself and immediate neighbours only. */
  lemma InitNodesOk(t: Network, ids: seq<Identity>, u: nat)
    requires WellFormed(t) && u < |ids| == |t.nodes|
    ensures TableOk(t, ids, u, InitNodes(Config(t, u), ids[u]))
  {
    var c := Config(t, u);
    var hops := HopsExcept(c, NO_DRIVER, |c|);
    var table := InitNodes(c, ids[u]);
    HopsExceptDistinct(c, NO_DRIVER, |c|);
    forall i | 1 <= i < |table|
      ensures table[i].firstHop == hops[i - 1] != 0 && EntryOk(t, ids, u, table[i])
    {
      var h := hops[i - 1];
      assert h in hops;
      InHopsExcept(c, NO_DRIVER, |c|, h);
      assert ValidHop(t, u, h);
      assert Path(table[i]) == [h];
      assert Legal(t, u, NO_DRIVER, [h]);
      WalkEndsAtMachine(t, u, [h]);
    }
  }

  ghost predicate Possible(t: Network, s: State, steps: seq<Step>)
    requires WellFormed(t)
    decreases steps
  {
    steps == [] || (Shape(t, s) && Enabled(t, s, steps[0]) && Possible(t, Next(t, s, steps[0]), steps[1..]))
  }

  function After(t: Network, s: State, steps: seq<Step>): State
    requires WellFormed(t) && Possible(t, s, steps)
    decreases steps
  {
    if steps == [] then s else After(t, Next(t, s, steps[0]), steps[1..])
  }

  lemma {:induction false} RunKeepsInv(t: Network, ids: seq<Identity>, s: State, steps: seq<Step>)
    requires Inv(t, ids, s) && Possible(t, s, steps)
    ensures Inv(t, ids, After(t, s, steps))
    decreases steps
  {
    if steps == [] {
    } else {
      NextKeepsInv(t, ids, s, steps[0]);
      RunKeepsInv(t, ids, Next(t, s, steps[0]), steps[1..]);
    }
  }

  /** In every run from the start, on any fixed set of links, every table and every delivery is sound. */
  lemma DiscoverySound(t: Network, ids: seq<Identity>, steps: seq<Step>, s: State)
    requires WellFormed(t) && |ids| == |t.nodes|
    requires Possible(t, Start(t, ids), steps) && s == After(t, Start(t, ids), steps)
    ensures Inv(t, ids, s)
  {
    var s0 := Start(t, ids);
    forall u | 0 <= u < |ids| ensures TableOk(t, ids, u, s0.machines[u].table) {
      InitNodesOk(t, ids, u);
    }
    RunKeepsInv(t, ids, s0, steps);
  }
}
