/** What becomes of a packet that is read by the machine it is for; and that data arrives: in every run that
    loses no packet, what is sent to a machine ends up with its game, under the sender's entry. */
module MetaDelivery {
  import opened Bytes
  import opened Sequences
  import opened Topology
  import opened MetaRouting
  import opened MetaForwarding
  import opened MetaPaths
  import opened MetaTable
  import opened MetaDiscovery
  import opened MetaComplete
  import MetaProgress

  // One packet.

  /** Entry i is the first for this arrival hop and source. */
  predicate IsFrom(table: Table, i: nat, via: byte, src: Addr) {
    && i < |table| && table[i].firstHop == via && table[i].addr == src
    && forall j :: 0 <= j < i ==> !(table[j].firstHop == via && table[j].addr == src)
  }

  predicate IsStranger(table: Table, via: byte, src: Addr) {
    forall j :: 0 <= j < |table| ==> !(table[j].firstHop == via && table[j].addr == src)
  }

  /** Data from a machine in the table is handed up once, under that machine's entry and unchanged; from any
      other it is not handed up. Nothing else changes, and nothing is answered. */
  lemma DataIsHandedUp(u: nat, m: Machine, config: seq<nat>, via: byte, src: Addr, dest: Addr, origin: nat,
                       bytes: seq<byte>, i: nat)
    requires m.table != [] && ValidConfig(config)
    ensures var r := Handle(u, m, config, via, Packet(DATA, src, dest, Data(origin, bytes)));
      && (IsFrom(m.table, i, via, src) ==>
            r == (Machine(m.table, m.inbox + [Delivery(i, origin, bytes)]), []))
      && (IsStranger(m.table, via, src) ==> r == (m, []))
  {
  }

  /** Packets of a kind that is none of the three are ignored. */
  lemma OthersAreIgnored(u: nat, m: Machine, config: seq<nat>, via: byte, p: Packet<Body>)
    requires m.table != [] && ValidConfig(config)
    requires p.kind != 0x01C26440 && p.kind != 0x01C26441 && p.kind != 0x01C26443
    ensures Handle(u, m, config, via, p) == (m, [])
  {
  }

  /** A table whose entries have the same places and paths, only the first of which can be the machine itself. */
  predicate SamePlaces(before: Table, after: Table) {
    |before| <= |after| && forall i :: 0 <= i < |before| ==>
      after[i].firstHop == before[i].firstHop && after[i].addr == before[i].addr
  }

  /** Only entry i differs. */
  predicate OnlyChanges(before: Table, after: Table, i: nat) {
    |before| <= |after| && forall k :: 0 <= k < |before| && k != i ==> after[k] == before[k]
  }

  lemma {:induction false} LearnAdds(table: Table, hop: byte, src: Addr, neighbors: seq<byte>, n: nat)
    requires n <= |neighbors|
    ensures var r := Learn(table, hop, src, neighbors, n);
      && |table| <= |r| && r[..|table|] == table
      && forall k :: |table| <= k < |r| ==> r[k].firstHop == hop && r[k].flags == NO_FLAGS && r[k].stationId == 0
  {
    if n == 0 {
    } else {
      LearnAdds(table, hop, src, neighbors, n - 1);
    }
  }

  /** A discover message that comes in time, or from a machine that has launched, leaves its sender's entry with
      just the flags and the station ID that it tells, announced; it changes no other entry, the ones it adds are
      blank, and it is not answered. */
  lemma DiscoverIsTaken(u: nat, m: Machine, config: seq<nat>, via: byte, src: Addr, dest: Addr, origin: nat,
                        a: Announcement, i: nat)
    requires m.table != [] && ValidConfig(config)
    requires m.table[0].flags.launched ==> a.status.launched
    requires IsFrom(m.table, i, via, src)
    ensures var (n, answers) := Handle(u, m, config, via, Packet(DISCOVER, src, dest, Discover(origin, a)));
      && answers == [] && n.inbox == m.inbox && OnlyChanges(m.table, n.table, i)
      && n.table[i].firstHop == via && n.table[i].addr == src && n.table[i].stationId == a.stationId
      && n.table[i].flags == Flags(true, a.status.ready, a.status.launched, a.status.forwarder, a.status.quit)
      && forall k :: |m.table| <= k < |n.table| ==> n.table[k].flags == NO_FLAGS && n.table[k].firstHop == via
  {
    assert NodeOrAddNode(m.table, via, src) == m.table;
    var marked := Marked(m.table, via, src, a);
    LearnAdds(marked, via, src, a.neighbors, Wrappers.Min(|a.neighbors|, DoomNet.MAXNETNODES));
    var n := Handle(u, m, config, via, Packet(DISCOVER, src, dest, Discover(origin, a))).0;
    assert forall k :: 0 <= k < |m.table| ==> n.table[k] == n.table[..|m.table|][k];
  }

  /** One that comes late changes no entry, and is answered along its sender's own path. */
  lemma LateDiscoverIsAnswered(u: nat, m: Machine, config: seq<nat>, via: byte, src: Addr, dest: Addr, origin: nat,
                               a: Announcement, i: nat)
    requires m.table != [] && ValidConfig(config)
    requires m.table[0].flags.launched && !a.status.launched && IsFrom(m.table, i, via, src)
    ensures Handle(u, m, config, via, Packet(DISCOVER, src, dest, Discover(origin, a))) ==
      (m, [Send(via, Packet(DISCOVER, NO_HOPS, src,
                            Discover(u, Announcement(m.table[0].flags, m.table[0].stationId, Announced(config, via)))))])
  {
  }

  /** A discover message from a stranger is taken as if that had a blank last entry already, if there is room for
      one in the table of sixteen; if not, it is ignored. */
  lemma StrangersDiscover(u: nat, m: Machine, config: seq<nat>, via: byte, src: Addr, dest: Addr, origin: nat,
                          a: Announcement)
    requires m.table != [] && ValidConfig(config) && IsStranger(m.table, via, src)
    ensures var p := Packet(DISCOVER, src, dest, Discover(origin, a));
      var known := m.table + [NodeData(via, src, NO_FLAGS, 0)];
      Handle(u, m, config, via, p) ==
        if |m.table| < 16 then Handle(u, m.(table := known), config, via, p) else (m, [])
  {
    var known := m.table + [NodeData(via, src, NO_FLAGS, 0)];
    assert NodeForAddr(m.table, via, src) == -1;
    assert Matches(known[|m.table|], via, src);
    assert NodeForAddr(known, via, src) >= 0;
  }

  /** So an answer is never answered: whoever reads it, and wherever it is passed on to. */
  lemma AnswersAreFinal(u: nat, m: Machine, config: seq<nat>, via: byte, p: Packet<Body>, k: nat,
                        v: nat, l: Machine, config': seq<nat>, via': byte, q: Packet<Body>)
    requires m.table != [] && ValidConfig(config) && l.table != [] && ValidConfig(config')
    requires k < |Handle(u, m, config, via, p).1| && q.body == Handle(u, m, config, via, p).1[k].packet.body
    ensures Handle(v, l, config', via', q).1 == []
  {
    var table := HandleDiscover(m.table, via, p.src, p.body.a);
    assert table[0].flags.launched;
  }

  /** When a machine says that it quits, the entries whose addresses start with its hops are marked and nothing
      else is touched; when a stranger says so, nothing is. */
  lemma QuitIsTaken(u: nat, m: Machine, config: seq<nat>, via: byte, p: Packet<Body>, i: nat, n: nat)
    requires m.table != [] && ValidConfig(config) && p.kind == QUIT
    requires n <= 4 && (forall k :: 0 <= k < n ==> p.src[k] != 0) && (n < 4 ==> p.src[n] == 0)
    ensures IsStranger(m.table, via, p.src) ==> Handle(u, m, config, via, p) == (m, [])
    ensures IsFrom(m.table, i, via, p.src) ==>
      var (r, answers) := Handle(u, m, config, via, p);
      && answers == [] && r.inbox == m.inbox && |r.table| == |m.table|
      && forall k :: 0 <= k < |r.table| ==>
           r.table[k] == if m.table[k].addr[..n] == p.src[..n]
                         then m.table[k].(flags := m.table[k].flags.(quit := true)) else m.table[k]
  {
    assert FirstZero(p.src) == n;
  }

  // A forwarder's players.

  /** A forwarder that has just heard a player say that it plays on goes on. */
  lemma ForwarderGoesOn(u: nat, m: Machine, config: seq<nat>, via: byte, src: Addr, dest: Addr, origin: nat,
                        a: Announcement, i: nat)
    requires m.table != [] && ValidConfig(config)
    requires m.table[0].flags.launched ==> a.status.launched
    requires IsFrom(m.table, i, via, src) && i != 0 && !a.status.forwarder && !a.status.quit
    ensures !AllPlayersQuit(Handle(u, m, config, via, Packet(DISCOVER, src, dest, Discover(origin, a))).0.table)
  {
    DiscoverIsTaken(u, m, config, via, src, dest, origin, a, i);
  }

  /** It stops, whatever it knows of itself, once of the others each is a forwarder or has quit, and not before. */
  lemma ForwarderStops(table: Table, k: nat)
    requires 1 <= k < |table|
    ensures (forall i :: 1 <= i < |table| && i != k ==> table[i].flags.forwarder || table[i].flags.quit) ==>
              (AllPlayersQuit(table) <==> table[k].flags.forwarder || table[k].flags.quit)
    ensures !table[k].flags.forwarder && !table[k].flags.quit ==> !AllPlayersQuit(table)
  {
  }

  predicate NoneQuit(table: Table) { forall i :: 0 <= i < |table| ==> !table[i].flags.quit }

  ghost predicate NobodyHasQuit(t: Network, s: State) {
    && Shape(t, s) && (forall u :: 0 <= u < |s.machines| ==> NoneQuit(s.machines[u].table))
    && (forall k :: 0 <= k < |s.flight| ==> NoQuitIn(s.flight[k]))
  }

  predicate NoQuitIn(f: Flight<Body>) {
    f.packet.kind != QUIT && (f.packet.body.Discover? ==> !f.packet.body.a.status.quit)
  }

  lemma HandleNoneQuit(u: nat, m: Machine, config: seq<nat>, f: Flight<Body>)
    requires m.table != [] && ValidConfig(config) && NoneQuit(m.table) && NoQuitIn(f)
    ensures var (n, answers) := Handle(u, m, config, f.via, f.packet);
      && n.table != [] && NoneQuit(n.table)
      && forall k :: 0 <= k < |answers| ==>
           answers[k].packet.kind != QUIT && answers[k].packet.body.Discover? && !answers[k].packet.body.a.status.quit
  {
    if f.packet.kind == DISCOVER && f.packet.body.Discover? {
      var a := f.packet.body.a;
      var marked := Marked(m.table, f.via, f.packet.src, a);
      LearnAdds(marked, f.via, f.packet.src, a.neighbors, Wrappers.Min(|a.neighbors|, DoomNet.MAXNETNODES));
      var n := Learn(marked, f.via, f.packet.src, a.neighbors, Wrappers.Min(|a.neighbors|, DoomNet.MAXNETNODES));
      assert forall k :: 0 <= k < |marked| ==> n[k] == n[..|marked|][k];
    }
  }

  lemma ReadNobodyQuits(t: Network, s: State, k: nat)
    requires NobodyHasQuit(t, s) && k < |s.flight| && s.flight[k].at < |s.machines|
    ensures NobodyHasQuit(t, ReadBy(t, s, k))
  {
    var f := s.flight[k];
    HandleNoneQuit(f.at, s.machines[f.at], Config(t, f.at), f);
    forall i | 0 <= i < |Onward(t, f)| ensures NoQuitIn(Onward(t, f)[i]) { PassedOn(t, f, i); }
  }

  lemma NextNobodyQuits(t: Network, s: State, step: Step)
    requires NobodyHasQuit(t, s) && Enabled(t, s, step) && !step.Quit?
    ensures NobodyHasQuit(t, Next(t, s, step))
  {
    match step
    case Read(k) => ReadNobodyQuits(t, s, k);
    case _ =>
  }

  /** As long as nobody quits, no table says that anyone has: a forwarder that knows of a player goes on. */
  lemma {:induction false} NobodyQuits(t: Network, s: State, steps: seq<Step>)
    requires NobodyHasQuit(t, s) && Possible(t, s, steps) && forall i :: 0 <= i < |steps| ==> !steps[i].Quit?
    ensures NobodyHasQuit(t, After(t, s, steps))
    decreases |steps|
  {
    if steps == [] {
    } else {
      NextNobodyQuits(t, s, steps[0]);
      assert forall i :: 0 <= i < |steps| - 1 ==> steps[1..][i] == steps[i + 1];
      NobodyQuits(t, Next(t, s, steps[0]), steps[1..]);
    }
  }

  lemma ForwardersGoOn(t: Network, ids: seq<Identity>, steps: seq<Step>, u: nat, i: nat)
    requires WellFormed(t) && |ids| == |t.nodes| && Possible(t, Start(t, ids), steps)
    requires forall k :: 0 <= k < |steps| ==> !steps[k].Quit?
    requires var s := After(t, Start(t, ids), steps);
      u < |s.machines| && 1 <= i < |s.machines[u].table| && !s.machines[u].table[i].flags.forwarder
    ensures !AllPlayersQuit(After(t, Start(t, ids), steps).machines[u].table)
  {
    NobodyQuits(t, Start(t, ids), steps);
  }

  // Data in the network.

  /** A copy of u's data that has come n hops along the walk p, with the rest of it in its destination or as a
      broadcast. */
  predicate Carries(t: Network, u: nat, p: Walk, bytes: seq<byte>, f: Flight<Body>, n: nat) {
    && 1 <= n <= |p| <= MAX_WALK
    && (f == OnTheWay(t, u, DATA, p[..n], p[n..], Data(u, bytes)) || f == Flooded(t, u, p[..n], Data(u, bytes)))
  }

  ghost predicate OnItsWay(t: Network, s: State, u: nat, p: Walk, bytes: seq<byte>) {
    exists k, n :: 0 <= k < |s.flight| && Carries(t, u, p, bytes, s.flight[k], n)
  }

  /** The data has been handed up by the machine at the end of p, under the entry that leads back to u. */
  predicate HandedOver(t: Network, u: nat, p: Walk, bytes: seq<byte>, m: Machine, i: nat) {
    && i < |m.inbox| && m.inbox[i].origin == u && m.inbox[i].bytes == bytes
    && 1 <= m.inbox[i].remote < |m.table| && Path(m.table[m.inbox[i].remote]) == Reverse(t, u, p)
  }

  /** That is among what its game has been handed after the first n packets. */
  ghost predicate HasIt(t: Network, s: State, u: nat, p: Walk, bytes: seq<byte>, n: nat) {
    End(t, u, p) < |s.machines| && GameHasIt(t, u, p, bytes, s.machines[End(t, u, p)], n)
  }

  ghost predicate GameHasIt(t: Network, u: nat, p: Walk, bytes: seq<byte>, m: Machine, n: nat) {
    exists i :: n <= i < |m.inbox| && HandedOver(t, u, p, bytes, m, i)
  }

  ghost predicate KnowsBack(t: Network, s: State, u: nat, p: Walk) {
    End(t, u, p) < |s.machines| && Knows(s.machines[End(t, u, p)].table, Reverse(t, u, p))
  }

  /** How much the game at the end of p has been handed. */
  function HandedUp(t: Network, s: State, u: nat, p: Walk): nat
    requires End(t, u, p) < |s.machines|
  {
    |s.machines[End(t, u, p)].inbox|
  }

  ghost predicate Accounted(t: Network, s: State, u: nat, p: Walk, bytes: seq<byte>, n: nat) {
    && KnowsBack(t, s, u, p) && n <= HandedUp(t, s, u, p)
    && (OnItsWay(t, s, u, p, bytes) || HasIt(t, s, u, p, bytes, n))
  }

  /** A machine's table keeps its places and its inbox what is in it. */
  predicate Keeps(m: Machine, n: Machine) {
    SamePlaces(m.table, n.table) && |m.inbox| <= |n.inbox| && n.inbox[..|m.inbox|] == m.inbox
  }

  lemma MachineKeeps(t: Network, m: Machine, n: Machine, u: nat, p: Walk, bytes: seq<byte>, since: nat)
    requires Keeps(m, n)
    ensures GameHasIt(t, u, p, bytes, m, since) ==> GameHasIt(t, u, p, bytes, n, since)
    ensures Knows(m.table, Reverse(t, u, p)) ==> Knows(n.table, Reverse(t, u, p))
  {
    if GameHasIt(t, u, p, bytes, m, since) {
      var j :| since <= j < |m.inbox| && HandedOver(t, u, p, bytes, m, j);
      assert n.inbox[..|m.inbox|][j] == m.inbox[j];
      assert HandedOver(t, u, p, bytes, n, j);
    }
    if Knows(m.table, Reverse(t, u, p)) {
      var i :| 1 <= i < |m.table| && Path(m.table[i]) == Reverse(t, u, p);
      assert Path(n.table[i]) == Reverse(t, u, p);
    }
  }

  /** The machine at the end of p keeps what it has. */
  ghost predicate KeepsAt(t: Network, s: State, r: State, u: nat, p: Walk) {
    && End(t, u, p) < |s.machines| == |r.machines|
    && Keeps(s.machines[End(t, u, p)], r.machines[End(t, u, p)])
  }

  lemma KeepsAccount(t: Network, s: State, r: State, u: nat, p: Walk, bytes: seq<byte>, n: nat)
    requires KnowsBack(t, s, u, p) && KeepsAt(t, s, r, u, p) && n <= HandedUp(t, s, u, p)
    ensures KnowsBack(t, r, u, p) && n <= HandedUp(t, r, u, p)
    ensures HasIt(t, s, u, p, bytes, n) ==> HasIt(t, r, u, p, bytes, n)
  {
    MachineKeeps(t, s.machines[End(t, u, p)], r.machines[End(t, u, p)], u, p, bytes, n);
  }

  lemma HandleKeepsPlaces(t: Network, ids: seq<Identity>, sent: set<(nat, seq<byte>)>, m: Machine, f: Flight<Body>)
    requires WellFormed(t) && |ids| == |t.nodes| && PacketOk(t, ids, sent, f) && TableOk(t, ids, f.at, m.table)
    ensures Keeps(m, Handle(f.at, m, Config(t, f.at), f.via, f.packet).0)
  {
    if f.packet.kind == DISCOVER && f.packet.body.Discover? {
      HandleDiscoverOk(t, ids, f.at, m.table, f.via, f.packet.src, f.packet.body.a);
    }
  }

  lemma IndexIn<T>(s: seq<T>, x: T) returns (i: nat)
    requires x in s
    ensures i < |s| && s[i] == x
  {
    i :| 0 <= i < |s| && s[i] == x;
  }

  /** Reading a copy on its way passes it on one hop, or at the end of its walk hands it over. */
  lemma CopyIsRead(t: Network, ids: seq<Identity>, s: State, k: nat, u: nat, p: Walk, bytes: seq<byte>, n: nat,
                   since: nat) returns (i: nat)
    requires Inv(t, ids, s) && k < |s.flight| && u < |t.nodes| && Legal(t, u, NO_DRIVER, p)
    requires Carries(t, u, p, bytes, s.flight[k], n) && KnowsBack(t, s, u, p) && since <= HandedUp(t, s, u, p)
    ensures s.flight[k].at < |s.machines|
    ensures n < |p| ==> i < |Onward(t, s.flight[k])| && Carries(t, u, p, bytes, Onward(t, s.flight[k])[i], n + 1)
    ensures n == |p| ==> HasIt(t, ReadBy(t, s, k), u, p, bytes, since)
  {
    WalkEndsAtMachine(t, u, p);
    assert p[..n] + p[n..] == p;
    Append(t, u, NO_DRIVER, p[..n], p[n..]);
    WalkEndsAtMachine(t, u, p[..n]);
    if n < |p| {
      i := CopyGoesOn(t, u, p, bytes, s.flight[k], n);
    } else {
      assert p[..n] == p && p[n..] == [];
      CopyArrives(t, ids, s, k, u, p, bytes, since);
      i := 0;
    }
  }

  lemma CopyGoesOn(t: Network, u: nat, p: Walk, bytes: seq<byte>, f: Flight<Body>, n: nat) returns (i: nat)
    requires WellFormed(t) && u < |t.nodes| && Legal(t, u, NO_DRIVER, p) && Carries(t, u, p, bytes, f, n) && n < |p|
    ensures i < |Onward(t, f)| && Carries(t, u, p, bytes, Onward(t, f)[i], n + 1)
  {
    var w, r, body := p[..n], p[n..], Data(u, bytes);
    assert w + r == p && p[..n + 1] == w + [r[0]] && p[n + 1..] == r[1..];
    if f == OnTheWay(t, u, DATA, w, r, body) {
      PathStep(t, u, DATA, w, r, body);
      i := 0;
    } else {
      Append(t, u, NO_DRIVER, w, r);
      FloodStep(t, u, w, body);
      FirstStep(t, u, w, p);
      i := IndexIn(HopsFrom(t, u, w), p[n]);
    }
  }

  /** At the end of its walk a copy comes from where the way back leads. */
  lemma CopyComesFrom(t: Network, u: nat, p: Walk, bytes: seq<byte>, f: Flight<Body>)
    requires WellFormed(t) && u < |t.nodes| && Legal(t, u, NO_DRIVER, p) && 1 <= |p| <= MAX_WALK
    requires f == OnTheWay(t, u, DATA, p, [], Data(u, bytes)) || f == Flooded(t, u, p, Data(u, bytes))
    ensures f.at == End(t, u, p) && f.packet.kind == DATA && f.packet.body == Data(u, bytes) && IsLocal(f.packet)
    ensures f.via != 0 && Padded(f.packet.src) && [f.via] + Strip(f.packet.src) == Reverse(t, u, p)
  {
    var back := Reverse(t, u, p);
    ReverseIsWayBack(t, u, NO_DRIVER, p);
    LegalHopsNotZero(t, End(t, u, p), NO_DRIVER, back);
    PaddedPad(back[1..]);
    OneAndRest(back);
  }

  /** A sound table that knows a walk has the first and only entry for it. */
  lemma EntryFor(t: Network, ids: seq<Identity>, u: nat, table: Table, via: byte, src: Addr) returns (i: nat)
    requires TableOk(t, ids, u, table) && via != 0 && Padded(src) && Knows(table, [via] + Strip(src))
    ensures 1 <= i && IsFrom(table, i, via, src) && Path(table[i]) == [via] + Strip(src)
  {
    i :| 1 <= i < |table| && Path(table[i]) == [via] + Strip(src);
    PathDetermines(table[i], via, src);
    forall j | 0 <= j < i ensures !(table[j].firstHop == via && table[j].addr == src) {
      assert !Matches(table[i], table[j].firstHop, table[j].addr);
    }
  }

  /** The machine at the end of its walk hands it over. */
  lemma CopyIsHandedOver(t: Network, ids: seq<Identity>, m: Machine, u: nat, p: Walk, bytes: seq<byte>, f: Flight<Body>)
    returns (n: Machine)
    requires WellFormed(t) && u < |t.nodes| == |ids| && Legal(t, u, NO_DRIVER, p) && 1 <= |p| <= MAX_WALK
    requires f == OnTheWay(t, u, DATA, p, [], Data(u, bytes)) || f == Flooded(t, u, p, Data(u, bytes))
    requires TableOk(t, ids, End(t, u, p), m.table) && Knows(m.table, Reverse(t, u, p))
    ensures f.at == End(t, u, p) < |t.nodes| && IsLocal(f.packet)
    ensures Handle(f.at, m, Config(t, f.at), f.via, f.packet) == (n, [])
    ensures n.table == m.table && |n.inbox| == |m.inbox| + 1 && HandedOver(t, u, p, bytes, n, |m.inbox|)
  {
    CopyComesFrom(t, u, p, bytes, f);
    WalkEndsAtMachine(t, u, p);
    var i := EntryFor(t, ids, f.at, m.table, f.via, f.packet.src);
    DataIsHandedUp(f.at, m, Config(t, f.at), f.via, f.packet.src, f.packet.dest, u, bytes, i);
    n := Machine(m.table, m.inbox + [Delivery(i, u, bytes)]);
  }

  lemma CopyArrives(t: Network, ids: seq<Identity>, s: State, k: nat, u: nat, p: Walk, bytes: seq<byte>, since: nat)
    requires Shape(t, s) && k < |s.flight| && u < |t.nodes| == |ids| && Legal(t, u, NO_DRIVER, p) && 1 <= |p| <= MAX_WALK
    requires var f := s.flight[k];
      f == OnTheWay(t, u, DATA, p, [], Data(u, bytes)) || f == Flooded(t, u, p, Data(u, bytes))
    requires KnowsBack(t, s, u, p) && since <= HandedUp(t, s, u, p)
    requires TableOk(t, ids, End(t, u, p), s.machines[End(t, u, p)].table)
    ensures s.flight[k].at < |s.machines| && HasIt(t, ReadBy(t, s, k), u, p, bytes, since)
  {
    var f := s.flight[k];
    var n := CopyIsHandedOver(t, ids, s.machines[End(t, u, p)], u, p, bytes, f);
    assert ReadBy(t, s, k).machines[f.at] == n;
  }

  lemma ReadKeeps(t: Network, ids: seq<Identity>, s: State, k: nat, u: nat, p: Walk)
    requires Inv(t, ids, s) && k < |s.flight| && s.flight[k].at < |s.machines| && End(t, u, p) < |s.machines|
    ensures KeepsAt(t, s, ReadBy(t, s, k), u, p)
  {
    var f := s.flight[k];
    if IsLocal(f.packet) { HandleKeepsPlaces(t, ids, s.sent, s.machines[f.at], f); }
  }

  lemma StillThere<T>(s: seq<T>, k: nat, a: seq<T>, b: seq<T>, j: nat)
    requires k < |s|
    ensures j < |s| && j != k ==> s[j] in Remove(s, k) + a + b
    ensures j < |a| ==> a[j] in Remove(s, k) + a + b
  {
    var r := Remove(s, k) + a + b;
    if j < |s| && j != k { assert r[if j < k then j else j - 1] == s[j]; }
    if j < |a| { assert r[|s| - 1 + j] == a[j]; }
  }

  /** Other packets in flight stay there, and what is passed on joins them. */
  lemma ReadFlight(t: Network, s: State, k: nat, j: nat)
    requires Shape(t, s) && k < |s.flight| && s.flight[k].at < |s.machines|
    ensures j < |s.flight| && j != k ==> s.flight[j] in ReadBy(t, s, k).flight
    ensures j < |Onward(t, s.flight[k])| ==> Onward(t, s.flight[k])[j] in ReadBy(t, s, k).flight
  {
    var f := s.flight[k];
    var answers := if IsLocal(f.packet) then Handle(f.at, s.machines[f.at], Config(t, f.at), f.via, f.packet).1 else [];
    StillThere(s.flight, k, Onward(t, f), Fly(t, f.at, answers), j);
  }

  lemma InFlight(t: Network, s: State, u: nat, p: Walk, bytes: seq<byte>, f: Flight<Body>, n: nat)
    requires f in s.flight && Carries(t, u, p, bytes, f, n)
    ensures OnItsWay(t, s, u, p, bytes)
  {
    var k :| 0 <= k < |s.flight| && s.flight[k] == f;
    assert Carries(t, u, p, bytes, s.flight[k], n);
  }

  lemma PassedOnIsAbout(t: Network, s: State, k: nat, u: nat, p: Walk, bytes: seq<byte>, i: nat, n: nat)
    requires Shape(t, s) && k < |s.flight| && s.flight[k].at < |s.machines|
    requires i < |Onward(t, s.flight[k])| && Carries(t, u, p, bytes, Onward(t, s.flight[k])[i], n)
    ensures OnItsWay(t, ReadBy(t, s, k), u, p, bytes)
  {
    ReadFlight(t, s, k, i);
    InFlight(t, ReadBy(t, s, k), u, p, bytes, Onward(t, s.flight[k])[i], n);
  }

  /** Reading a copy leaves the data on its way or handed over. */
  lemma CopyStaysAbout(t: Network, ids: seq<Identity>, s: State, k: nat, u: nat, p: Walk, bytes: seq<byte>, n: nat,
                       since: nat)
    requires Inv(t, ids, s) && k < |s.flight| && s.flight[k].at < |s.machines|
    requires u < |t.nodes| && Legal(t, u, NO_DRIVER, p) && Carries(t, u, p, bytes, s.flight[k], n)
    requires KnowsBack(t, s, u, p) && since <= HandedUp(t, s, u, p)
    ensures OnItsWay(t, ReadBy(t, s, k), u, p, bytes) || HasIt(t, ReadBy(t, s, k), u, p, bytes, since)
  {
    var i := CopyIsRead(t, ids, s, k, u, p, bytes, n, since);
    if n < |p| {
      PassedOnIsAbout(t, s, k, u, p, bytes, i, n + 1);
    }
  }

  /** Reading any packet leaves data accounted for. */
  lemma ReadKeepsAccount(t: Network, ids: seq<Identity>, s: State, k: nat, u: nat, p: Walk, bytes: seq<byte>, since: nat)
    requires Inv(t, ids, s) && k < |s.flight| && s.flight[k].at < |s.machines|
    requires u < |t.nodes| && Legal(t, u, NO_DRIVER, p) && Accounted(t, s, u, p, bytes, since)
    ensures Accounted(t, ReadBy(t, s, k), u, p, bytes, since)
  {
    ReadKeeps(t, ids, s, k, u, p);
    KeepsAccount(t, s, ReadBy(t, s, k), u, p, bytes, since);
    if !HasIt(t, s, u, p, bytes, since) {
      var j, n :| 0 <= j < |s.flight| && Carries(t, u, p, bytes, s.flight[j], n);
      if j == k {
        CopyStaysAbout(t, ids, s, k, u, p, bytes, n, since);
      } else {
        ReadFlight(t, s, k, j);
        InFlight(t, ReadBy(t, s, k), u, p, bytes, s.flight[j], n);
      }
    }
  }

  lemma MoreInFlight(t: Network, s: State, r: State, u: nat, p: Walk, bytes: seq<byte>)
    requires |s.flight| <= |r.flight| && r.flight[..|s.flight|] == s.flight && OnItsWay(t, s, u, p, bytes)
    ensures OnItsWay(t, r, u, p, bytes)
  {
    var k, n :| 0 <= k < |s.flight| && Carries(t, u, p, bytes, s.flight[k], n);
    assert r.flight[k] == r.flight[..|s.flight|][k];
  }

  /** A step other than reading or losing only adds to what is in flight. */
  lemma OtherStepKeeps(t: Network, s: State, step: Step, u: nat, p: Walk)
    requires Shape(t, s) && Enabled(t, s, step) && !step.Lose? && !step.Read? && End(t, u, p) < |s.machines|
    ensures KeepsAt(t, s, Next(t, s, step), u, p)
    ensures |s.flight| <= |Next(t, s, step).flight| && Next(t, s, step).flight[..|s.flight|] == s.flight
  {
  }

  /** Every step but losing a packet leaves data accounted for. */
  lemma NextKeepsAccount(t: Network, ids: seq<Identity>, s: State, step: Step, u: nat, p: Walk, bytes: seq<byte>,
                         since: nat)
    requires Inv(t, ids, s) && Enabled(t, s, step) && !step.Lose?
    requires u < |t.nodes| && Legal(t, u, NO_DRIVER, p) && Accounted(t, s, u, p, bytes, since)
    ensures Accounted(t, Next(t, s, step), u, p, bytes, since)
  {
    if step.Read? {
      ReadKeepsAccount(t, ids, s, step.k, u, p, bytes, since);
    } else {
      OtherStepKeeps(t, s, step, u, p);
      KeepsAccount(t, s, Next(t, s, step), u, p, bytes, since);
      if OnItsWay(t, s, u, p, bytes) { MoreInFlight(t, s, Next(t, s, step), u, p, bytes); }
    }
  }

  predicate NothingLost(steps: seq<Step>) { forall i :: 0 <= i < |steps| ==> !steps[i].Lose? }

  /** A sound state in which the data is accounted for. */
  ghost predicate Safe(t: Network, ids: seq<Identity>, s: State, u: nat, p: Walk, bytes: seq<byte>, since: nat) {
    Inv(t, ids, s) && u < |t.nodes| && Legal(t, u, NO_DRIVER, p) && Accounted(t, s, u, p, bytes, since)
  }

  lemma NextKeepsSafe(t: Network, ids: seq<Identity>, s: State, step: Step, u: nat, p: Walk, bytes: seq<byte>, since: nat)
    requires Safe(t, ids, s, u, p, bytes, since) && Enabled(t, s, step) && !step.Lose?
    ensures Safe(t, ids, Next(t, s, step), u, p, bytes, since)
  {
    NextKeepsInv(t, ids, s, step);
    NextKeepsAccount(t, ids, s, step, u, p, bytes, since);
  }

  lemma {:induction false} RunKeepsSafe(t: Network, ids: seq<Identity>, s: State, steps: seq<Step>, u: nat, p: Walk,
                                        bytes: seq<byte>, since: nat)
    requires Safe(t, ids, s, u, p, bytes, since) && Possible(t, s, steps) && NothingLost(steps)
    ensures Safe(t, ids, After(t, s, steps), u, p, bytes, since)
    decreases |steps|
  {
    if steps == [] {
    } else {
      NextKeepsSafe(t, ids, s, steps[0], u, p, bytes, since);
      assert forall i :: 0 <= i < |steps| - 1 ==> steps[1..][i] == steps[i + 1];
      RunKeepsSafe(t, ids, Next(t, s, steps[0]), steps[1..], u, p, bytes, since);
    }
  }

  /** Whether any copy of this data is still about. */
  ghost predicate AllRead(t: Network, s: State, u: nat, p: Walk, bytes: seq<byte>) { !OnItsWay(t, s, u, p, bytes) }

  /** From every state that a run reaches: data sent to the machine of an entry is handed over by that machine as
      soon as none of it is on its way, under the entry that leads back to the sender; whatever else happens
      meanwhile, in whatever order packets are read, as long as none is lost and that machine knows the way back. */
  lemma DataArrives(t: Network, ids: seq<Identity>, before: seq<Step>, u: nat, i: nat, bytes: seq<byte>, more: seq<Step>)
    requires WellFormed(t) && |ids| == |t.nodes| && Possible(t, Start(t, ids), before)
    requires var s := After(t, Start(t, ids), before);
      && Shape(t, s) && Enabled(t, s, SendTo(u, i, bytes)) && NothingLost(more)
      && Possible(t, Next(t, s, SendTo(u, i, bytes)), more)
      && KnowsBack(t, s, u, Path(s.machines[u].table[i]))
    ensures var s := After(t, Start(t, ids), before);
      var p, r := Path(s.machines[u].table[i]), After(t, Next(t, s, SendTo(u, i, bytes)), more);
      AllRead(t, r, u, p, bytes) ==> HasIt(t, r, u, p, bytes, HandedUp(t, s, u, p))
  {
    var s := After(t, Start(t, ids), before);
    DiscoverySound(t, ids, before, s);
    var p, next := Path(s.machines[u].table[i]), Next(t, s, SendTo(u, i, bytes));
    SentOnItsWay(t, ids, s, u, i, bytes);
    KeepsAccount(t, s, next, u, p, bytes, HandedUp(t, s, u, p));
    NextKeepsInv(t, ids, s, SendTo(u, i, bytes));
    EntryLegal(t, ids, u, s.machines[u].table, i);
    RunKeepsSafe(t, ids, next, more, u, p, bytes, HandedUp(t, s, u, p));
  }

  /** And it can arrive at once: reading it at each hop takes it there, and hands it over. */
  lemma DataCanArrive(t: Network, ids: seq<Identity>, s: State, u: nat, i: nat, bytes: seq<byte>)
    returns (steps: seq<Step>, r: State)
    requires Inv(t, ids, s) && Enabled(t, s, SendTo(u, i, bytes)) && KnowsBack(t, s, u, Path(s.machines[u].table[i]))
    ensures var p := Path(s.machines[u].table[i]);
      && MetaProgress.Leads(t, Next(t, s, SendTo(u, i, bytes)), steps, r)
      && r.flight == s.flight && HasIt(t, r, u, p, bytes, HandedUp(t, s, u, p))
      && End(t, u, p) < |r.machines| && HandedUp(t, r, u, p) == HandedUp(t, s, u, p) + 1
  {
    var e, next, body := s.machines[u].table[i], Next(t, s, SendTo(u, i, bytes)), Data(u, bytes);
    var p := Path(e);
    EntryLegal(t, ids, u, s.machines[u].table, i);
    WalkEndsAtMachine(t, u, p);
    assert p[1..] == Strip(e.addr) && p[..1] + p[1..] == p;
    LaunchIsOnTheWay(t, u, DATA, p, body);
    assert Fly(t, u, [ToEntry(e, DATA, body)]) == [OnTheWay(t, u, DATA, p[..1], p[1..], body)];
    steps := MetaProgress.Travels(t, next, s.flight, u, DATA, p[..1], p[1..], p, body);
    var mid := next.(flight := s.flight + [OnTheWay(t, u, DATA, p, [], body)]);
    var last := IsReadAtEnd(t, ids, mid, s.flight, u, p, bytes);
    MetaProgress.LeadsOn(t, next, steps, mid, [Read(|s.flight|)], last);
    steps, r := steps + [Read(|s.flight|)], last;
  }

  lemma IsReadAtEnd(t: Network, ids: seq<Identity>, s: State, fl: seq<Flight<Body>>, u: nat, p: Walk, bytes: seq<byte>)
    returns (r: State)
    requires Shape(t, s) && u < |t.nodes| == |ids| && 1 <= |p| <= MAX_WALK && Legal(t, u, NO_DRIVER, p)
    requires s.flight == fl + [OnTheWay(t, u, DATA, p, [], Data(u, bytes))] && KnowsBack(t, s, u, p)
    requires TableOk(t, ids, End(t, u, p), s.machines[End(t, u, p)].table)
    ensures MetaProgress.Leads(t, s, [Read(|fl|)], r) && r.flight == fl
    ensures HasIt(t, r, u, p, bytes, HandedUp(t, s, u, p))
    ensures End(t, u, p) < |r.machines| && HandedUp(t, r, u, p) == HandedUp(t, s, u, p) + 1
  {
    var f, v := OnTheWay(t, u, DATA, p, [], Data(u, bytes)), End(t, u, p);
    var n := CopyIsHandedOver(t, ids, s.machines[v], u, p, bytes, f);
    assert Pad([]) == NO_HOPS;
    MetaProgress.Arrives(t, s, fl, u, DATA, p, Data(u, bytes), n, []);
    NothingAdded(fl);
    r := s.(machines := s.machines[v := n], flight := fl);
    assert HandedOver(t, u, p, bytes, r.machines[v], |s.machines[v].inbox|);
  }

  lemma SentOnItsWay(t: Network, ids: seq<Identity>, s: State, u: nat, i: nat, bytes: seq<byte>)
    requires Inv(t, ids, s) && Enabled(t, s, SendTo(u, i, bytes))
    ensures OnItsWay(t, Next(t, s, SendTo(u, i, bytes)), u, Path(s.machines[u].table[i]), bytes)
  {
    var e, next := s.machines[u].table[i], Next(t, s, SendTo(u, i, bytes));
    var p := Path(e);
    assert p[1..] == Strip(e.addr);
    LaunchIsOnTheWay(t, u, DATA, p, Data(u, bytes));
    assert next.flight[|s.flight|] == Launch(t, u, DATA, p, Data(u, bytes));
    assert Carries(t, u, p, bytes, next.flight[|s.flight|], 1);
  }

  /** And data sent to all, by every machine within five links that knows the way back. */
  lemma BroadcastArrives(t: Network, ids: seq<Identity>, before: seq<Step>, u: nat, p: Walk, bytes: seq<byte>, more: seq<Step>)
    requires WellFormed(t) && |ids| == |t.nodes| && Possible(t, Start(t, ids), before)
    requires u < |t.nodes| && 1 <= |p| <= MAX_WALK && Legal(t, u, NO_DRIVER, p)
    requires var s := After(t, Start(t, ids), before);
      && Shape(t, s) && NothingLost(more) && Possible(t, Next(t, s, SendToAll(u, bytes)), more)
      && KnowsBack(t, s, u, p)
    ensures var s := After(t, Start(t, ids), before);
      var r := After(t, Next(t, s, SendToAll(u, bytes)), more);
      AllRead(t, r, u, p, bytes) ==> HasIt(t, r, u, p, bytes, HandedUp(t, s, u, p))
  {
    var s := After(t, Start(t, ids), before);
    DiscoverySound(t, ids, before, s);
    var next := Next(t, s, SendToAll(u, bytes));
    BroadcastOnItsWay(t, s, u, p, bytes);
    KeepsAccount(t, s, next, u, p, bytes, HandedUp(t, s, u, p));
    NextKeepsInv(t, ids, s, SendToAll(u, bytes));
    RunKeepsSafe(t, ids, next, more, u, p, bytes, HandedUp(t, s, u, p));
  }

  lemma FirstCopy(t: Network, u: nat, p: Walk, hops: seq<byte>, body: Body, i: nat)
    requires p != [] && i < |hops| && hops[i] == p[0]
    ensures FloodedFrom(t, u, [], hops, body)[i] == Flooded(t, u, p[..1], body)
  {
    assert [] + [hops[i]] == p[..1];
  }

  lemma BroadcastOnItsWay(t: Network, s: State, u: nat, p: Walk, bytes: seq<byte>)
    requires Shape(t, s) && u < |t.nodes| && 1 <= |p| <= MAX_WALK && Legal(t, u, NO_DRIVER, p)
    ensures OnItsWay(t, Next(t, s, SendToAll(u, bytes)), u, p, bytes)
  {
    var body, next := Data(u, bytes), Next(t, s, SendToAll(u, bytes));
    FirstStep(t, u, [], p);
    var i := IndexIn(HopsFrom(t, u, []), p[0]);
    BroadcastLaunchIsFlood(t, u, body);
    FirstCopy(t, u, p, HopsFrom(t, u, []), body, i);
    assert next.flight[|s.flight| + i] == Flooded(t, u, p[..1], body);
    InFlight(t, next, u, p, bytes, Flooded(t, u, p[..1], body), 1);
  }

  /** A machine that has finished discovery on a small network knows the way back to everyone in reach. */
  lemma FinishedKnowsBack(t: Network, ids: seq<Identity>, steps: seq<Step>, s: State, u: nat, p: Walk)
    requires WellFormed(t) && Small(t) && |ids| == |t.nodes| && u < |t.nodes|
    requires Possible(t, Start(t, ids), steps) && s == After(t, Start(t, ids), steps)
    requires 1 <= |p| <= MAX_WALK && Legal(t, u, NO_DRIVER, p)
    requires End(t, u, p) < |s.machines| && AllAnnounced(s.machines[End(t, u, p)].table)
    ensures KnowsBack(t, s, u, p)
  {
    StartComplete(t, ids);
    RunKeepsComplete(t, ids, Start(t, ids), steps);
    ReverseIsWayBack(t, u, NO_DRIVER, p);
    var v := End(t, u, p);
    KnowsEveryWalk(t, ids, v, s.machines[v].table, Reverse(t, u, p));
  }

  // Quitting in the network.

  lemma QuitTo(t: Network, u: nat, h: byte) returns (i: nat)
    requires WellFormed(t) && ValidHop(t, u, h)
    ensures i < |QuitLaunch(t, u)| &&
            QuitLaunch(t, u)[i] == Flight(Peer(t, u, h), Back(t, u, h), Packet(QUIT, NO_HOPS, BROADCAST, Data(u, [])))
  {
    var c := Config(t, u);
    ConfigOfNetwork(t, u, 0, h);
    InHopsExcept(c, NO_DRIVER, |c|, h);
    i := IndexIn(HopsExcept(c, NO_DRIVER, |c|), h);
  }

  /** A machine that quits tells each of its neighbours. */
  lemma QuitIsSent(t: Network, s: State, u: nat, h: byte) returns (k: nat)
    requires Shape(t, s) && u < |s.machines| && ValidHop(t, u, h)
    ensures var next := Next(t, s, Quit(u));
      k < |next.flight| &&
      next.flight[k] == Flight(Peer(t, u, h), Back(t, u, h), Packet(QUIT, NO_HOPS, BROADCAST, Data(u, [])))
  {
    var i := QuitTo(t, u, h);
    k := |s.flight| + i;
  }

  /** Reading that marks the quitting machine's entry. */
  lemma QuitIsRead(t: Network, ids: seq<Identity>, s: State, u: nat, h: byte, k: nat) returns (i: nat)
    requires Inv(t, ids, s) && u < |t.nodes| && ValidHop(t, u, h) && k < |s.flight|
    requires s.flight[k] == Flight(Peer(t, u, h), Back(t, u, h), Packet(QUIT, NO_HOPS, BROADCAST, Data(u, [])))
    requires KnowsBack(t, s, u, [h])
    ensures Peer(t, u, h) < |s.machines|
    ensures var table := ReadBy(t, s, k).machines[Peer(t, u, h)].table;
      1 <= i < |table| && End(t, Peer(t, u, h), Path(table[i])) == u && table[i].flags.quit
  {
    var f, v, b := s.flight[k], Peer(t, u, h), Back(t, u, h);
    LaunchedOk(t, u, h);
    assert End(t, u, [h]) == v && Reverse(t, u, [h]) == [b];
    var m := s.machines[v];
    assert [b] + Strip(NO_HOPS) == [b] && Strip(NO_HOPS) == [] && Pad([]) == NO_HOPS;
    i := EntryFor(t, ids, v, m.table, b, NO_HOPS);
    QuitIsTaken(v, m, Config(t, v), b, f.packet, i, 0);
    var r := Handle(v, m, Config(t, v), b, f.packet).0.table;
    assert m.table[i].addr[..0] == f.packet.src[..0];
    assert r[i] == m.table[i].(flags := m.table[i].flags.(quit := true));
  }
}
