/** On an acyclic network of at most 16 machines, a machine that has heard from everyone in its table
    knows every machine within reach, each exactly once. */
module MetaComplete {
  import opened Bytes
  import opened Wrappers
  import opened DoomNet
  import opened Counting
  import opened Topology
  import opened MetaRouting
  import opened MetaForwarding
  import opened MetaPaths
  import opened MetaTable
  import opened MetaDiscovery

  ghost predicate Small(t: Network) {
    LanClosed(t) && Acyclic(t) && |t.nodes| <= MAXNETNODES
  }

  /** Legal walks from u that all differ end at different machines, none of them u, so they are fewer
      than the machines. */
  lemma FewWalks(t: Network, u: nat, ws: seq<Walk>)
    requires WellFormed(t) && Small(t) && u < |t.nodes| && Distinct(ws)
    requires forall i :: 0 <= i < |ws| ==> ws[i] != [] && Legal(t, u, NO_DRIVER, ws[i])
    ensures |ws| + 1 <= |t.nodes|
  {
    var ends := seq(|ws|, i requires 0 <= i < |ws| => End(t, u, ws[i]));
    forall i | 0 <= i < |ws| ensures ends[i] < |t.nodes| && ends[i] != u { EndsElsewhere(t, u, ws[i]); }
    forall i, j | 0 <= i < j < |ws| ensures ends[i] != ends[j] {
      if ends[i] == ends[j] { UniqueWalk(t, u, ws[i], ws[j]); }
    }
    OneLess(ends, u, |t.nodes|);
  }

  lemma EndsElsewhere(t: Network, u: nat, w: Walk)
    requires WellFormed(t) && Acyclic(t) && u < |t.nodes| && w != [] && Legal(t, u, NO_DRIVER, w)
    ensures End(t, u, w) < |t.nodes| && End(t, u, w) != u
  {
    WalkEndsAtMachine(t, u, w);
    assert !OnCycle(t, u);
  }

  lemma OneLess(ends: seq<nat>, u: nat, n: nat)
    requires u < n && Distinct(ends) && forall i :: 0 <= i < |ends| ==> ends[i] < n && ends[i] != u
    ensures |ends| + 1 <= n
  {
    Pigeonhole(ends + [u], n);
  }

  lemma PathsDistinct(t: Network, ids: seq<Identity>, u: nat, table: Table, i: nat, j: nat)
    requires TableOk(t, ids, u, table) && 1 <= i < j < |table|
    ensures Path(table[i]) != Path(table[j])
  {
    PathDetermines(table[j], table[i].firstHop, table[i].addr);
  }

  lemma SmallIsRoomy(t: Network, ids: seq<Identity>, u: nat)
    requires WellFormed(t) && Small(t) && u < |t.nodes|
    ensures Roomy(t, ids, u)
  {
    forall table: Table, p: Walk | TableOk(t, ids, u, table) && 1 <= |p| <= MAX_WALK && Legal(t, u, NO_DRIVER, p)
      ensures HasRoom(table, p)
    {
      TableHasRoom(t, ids, u, table, p);
    }
  }

  lemma TableHasRoom(t: Network, ids: seq<Identity>, u: nat, table: Table, p: Walk)
    requires WellFormed(t) && Small(t) && u < |t.nodes| && TableOk(t, ids, u, table)
    requires p != [] && Legal(t, u, NO_DRIVER, p)
    ensures HasRoom(table, p)
  {
    if !Knows(table, p) {
      PathsOk(t, ids, u, table);
      UnknownPath(table, p);
      OneMoreWalk(t, u, Paths(table), p);
    }
  }

  lemma UnknownPath(table: Table, p: Walk)
    requires table != [] && !Knows(table, p)
    ensures p !in Paths(table)
  {
    forall i | 0 <= i < |Paths(table)| ensures Paths(table)[i] != p {
      assert Path(table[i + 1]) == Paths(table)[i];
    }
  }

  lemma OneMoreWalk(t: Network, u: nat, ws: seq<Walk>, p: Walk)
    requires WellFormed(t) && Small(t) && u < |t.nodes| && Distinct(ws) && p !in ws
    requires forall i :: 0 <= i < |ws| ==> ws[i] != [] && Legal(t, u, NO_DRIVER, ws[i])
    requires p != [] && Legal(t, u, NO_DRIVER, p)
    ensures |ws| + 2 <= |t.nodes|
  {
    FewWalks(t, u, ws + [p]);
  }

  function Paths(table: Table): (r: seq<Walk>)
    requires table != []
    ensures |r| == |table| - 1
  {
    seq(|table| - 1, i requires 0 <= i < |table| - 1 => Path(table[i + 1]))
  }

  lemma PathsOk(t: Network, ids: seq<Identity>, u: nat, table: Table)
    requires TableOk(t, ids, u, table)
    ensures Distinct(Paths(table))
    ensures forall i :: 0 <= i < |Paths(table)| ==> Paths(table)[i] != [] && Legal(t, u, NO_DRIVER, Paths(table)[i])
  {
    var paths := Paths(table);
    forall i, j | 0 <= i < j < |paths| ensures paths[i] != paths[j] { PathsDistinct(t, ids, u, table, i + 1, j + 1); }
    forall i | 0 <= i < |paths| ensures paths[i] != [] && Legal(t, u, NO_DRIVER, paths[i]) {
      EntryLegal(t, ids, u, table, i + 1);
    }
  }

  lemma EntryLegal(t: Network, ids: seq<Identity>, u: nat, table: Table, i: nat)
    requires TableOk(t, ids, u, table) && 1 <= i < |table|
    ensures Legal(t, u, NO_DRIVER, Path(table[i]))
  {
  }

  /** No neighbour is left out of an announcement. */
  lemma AnnouncedAll(t: Network, u: nat, h: byte, n: byte)
    requires WellFormed(t) && Small(t) && u < |t.nodes|
    ensures n in Announced(Config(t, u), h) <==> ValidHop(t, u, n) && AddrDriver(n) != AddrDriver(h)
  {
    var c := Config(t, u);
    var hops := HopsExcept(c, AddrDriver(h), |c|);
    ConfigOfNetwork(t, u, h, n);
    HopsExceptDistinct(c, AddrDriver(h), |c|);
    var ws := seq(|hops|, i requires 0 <= i < |hops| => [hops[i]]);
    forall i | 0 <= i < |hops| ensures Legal(t, u, NO_DRIVER, ws[i]) {
      ConfigOfNetwork(t, u, h, hops[i]);
      assert hops[i] in hops;
    }
    assert forall i, j :: 0 <= i < j < |hops| ==> ws[i][0] != ws[j][0];
    FewWalks(t, u, ws);
    assert hops[..Min(|hops|, MAXNETNODES)] == hops;
  }

  /** Nor from the start. */
  lemma FewNeighbors(t: Network, u: nat)
    requires WellFormed(t) && Small(t) && u < |t.nodes|
    ensures var c := Config(t, u); |HopsExcept(c, NO_DRIVER, |c|)| <= MAXNETNODES - 1
  {
    var c := Config(t, u);
    var hops := HopsExcept(c, NO_DRIVER, |c|);
    HopsExceptDistinct(c, NO_DRIVER, |c|);
    var ws := seq(|hops|, i requires 0 <= i < |hops| => [hops[i]]);
    forall i | 0 <= i < |hops| ensures Legal(t, u, NO_DRIVER, ws[i]) {
      InHopsExcept(c, NO_DRIVER, |c|, hops[i]);
      assert hops[i] in hops;
    }
    assert forall i, j :: 0 <= i < j < |hops| ==> ws[i][0] != ws[j][0];
    FewWalks(t, u, ws);
  }

  lemma ImmediateAll(t: Network, ids: seq<Identity>, u: nat, n: byte)
    requires WellFormed(t) && Small(t) && u < |ids| == |t.nodes| && ValidHop(t, u, n)
    ensures Knows(InitNodes(Config(t, u), ids[u]), [n])
  {
    var c := Config(t, u);
    var hops := HopsExcept(c, NO_DRIVER, |c|);
    InHopsExcept(c, NO_DRIVER, |c|, n);
    FewNeighbors(t, u);
    assert hops[..|hops|] == hops;
    var i :| 0 <= i < |hops| && hops[i] == n;
    var table := InitNodes(c, ids[u]);
    assert table[i + 1] == NodeData(n, NO_HOPS, NO_FLAGS, 0);
    assert Path(table[i + 1]) == [n];
  }

  // The invariant.

  /** Everything a machine in the table has announced is in the table too. */
  ghost predicate Closed(t: Network, u: nat, table: Table) {
    && (forall n: byte {:trigger ValidHop(t, u, n)} :: ValidHop(t, u, n) ==> Knows(table, [n]))
    && (forall i, n: byte {:trigger Path(table[i]) + [n]} ::
          (1 <= i < |table| && table[i].flags.gotDiscover && |Path(table[i])| < MAX_WALK
           && Legal(t, u, NO_DRIVER, Path(table[i]) + [n])) ==> Knows(table, Path(table[i]) + [n]))
  }

  /** An announcement leaves out no machine that can be reached through its sender. */
  ghost predicate PacketFull(t: Network, f: Flight<Body>) {
    f.packet.body.Discover? ==>
      forall n: byte :: Legal(t, f.at, NO_DRIVER, [f.via] + Strip(f.packet.src) + [n]) ==> n in f.packet.body.a.neighbors
  }

  ghost predicate Complete(t: Network, s: State) {
    && (forall u :: 0 <= u < |s.machines| ==> Closed(t, u, s.machines[u].table))
    && (forall k :: 0 <= k < |s.flight| ==> PacketFull(t, s.flight[k]))
  }

  lemma PassedOnFull(t: Network, ids: seq<Identity>, sent: set<(nat, seq<byte>)>, f: Flight<Body>, i: nat)
    requires WellFormed(t) && |ids| == |t.nodes| && PacketOk(t, ids, sent, f) && PacketFull(t, f) && i < |Onward(t, f)|
    ensures PacketFull(t, Onward(t, f)[i])
  {
    PassedOn(t, f, i);
    var g, w := Onward(t, f)[i], Strip(f.packet.src);
    StripPrepend(f.via, f.packet.src);
    if f.packet.body.Discover? {
      forall n: byte | Legal(t, g.at, NO_DRIVER, [g.via] + ([f.via] + w) + [n]) ensures n in f.packet.body.a.neighbors {
        assert [g.via] + ([f.via] + w) + [n] == [g.via] + ([f.via] + w + [n]);
        Append(t, g.at, NO_DRIVER, [g.via], [f.via] + w + [n]);
        assert End(t, g.at, [g.via]) == f.at;
        LegalFromRest(t, f.at, Arrival(t, g.at, NO_DRIVER, [g.via]), [f.via] + w + [n]);
      }
    }
  }

  lemma SendDiscoverFull(t: Network, ids: seq<Identity>, u: nat, table: Table, e: NodeData)
    requires WellFormed(t) && Small(t) && |ids| == |t.nodes| && TableOk(t, ids, u, table) && EntryOk(t, ids, u, e)
    ensures PacketFull(t, Fly(t, u, [SendDiscover(u, table, Config(t, u), e)])[0])
  {
    assert Path(e)[0] == e.firstHop;
    LaunchedOk(t, u, e.firstHop);
    var v, b := Peer(t, u, e.firstHop), Back(t, u, e.firstHop);
    forall n: byte | Legal(t, v, NO_DRIVER, [b] + Strip(NO_HOPS) + [n]) ensures n in Announced(Config(t, u), e.firstHop) {
      assert [b] + Strip(NO_HOPS) + [n] == [b] + [n];
      AnnouncedAll(t, u, e.firstHop, n);
    }
  }

  /** After a message that is only answered, the entries marked as announced are the old ones. */
  lemma AnsweredOnly(table: Table, hop: byte, src: Addr, a: Announcement, i: nat)
    requires table != [] && AnswersOnly(table, a)
    requires i < |HandleDiscover(table, hop, src, a)| && HandleDiscover(table, hop, src, a)[i].flags.gotDiscover
    ensures i < |table| && table[i] == HandleDiscover(table, hop, src, a)[i]
  {
  }

  /** What the sender announced is known if the sender has only now come to be announced. */
  lemma SenderCloses(t: Network, ids: seq<Identity>, table: Table, f: Flight<Body>, sent: set<(nat, seq<byte>)>,
                     i: nat, n: byte)
    requires WellFormed(t) && Small(t) && |ids| == |t.nodes| && PacketOk(t, ids, sent, f) && PacketFull(t, f)
    requires TableOk(t, ids, f.at, table) && f.packet.body.Discover?
    requires var r := HandleDiscover(table, f.via, f.packet.src, f.packet.body.a);
      && 1 <= i < |r| && r[i].flags.gotDiscover && !(i < |table| && table[i].flags.gotDiscover)
      && |Path(r[i])| < MAX_WALK && Legal(t, f.at, NO_DRIVER, Path(r[i]) + [n])
    ensures var r := HandleDiscover(table, f.via, f.packet.src, f.packet.body.a); Knows(r, Path(r[i]) + [n])
  {
    var u, src, a := f.at, f.packet.src, f.packet.body.a;
    var back, r := [f.via] + Strip(src), HandleDiscover(table, f.via, src, a);
    HandleDiscoverOk(t, ids, u, table, f.via, src, a);
    if AnswersOnly(table, a) { AnsweredOnly(table, f.via, src, a, i); assert false; }
    assert Path(r[i]) == back && n in a.neighbors;
    SmallIsRoomy(t, ids, u);
    HandleDiscoverLearns(t, ids, u, table, f.via, src, a);
    var j :| 0 <= j < |a.neighbors| && a.neighbors[j] == n;
    assert Knows(r, back + [a.neighbors[j]]);
  }

  lemma HandleDiscoverCloses(t: Network, ids: seq<Identity>, table: Table, f: Flight<Body>, sent: set<(nat, seq<byte>)>)
    requires WellFormed(t) && Small(t) && |ids| == |t.nodes| && PacketOk(t, ids, sent, f) && PacketFull(t, f)
    requires TableOk(t, ids, f.at, table) && Closed(t, f.at, table) && f.packet.body.Discover?
    ensures Closed(t, f.at, HandleDiscover(table, f.via, f.packet.src, f.packet.body.a))
  {
    var u, src, a := f.at, f.packet.src, f.packet.body.a;
    var r := HandleDiscover(table, f.via, src, a);
    HandleDiscoverOk(t, ids, u, table, f.via, src, a);
    forall i, n: byte | 1 <= i < |r| && r[i].flags.gotDiscover && |Path(r[i])| < MAX_WALK
                        && Legal(t, u, NO_DRIVER, Path(r[i]) + [n])
      ensures Knows(r, Path(r[i]) + [n])
    {
      if i < |table| && table[i].flags.gotDiscover {
        assert Matches(r[i], table[i].firstHop, table[i].addr);
        assert Path(table[i]) == Path(r[i]);
        assert Knows(table, Path(table[i]) + [n]);
      } else {
        SenderCloses(t, ids, table, f, sent, i, n);
      }
    }
  }

  lemma HandleCloses(t: Network, ids: seq<Identity>, sent: set<(nat, seq<byte>)>, m: Machine, f: Flight<Body>)
    requires WellFormed(t) && Small(t) && |ids| == |t.nodes| && PacketOk(t, ids, sent, f) && PacketFull(t, f)
    requires TableOk(t, ids, f.at, m.table) && Closed(t, f.at, m.table)
    ensures var (n, answers) := Handle(f.at, m, Config(t, f.at), f.via, f.packet);
      && Closed(t, f.at, n.table)
      && (forall i :: 0 <= i < |answers| ==> PacketFull(t, Fly(t, f.at, answers)[i]))
  {
    if f.packet.kind == QUIT {
      QuitCloses(t, ids, f.at, m.table, f.via, f.packet.src);
    } else if f.packet.body.Discover? {
      HandleDiscoverCloses(t, ids, m.table, f, sent);
      AnswerFull(t, ids, sent, m, f);
    }
  }

  lemma QuitCloses(t: Network, ids: seq<Identity>, u: nat, table: Table, hop: byte, src: Addr)
    requires TableOk(t, ids, u, table) && Closed(t, u, table)
    ensures Closed(t, u, NodeQuit(table, hop, src))
  {
    QuitKeeps(t, ids, u, table, hop, src);
    var r := NodeQuit(table, hop, src);
    forall i, n: byte | 1 <= i < |r| && r[i].flags.gotDiscover && |Path(r[i])| < MAX_WALK
                        && Legal(t, u, NO_DRIVER, Path(r[i]) + [n])
      ensures Knows(r, Path(r[i]) + [n])
    {
      assert Path(table[i]) == Path(r[i]);
      assert Knows(table, Path(table[i]) + [n]);
    }
  }

  lemma AnswerFull(t: Network, ids: seq<Identity>, sent: set<(nat, seq<byte>)>, m: Machine, f: Flight<Body>)
    requires WellFormed(t) && Small(t) && |ids| == |t.nodes| && PacketOk(t, ids, sent, f)
    requires TableOk(t, ids, f.at, m.table) && f.packet.body.Discover?
    ensures var answers := Handle(f.at, m, Config(t, f.at), f.via, f.packet).1;
      forall i :: 0 <= i < |answers| ==> PacketFull(t, Fly(t, f.at, answers)[i])
  {
    var table := HandleDiscover(m.table, f.via, f.packet.src, f.packet.body.a);
    HandleDiscoverOk(t, ids, f.at, m.table, f.via, f.packet.src, f.packet.body.a);
    AnswersOf(f.at, m, Config(t, f.at), f.via, f.packet);
    var answers := Handle(f.at, m, Config(t, f.at), f.via, f.packet).1;
    if answers != [] {
      var i := NodeForAddr(table, f.via, f.packet.src);
      NotOwnEntry(t, ids, f.at, table, f.via, f.packet.src);
      SendDiscoverFull(t, ids, f.at, table, table[i]);
      assert answers == [SendDiscover(f.at, table, Config(t, f.at), table[i])];
    }
  }

  /** A machine answers at most the sender, by the sender's entry. */
  lemma AnswersOf(u: nat, m: Machine, config: seq<nat>, via: byte, p: Packet<Body>)
    requires m.table != [] && ValidConfig(config) && p.body.Discover?
    ensures var answers, table := Handle(u, m, config, via, p).1, HandleDiscover(m.table, via, p.src, p.body.a);
      var i := NodeForAddr(table, via, p.src);
      answers == [] || (i >= 0 && table != [] && answers == [SendDiscover(u, table, config, table[i])])
  {
  }

  lemma NotOwnEntry(t: Network, ids: seq<Identity>, u: nat, table: Table, hop: byte, src: Addr)
    requires TableOk(t, ids, u, table) && hop != 0 && NodeForAddr(table, hop, src) >= 0
    ensures EntryOk(t, ids, u, table[NodeForAddr(table, hop, src)])
  {
  }

  lemma OwnFlagsKeepComplete(t: Network, s: State, u: nat, flags: Flags)
    requires Complete(t, s) && u < |s.machines| && s.machines[u].table != []
    ensures Complete(t, SetOwnFlags(s, u, flags))
  {
    var table := s.machines[u].table;
    var r := table[0 := table[0].(flags := flags)];
    assert forall i :: 1 <= i < |table| ==> r[i] == table[i];
    forall p | Knows(table, p) ensures Knows(r, p) {
      var i :| 1 <= i < |table| && Path(table[i]) == p;
      assert Path(r[i]) == p;
    }
    assert Closed(t, u, r);
  }

  lemma LaunchesKeepComplete(t: Network, s: State, more: seq<Flight<Body>>, sent: set<(nat, seq<byte>)>)
    requires Complete(t, s) && forall i :: 0 <= i < |more| ==> PacketFull(t, more[i])
    ensures Complete(t, Launches(s, more).(sent := sent))
  {
  }

  lemma AnnounceKeepsComplete(t: Network, ids: seq<Identity>, s: State, u: nat, i: nat)
    requires Small(t) && Inv(t, ids, s) && Complete(t, s) && Enabled(t, s, Announce(u, i))
    ensures Complete(t, Next(t, s, Announce(u, i)))
  {
    var table := s.machines[u].table;
    SendDiscoverFull(t, ids, u, table, table[i]);
    LaunchesKeepComplete(t, s, Fly(t, u, [SendDiscover(u, table, Config(t, u), table[i])]), s.sent);
  }

  lemma LoseKeepsComplete(t: Network, s: State, k: nat)
    requires Complete(t, s) && k < |s.flight|
    ensures Complete(t, s.(flight := Remove(s.flight, k)))
  {
    assert forall i :: 0 <= i < |s.flight| - 1 ==> Remove(s.flight, k)[i] == s.flight[if i < k then i else i + 1];
  }

  lemma SetMachineKeepsComplete(t: Network, s: State, u: nat, m: Machine)
    requires Complete(t, s) && u < |s.machines| && Closed(t, u, m.table)
    ensures Complete(t, s.(machines := s.machines[u := m]))
  {
  }

  lemma ReadKeepsComplete(t: Network, ids: seq<Identity>, s: State, k: nat)
    requires Small(t) && Inv(t, ids, s) && Complete(t, s) && k < |s.flight| && s.flight[k].at < |s.machines|
    ensures Complete(t, ReadBy(t, s, k))
  {
    var f := s.flight[k];
    var u, m := f.at, s.machines[f.at];
    if IsLocal(f.packet) { HandleCloses(t, ids, s.sent, m, f); }
    var (n, answers) := if IsLocal(f.packet) then Handle(u, m, Config(t, u), f.via, f.packet) else (m, []);
    LoseKeepsComplete(t, s, k);
    var s1 := s.(flight := Remove(s.flight, k));
    SetMachineKeepsComplete(t, s1, u, n);
    var s2 := s1.(machines := s.machines[u := n]);
    forall i | 0 <= i < |Onward(t, f)| ensures PacketFull(t, Onward(t, f)[i]) { PassedOnFull(t, ids, s.sent, f, i); }
    LaunchesKeepComplete(t, s2, Onward(t, f), s.sent);
    LaunchesKeepComplete(t, Launches(s2, Onward(t, f)), Fly(t, u, answers), s.sent);
  }

  lemma NextKeepsComplete(t: Network, ids: seq<Identity>, s: State, step: Step)
    requires Small(t) && Inv(t, ids, s) && Complete(t, s) && Enabled(t, s, step)
    ensures Complete(t, Next(t, s, step))
  {
    match step
    case Announce(u, i) => AnnounceKeepsComplete(t, ids, s, u, i);
    case SendTo(u, i, bytes) =>
      LaunchesKeepComplete(t, s, Fly(t, u, [ToEntry(s.machines[u].table[i], DATA, Data(u, bytes))]), s.sent + {(u, bytes)});
    case SendToAll(u, bytes) =>
      LaunchesKeepComplete(t, s, BroadcastLaunch(t, u, Data(u, bytes)), s.sent + {(u, bytes)});
    case Quit(u) => LaunchesKeepComplete(t, s, QuitLaunch(t, u), s.sent + {(u, [])});
    case MarkReady(u) => OwnFlagsKeepComplete(t, s, u, s.machines[u].table[0].flags.(ready := true));
    case MarkLaunched(u) => OwnFlagsKeepComplete(t, s, u, s.machines[u].table[0].flags.(launched := true));
    case Read(k) => ReadKeepsComplete(t, ids, s, k);
    case Lose(k) => LoseKeepsComplete(t, s, k);
    case Repeat(k) => LaunchesKeepComplete(t, s, [s.flight[k]], s.sent);
  }

  lemma {:induction false} RunKeepsComplete(t: Network, ids: seq<Identity>, s: State, steps: seq<Step>)
    requires Small(t) && Inv(t, ids, s) && Complete(t, s) && Possible(t, s, steps)
    ensures Inv(t, ids, After(t, s, steps)) && Complete(t, After(t, s, steps))
    decreases steps
  {
    if steps == [] {
    } else {
      NextKeepsInv(t, ids, s, steps[0]);
      NextKeepsComplete(t, ids, s, steps[0]);
      RunKeepsComplete(t, ids, Next(t, s, steps[0]), steps[1..]);
    }
  }

  // What a machine that is ready knows.

  lemma {:induction false} KnowsEveryWalk(t: Network, ids: seq<Identity>, u: nat, table: Table, w: Walk)
    requires WellFormed(t) && TableOk(t, ids, u, table) && Closed(t, u, table) && AllAnnounced(table)
    requires Legal(t, u, NO_DRIVER, w) && 1 <= |w| <= MAX_WALK
    ensures Knows(table, w)
    decreases w
  {
    LastHop(t, u, NO_DRIVER, w);
    var p, n := w[..|w| - 1], w[|w| - 1];
    if p == [] {
      assert w == [n];
    } else {
      KnowsEveryWalk(t, ids, u, table, p);
      var i :| 1 <= i < |table| && Path(table[i]) == p;
      assert Path(table[i]) + [n] == w;
    }
  }

  /** The machine that an entry stands for. */
  function MachineOf(t: Network, u: nat, table: Table, i: nat): nat
    requires i < |table|
  {
    if i == 0 then u else End(t, u, Path(table[i]))
  }

  /** Its entries are exactly the machines within five links, each once, as they truly are. */
  ghost predicate Exact(t: Network, ids: seq<Identity>, u: nat, table: Table) {
    && 1 <= |table| <= MAXNETNODES && u < |ids|
    && (forall i :: 0 <= i < |table| ==>
          MachineOf(t, u, table, i) < |ids|
          && Describes(ids[MachineOf(t, u, table, i)], table[i].flags, table[i].stationId))
    && (forall i, j :: 0 <= i < j < |table| ==> MachineOf(t, u, table, i) != MachineOf(t, u, table, j))
    && (forall v: nat, w: Walk {:trigger Reachable(t, u, v, w)} :: Reachable(t, u, v, w) ==>
          exists i :: 0 <= i < |table| && MachineOf(t, u, table, i) == v)
  }

  lemma ReadyIsExact(t: Network, ids: seq<Identity>, u: nat, table: Table)
    requires WellFormed(t) && Small(t) && |ids| == |t.nodes|
    requires TableOk(t, ids, u, table) && Closed(t, u, table) && AllAnnounced(table)
    ensures Exact(t, ids, u, table)
  {
    forall i, j | 0 <= i < j < |table| ensures MachineOf(t, u, table, i) != MachineOf(t, u, table, j) {
      if MachineOf(t, u, table, i) == MachineOf(t, u, table, j) {
        UniqueWalk(t, u, if i == 0 then [] else Path(table[i]), Path(table[j]));
        if i > 0 { PathsDistinct(t, ids, u, table, i, j); }
      }
    }
    forall v: nat, w: Walk | Reachable(t, u, v, w)
      ensures exists i :: 0 <= i < |table| && MachineOf(t, u, table, i) == v
    {
      KnowsEveryWalk(t, ids, u, table, w);
      var i :| 1 <= i < |table| && Path(table[i]) == w;
      assert MachineOf(t, u, table, i) == v;
    }
  }

  lemma StartComplete(t: Network, ids: seq<Identity>)
    requires WellFormed(t) && Small(t) && |ids| == |t.nodes|
    ensures Inv(t, ids, Start(t, ids)) && Complete(t, Start(t, ids))
  {
    var s0 := Start(t, ids);
    DiscoverySound(t, ids, [], s0);
    forall v | 0 <= v < |t.nodes| ensures Closed(t, v, s0.machines[v].table) {
      forall n: byte | ValidHop(t, v, n) ensures Knows(s0.machines[v].table, [n]) {
        ImmediateAll(t, ids, v, n);
      }
    }
  }

  /** In every run on an acyclic network of at most 16 machines, a machine that has heard from every
      entry of its table knows exactly the machines within five links, each once. */
  lemma DiscoveryComplete(t: Network, ids: seq<Identity>, steps: seq<Step>, s: State, u: nat)
    requires WellFormed(t) && Small(t) && |ids| == |t.nodes|
    requires Possible(t, Start(t, ids), steps) && s == After(t, Start(t, ids), steps)
    requires u < |s.machines| && AllAnnounced(s.machines[u].table)
    ensures Exact(t, ids, u, s.machines[u].table)
  {
    StartComplete(t, ids);
    RunKeepsComplete(t, ids, Start(t, ids), steps);
    ReadyIsExact(t, ids, u, s.machines[u].table);
  }
}
