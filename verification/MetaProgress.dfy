/** On an acyclic network of at most 16 machines discovery can always be finished: from every state that can
    be reached, announcing and reading leads to one in which every machine has heard from everyone. */
module MetaProgress {
  import opened Bytes
  import opened DoomNet
  import opened Sequences
  import opened Topology
  import opened MetaRouting
  import opened MetaForwarding
  import opened MetaPaths
  import opened MetaTable
  import opened MetaDiscovery
  import opened MetaComplete

  /** The machine at the end of this walk has announced itself. */
  ghost predicate HeardFrom(table: Table, p: Walk) {
    exists i :: 1 <= i < |table| && Path(table[i]) == p && table[i].flags.gotDiscover
  }

  ghost predicate KeepsHeard(before: Table, after: Table) {
    forall p :: HeardFrom(before, p) ==> HeardFrom(after, p)
  }

  lemma SucceedsKeepsHeard(before: Table, after: Table, sender: Walk)
    requires Succeeds(before, after, sender)
    ensures KeepsHeard(before, after)
  {
    forall p | HeardFrom(before, p) ensures HeardFrom(after, p) {
      var i :| 1 <= i < |before| && Path(before[i]) == p && before[i].flags.gotDiscover;
      assert Matches(after[i], before[i].firstHop, before[i].addr);
      assert Path(after[i]) == p;
    }
  }

  /** A machine that is ready, or has launched, has heard from everyone. */
  ghost predicate Settled(s: State) {
    forall u :: 0 <= u < |s.machines| && s.machines[u].table != [] ==> SettledAt(s.machines[u].table)
  }

  predicate SettledAt(table: Table)
    requires table != []
  {
    table[0].flags.ready || table[0].flags.launched ==> AllAnnounced(table)
  }

  ghost predicate Sound(t: Network, ids: seq<Identity>, s: State) {
    WellFormed(t) && Small(t) && Inv(t, ids, s) && Complete(t, s) && Settled(s)
  }

  /** Once everyone in a table has announced itself, that stays so: there is nobody left to be added. */
  lemma StaysAnnounced(t: Network, ids: seq<Identity>, u: nat, table: Table, r: Table)
    requires WellFormed(t) && TableOk(t, ids, u, table) && Closed(t, u, table) && AllAnnounced(table)
    requires TableOk(t, ids, u, r) && KeepsHeard(table, r)
    ensures AllAnnounced(r)
  {
    forall i | 1 <= i < |r| ensures r[i].flags.gotDiscover {
      EntryLegal(t, ids, u, r, i);
      KnowsEveryWalk(t, ids, u, table, Path(r[i]));
      assert HeardFrom(table, Path(r[i]));
      OnlyEntry(t, ids, u, r, i);
    }
  }

  lemma OnlyEntry(t: Network, ids: seq<Identity>, u: nat, r: Table, i: nat)
    requires TableOk(t, ids, u, r) && 1 <= i < |r| && HeardFrom(r, Path(r[i]))
    ensures r[i].flags.gotDiscover
  {
    var j :| 1 <= j < |r| && Path(r[j]) == Path(r[i]) && r[j].flags.gotDiscover;
    if i < j { PathsDistinct(t, ids, u, r, i, j); }
    if j < i { PathsDistinct(t, ids, u, r, j, i); }
  }

  /** What a machine does with a packet loses nothing that it has heard. */
  lemma HandleKeepsHeard(t: Network, ids: seq<Identity>, sent: set<(nat, seq<byte>)>, m: Machine, f: Flight<Body>)
    requires WellFormed(t) && |ids| == |t.nodes| && PacketOk(t, ids, sent, f) && TableOk(t, ids, f.at, m.table)
    ensures var n := Handle(f.at, m, Config(t, f.at), f.via, f.packet).0;
      && KeepsHeard(m.table, n.table) && n.table != []
      && n.table[0].flags.ready == m.table[0].flags.ready && n.table[0].flags.launched == m.table[0].flags.launched
  {
    if f.packet.kind == DISCOVER && f.packet.body.Discover? {
      HandleDiscoverOk(t, ids, f.at, m.table, f.via, f.packet.src, f.packet.body.a);
      SucceedsKeepsHeard(m.table, HandleDiscover(m.table, f.via, f.packet.src, f.packet.body.a), [f.via] + Strip(f.packet.src));
    } else if f.packet.kind == QUIT {
      QuitKeepsHeard(t, ids, f.at, m.table, f.via, f.packet.src);
    }
  }

  lemma QuitKeepsHeard(t: Network, ids: seq<Identity>, u: nat, table: Table, hop: byte, src: Addr)
    requires TableOk(t, ids, u, table)
    ensures var r := NodeQuit(table, hop, src);
      && KeepsHeard(table, r) && r[0].flags.ready == table[0].flags.ready && r[0].flags.launched == table[0].flags.launched
  {
    QuitKeeps(t, ids, u, table, hop, src);
    var r := NodeQuit(table, hop, src);
    forall p | HeardFrom(table, p) ensures HeardFrom(r, p) {
      var i :| 1 <= i < |table| && Path(table[i]) == p && table[i].flags.gotDiscover;
      assert Path(r[i]) == p && r[i].flags.gotDiscover;
    }
  }

  lemma ReadKeepsSettled(t: Network, ids: seq<Identity>, s: State, k: nat)
    requires Sound(t, ids, s) && k < |s.flight| && s.flight[k].at < |s.machines|
    ensures Settled(ReadBy(t, s, k))
  {
    var f := s.flight[k];
    var u, m := f.at, s.machines[f.at];
    var r := ReadBy(t, s, k);
    ReadKeepsInv(t, ids, s, k);
    if IsLocal(f.packet) { HandleKeepsHeard(t, ids, s.sent, m, f); }
    if r.machines[u].table[0].flags.ready || r.machines[u].table[0].flags.launched {
      StaysAnnounced(t, ids, u, m.table, r.machines[u].table);
    }
  }

  lemma NextKeepsSettled(t: Network, ids: seq<Identity>, s: State, step: Step)
    requires Sound(t, ids, s) && Enabled(t, s, step)
    ensures Settled(Next(t, s, step))
  {
    match step
    case Read(k) => ReadKeepsSettled(t, ids, s, k);
    case MarkReady(u) => FlagsKeepSettled(s, u, s.machines[u].table[0].flags.(ready := true));
    case MarkLaunched(u) => FlagsKeepSettled(s, u, s.machines[u].table[0].flags.(launched := true));
    case _ =>
  }

  lemma FlagsKeepSettled(s: State, u: nat, flags: Flags)
    requires Settled(s) && u < |s.machines| && s.machines[u].table != [] && AllAnnounced(s.machines[u].table)
    requires flags.gotDiscover
    ensures Settled(SetOwnFlags(s, u, flags))
  {
  }

  lemma NextKeepsSound(t: Network, ids: seq<Identity>, s: State, step: Step)
    requires Sound(t, ids, s) && Enabled(t, s, step)
    ensures Sound(t, ids, Next(t, s, step))
  {
    NextKeepsInv(t, ids, s, step);
    NextKeepsComplete(t, ids, s, step);
    NextKeepsSettled(t, ids, s, step);
  }

  lemma {:induction false} RunKeepsSound(t: Network, ids: seq<Identity>, s: State, steps: seq<Step>)
    requires Sound(t, ids, s) && Possible(t, s, steps)
    ensures Sound(t, ids, After(t, s, steps))
    decreases |steps|
  {
    if steps == [] {
    } else {
      NextKeepsSound(t, ids, s, steps[0]);
      RunKeepsSound(t, ids, Next(t, s, steps[0]), steps[1..]);
    }
  }

  // Messages on their way.

  /** Only announcing and reading leads from `s` to `r`. */
  ghost predicate Leads(t: Network, s: State, steps: seq<Step>, r: State)
    requires WellFormed(t)
  {
    Possible(t, s, steps) && After(t, s, steps) == r && forall i :: 0 <= i < |steps| ==> steps[i].Announce? || steps[i].Read?
  }

  lemma OneStep(t: Network, s: State, step: Step)
    requires Shape(t, s) && Enabled(t, s, step) && (step.Announce? || step.Read?)
    ensures Leads(t, s, [step], Next(t, s, step))
  {
    assert [step][1..] == [];
    assert Possible(t, Next(t, s, step), []);
  }

  lemma {:induction false} LeadsOn(t: Network, s: State, a: seq<Step>, m: State, b: seq<Step>, r: State)
    requires WellFormed(t) && Leads(t, s, a, m) && Leads(t, m, b, r)
    ensures Leads(t, s, a + b, r)
    decreases |a|
  {
    if a == [] {
      NothingAdded(b);
    } else {
      assert forall i :: 0 <= i < |a| - 1 ==> a[1..][i] == a[i + 1];
      LeadsOn(t, Next(t, s, a[0]), a[1..], m, b, r);
      FirstOfTwo(a, b);
      assert forall i :: 0 <= i < |a + b| ==> (a + b)[i] == if i < |a| then a[i] else b[i - |a|];
    }
  }

  /** A message last in flight is passed on along its path until it has only to be read. */
  lemma {:induction false} Travels(t: Network, s: State, fl: seq<Flight<Body>>, u: nat, kind: nat, w: Walk, r: Walk,
                                    all: Walk, body: Body)
    returns (steps: seq<Step>)
    requires Shape(t, s) && w != [] && |all| <= MAX_WALK && Legal(t, u, NO_DRIVER, all) && all == w + r
    requires s.flight == fl + [OnTheWay(t, u, kind, w, r, body)]
    ensures Leads(t, s, steps, s.(flight := fl + [OnTheWay(t, u, kind, all, [], body)]))
    decreases r
  {
    if r == [] {
      NothingAdded(w);
      steps := [];
    } else {
      Hop(t, s, fl, u, kind, w, r, body);
      OneAndRest(r);
      Associative(w, [r[0]], r[1..]);
      var next := s.(flight := fl + [OnTheWay(t, u, kind, w + [r[0]], r[1..], body)]);
      var rest := Travels(t, next, fl, u, kind, w + [r[0]], r[1..], all, body);
      LeadsOn(t, s, [Read(|fl|)], next, rest, s.(flight := fl + [OnTheWay(t, u, kind, all, [], body)]));
      steps := [Read(|fl|)] + rest;
    }
  }

  /** One hop of it. */
  lemma Hop(t: Network, s: State, fl: seq<Flight<Body>>, u: nat, kind: nat, w: Walk, r: Walk, body: Body)
    requires Shape(t, s) && w != [] && r != [] && |w| + |r| <= MAX_WALK && Legal(t, u, NO_DRIVER, w + r)
    requires s.flight == fl + [OnTheWay(t, u, kind, w, r, body)]
    ensures Leads(t, s, [Read(|fl|)], s.(flight := fl + [OnTheWay(t, u, kind, w + [r[0]], r[1..], body)]))
  {
    var f := OnTheWay(t, u, kind, w, r, body);
    PathStep(t, u, kind, w, r, body);
    SplitWalk(t, u, w, r);
    WalkEndsAtMachine(t, u, w);
    LastTaken(fl, f);
    var next := ReadBy(t, s, |fl|);
    assert s.machines[f.at := s.machines[f.at]] == s.machines;
    NothingAdded(fl + Onward(t, f));
    assert next == s.(flight := fl + Onward(t, f));
    OneStep(t, s, Read(|fl|));
  }

  lemma LastTaken<T>(fl: seq<T>, f: T)
    ensures Remove(fl + [f], |fl|) == fl
  {
  }

  /** At the end of its path it is read. */
  lemma Arrives(t: Network, s: State, fl: seq<Flight<Body>>, u: nat, kind: nat, p: Walk, body: Body, m: Machine,
                answers: seq<Send<Body>>)
    requires Shape(t, s) && p != [] && |p| <= MAX_WALK && Legal(t, u, NO_DRIVER, p) && End(t, u, p) < |s.machines|
    requires s.flight == fl + [OnTheWay(t, u, kind, p, [], body)]
    requires var v, back := End(t, u, p), Reverse(t, u, p);
      (m, answers) == Handle(v, s.machines[v], Config(t, v), back[0], Packet(kind, Pad(back[1..]), NO_HOPS, body))
    ensures var v := End(t, u, p);
      Leads(t, s, [Read(|fl|)], s.(machines := s.machines[v := m], flight := fl + Fly(t, v, answers)))
  {
    var f := OnTheWay(t, u, kind, p, [], body);
    NothingAdded(p);
    PathStep(t, u, kind, p, [], body);
    LastTaken(fl, f);
    assert Pad([]) == NO_HOPS;
    NothingAdded(fl);
    OneStep(t, s, Read(|fl|));
  }

  /** Talking loses nothing that anyone has heard, and nobody launches meanwhile. */
  ghost predicate Gains(s: State, r: State) {
    && |s.machines| == |r.machines|
    && forall u :: 0 <= u < |s.machines| ==>
         KeepsHeard(s.machines[u].table, r.machines[u].table) && Launched(r, u) == Launched(s, u)
  }

  lemma ReadGains(t: Network, ids: seq<Identity>, s: State, k: nat)
    requires Sound(t, ids, s) && k < |s.flight| && s.flight[k].at < |s.machines|
    ensures Gains(s, ReadBy(t, s, k))
  {
    var f := s.flight[k];
    if IsLocal(f.packet) { HandleKeepsHeard(t, ids, s.sent, s.machines[f.at], f); }
  }

  lemma {:induction false} LeadsGains(t: Network, ids: seq<Identity>, s: State, steps: seq<Step>, r: State)
    requires Sound(t, ids, s) && Leads(t, s, steps, r)
    ensures Sound(t, ids, r) && Gains(s, r)
    decreases |steps|
  {
    if steps == [] {
    } else {
      var next := Next(t, s, steps[0]);
      NextKeepsSound(t, ids, s, steps[0]);
      assert steps[0].Announce? || steps[0].Read?;
      assert forall i :: 0 <= i < |steps| - 1 ==> steps[1..][i] == steps[i + 1];
      if steps[0].Read? { ReadGains(t, ids, s, steps[0].k); }
      LeadsGains(t, ids, next, steps[1..], r);
    }
  }

  // What a message achieves.

  /** Its sender has now been heard from, unless it is only answered: then the answer goes to the sender. */
  lemma HeardOrAnswered(t: Network, ids: seq<Identity>, v: nat, m: Machine, back: Walk, body: Body)
    requires WellFormed(t) && Small(t) && |ids| == |t.nodes| && TableOk(t, ids, v, m.table) && body.Discover?
    requires back != [] && |back| <= MAX_WALK && Padded(Pad(back[1..])) && Strip(Pad(back[1..])) == back[1..]
    requires AnnouncementOk(t, ids, v, back, body.a) && |body.a.neighbors| <= MAXNETNODES && back[0] != 0
    ensures var (n, answers) := Handle(v, m, Config(t, v), back[0], Packet(DISCOVER, Pad(back[1..]), NO_HOPS, body));
      if AnswersOnly(m.table, body.a) then
        var i := NodeForAddr(n.table, back[0], Pad(back[1..]));
        && 1 <= i < |n.table| && Path(n.table[i]) == back && Padded(n.table[i].addr)
        && n.table[0] == m.table[0] && answers == [SendDiscover(v, n.table, Config(t, v), n.table[i])]
      else HeardFrom(n.table, back)
  {
    OneAndRest(back);
    var src := Pad(back[1..]);
    SmallIsRoomy(t, ids, v);
    assert HasRoom(m.table, back);
    HandleDiscoverOk(t, ids, v, m.table, back[0], src, body.a);
    MarkedOk(t, ids, v, m.table, back[0], src, body.a);
    if AnswersOnly(m.table, body.a) {
      var n := HandleDiscover(m.table, back[0], src, body.a);
      assert n == NodeOrAddNode(m.table, back[0], src);
    } else {
      MarkedHeard(t, ids, v, m.table, back, body.a);
    }
  }

  lemma MarkedHeard(t: Network, ids: seq<Identity>, v: nat, table: Table, back: Walk, a: Announcement)
    requires WellFormed(t) && |ids| == |t.nodes| && TableOk(t, ids, v, table) && !AnswersOnly(table, a)
    requires back != [] && |back| <= MAX_WALK && Padded(Pad(back[1..])) && back == [back[0]] + Strip(Pad(back[1..]))
    requires AnnouncementOk(t, ids, v, back, a) && |a.neighbors| <= MAXNETNODES && HasRoom(table, back)
    ensures HeardFrom(HandleDiscover(table, back[0], Pad(back[1..]), a), back)
  {
    var src := Pad(back[1..]);
    MarkedOk(t, ids, v, table, back[0], src, a);
    var m := Marked(table, back[0], src, a);
    AddedOk(t, ids, v, table, back[0], src);
    var i := NodeForAddr(NodeOrAddNode(table, back[0], src), back[0], src);
    assert m[i].flags.gotDiscover && Path(m[i]) == back;
    assert HeardFrom(m, back);
    LearnOk(t, ids, v, m, back[0], src, a.neighbors, |a.neighbors|);
    var r := Learn(m, back[0], src, a.neighbors, |a.neighbors|);
    ExtensionSucceeds(m, r, back);
    SucceedsKeepsHeard(m, r, back);
    HandledCases(table, back[0], src, a);
  }

  /** The way back from the end of a walk, spelled as a hop and an address. */
  lemma BackSpelled(t: Network, u: nat, p: Walk)
    requires WellFormed(t) && p != [] && |p| <= MAX_WALK && Legal(t, u, NO_DRIVER, p)
    ensures var back := Reverse(t, u, p);
      && Legal(t, End(t, u, p), NO_DRIVER, back) && End(t, End(t, u, p), back) == u && Reverse(t, End(t, u, p), back) == p
      && back[0] != 0 && Padded(Pad(back[1..])) && [back[0]] + Strip(Pad(back[1..])) == back && Strip(Pad(back[1..])) == back[1..]
  {
    var back := Reverse(t, u, p);
    ReverseIsWayBack(t, u, NO_DRIVER, p);
    LegalHopsNotZero(t, End(t, u, p), NO_DRIVER, back);
    PaddedPad(back[1..]);
    OneAndRest(back);
  }

  /** A message on its way along a path is read at its end, and what it says is taken in or answered. */
  lemma Tells(t: Network, ids: seq<Identity>, s: State, fl: seq<Flight<Body>>, u: nat, p: Walk, a: Announcement)
    returns (steps: seq<Step>, m: Machine, answers: seq<Send<Body>>)
    requires Sound(t, ids, s) && u < |t.nodes| && p != [] && |p| <= MAX_WALK && Legal(t, u, NO_DRIVER, p)
    requires s.flight == fl + [OnTheWay(t, u, DISCOVER, p[..1], p[1..], Discover(u, a))]
    ensures End(t, u, p) < |s.machines| && m.table != []
    ensures var v, back := End(t, u, p), Reverse(t, u, p);
      && Leads(t, s, steps, s.(machines := s.machines[v := m], flight := fl + Fly(t, v, answers)))
      && if AnswersOnly(s.machines[v].table, a) then
           var i := NodeForAddr(m.table, back[0], Pad(back[1..]));
           && 1 <= i < |m.table| && Path(m.table[i]) == back && Padded(m.table[i].addr)
           && m.table[0] == s.machines[v].table[0] && answers == [SendDiscover(v, m.table, Config(t, v), m.table[i])]
         else HeardFrom(m.table, back)
  {
    var v, back, body := End(t, u, p), Reverse(t, u, p), Discover(u, a);
    WalkEndsAtMachine(t, u, p);
    assert p[..1] + p[1..] == p;
    var go := Travels(t, s, fl, u, DISCOVER, p[..1], p[1..], p, body);
    var f := OnTheWay(t, u, DISCOVER, p, [], body);
    var mid := s.(flight := fl + [f]);
    LeadsGains(t, ids, s, go, mid);
    BackSpelled(t, u, p);
    assert mid.flight[|fl|] == f && PacketOk(t, ids, mid.sent, f);
    HeardOrAnswered(t, ids, v, s.machines[v], back, body);
    var h := Handle(v, s.machines[v], Config(t, v), back[0], Packet(DISCOVER, Pad(back[1..]), NO_HOPS, body));
    m, answers := h.0, h.1;
    Arrives(t, mid, fl, u, DISCOVER, p, body, m, answers);
    LeadsOn(t, s, go, mid, [Read(|fl|)], s.(machines := s.machines[v := m], flight := fl + Fly(t, v, answers)));
    steps := go + [Read(|fl|)];
  }

  /** What is sent by an entry starts out along the entry's path. */
  lemma StartsOut(t: Network, u: nat, e: NodeData, body: Body)
    requires Padded(e.addr)
    ensures var p := Path(e);
      |p| <= MAX_WALK && Fly(t, u, [ToEntry(e, DISCOVER, body)]) == [OnTheWay(t, u, DISCOVER, p[..1], p[1..], body)]
  {
    var p := Path(e);
    assert p[1..] == Strip(e.addr);
    LaunchIsOnTheWay(t, u, DISCOVER, p, body);
  }

  /** An announcement goes out along an entry's path and is read at its end. */
  lemma Announces(t: Network, ids: seq<Identity>, s: State, u: nat, i: nat, p: Walk, a: Announcement)
    returns (steps: seq<Step>, m: Machine, answers: seq<Send<Body>>)
    requires Sound(t, ids, s) && Enabled(t, s, Announce(u, i)) && p == Path(s.machines[u].table[i])
    requires a == AnnouncementFor(s.machines[u].table, Config(t, u), s.machines[u].table[i].firstHop)
    ensures |p| <= MAX_WALK && Legal(t, u, NO_DRIVER, p) && End(t, u, p) < |s.machines| && m.table != []
    ensures var v, back := End(t, u, p), Reverse(t, u, p);
      && Leads(t, s, steps, s.(machines := s.machines[v := m], flight := s.flight + Fly(t, v, answers)))
      && if AnswersOnly(s.machines[v].table, a) then
           var j := NodeForAddr(m.table, back[0], Pad(back[1..]));
           && 1 <= j < |m.table| && Path(m.table[j]) == back && Padded(m.table[j].addr)
           && m.table[0] == s.machines[v].table[0] && answers == [SendDiscover(v, m.table, Config(t, v), m.table[j])]
         else HeardFrom(m.table, back)
  {
    var table := s.machines[u].table;
    EntryLegal(t, ids, u, table, i);
    StartsOut(t, u, table[i], Discover(u, a));
    OneStep(t, s, Announce(u, i));
    NextKeepsSound(t, ids, s, Announce(u, i));
    var next, go := Next(t, s, Announce(u, i)), [];
    go, m, answers := Tells(t, ids, next, s.flight, u, p, a);
    var v := End(t, u, p);
    LeadsOn(t, s, [Announce(u, i)], next, go, s.(machines := s.machines[v := m], flight := s.flight + Fly(t, v, answers)));
    steps := [Announce(u, i)] + go;
  }

  /** The answer of a machine that has launched. */
  lemma Answered(t: Network, ids: seq<Identity>, s: State, told: State, u: nat, p: Walk, v: nat, m: Machine)
    returns (steps: seq<Step>, r: State)
    requires Sound(t, ids, told) && |s.machines| == |told.machines| == |t.nodes|
    requires u < |t.nodes| && p != [] && |p| <= MAX_WALK && Legal(t, u, NO_DRIVER, p) && End(t, u, p) == v < |t.nodes|
    requires told.machines[u] == s.machines[u] && s.machines[u].table != [] && !s.machines[u].table[0].flags.launched
    requires m.table != [] && m.table[0].flags.launched
    requires var back := Reverse(t, u, p);
      var i := NodeForAddr(m.table, back[0], Pad(back[1..]));
      && 1 <= i < |m.table| && Path(m.table[i]) == back && Padded(m.table[i].addr)
      && told.flight == s.flight + Fly(t, v, [SendDiscover(v, m.table, Config(t, v), m.table[i])])
    ensures Leads(t, told, steps, r) && |r.machines| == |told.machines| && HeardFrom(r.machines[u].table, p)
  {
    var back := Reverse(t, u, p);
    var e := m.table[NodeForAddr(m.table, back[0], Pad(back[1..]))];
    var a := AnnouncementFor(m.table, Config(t, v), e.firstHop);
    BackSpelled(t, u, p);
    StartsOut(t, v, e, Discover(v, a));
    var n, answers;
    steps, n, answers := Tells(t, ids, told, s.flight, v, back, a);
    r := told.(machines := told.machines[u := n], flight := s.flight + Fly(t, u, answers));
  }

  /** An announcement along an entry's path makes the machine at its end hear from us; or if that has launched
      already, its answer makes us hear from it. */
  lemma Told(t: Network, ids: seq<Identity>, s: State, u: nat, i: nat, p: Walk) returns (steps: seq<Step>, r: State)
    requires Sound(t, ids, s) && Enabled(t, s, Announce(u, i)) && p == Path(s.machines[u].table[i])
    ensures Leads(t, s, steps, r)
    ensures End(t, u, p) < |s.machines| && |r.machines| == |s.machines|
    ensures if Launched(s, End(t, u, p)) then HeardFrom(r.machines[u].table, p)
            else HeardFrom(r.machines[End(t, u, p)].table, Reverse(t, u, p))
  {
    var table := s.machines[u].table;
    var a := AnnouncementFor(table, Config(t, u), table[i].firstHop);
    var m, answers;
    steps, m, answers := Announces(t, ids, s, u, i, p, a);
    var v := End(t, u, p);
    r := s.(machines := s.machines[v := m], flight := s.flight + Fly(t, v, answers));
    if Launched(s, v) {
      LeadsGains(t, ids, s, steps, r);
      EndsElsewhere(t, u, p);
      var told, back := r, [];
      back, r := Answered(t, ids, s, told, u, p, v, m);
      LeadsOn(t, s, steps, told, back, r);
      steps := steps + back;
    }
  }

  // Hearing from everyone.

  /** A machine that is ready or has launched has heard from every machine within reach. */
  lemma SettledHasHeard(t: Network, ids: seq<Identity>, s: State, u: nat, p: Walk)
    requires Sound(t, ids, s) && u < |s.machines| && AllAnnounced(s.machines[u].table)
    requires 1 <= |p| <= MAX_WALK && Legal(t, u, NO_DRIVER, p)
    ensures HeardFrom(s.machines[u].table, p)
  {
    KnowsEveryWalk(t, ids, u, s.machines[u].table, p);
  }

  /** A machine can be made to hear from any machine within reach. */
  lemma {:induction false} CanHear(t: Network, ids: seq<Identity>, s: State, u: nat, p: Walk) returns (steps: seq<Step>, r: State)
    requires Sound(t, ids, s) && u < |s.machines| && 1 <= |p| <= MAX_WALK && Legal(t, u, NO_DRIVER, p)
    ensures Leads(t, s, steps, r) && |r.machines| == |s.machines| && HeardFrom(r.machines[u].table, p)
    decreases |p|, 1
  {
    var v, back := End(t, u, p), Reverse(t, u, p);
    WalkEndsAtMachine(t, u, p);
    BackSpelled(t, u, p);
    if Launched(s, u) {
      SettledHasHeard(t, ids, s, u, p);
      steps, r := [], s;
    } else if Launched(s, v) {
      steps, r := CanAsk(t, ids, s, u, p);
    } else {
      steps, r := CanAsk(t, ids, s, v, back);
    }
  }

  /** A machine that has not launched can be made to announce itself along a walk, and one of the two then hears
      from the other. */
  lemma {:induction false} CanAsk(t: Network, ids: seq<Identity>, s: State, u: nat, p: Walk) returns (steps: seq<Step>, r: State)
    requires Sound(t, ids, s) && u < |s.machines| && 1 <= |p| <= MAX_WALK && Legal(t, u, NO_DRIVER, p) && !Launched(s, u)
    ensures Leads(t, s, steps, r) && |r.machines| == |s.machines| && End(t, u, p) < |s.machines|
    ensures if Launched(s, End(t, u, p)) then HeardFrom(r.machines[u].table, p)
            else HeardFrom(r.machines[End(t, u, p)].table, Reverse(t, u, p))
    decreases |p|, 0
  {
    WalkEndsAtMachine(t, u, p);
    LastHop(t, u, NO_DRIVER, p);
    var before, m := [], s;
    var q, h := p[..|p| - 1], p[|p| - 1];
    if q != [] {
      before, m := CanHear(t, ids, s, u, q);
    }
    LeadsGains(t, ids, s, before, m);
    assert Knows(m.machines[u].table, p) by {
      if q == [] {
        assert p == [h];
      } else {
        var i :| 1 <= i < |m.machines[u].table| && Path(m.machines[u].table[i]) == q && m.machines[u].table[i].flags.gotDiscover;
        assert Path(m.machines[u].table[i]) + [h] == p;
      }
    }
    var i :| 1 <= i < |m.machines[u].table| && Path(m.machines[u].table[i]) == p;
    var go;
    go, r := Told(t, ids, m, u, i, p);
    LeadsOn(t, s, before, m, go, r);
    steps := before + go;
  }

  /** Machine u has heard from all the first n machines that are within reach. */
  ghost predicate HeardFromFirst(t: Network, u: nat, table: Table, n: nat) {
    forall p: Walk {:trigger HeardFrom(table, p)} ::
      1 <= |p| <= MAX_WALK && Legal(t, u, NO_DRIVER, p) && End(t, u, p) < n ==> HeardFrom(table, p)
  }

  ghost predicate Leading(t: Network, u: nat, v: nat, p: Walk) {
    1 <= |p| <= MAX_WALK && Legal(t, u, NO_DRIVER, p) && End(t, u, p) == v
  }

  lemma {:induction false} CanHearFirst(t: Network, ids: seq<Identity>, s: State, u: nat, n: nat)
    returns (steps: seq<Step>, r: State)
    requires Sound(t, ids, s) && u < |s.machines|
    ensures Leads(t, s, steps, r) && |r.machines| == |s.machines| && HeardFromFirst(t, u, r.machines[u].table, n)
  {
    if n == 0 {
      steps, r := [], s;
    } else {
      var v: nat := n - 1;
      steps, r := CanHearFirst(t, ids, s, u, v);
      LeadsGains(t, ids, s, steps, r);
      if p: Walk :| Leading(t, u, v, p) {
        var m, more := r, [];
        more, r := CanHear(t, ids, m, u, p);
        LeadsGains(t, ids, m, more, r);
        LeadsOn(t, s, steps, m, more, r);
        steps := steps + more;
        OneMoreHeard(t, u, m.machines[u].table, r.machines[u].table, v, p);
      } else {
        NoneThere(t, u, r.machines[u].table, v);
      }
    }
  }

  lemma OneMoreHeard(t: Network, u: nat, before: Table, after: Table, v: nat, p: Walk)
    requires WellFormed(t) && Small(t) && HeardFromFirst(t, u, before, v) && KeepsHeard(before, after)
    requires Leading(t, u, v, p) && HeardFrom(after, p)
    ensures HeardFromFirst(t, u, after, v + 1)
  {
    forall q: Walk | 1 <= |q| <= MAX_WALK && Legal(t, u, NO_DRIVER, q) && End(t, u, q) < v + 1 ensures HeardFrom(after, q) {
      if End(t, u, q) == v {
        UniqueWalk(t, u, p, q);
      } else {
        assert HeardFrom(before, q);
      }
    }
  }

  lemma NoneThere(t: Network, u: nat, table: Table, v: nat)
    requires HeardFromFirst(t, u, table, v) && forall p: Walk :: !Leading(t, u, v, p)
    ensures HeardFromFirst(t, u, table, v + 1)
  {
    forall q: Walk | 1 <= |q| <= MAX_WALK && Legal(t, u, NO_DRIVER, q) && End(t, u, q) < v + 1 ensures HeardFrom(table, q) {
      assert !Leading(t, u, v, q);
    }
  }

  lemma HeardFromAll(t: Network, ids: seq<Identity>, s: State, u: nat)
    requires Sound(t, ids, s) && u < |s.machines| && HeardFromFirst(t, u, s.machines[u].table, |t.nodes|)
    ensures AllAnnounced(s.machines[u].table)
  {
    var table := s.machines[u].table;
    forall i | 1 <= i < |table| ensures table[i].flags.gotDiscover {
      EntryLegal(t, ids, u, table, i);
      WalkEndsAtMachine(t, u, Path(table[i]));
      assert HeardFrom(table, Path(table[i]));
      OnlyEntry(t, ids, u, table, i);
    }
  }

  /** The first n machines have heard from everyone. */
  ghost predicate Finished(s: State, n: nat) {
    forall u :: 0 <= u < n ==> FinishedAt(s, u)
  }

  predicate FinishedAt(s: State, u: nat) { u < |s.machines| && AllAnnounced(s.machines[u].table) }

  lemma StaysFinishedAt(t: Network, ids: seq<Identity>, m: State, r: State, u: nat)
    requires Sound(t, ids, m) && Sound(t, ids, r) && Gains(m, r) && FinishedAt(m, u)
    ensures FinishedAt(r, u)
  {
    StaysAnnounced(t, ids, u, m.machines[u].table, r.machines[u].table);
  }

  /** What the first n - 1 machines had heard they still know when the n-th has heard everything too. */
  lemma StayFinished(t: Network, ids: seq<Identity>, m: State, r: State, n: nat)
    requires Sound(t, ids, m) && Sound(t, ids, r) && Gains(m, r) && 0 < n && Finished(m, n - 1)
    requires FinishedAt(r, n - 1)
    ensures Finished(r, n)
  {
    forall u | 0 <= u < n ensures FinishedAt(r, u) {
      if u < n - 1 { StaysFinishedAt(t, ids, m, r, u); }
    }
  }

  lemma CanFinishOne(t: Network, ids: seq<Identity>, s: State, u: nat) returns (steps: seq<Step>, r: State)
    requires Sound(t, ids, s) && u < |s.machines|
    ensures Leads(t, s, steps, r) && Sound(t, ids, r) && Gains(s, r) && FinishedAt(r, u)
  {
    steps, r := CanHearFirst(t, ids, s, u, |t.nodes|);
    LeadsGains(t, ids, s, steps, r);
    HeardFromAll(t, ids, r, u);
  }

  lemma {:induction false} CanFinishFirst(t: Network, ids: seq<Identity>, s: State, n: nat)
    returns (steps: seq<Step>, r: State)
    requires Sound(t, ids, s) && n <= |s.machines|
    ensures Leads(t, s, steps, r) && |r.machines| == |s.machines|
    ensures Finished(r, n)
  {
    if n == 0 {
      steps, r := [], s;
    } else {
      var m, more;
      steps, m := CanFinishFirst(t, ids, s, n - 1);
      LeadsGains(t, ids, s, steps, m);
      more, r := CanFinishOne(t, ids, m, n - 1);
      LeadsOn(t, s, steps, m, more, r);
      steps := steps + more;
      StayFinished(t, ids, m, r, n);
    }
  }

  /** From every state that a run can reach, whatever has been lost and whoever has launched already, announcing
      and reading can finish discovery: every machine has then heard from every entry of its table, and its
      entries are exactly the machines within five links. */
  lemma DiscoveryCanFinish(t: Network, ids: seq<Identity>, steps: seq<Step>, s: State) returns (more: seq<Step>, r: State)
    requires WellFormed(t) && Small(t) && |ids| == |t.nodes|
    requires Possible(t, Start(t, ids), steps) && s == After(t, Start(t, ids), steps)
    ensures Leads(t, s, more, r) && |r.machines| == |t.nodes|
    ensures forall u :: 0 <= u < |t.nodes| ==> AllAnnounced(r.machines[u].table) && Exact(t, ids, u, r.machines[u].table)
  {
    StartComplete(t, ids);
    RunKeepsSound(t, ids, Start(t, ids), steps);
    more, r := CanFinishFirst(t, ids, s, |s.machines|);
    LeadsGains(t, ids, s, more, r);
    forall u | 0 <= u < |t.nodes| ensures AllAnnounced(r.machines[u].table) && Exact(t, ids, u, r.machines[u].table) {
      assert FinishedAt(r, u);
      ReadyIsExact(t, ids, u, r.machines[u].table);
    }
  }
}
