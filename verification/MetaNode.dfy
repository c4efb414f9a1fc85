/** A whole metanet machine: drivers, node table and the game's buffer, sending and receiving. */
module MetaNode {
  import opened Bytes
  import opened DoomNet
  import opened Sequences
  import opened Topology
  import opened MetaRouting
  import opened MetaTable
  import opened MetaDiscovery
  import opened MetaDriver
  import opened MetaNodes
  import opened MetaMessages
  import MetaDelivery

  /** A packet that has been read, and the driver it was read from. */
  datatype Event = Event(d: nat, r: Received)

  predicate EventOk(config: seq<nat>, e: Event) {
    e.d < |config| && 1 <= e.r.node < config[e.d] && WholeMessage(e.r.frame)
  }

  /** Discover messages come with all their fields. */
  predicate WholeMessage(f: seq<byte>)
    requires |f| >= HEADER
  {
    Magic(f) == DISCOVER ==> |f| >= HEADER + DISCOVER_LEN
  }

  predicate EventsOk(config: seq<nat>, es: seq<Event>) {
    forall i :: 0 <= i < |es| ==> EventOk(config, es[i])
  }

  lemma HandleHasTable(u: nat, m: Machine, config: seq<nat>, via: byte, p: Packet<Body>)
    requires m.table != [] && ValidConfig(config)
    ensures Handle(u, m, config, via, p).0.table != []
  {
    if p.kind == DISCOVER && p.body.Discover? {
      HandleDiscoverGrows(m.table, via, p.src, p.body.a);
    }
  }

  lemma HandleDiscoverGrows(table: Table, via: byte, src: Addr, a: Announcement)
    requires table != []
    ensures |MetaTable.HandleDiscover(table, via, src, a)| >= |table|
  {
    LearnGrows(Marked(table, via, src, a), via, src, a.neighbors, Wrappers.Min(|a.neighbors|, MAXNETNODES));
  }

  lemma {:induction false} LearnGrows(table: Table, via: byte, src: Addr, neighbors: seq<byte>, n: nat)
    requires n <= |neighbors|
    ensures |Learn(table, via, src, neighbors, n)| >= |table|
  {
    if n == 0 {
    } else {
      LearnGrows(table, via, src, neighbors, n - 1);
    }
  }

  /** What a machine makes of a packet it has read, and all it sends. */
  function ReadOne(config: seq<nat>, m: Machine, e: Event): (r: (Machine, seq<Send<Body>>))
    requires ValidConfig(config) && m.table != [] && EventOk(config, e)
    ensures r.0.table != []
  {
    var p := ParseFrame(e.r.frame);
    var via := MakeAddress(e.d, e.r.node);
    if !Accepted(e.r.frame) then (m, [])
    else if !IsLocal(p) then (m, Meanings(ForwardSends(config, via, p)))
    else
      HandleHasTable(0, m, config, via, Meaning(p));
      var (n, answers) := Handle(0, m, config, via, Meaning(p));
      (n, Meanings(ForwardSends(config, via, p)) + answers)
  }

  function ReadAll(config: seq<nat>, m: Machine, es: seq<Event>): (r: (Machine, seq<Send<Body>>))
    requires ValidConfig(config) && m.table != [] && EventsOk(config, es)
    ensures r.0.table != []
  {
    if es == [] then (m, [])
    else
      var (n, sends) := ReadAll(config, m, es[..|es| - 1]);
      var (l, more) := ReadOne(config, n, es[|es| - 1]);
      (l, sends + more)
  }

  lemma ReadAllNext(config: seq<nat>, m: Machine, es: seq<Event>, e: Event)
    requires ValidConfig(config) && m.table != [] && EventsOk(config, es) && EventOk(config, e)
    ensures EventsOk(config, es + [e])
    ensures var (n, sends) := ReadAll(config, m, es);
      var (l, more) := ReadOne(config, n, e);
      ReadAll(config, m, es + [e]) == (l, sends + more)
  {
    assert (es + [e])[..|es|] == es;
  }

  /** A frame with metanet's number for data, and a destination that is empty or the broadcast address. */
  predicate IsDataFrame(f: Frame) {
    && f[0] == 0x40 && f[1] == 0x64 && f[2] == 0xC2 && f[3] == 0x01
    && (f[8] == 0 || f[8] == f[9] == f[10] == f[11] == 0xff)
  }

  /** Entry i is the first for the arrival hop and the source of a frame. */
  predicate ComesFrom(table: Table, i: nat, e: Event) {
    e.d < 8 && e.r.node < 32 && MetaDelivery.IsFrom(table, i, MakeAddress(e.d, e.r.node), e.r.frame[4..8])
  }

  /** What follows the header of such a frame goes to the game, under the entry of its sender, if it has one. */
  lemma GameFrame(config: seq<nat>, m: Machine, e: Event, i: nat)
    requires ValidConfig(config) && m.table != [] && EventOk(config, e) && IsDataFrame(e.r.frame)
    ensures ComesFrom(m.table, i, e) ==>
              ReadOne(config, m, e).0 == Machine(m.table, m.inbox + [Delivery(i, 0, e.r.frame[12..])])
    ensures MetaDelivery.IsStranger(m.table, MakeAddress(e.d, e.r.node), e.r.frame[4..8]) ==> ReadOne(config, m, e).0 == m
  {
    var f := e.r.frame;
    MagicBytes(f);
    assert Magic(f) == DATA;
    assert ParseFrame(f).dest == f[8..12];
    MetaDelivery.DataIsHandedUp(0, m, config, MakeAddress(e.d, e.r.node), f[4..8], f[8..12], 0, f[12..], i);
  }

  lemma {:induction false} InboxGrows(config: seq<nat>, m: Machine, es: seq<Event>, k: nat)
    requires ValidConfig(config) && m.table != [] && EventsOk(config, es) && k <= |es|
    ensures EventsOk(config, es[..k]) && |ReadAll(config, m, es[..k]).0.inbox| <= |ReadAll(config, m, es).0.inbox|
    decreases |es|
  {
    if k == |es| {
      assert es[..k] == es;
    } else {
      var before := es[..|es| - 1];
      InboxGrows(config, m, before, k);
      assert before[..k] == es[..k];
      OneGrows(config, ReadAll(config, m, before).0, es[|es| - 1]);
    }
  }

  lemma OneGrows(config: seq<nat>, m: Machine, e: Event)
    requires ValidConfig(config) && m.table != [] && EventOk(config, e)
    ensures |m.inbox| <= |ReadOne(config, m, e).0.inbox|
  {
  }

  /** If the game has been given nothing, there was no such frame from a machine that was known by then. */
  lemma NothingForGame(config: seq<nat>, m: Machine, es: seq<Event>, k: nat, i: nat)
    requires ValidConfig(config) && m.table != [] && EventsOk(config, es) && k < |es|
    requires ReadAll(config, m, es).0.inbox == []
    ensures EventsOk(config, es[..k])
    ensures !(IsDataFrame(es[k].r.frame) && ComesFrom(ReadAll(config, m, es[..k]).0.table, i, es[k]))
  {
    InboxGrows(config, m, es, k);
    InboxGrows(config, m, es, k + 1);
    assert es[..k + 1][..k] == es[..k];
    if IsDataFrame(es[k].r.frame) && ComesFrom(ReadAll(config, m, es[..k]).0.table, i, es[k]) {
      GameFrame(config, ReadAll(config, m, es[..k]).0, es[k], i);
      assert false;
    }
  }

  /** Nobody knows from the bytes who made a packet: as far as the table and the answers go, a machine of the
      network does the same with it. */
  function Anonymous(b: Body): Body { b.(origin := 0) }

  lemma MakerDoesNotMatter(u: nat, m: Machine, config: seq<nat>, via: byte, p: Packet<Body>)
    requires m.table != [] && ValidConfig(config)
    ensures var (n, answers) := Handle(u, m, config, via, p);
      var (n', answers') := Handle(0, m, config, via, p.(body := Anonymous(p.body)));
      && n'.table == n.table && |n'.inbox| == |n.inbox| && |answers'| == |answers|
      && (forall i :: |m.inbox| <= i < |n.inbox| ==> n'.inbox[i] == n.inbox[i].(origin := 0))
      && (forall i :: 0 <= i < |answers| ==>
            answers'[i].hop == answers[i].hop
            && answers'[i].packet == answers[i].packet.(body := Anonymous(answers[i].packet.body)))
  {
  }

  /** The packets read from one of the drivers, in order. */
  function From(es: seq<Event>, d: nat): seq<Received> {
    if es == [] then []
    else From(es[..|es| - 1], d) + if es[|es| - 1].d == d then [es[|es| - 1].r] else []
  }

  lemma FromNext(es: seq<Event>, e: Event, d: nat)
    ensures From(es + [e], d) == From(es, d) + if e.d == d then [e.r] else []
  {
    assert (es + [e])[..|es|] == es;
  }

  // Reading from all the drivers.

  function EventsFrom(d: nat, q: seq<Received>): (es: seq<Event>)
    ensures |es| == |q|
  {
    seq(|q|, i requires 0 <= i < |q| => Event(d, q[i]))
  }

  /** What is passed on of these packets. */
  function SendsIn(config: seq<nat>, es: seq<Event>): seq<Send<seq<byte>>>
    requires ValidConfig(config) && EventsOk(config, es)
  {
    if es == [] then []
    else SendsIn(config, es[..|es| - 1]) + SendsOf(config, es[|es| - 1].d, es[|es| - 1].r)
  }

  lemma SendsInNext(config: seq<nat>, es: seq<Event>, e: Event)
    requires ValidConfig(config) && EventsOk(config, es) && EventOk(config, e)
    ensures EventsOk(config, es + [e])
    ensures SendsIn(config, es + [e]) == SendsIn(config, es) + SendsOf(config, e.d, e.r)
  {
    assert (es + [e])[..|es|] == es;
  }

  /** All the packets that one driver has given in a row. */
  lemma {:induction false} Batch(config: seq<nat>, es: seq<Event>, d: nat, q: seq<Received>)
    requires ValidConfig(config) && EventsOk(config, es) && EventsOk(config, EventsFrom(d, q)) && d < |config|
    ensures NodesFit(q) && EventsOk(config, es + EventsFrom(d, q))
    ensures SendsIn(config, es + EventsFrom(d, q)) == SendsIn(config, es) + SendsFor(config, d, q)
    ensures forall c: nat :: From(es + EventsFrom(d, q), c) == From(es, c) + if c == d then q else []
    decreases |q|
  {
    forall i | 0 <= i < |q| ensures q[i].node < 32 { assert EventOk(config, EventsFrom(d, q)[i]); }
    if q == [] {
      NothingAdded(es);
      NothingAdded(SendsIn(config, es));
    } else {
      var before, last := q[..|q| - 1], q[|q| - 1];
      var most, e := EventsFrom(d, before), Event(d, last);
      assert EventOk(config, EventsFrom(d, q)[|q| - 1]);
      assert EventsFrom(d, q) == most + [e];
      forall i | 0 <= i < |most| ensures EventOk(config, most[i]) { assert EventOk(config, EventsFrom(d, q)[i]); }
      Batch(config, es, d, before);
      Associative(es, most, [e]);
      SendsInNext(config, es + most, e);
      Associative(SendsIn(config, es), SendsFor(config, d, before), SendsOf(config, d, last));
      forall c: nat ensures From(es + EventsFrom(d, q), c) == From(es, c) + if c == d then q else [] {
        FromNext(es + most, e, c);
        if c == d {
          Associative(From(es, c), before, [last]);
          RestAndLast(q);
        } else {
          NothingAdded(From(es, c));
        }
      }
    }
  }

  predicate Quiet(es: seq<Event>) { forall i :: 0 <= i < |es| ==> !HandedUp(es[i].r) }

  /** Packets that are not handed up change nothing but what is sent. */
  lemma {:induction false} QuietReads(config: seq<nat>, m: Machine, es: seq<Event>, more: seq<Event>)
    requires ValidConfig(config) && m.table != [] && EventsOk(config, es) && EventsOk(config, more) && Quiet(more)
    ensures EventsOk(config, es + more)
    ensures ReadAll(config, m, es + more) == (ReadAll(config, m, es).0,
                                              ReadAll(config, m, es).1 + Meanings(SendsIn(config, more)))
    decreases |more|
  {
    var sends := ReadAll(config, m, es).1;
    if more == [] {
      NothingAdded(es);
      NothingAdded(sends);
    } else {
      var before, e := more[..|more| - 1], more[|more| - 1];
      QuietReads(config, m, es, before);
      RestAndLast(more);
      Associative(es, before, [e]);
      ReadAllNext(config, m, es + before, e);
      QuietOne(config, ReadAll(config, m, es).0, e);
      MeaningsAppend(SendsIn(config, before), SendsOf(config, e.d, e.r));
      Associative(sends, Meanings(SendsIn(config, before)), Meanings(SendsOf(config, e.d, e.r)));
    }
  }

  lemma QuietOne(config: seq<nat>, m: Machine, e: Event)
    requires ValidConfig(config) && m.table != [] && EventOk(config, e) && !HandedUp(e.r)
    ensures ReadOne(config, m, e) == (m, Meanings(SendsOf(config, e.d, e.r)))
  {
  }

  lemma HandedUpOne(config: seq<nat>, m: Machine, e: Event)
    requires ValidConfig(config) && m.table != [] && EventOk(config, e) && HandedUp(e.r)
    ensures var (l, answers) := Handle(0, m, config, MakeAddress(e.d, e.r.node), Meaning(ParseFrame(e.r.frame)));
      ReadOne(config, m, e) == (l, Meanings(SendsOf(config, e.d, e.r)) + answers)
  {
  }

  /** Such packets, and then one that is handed up. */
  lemma LastRead(config: seq<nat>, m: Machine, es: seq<Event>, more: seq<Event>)
    requires ValidConfig(config) && m.table != [] && EventsOk(config, es) && EventsOk(config, more)
    requires more != [] && Quiet(more[..|more| - 1]) && HandedUp(more[|more| - 1].r)
    ensures EventsOk(config, es + more) && EventsOk(config, (es + more)[..|es + more| - 1])
    ensures var n, e := ReadAll(config, m, es).0, more[|more| - 1];
      var (l, answers) := Handle(0, n, config, MakeAddress(e.d, e.r.node), Meaning(ParseFrame(e.r.frame)));
      && ReadAll(config, m, es + more) == (l, (ReadAll(config, m, es).1 + Meanings(SendsIn(config, more))) + answers)
      && ReadAll(config, m, (es + more)[..|es + more| - 1]).0 == n
  {
    var before, e, sends := more[..|more| - 1], more[|more| - 1], ReadAll(config, m, es).1;
    QuietReads(config, m, es, before);
    RestAndLast(more);
    Associative(es, before, [e]);
    assert (es + more)[..|es + more| - 1] == es + before;
    ReadAllNext(config, m, es + before, e);
    HandedUpOne(config, ReadAll(config, m, es).0, e);
    SendsInNext(config, before, e);
    var a, b := Meanings(SendsIn(config, before)), Meanings(SendsOf(config, e.d, e.r));
    MeaningsAppend(SendsIn(config, before), SendsOf(config, e.d, e.r));
    var answers := Handle(0, ReadAll(config, m, es).0, config, MakeAddress(e.d, e.r.node), Meaning(ParseFrame(e.r.frame))).1;
    Associative(sends + a, b, answers);
    Associative(sends, a, b);
  }

  /** Reading these packets one by one has led to this table and to what has been sent. */
  ghost predicate LeadsTo(config: seq<nat>, m: Machine, start: seq<Send<Body>>, es: seq<Event>, table: Table,
                          wire: seq<Send<Body>>)
    requires ValidConfig(config) && m.table != []
  {
    EventsOk(config, es) && ReadAll(config, m, es).0.table == table && wire == start + ReadAll(config, m, es).1
  }

  lemma QuietLeadsTo(config: seq<nat>, m: Machine, start: seq<Send<Body>>, es: seq<Event>, table: Table,
                     w: seq<Send<seq<byte>>>, more: seq<Event>)
    requires ValidConfig(config) && m.table != [] && LeadsTo(config, m, start, es, table, Meanings(w))
    requires EventsOk(config, more) && Quiet(more)
    ensures LeadsTo(config, m, start, es + more, table, Meanings(w + SendsIn(config, more)))
    ensures ReadAll(config, m, es + more).0 == ReadAll(config, m, es).0
  {
    QuietReads(config, m, es, more);
    MeaningsAppend(w, SendsIn(config, more));
    Associative(start, ReadAll(config, m, es).1, Meanings(SendsIn(config, more)));
  }

  lemma LastLeadsTo(config: seq<nat>, m: Machine, start: seq<Send<Body>>, es: seq<Event>, table: Table,
                    w: seq<Send<seq<byte>>>, more: seq<Event>, l: Machine, answers: seq<Send<Body>>)
    requires ValidConfig(config) && m.table != [] && LeadsTo(config, m, start, es, table, Meanings(w))
    requires EventsOk(config, more) && more != [] && Quiet(more[..|more| - 1]) && HandedUp(more[|more| - 1].r)
    requires table != [] && ReadAll(config, m, es).0.inbox == []
    requires var e := more[|more| - 1];
      (l, answers) == Handle(0, Machine(table, []), config, MakeAddress(e.d, e.r.node), Meaning(ParseFrame(e.r.frame)))
    ensures LeadsTo(config, m, start, es + more, l.table, Meanings(w + SendsIn(config, more)) + answers)
    ensures ReadAll(config, m, es + more).0 == l && ReadAll(config, m, (es + more)[..|es + more| - 1]).0.inbox == []
  {
    LastRead(config, m, es, more);
    assert ReadAll(config, m, es).0 == Machine(table, []);
    var sends, middle := ReadAll(config, m, es).1, Meanings(SendsIn(config, more));
    MeaningsAppend(w, SendsIn(config, more));
    Associative(start, sends, middle);
    Associative(start, sends + middle, answers);
  }

  // How much is waiting.

  function Lengths(qs: seq<seq<Received>>, n: nat): nat
    requires n <= |qs|
  {
    if n == 0 then 0 else Lengths(qs, n - 1) + |qs[n - 1]|
  }

  lemma {:induction false} LessWaiting(a: seq<seq<Received>>, b: seq<seq<Received>>, d: nat, n: nat)
    requires d < |a| == |b| && n <= |a| && |b[d]| < |a[d]| && forall e :: 0 <= e < |a| ==> |b[e]| <= |a[e]|
    ensures Lengths(b, n) + (if d < n then 1 else 0) <= Lengths(a, n)
  {
    if n == 0 {
    } else {
      LessWaiting(a, b, d, n - 1);
    }
  }

  predicate CanBeRead(config: seq<nat>, qs: seq<seq<Received>>) {
    |qs| == |config| && forall d :: 0 <= d < |qs| ==> EventsOk(config, EventsFrom(d, qs[d]))
  }

  lemma CanReceive(config: seq<nat>, d: nat, q: seq<Received>)
    requires d < |config| && EventsOk(config, EventsFrom(d, q))
    ensures forall i :: 0 <= i < |q| ==> 1 <= q[i].node < config[d]
  {
    forall i | 0 <= i < |q| ensures 1 <= q[i].node < config[d] { assert EventOk(config, EventsFrom(d, q)[i]); }
  }

  /** The queues `before` without these packets at their fronts. */
  ghost predicate Without(before: seq<seq<Received>>, after: seq<seq<Received>>, more: seq<Event>) {
    |before| == |after| && forall e :: 0 <= e < |before| ==> before[e] == From(more, e) + after[e]
  }

  /** Some packets have been taken from one driver. */
  lemma Taken(config: seq<nat>, qs: seq<seq<Received>>, before: seq<seq<Received>>, after: seq<seq<Received>>,
              es: seq<Event>, d: nat, done: seq<Received>)
    requires ValidConfig(config) && CanBeRead(config, before) && EventsOk(config, es)
    requires d < |config| == |after| == |qs| && before[d] == done + after[d]
    requires forall e :: 0 <= e < |config| && e != d ==> after[e] == before[e]
    requires Without(qs, before, es)
    ensures NodesFit(done) && EventsOk(config, es + EventsFrom(d, done)) && CanBeRead(config, after)
    ensures SendsIn(config, es + EventsFrom(d, done)) == SendsIn(config, es) + SendsFor(config, d, done)
    ensures Without(qs, after, es + EventsFrom(d, done))
  {
    forall i | 0 <= i < |done| ensures EventOk(config, EventsFrom(d, done)[i]) {
      assert EventOk(config, EventsFrom(d, before[d])[i]);
    }
    forall i | 0 <= i < |after[d]| ensures EventOk(config, EventsFrom(d, after[d])[i]) {
      assert EventOk(config, EventsFrom(d, before[d])[|done| + i]);
    }
    Batch(config, es, d, done);
    forall e: nat | e < |config| ensures qs[e] == From(es + EventsFrom(d, done), e) + after[e] {
      if e == d { Associative(From(es, e), done, after[e]); } else { NothingAdded(From(es, e)); }
    }
  }

  lemma {:induction false} FromBoth(es: seq<Event>, more: seq<Event>, d: nat)
    ensures From(es + more, d) == From(es, d) + From(more, d)
    decreases |more|
  {
    if more == [] {
      NothingAdded(es);
      NothingAdded(From(es, d));
    } else {
      var before, e := more[..|more| - 1], more[|more| - 1];
      FromBoth(es, before, d);
      RestAndLast(more);
      Associative(es, before, [e]);
      FromNext(es + before, e, d);
      FromNext(before, e, d);
      if e.d == d { Associative(From(es, d), From(before, d), [e.r]); }
    }
  }

  /** Reading on takes packets from the fronts of the queues. */
  lemma TakenOn(qs: seq<seq<Received>>, before: seq<seq<Received>>, after: seq<seq<Received>>, es: seq<Event>, more: seq<Event>)
    requires Without(qs, before, es) && Without(before, after, more)
    ensures Without(qs, after, es + more)
  {
    forall e: nat | e < |qs| ensures qs[e] == From(es + more, e) + after[e] {
      TakenAt(qs[e], before[e], after[e], es, more, e);
    }
  }

  lemma LessLeft(before: seq<seq<Received>>, after: seq<seq<Received>>, more: seq<Event>)
    requires Without(before, after, more) && more != [] && more[|more| - 1].d < |before|
    ensures Lengths(after, |before|) < Lengths(before, |before|)
  {
    var d := more[|more| - 1].d;
    LastIsFrom(more);
    forall e | 0 <= e < |before| ensures |after[e]| <= |before[e]| {
      assert |before[e]| == |From(more, e)| + |after[e]|;
    }
    assert |before[d]| == |From(more, d)| + |after[d]|;
    LessWaiting(before, after, d, |before|);
  }

  lemma TakenAt(q: seq<Received>, before: seq<Received>, after: seq<Received>, es: seq<Event>, more: seq<Event>, e: nat)
    requires q == From(es, e) + before && before == From(more, e) + after
    ensures q == From(es + more, e) + after
  {
    FromBoth(es, more, e);
    Associative(From(es, e), From(more, e), after);
  }

  lemma LastIsFrom(more: seq<Event>)
    requires more != []
    ensures From(more, more[|more| - 1].d) != []
  {
  }

  lemma QuietOrLast(es: seq<Event>, d: nat, done: seq<Received>, got: bool)
    requires Quiet(es) && forall i :: 0 <= i < |done| ==> (HandedUp(done[i]) <==> got && i == |done| - 1)
    requires got ==> done != []
    ensures var all := es + EventsFrom(d, done);
      if got then all != [] && Quiet(all[..|all| - 1]) && all[|all| - 1] == Event(d, done[|done| - 1]) else Quiet(all)
  {
  }

  /** The entries other than a machine's own are reached over links that it has. */
  predicate HopsFit(config: seq<nat>, table: Table) {
    forall i :: 1 <= i < |table| ==> HopFits(config, table[i].firstHop)
  }

  predicate HopFits(config: seq<nat>, hop: byte) {
    AddrDriver(hop) < |config| && 1 <= AddrNode(hop) < config[AddrDriver(hop)]
  }

  /** A table whose hops fit, and that begins with a machine's own entry. */
  predicate TableFits(config: seq<nat>, stationId: int, table: Table) {
    table != [] && table[0].firstHop == 0 && table[0].stationId == stationId && HopsFit(config, table)
  }

  lemma AddFits(config: seq<nat>, stationId: int, table: Table, via: byte, addr: Addr)
    requires TableFits(config, stationId, table) && HopFits(config, via)
    ensures TableFits(config, stationId, NodeOrAddNode(table, via, addr))
  {
  }

  lemma {:induction false} LearnFits(config: seq<nat>, stationId: int, table: Table, via: byte, src: Addr,
                                     neighbors: seq<byte>, n: nat)
    requires TableFits(config, stationId, table) && HopFits(config, via) && n <= |neighbors|
    ensures TableFits(config, stationId, Learn(table, via, src, neighbors, n))
  {
    if n == 0 {
    } else {
      LearnFits(config, stationId, table, via, src, neighbors, n - 1);
      if FirstZero(src) < ADDR_LEN {
        AddFits(config, stationId, Learn(table, via, src, neighbors, n - 1), via, src[FirstZero(src) := neighbors[n - 1]]);
      }
    }
  }

  /** Whatever a machine hears, its table stays fit. */
  lemma HandleFits(config: seq<nat>, stationId: int, m: Machine, via: byte, p: Packet<Body>)
    requires ValidConfig(config) && TableFits(config, stationId, m.table) && HopFits(config, via)
    ensures TableFits(config, stationId, Handle(0, m, config, via, p).0.table)
  {
    if p.kind == DISCOVER && p.body.Discover? {
      AddFits(config, stationId, m.table, via, p.src);
      MarkedFits(config, stationId, m.table, via, p.src, p.body.a);
      LearnFits(config, stationId, Marked(m.table, via, p.src, p.body.a), via, p.src, p.body.a.neighbors,
                Wrappers.Min(|p.body.a.neighbors|, MAXNETNODES));
    }
  }

  lemma HandleOfDiscover(table: Table, config: seq<nat>, via: byte, src: Addr, a: Announcement)
    requires table != [] && ValidConfig(config)
    ensures var t := MetaTable.HandleDiscover(table, via, src, a);
      var i := MetaTable.NodeForAddr(t, via, src);
      t != [] &&
      Handle(0, Machine(table, []), config, via, Packet(DISCOVER, src, NO_HOPS, Discover(0, a))) ==
        (Machine(t, []), if AnswersOnly(table, a) && i >= 0 then [MetaDiscovery.SendDiscover(0, t, config, t[i])] else [])
  {
    HandleDiscoverGrows(table, via, src, a);
  }

  lemma MarkedFits(config: seq<nat>, stationId: int, table: Table, via: byte, src: Addr, a: Announcement)
    requires TableFits(config, stationId, table) && HopFits(config, via)
    ensures TableFits(config, stationId, Marked(table, via, src, a))
  {
    AddFits(config, stationId, table, via, src);
    var added := NodeOrAddNode(table, via, src);
    assert via != 0;
    assert NodeForAddr(added, via, src) != 0;
  }

  lemma InitHopsFit(config: seq<nat>, id: Identity)
    requires ValidConfig(config)
    ensures HopsFit(config, InitNodes(config, id)) && InitNodes(config, id)[0] == Self(id)
  {
    var hops, table := HopsExcept(config, NO_DRIVER, |config|), InitNodes(config, id);
    forall i | 1 <= i < |table| ensures HopFits(config, table[i].firstHop) {
      assert hops[i - 1] in hops;
      InHopsExcept(config, NO_DRIVER, |config|, hops[i - 1]);
    }
  }

  class Node {
    const net: Metanet
    const table: NodeTable
    const data: array<byte>      // the game's packet buffer
    ghost const stationId: int   // this machine's own
    var remotenode: int
    var datalength: nat

    /** The parts do not overlap. */
    ghost predicate Apart() {
      && data.Length == BUFFER && net.Valid() && 0 <= stationId < 0x1_0000_0000
      && data !in net.bufs
    }

    ghost predicate Valid()
      reads this, table, table.nodes
    {
      Apart() && table.Valid() && TableFits(net.Config(), stationId, table.Entries())
    }

    constructor (net: Metanet, id: Identity)
      requires net.Valid() && 0 <= id.stationId < 0x1_0000_0000
      ensures Valid() && this.net == net && fresh(table) && fresh(table.nodes) && fresh(data)
      ensures ValidConfig(net.Config()) && table.Entries() == InitNodes(net.Config(), id)
    {
      net.ConfigValid();
      this.net := net;
      table := new NodeTable(net.Config(), id);
      data := new byte[BUFFER](_ => 0);
      remotenode, datalength, stationId := -1, 0, id.stationId;
      new;
      InitHopsFit(net.Config(), id);
    }

    /** Sends data of the game to one node or to all. */
    method SendFromBuffer(dest: nat, buf: array<byte>, data_len: nat)
      requires Valid() && (dest == MAXNETNODES || 1 <= dest < table.num_nodes)
      requires buf !in net.bufs && data_len <= buf.Length && HEADER + data_len <= BUFFER
      modifies net`wire, net.all`datalength, net.all`remotenode, net.bufs
      ensures ValidConfig(net.Config())
      ensures net.wire == old(net.wire) +
                if dest == MAXNETNODES then BroadcastSends(net.Config(), NO_DRIVER, NO_HOPS, old(buf[..data_len]))
                else var e := table.Entries()[dest];
                  [Send(e.firstHop, Packet(DATA, NO_HOPS, e.addr, old(buf[..data_len])))]
    {
      net.ConfigValid();
      if dest == MAXNETNODES {
        var src_addr := new byte[4](_ => 0);
        assert src_addr[..] == NO_HOPS && buf[0..0 + data_len] == buf[..data_len];
        net.SendBroadcast(null, NO_DRIVER, src_addr, buf, 0, data_len);
        return;
      }
      var node := table.nodes[dest];
      assert node == table.Entries()[dest];
      net.SendToEntry(node.firstHop, node.addr, net.drivers[AddrDriver(node.firstHop)], buf, data_len);
    }

    /** Sends a discover message to the machine of entry i. */
    method SendDiscover(i: nat)
      requires Valid() && 1 <= i < table.num_nodes
      modifies net`wire, net.all`datalength, net.all`remotenode, net.bufs
      ensures ValidConfig(net.Config())
      ensures Meanings(net.wire) == old(Meanings(net.wire))
                + [MetaDiscovery.SendDiscover(0, table.Entries(), net.Config(), table.Entries()[i])]
    {
      net.ConfigValid();
      var node := table.nodes[i];
      assert node == table.Entries()[i] && table.nodes[0] == table.Entries()[0];
      Announce(node.firstHop, node.addr, net.drivers[AddrDriver(node.firstHop)], table.nodes[0].flags, table.nodes[0].stationId);
    }

    /** Fills a driver's buffer with a discover message and sends it. */
    method Announce(hop: byte, addr: Addr, dc: Doomcom, flags: Flags, stationId: nat)
      requires Apart() && HopFits(net.Config(), hop) && dc == net.drivers[AddrDriver(hop)] && stationId < 0x1_0000_0000
      modifies net`wire, dc`datalength, dc`remotenode, dc.data
      ensures ValidConfig(net.Config())
      ensures Meanings(net.wire) == old(Meanings(net.wire)) + [Send(hop, Packet(DISCOVER, NO_HOPS, addr,
                Discover(0, Announcement(flags, stationId, Announced(net.Config(), hop)))))]
    {
      net.ConfigValid();
      WriteDiscover(dc.data, net.Config(), hop, addr, flags, stationId);
      dc.datalength := HEADER + DISCOVER_LEN;
      dc.remotenode := AddrNode(hop);
      SaysMeans(dc.data[..], addr, Announcement(flags, stationId, Announced(net.Config(), hop)));
      assert dc.data[..][..HEADER + DISCOVER_LEN] == dc.data[..dc.datalength];
      assert MakeAddress(AddrDriver(hop), AddrNode(hop)) == hop;
      ghost var wire := net.wire;
      net.NetSendPacket(AddrDriver(hop));
      MeaningOfOne(hop, ParseFrame(dc.data[..dc.datalength]));
      MeaningsAppend(wire, [Send(hop, ParseFrame(dc.data[..dc.datalength]))]);
    }

    /** Copies a data packet for the game, if its sender is known. */
    method HandUp(dc: Doomcom, via: byte) returns (game: bool)
      requires Valid() && dc in net.drivers && dc.HasPacket()
      modifies `remotenode, `datalength, data
      ensures remotenode == MetaTable.NodeForAddr(table.Entries(), via, dc.data[SRC..DEST])
      ensures game == (remotenode >= 0)
      ensures game ==> datalength == dc.datalength - HEADER <= BUFFER && data[..datalength] == dc.data[HEADER..dc.datalength]
    {
      remotenode := table.NodeForAddr(via, dc.data[SRC..DEST]);
      if remotenode < 0 {
        return false;
      }
      datalength := dc.datalength - HEADER;
      FarMemmove(data, 0, dc.data, HEADER, datalength);
      assert data[..datalength] == dc.data[HEADER..dc.datalength];
      return true;
    }

    /** Takes in the discover message in a driver's buffer, and answers it if it comes late. */
    method HandleDiscover(via: byte, src: Addr, a: Announcement)
      requires Valid() && HopFits(net.Config(), via)
      modifies table, table.nodes, net`wire, net.all`datalength, net.all`remotenode, net.bufs
      ensures Valid() && ValidConfig(net.Config())
      ensures var (m, answers) := Handle(0, Machine(old(table.Entries()), []), net.Config(), via,
                                         Packet(DISCOVER, src, NO_HOPS, Discover(0, a)));
        table.Entries() == m.table && Meanings(net.wire) == old(Meanings(net.wire)) + answers
    {
      net.ConfigValid();
      HandleFits(net.Config(), stationId, Machine(table.Entries(), []), via, Packet(DISCOVER, src, NO_HOPS, Discover(0, a)));
      HandleOfDiscover(table.Entries(), net.Config(), via, src, a);
      NothingAdded(Meanings(net.wire));
      var answer := table.HandleDiscover(via, src, a);
      if answer >= 0 {
        assert via != 0 && answer != 0;
        SendDiscover(answer);
      }
    }

    /** Deals with the packet in a driver's buffer that is for this machine: true if it is for the game. */
    method HandlePacket(d: nat, via: byte) returns (game: bool)
      requires Valid() && d < |net.drivers| && net.drivers[d].HasPacket() && via == MakeAddress(d, net.drivers[d].remotenode)
      requires WholeMessage(net.drivers[d].data[..net.drivers[d].datalength])
      modifies `remotenode, `datalength, data, table, table.nodes, net`wire, net.all`datalength, net.all`remotenode, net.bufs
      ensures Valid() && ValidConfig(net.Config())
      ensures game ==> remotenode >= 0 && datalength <= BUFFER
      ensures var (m, answers) := Handle(0, Machine(old(table.Entries()), []), net.Config(), via,
                                         Meaning(old(net.drivers[d].Held())));
        && table.Entries() == m.table && Meanings(net.wire) == old(Meanings(net.wire)) + answers
        && m.inbox == if game then [Delivery(remotenode, 0, data[..datalength])] else []
    {
      net.ConfigValid();
      var dc := net.drivers[d];
      FrameFields(dc.data[..], dc.datalength);
      assert dc.data[..][..dc.datalength] == dc.data[..dc.datalength];
      NothingAdded(Meanings(net.wire));
      var kind, src := Magic(dc.data[..HEADER]), dc.data[SRC..DEST];
      game := false;
      if kind == DATA {
        game := HandUp(dc, via);
      } else if kind == DISCOVER {
        HandleDiscover(via, src, ParseDiscover(dc.data[HEADER..dc.datalength]));
      } else if kind == QUIT {
        HandleFits(net.Config(), stationId, Machine(table.Entries(), []), via, Meaning(dc.Held()));
        table.NodeQuit(via, src);
      }
    }

    /** Goes through the drivers for the next packet that is for this machine, passing on the others. */
    method ReadNext() returns (d: nat, ghost es: seq<Event>)
      requires Apart() && CanBeRead(net.Config(), net.Queues())
      modifies net`wire, net.all`incoming, net.all`datalength, net.all`remotenode, net.bufs
      ensures ValidConfig(net.Config()) && CanBeRead(net.Config(), net.Queues()) && EventsOk(net.Config(), es) && d <= |net.drivers|
      ensures Without(old(net.Queues()), net.Queues(), es)
      ensures net.wire == old(net.wire) + SendsIn(net.Config(), es)
      ensures if d == |net.drivers| then Quiet(es) && forall e :: 0 <= e < |net.drivers| ==> net.Queues()[e] == []
              else && es != [] && Quiet(es[..|es| - 1]) && HandedUp(es[|es| - 1].r) && es[|es| - 1].d == d
                   && net.HeldIs(d, es[|es| - 1].r)
    {
      net.ConfigValid();
      ghost var config, qs, start := net.Config(), net.Queues(), net.wire;
      es := [];
      NothingAdded(start);
      for i := 0 to |net.drivers|
        invariant CanBeRead(net.Config(), net.Queues()) && EventsOk(config, es) && Quiet(es)
        invariant Without(qs, net.Queues(), es)
        invariant net.wire == start + SendsIn(config, es)
        invariant forall e :: 0 <= e < i ==> net.Queues()[e] == []
      {
        ghost var done;
        var got;
        got, done := ReadFrom(i, qs, es);
        QuietOrLast(es, i, done, got);
        Associative(start, SendsIn(config, es), SendsFor(config, i, done));
        es := es + EventsFrom(i, done);
        if got {
          return i, es;
        }
      }
      d := |net.drivers|;
    }

    /** Reads from driver i. */
    method ReadFrom(i: nat, ghost qs: seq<seq<Received>>, ghost es: seq<Event>) returns (got: bool, ghost done: seq<Received>)
      requires Apart() && CanBeRead(net.Config(), net.Queues()) && i < |net.drivers|
      requires ValidConfig(net.Config()) && EventsOk(net.Config(), es) && Without(qs, net.Queues(), es)
      modifies net`wire, net.all`incoming, net.all`datalength, net.all`remotenode, net.bufs
      ensures NodesFit(done) && EventsOk(net.Config(), es + EventsFrom(i, done)) && CanBeRead(net.Config(), net.Queues())
      ensures SendsIn(net.Config(), es + EventsFrom(i, done)) == SendsIn(net.Config(), es) + SendsFor(net.Config(), i, done)
      ensures Without(qs, net.Queues(), es + EventsFrom(i, done))
      ensures net.wire == old(net.wire) + SendsFor(net.Config(), i, done)
      ensures forall e :: 0 <= e < |net.drivers| && e != i ==> net.Queues()[e] == old(net.Queues())[e]
      ensures forall k :: 0 <= k < |done| ==> (HandedUp(done[k]) <==> got && k == |done| - 1)
      ensures if got then done != [] && net.HeldIs(i, done[|done| - 1]) else net.Queues()[i] == []
    {
      ghost var before := net.Queues();
      CanReceive(net.Config(), i, before[i]);
      got, done := net.GetAndForward(i, net.drivers[i]);
      Taken(net.Config(), qs, before, net.Queues(), es, i, done);
    }

    /** What reading these packets one by one has done: to what waits, to the table and to what is sent. */
    ghost predicate HasRead(m: Machine, start: seq<Send<Body>>, qs: seq<seq<Received>>, es: seq<Event>)
      requires Valid() && ValidConfig(net.Config()) && m.table != []
      reads this, net, table, table.nodes, net.all`incoming
    {
      && CanBeRead(net.Config(), net.Queues()) && Without(qs, net.Queues(), es)
      && LeadsTo(net.Config(), m, start, es, table.Entries(), Meanings(net.wire))
    }

    /** The last of them, and only it, was for the game, which has it; or there are no more and none was. */
    ghost predicate HandedOver(m: Machine, es: seq<Event>)
      requires net.Valid() && ValidConfig(net.Config()) && m.table != [] && EventsOk(net.Config(), es)
      reads this, data, net.all`incoming
    {
      if remotenode >= 0 then
        && es != [] && datalength <= data.Length
        && ReadAll(net.Config(), m, es).0.inbox == [Delivery(remotenode, 0, data[..datalength])]
        && ReadAll(net.Config(), m, es[..|es| - 1]).0.inbox == []
      else
        && remotenode == -1 && ReadAll(net.Config(), m, es).0.inbox == []
        && forall e :: 0 <= e < |net.drivers| ==> net.Queues()[e] == []
    }

    /** Reads packets until there is one for the game or there are no more. */
    method GetPacket() returns (ghost es: seq<Event>)
      requires Valid() && CanBeRead(net.Config(), net.Queues())
      modifies `remotenode, `datalength, data, table, table.nodes, net`wire, net.all`incoming, net.all`datalength, net.all`remotenode, net.bufs
      ensures Valid() && ValidConfig(net.Config())
      ensures HasRead(Machine(old(table.Entries()), []), old(Meanings(net.wire)), old(net.Queues()), es)
      ensures HandedOver(Machine(old(table.Entries()), []), es)
    {
      net.ConfigValid();
      ghost var qs, start, m := net.Queues(), Meanings(net.wire), Machine(table.Entries(), []);
      es := [];
      NothingAdded(start);
      var over := false;
      while !over
        invariant Valid() && HasRead(m, start, qs, es)
        invariant if over then HandedOver(m, es) else ReadAll(net.Config(), m, es).0.inbox == []
        decreases !over, Lengths(net.Queues(), |net.drivers|)
      {
        over, es := ReadOn(m, start, qs, es);
      }
    }

    /** Reads up to the next packet that is for this machine, and deals with it. */
    method ReadOn(ghost m: Machine, ghost start: seq<Send<Body>>, ghost qs: seq<seq<Received>>, ghost es: seq<Event>)
      returns (over: bool, ghost all: seq<Event>)
      requires Valid() && ValidConfig(net.Config()) && m.table != [] && HasRead(m, start, qs, es)
      requires ReadAll(net.Config(), m, es).0.inbox == []
      modifies `remotenode, `datalength, data, table, table.nodes, net`wire, net.all`incoming, net.all`datalength, net.all`remotenode, net.bufs
      ensures Valid() && HasRead(m, start, qs, all)
      ensures if over then HandedOver(m, all)
              else ReadAll(net.Config(), m, all).0.inbox == [] &&
                   Lengths(net.Queues(), |net.drivers|) < old(Lengths(net.Queues(), |net.drivers|))
    {
      ghost var wire, more := net.wire, [];
      var d;
      d, more := ReadAhead(qs, es);
      all := es + more;
      if d == |net.drivers| {
        NoMore(m, start, es, more, wire);
        return true, all;
      }
      over := HandleLast(d, m, start, es, more, wire);
    }

    /** There is nothing for the game. */
    method NoMore(ghost m: Machine, ghost start: seq<Send<Body>>, ghost es: seq<Event>, ghost more: seq<Event>,
                  ghost wire: seq<Send<seq<byte>>>)
      requires Valid() && ValidConfig(net.Config()) && m.table != [] && EventsOk(net.Config(), more) && Quiet(more)
      requires LeadsTo(net.Config(), m, start, es, table.Entries(), Meanings(wire))
      requires net.wire == wire + SendsIn(net.Config(), more) && ReadAll(net.Config(), m, es).0.inbox == []
      requires forall e :: 0 <= e < |net.drivers| ==> net.Queues()[e] == []
      modifies `remotenode
      ensures LeadsTo(net.Config(), m, start, es + more, table.Entries(), Meanings(net.wire)) && HandedOver(m, es + more)
    {
      QuietLeadsTo(net.Config(), m, start, es, table.Entries(), wire, more);
      remotenode := -1;
    }

    /** Deals with the last of the packets just read, which is for this machine. */
    method HandleLast(d: nat, ghost m: Machine, ghost start: seq<Send<Body>>, ghost es: seq<Event>, ghost more: seq<Event>,
                      ghost wire: seq<Send<seq<byte>>>) returns (over: bool)
      requires Valid() && ValidConfig(net.Config()) && m.table != [] && EventsOk(net.Config(), more)
      requires LeadsTo(net.Config(), m, start, es, table.Entries(), Meanings(wire))
      requires net.wire == wire + SendsIn(net.Config(), more) && ReadAll(net.Config(), m, es).0.inbox == []
      requires more != [] && Quiet(more[..|more| - 1]) && HandedUp(more[|more| - 1].r) && more[|more| - 1].d == d
      requires d < |net.drivers| && net.HeldIs(d, more[|more| - 1].r) && WholeMessage(more[|more| - 1].r.frame)
      modifies `remotenode, `datalength, data, table, table.nodes, net`wire, net.all`datalength, net.all`remotenode, net.bufs
      ensures Valid() && net.Queues() == old(net.Queues())
      ensures LeadsTo(net.Config(), m, start, es + more, table.Entries(), Meanings(net.wire))
      ensures if over then HandedOver(m, es + more) else ReadAll(net.Config(), m, es + more).0.inbox == []
    {
      ghost var config, entries, l, answers := net.Config(), table.Entries(), m, [];
      over, l, answers := HandleRead(d, more[|more| - 1].r);
      LastLeadsTo(config, m, start, es, entries, wire, more, l, answers);
    }

    /** The next packets after those read already. */
    method ReadAhead(ghost qs: seq<seq<Received>>, ghost es: seq<Event>) returns (d: nat, ghost more: seq<Event>)
      requires Valid() && ValidConfig(net.Config()) && CanBeRead(net.Config(), net.Queues()) && Without(qs, net.Queues(), es)
      modifies net`wire, net.all`incoming, net.all`datalength, net.all`remotenode, net.bufs
      ensures Valid() && CanBeRead(net.Config(), net.Queues()) && Without(qs, net.Queues(), es + more)
      ensures table.Entries() == old(table.Entries())
      ensures EventsOk(net.Config(), more) && net.wire == old(net.wire) + SendsIn(net.Config(), more)
      ensures d <= |net.drivers|
      ensures d == |net.drivers| ==> Quiet(more) && forall e :: 0 <= e < |net.drivers| ==> net.Queues()[e] == []
      ensures d < |net.drivers| ==>
                && more != [] && Quiet(more[..|more| - 1]) && HandedUp(more[|more| - 1].r)
                && more[|more| - 1].d == d && WholeMessage(more[|more| - 1].r.frame) && net.HeldIs(d, more[|more| - 1].r)
                && Lengths(net.Queues(), |net.drivers|) < old(Lengths(net.Queues(), |net.drivers|))
    {
      ghost var before := net.Queues();
      d, more := ReadNext();
      TakenOn(qs, before, net.Queues(), es, more);
      if d < |net.drivers| {
        LessLeft(before, net.Queues(), more);
        assert EventOk(net.Config(), more[|more| - 1]);
      }
    }

    /** Deals with the packet that has just been read from a driver. */
    method HandleRead(d: nat, ghost r: Received) returns (game: bool, ghost l: Machine, ghost answers: seq<Send<Body>>)
      requires Valid() && ValidConfig(net.Config()) && d < |net.drivers| && net.HeldIs(d, r) && WholeMessage(r.frame)
      modifies `remotenode, `datalength, data, table, table.nodes, net`wire, net.all`datalength, net.all`remotenode, net.bufs
      ensures Valid() && net.Queues() == old(net.Queues())
      ensures (l, answers) == Handle(0, Machine(old(table.Entries()), []), net.Config(), MakeAddress(d, r.node),
                                     Meaning(ParseFrame(r.frame)))
      ensures table.Entries() == l.table && Meanings(net.wire) == old(Meanings(net.wire)) + answers
      ensures if game then remotenode >= 0 && datalength <= BUFFER && l.inbox == [Delivery(remotenode, 0, data[..datalength])]
              else l.inbox == []
    {
      ghost var h := Handle(0, Machine(table.Entries(), []), net.Config(), MakeAddress(d, r.node), Meaning(ParseFrame(r.frame)));
      ghost var qs := net.Queues();
      l, answers := h.0, h.1;
      game := HandlePacket(d, MakeAddress(d, net.drivers[d].remotenode));
      assert net.Queues() == qs;
    }
  }
}
