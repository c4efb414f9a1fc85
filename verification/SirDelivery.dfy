/** Runs in which the channel loses nothing: what every machine hears, and what its game gets to see. */
module SirDelivery {
  import opened Bytes
  import opened DoomNet
  import opened Escaping
  import opened Sequences
  import opened SirFraming
  import opened SirStation
  import opened SirToken

  // A packet piece by piece.

  /** What the code sends of the bytes from a up to b. */
  function Between(p: seq<byte>, a: nat, b: nat): (r: seq<byte>)
    requires a <= b <= |p|
    ensures |r| <= b - a
    decreases b - a
  {
    if a == b then [] else if Lost(p, a) then Between(p, a + 1, b) else [p[a]] + Between(p, a + 1, b)
  }

  lemma {:induction false} BetweenJoin(p: seq<byte>, a: nat, b: nat, c: nat)
    requires a <= b <= c <= |p|
    ensures Between(p, a, c) == Between(p, a, b) + Between(p, b, c)
    decreases b - a
  {
    if a == b {
      NothingAdded(Between(p, b, c));
    } else {
      BetweenJoin(p, a + 1, b, c);
      if !Lost(p, a) { Associative([p[a]], Between(p, a + 1, b), Between(p, b, c)); }
    }
  }

  lemma {:induction false} AllBetween(p: seq<byte>, a: nat)
    requires a <= |p|
    ensures Between(p, a, |p|) == Kept(p, a)
    decreases |p| - a
  {
    if a == |p| {
    } else {
      AllBetween(p, a + 1);
    }
  }

  lemma EscapedFirst(c: byte, rest: seq<byte>)
    ensures Escaped([c] + rest) == Escape(c) + Escaped(rest)
  {
    assert ([c] + rest)[1..] == rest;
  }

  /** A block is the escape of what it sends. */
  lemma {:induction false} BlockBytes(p: seq<byte>, off: nat, slot: nat)
    requires AtSlot(p, off, slot)
    ensures var (b, o) := Block(Written, p, off, slot); b == Escaped(Between(p, off, o))
    decreases |p| - off
  {
    if slot == TX_BUFFER || off == |p| {
      assert Block(Written, p, off, slot) == ([], off);
    } else if Lost(p, off) {
      assert Block(Written, p, off, slot) == ([], off + 1);
      assert Between(p, off, off + 1) == Between(p, off + 1, off + 1) == [];
    } else {
      NextAtSlot(p, off, slot);
      BlockStep(Written, p, off, slot);
      BlockBytes(p, off + 1, slot + |Escape(p[off])|);
      var o := Block(Written, p, off + 1, slot + |Escape(p[off])|).1;
      EscapedFirst(p[off], Between(p, off + 1, o));
    }
  }

  // What has happened.

  /** A packet that has been transmitted whole, by whom, and the code that ended it. */
  datatype Entry = Entry(from: nat, packet: seq<byte>, code: byte)

  /** For each machine what it has heard, whether its queue had room then, and what its game has fetched. */
  datatype History = History(log: seq<Entry>, heard: seq<seq<Heard>>, room: seq<seq<bool>>, taken: seq<seq<seq<byte>>>)

  predicate Fits(net: Net, h: History) {
    |net.stations| == |net.wires| == |h.heard| == |h.room| == |h.taken|
  }

  /** The machine's next block ends a packet. */
  predicate Ends(st: Station) { st.mode != Wait && st.out != [] && st.offset == |st.out[0]| }

  function EndCode(st: Station): byte
    requires st.partner < MAXNETNODES
  {
    if |st.out| == 1 then HandoffTo(st.partner) else END_PACKET
  }

  function Noted(net: Net, s: Step, h: History): (r: History)
    requires Shaped(net) && Enabled(net, s) && Fits(net, h)
    ensures Fits(net, r)
  {
    match s
    case Transmits(p, _) =>
      assert ShapedAt(net, p);
      var st := net.stations[p];
      if Ends(st) then h.(log := h.log + [Entry(p, st.out[0], EndCode(st))]) else h
    case Hears(p) =>
      var st := net.stations[p];
      var e := RxByte(st.rx, net.wires[p][0]).1;
      if e.Ended? then
        h.(heard := h.heard[p := h.heard[p] + [e]], room := h.room[p := h.room[p] + [|st.inbox| < 7]])
      else h
    case Fetches(p) => h.(taken := h.taken[p := h.taken[p] + [net.stations[p].inbox[0]]])
    case _ => h
  }

  /** The packets that others than q have transmitted, in order, as they are heard. */
  function For(log: seq<Entry>, q: nat): (r: seq<Heard>)
  {
    if log == [] then []
    else
      var e := log[|log| - 1];
      For(log[..|log| - 1], q) + if e.from == q then [] else [Ended(Kept(e.packet, 0), e.code)]
  }

  lemma ForNext(log: seq<Entry>, e: Entry, q: nat)
    ensures For(log + [e], q) == For(log, q) + if e.from == q then [] else [Ended(Kept(e.packet, 0), e.code)]
  {
    assert (log + [e])[..|log|] == log;
  }

  /** Those of the packets heard that were for the machine and found room. */
  function Stored(me: byte, hs: seq<Heard>, room: seq<bool>): seq<seq<byte>>
    requires |hs| == |room|
  {
    if hs == [] then []
    else
      var n := |hs| - 1;
      Stored(me, hs[..n], room[..n]) + if hs[n].Ended? && IsFor(me, hs[n].data) && room[n] then [hs[n].data] else []
  }

  lemma StoredNext(me: byte, hs: seq<Heard>, room: seq<bool>, h: Heard, r: bool)
    requires |hs| == |room|
    ensures Stored(me, hs + [h], room + [r]) ==
            Stored(me, hs, room) + if h.Ended? && IsFor(me, h.data) && r then [h.data] else []
  {
    assert (hs + [h])[..|hs|] == hs && (room + [r])[..|hs|] == room;
  }

  // The invariant.

  /** What has gone out of the packet being sent. */
  function Part(st: Station): seq<byte>
    requires Ok(st)
  {
    if st.mode == Wait || st.out == [] then [] else Between(st.out[0], 0, st.offset)
  }

  /** Blocks start at the right bytes, and a machine that waits is not in the middle of a packet. */
  predicate SendsRight(st: Station)
    requires Ok(st)
  {
    && (st.out != [] && st.offset < |st.out[0]| ==> SlotOf(st.out[0], st.offset) == 0)
    && (st.mode == Wait ==> st.offset == 0)
  }

  /** With what is still on its way machine q hears just what the others have sent, and the part of a packet. */
  ghost predicate HearsRight(rx: Rx, wire: seq<byte>, heard: seq<Heard>, sent: seq<Heard>, part: seq<byte>) {
    Hear(rx, wire).0 == Rx(false, part) && heard + Hear(rx, wire).1 == sent
  }

  predicate StoresRight(st: Station, heard: seq<Heard>, room: seq<bool>, taken: seq<seq<byte>>) {
    |heard| == |room| && taken + st.inbox == Stored(st.me, heard, room)
  }

  /** The same of machine q when p has the token. */
  ghost predicate RightAt(net: Net, h: History, p: nat, q: nat)
    requires Fits(net, h) && p < |net.stations| && q < |net.stations|
  {
    && Ok(net.stations[p]) && Ok(net.stations[q]) && SendsRight(net.stations[q])
    && HearsRight(net.stations[q].rx, net.wires[q], h.heard[q], For(h.log, q), if q == p then [] else Part(net.stations[p]))
    && StoresRight(net.stations[q], h.heard[q], h.room[q], h.taken[q])
  }

  ghost predicate Right(net: Net, h: History, p: nat) {
    && Good(net) && Fits(net, h) && TokenWith(net, p)
    && forall q :: 0 <= q < |net.stations| ==> RightAt(net, h, p, q)
  }

  // Hearing more.

  lemma HearsMore(rx: Rx, wire: seq<byte>, heard: seq<Heard>, sent: seq<Heard>, part: seq<byte>, block: seq<byte>,
                  more: seq<Heard>, part': seq<byte>)
    requires HearsRight(rx, wire, heard, sent, part) && Hear(Rx(false, part), block) == (Rx(false, part'), more)
    ensures HearsRight(rx, wire + block, heard, sent + more, part')
  {
    HearAppend(rx, wire, block);
    Associative(heard, Hear(rx, wire).1, more);
  }

  lemma BlockRight(st: Station)
    requires Ok(st) && SendsRight(st) && st.mode != Wait && st.out != [] && st.offset < |st.out[0]|
    ensures var r := MoreTX(st);
      && Hear(Rx(false, Part(st)), r.1) == (Rx(false, Part(r.0)), []) && SendsRight(r.0)
      && r.0 == st.(offset := r.0.offset)
  {
    var p, off := st.out[0], st.offset;
    var (b, o) := Block(Written, p, off, 0);
    assert AtSlot(p, off, 0);
    BlockBytes(p, off, 0);
    BlockEnds(p, off, 0);
    BetweenJoin(p, 0, off, o);
    HearEscaped(Between(p, 0, off), Between(p, off, o));
  }

  lemma EndRight(st: Station)
    requires Ok(st) && SendsRight(st) && Ends(st) && st.mode == Transmit
    ensures var r := MoreTX(st);
      && Hear(Rx(false, Part(st)), r.1) == (CLEAN, [Ended(Kept(st.out[0], 0), EndCode(st))]) && SendsRight(r.0)
      && r.0 == st.(out := st.out[1..], offset := 0, mode := if |st.out| == 1 then Wait else Transmit)
      && Part(r.0) == []
  {
    AllBetween(st.out[0], 0);
    EndHeard(Rx(false, Part(st)), EndCode(st));
    var r := MoreTX(st).0;
    if r.out != [] { assert SlotOf(r.out[0], 0) == 0; }
  }

  // The steps.

  /** Only the machine with the token transmits. */
  lemma OthersWait(net: Net, p: nat, q: nat)
    requires Good(net) && TokenWith(net, p) && q < |net.stations| && q != p
    ensures net.stations[q].mode == Wait
  {
    OnlyOne(net, p, q);
    assert GoodAt(net, q);
  }

  /** A call that transmits nothing. */
  lemma IdleRight(net: Net, h: History, p: nat, a: nat, q: nat)
    requires Right(net, h, p) && a < |net.stations| && q < |net.stations|
    requires net.stations[a].mode == Wait || net.stations[a].out == []
    ensures RightAt(Next(net, Transmits(a, {})), h, p, q)
  {
    NextTransmits(net, a, {}, q);
    NextTransmits(net, a, {}, p);
    NothingAdded(net.wires[q]);
    assert RightAt(net, h, p, q);
  }

  /** A block of a packet. */
  lemma BlockRightAt(net: Net, h: History, p: nat, q: nat)
    requires Right(net, h, p) && q < |net.stations| && net.stations[p].mode == Transmit
    requires net.stations[p].out != [] && net.stations[p].offset < |net.stations[p].out[0]|
    ensures RightAt(Next(net, Transmits(p, {})), h, p, q)
  {
    assert RightAt(net, h, p, p) && RightAt(net, h, p, q);
    NextTransmits(net, p, {}, q);
    NextTransmits(net, p, {}, p);
    BlockRight(net.stations[p]);
    if q != p {
      var st := net.stations[p];
      HearsMore(net.stations[q].rx, net.wires[q], h.heard[q], For(h.log, q), Part(st), MoreTX(st).1, [], Part(MoreTX(st).0));
      NothingAdded(For(h.log, q));
    }
  }

  /** After the end of a packet, whoever has the token is not in the middle of one. */
  lemma NoPart(net: Net, h: History, p: nat, next: nat)
    requires Right(net, h, p) && net.stations[p].mode == Transmit && Ends(net.stations[p])
    requires next == if |net.stations[p].out| == 1 then PartnerOf(p, |net.stations|) else p
    ensures var r := Next(net, Transmits(p, {})); Ok(r.stations[next]) && Part(r.stations[next]) == []
  {
    assert RightAt(net, h, p, p);
    NextTransmits(net, p, {}, next);
    EndRight(net.stations[p]);
    if next != p {
      OthersWait(net, p, next);
      assert GoodAt(net, next);
    }
  }

  /** The end of a packet, and who has the token then. */
  lemma EndRightAt(net: Net, h: History, p: nat, q: nat, next: nat)
    requires Right(net, h, p) && q < |net.stations| && net.stations[p].mode == Transmit && Ends(net.stations[p])
    requires next == if |net.stations[p].out| == 1 then PartnerOf(p, |net.stations|) else p
    ensures net.stations[p].partner < MAXNETNODES
    ensures var e := Entry(p, net.stations[p].out[0], EndCode(net.stations[p]));
      RightAt(Next(net, Transmits(p, {})), h.(log := h.log + [e]), next, q)
  {
    var st := net.stations[p];
    assert RightAt(net, h, p, p) && RightAt(net, h, p, q) && GoodAt(net, p);
    var e := Entry(p, st.out[0], EndCode(st));
    NextTransmits(net, p, {}, q);
    ForNext(h.log, e, q);
    EndRight(st);
    NoPart(net, h, p, next);
    if q == p {
      NothingAdded(For(h.log, q));
    } else {
      HearsMore(net.stations[q].rx, net.wires[q], h.heard[q], For(h.log, q), Part(st), MoreTX(st).1,
                [Ended(Kept(st.out[0], 0), EndCode(st))], []);
    }
  }

  lemma TransmitsRight(net: Net, h: History, p: nat, a: nat, next: nat, q: nat)
    requires Right(net, h, p) && Enabled(net, Transmits(a, {})) && q < |net.stations|
    requires next == if HandsOver(net, Transmits(a, {})) then PartnerOf(p, |net.stations|) else p
    ensures RightAt(Next(net, Transmits(a, {})), Noted(net, Transmits(a, {}), h), next, q)
  {
    if a != p { OthersWait(net, p, a); }
    assert GoodAt(net, a);
    if net.stations[a].mode == Wait || net.stations[a].out == [] {
      IdleRight(net, h, p, a, q);
    } else if Ends(net.stations[a]) {
      EndRightAt(net, h, p, q, next);
    } else {
      BlockRightAt(net, h, p, q);
    }
  }

  /** What one byte adds to the packets stored. */
  lemma StoredByByte(st: Station, c: byte)
    requires Ok(st)
    ensures var e := RxByte(st.rx, c).1;
      Receive(st, c).inbox ==
        if e.Ended? && IsFor(st.me, e.data) && |st.inbox| < 7 then st.inbox + [e.data] else st.inbox
  {
    var e := RxByte(st.rx, c).1;
    if e.Ended? { AcceptsIff(st.me, e.data); }
  }

  lemma ByteStored(st: Station, c: byte, heard: seq<Heard>, room: seq<bool>, taken: seq<seq<byte>>)
    requires Ok(st) && StoresRight(st, heard, room, taken)
    ensures var e, r := RxByte(st.rx, c).1, Receive(st, c);
      if e.Ended? then StoresRight(r, heard + [e], room + [|st.inbox| < 7], taken) else StoresRight(r, heard, room, taken)
  {
    var e := RxByte(st.rx, c).1;
    StoredByByte(st, c);
    if e.Ended? {
      StoredNext(st.me, heard, room, e, |st.inbox| < 7);
      Associative(taken, st.inbox, [e.data]);
      NothingAdded(Stored(st.me, heard, room));
    }
  }

  lemma ByteHeardRight(rx: Rx, wire: seq<byte>, heard: seq<Heard>, sent: seq<Heard>, part: seq<byte>)
    requires wire != [] && HearsRight(rx, wire, heard, sent, part)
    ensures var (next, e) := RxByte(rx, wire[0]);
      HearsRight(next, wire[1..], if e.Ended? then heard + [e] else heard, sent, part)
  {
    var (next, e) := RxByte(rx, wire[0]);
    var rest := Hear(next, wire[1..]).1;
    HearCons(rx, wire);
    if e.Ended? { Associative(heard, [e], rest); } else { NothingAdded(rest); }
  }

  /** A byte that machine a reads moves from what is on its way to what has been heard. */
  lemma ByteRight(st: Station, wire: seq<byte>, heard: seq<Heard>, room: seq<bool>, taken: seq<seq<byte>>,
                  sent: seq<Heard>, part: seq<byte>)
    requires Ok(st) && wire != [] && HearsRight(st.rx, wire, heard, sent, part) && StoresRight(st, heard, room, taken)
    ensures var e, r := RxByte(st.rx, wire[0]).1, Receive(st, wire[0]);
      if e.Ended? then
        HearsRight(r.rx, wire[1..], heard + [e], sent, part) && StoresRight(r, heard + [e], room + [|st.inbox| < 7], taken)
      else HearsRight(r.rx, wire[1..], heard, sent, part) && StoresRight(r, heard, room, taken)
  {
    ByteStored(st, wire[0], heard, room, taken);
    ByteHeardRight(st.rx, wire, heard, sent, part);
  }

  /** What a machine still has to send is not changed by what it hears, except that a machine that waits may be
      handed the channel. */
  lemma HearingKeepsPart(st: Station, c: byte)
    requires Ok(st) && SendsRight(st)
    ensures SendsRight(Receive(st, c))
    ensures Part(Receive(st, c)) == Part(st)
  {
    var r := Receive(st, c);
    if r.mode != st.mode && st.out == [] { assert SlotOf([], 0) == 0; }
  }

  /** The history when that of one machine changes. */
  function Changed(h: History, a: nat, heard: seq<Heard>, room: seq<bool>, taken: seq<seq<byte>>): History
    requires a < |h.heard| == |h.room| == |h.taken|
  {
    h.(heard := h.heard[a := heard], room := h.room[a := room], taken := h.taken[a := taken])
  }

  /** Only machine a changes, and rightly. */
  lemma ChangedAt(net: Net, h: History, p: nat, a: nat, st: Station, wire: seq<byte>, heard: seq<Heard>,
                  room: seq<bool>, taken: seq<seq<byte>>, q: nat)
    requires Fits(net, h) && p < |net.stations| && a < |net.stations| && q < |net.stations|
    requires RightAt(net, h, p, p) && RightAt(net, h, p, q) && RightAt(net, h, p, a)
    requires Ok(st) && SendsRight(st) && Part(st) == Part(net.stations[a])
    requires HearsRight(st.rx, wire, heard, For(h.log, a), if a == p then [] else Part(net.stations[p]))
    requires StoresRight(st, heard, room, taken)
    ensures RightAt(Net(net.stations[a := st], net.wires[a := wire]), Changed(h, a, heard, room, taken), p, q)
  {
  }

  lemma NotChanged(h: History, a: nat)
    requires a < |h.heard| == |h.room| == |h.taken|
    ensures h.heard[a := h.heard[a]] == h.heard && h.room[a := h.room[a]] == h.room && h.taken[a := h.taken[a]] == h.taken
    ensures Changed(h, a, h.heard[a], h.room[a], h.taken[a]) == h
  {
  }

  lemma SameWires(net: Net, a: nat, st: Station)
    requires a < |net.stations| == |net.wires|
    ensures net.(stations := net.stations[a := st]) == Net(net.stations[a := st], net.wires[a := net.wires[a]])
  {
    assert net.wires[a := net.wires[a]] == net.wires;
  }

  lemma HearsRightAt(net: Net, h: History, p: nat, a: nat, q: nat)
    requires Right(net, h, p) && Enabled(net, Hears(a)) && q < |net.stations|
    ensures RightAt(Next(net, Hears(a)), Noted(net, Hears(a), h), p, q)
  {
    assert RightAt(net, h, p, p) && RightAt(net, h, p, q) && RightAt(net, h, p, a);
    var st, wire := net.stations[a], net.wires[a];
    HearingKeepsPart(st, wire[0]);
    ByteRight(st, wire, h.heard[a], h.room[a], h.taken[a], For(h.log, a), if a == p then [] else Part(net.stations[p]));
    NotChanged(h, a);
    var e := RxByte(st.rx, wire[0]).1;
    var heard := if e.Ended? then h.heard[a] + [e] else h.heard[a];
    var room := if e.Ended? then h.room[a] + [|st.inbox| < 7] else h.room[a];
    assert Noted(net, Hears(a), h) == Changed(h, a, heard, room, h.taken[a]);
    ChangedAt(net, h, p, a, Receive(st, wire[0]), wire[1..], heard, room, h.taken[a], q);
  }

  /** Queueing a packet does not touch the one that is being sent. */
  lemma SendingKeepsPart(st: Station, dest: byte, src: byte, payload: seq<byte>)
    requires Ok(st) && SendsRight(st)
    ensures var r := Send(st, dest, src, payload);
      Ok(r) && SendsRight(r) && Part(r) == Part(st) && r.rx == st.rx && r.inbox == st.inbox && r.me == st.me
  {
    SendOk(st, dest, src, payload);
    if st.out == [] {
      var r := Send(st, dest, src, payload);
      if r.out != [] { assert SlotOf(r.out[0], 0) == 0; }
    } else {
      SendKeepsFirst(st, dest, src, payload);
    }
  }

  /** A machine that changes in nothing that matters here. */
  lemma StationRightAt(net: Net, h: History, p: nat, a: nat, st: Station, r: Net, q: nat)
    requires Right(net, h, p) && a < |net.stations| && q < |net.stations| && r == net.(stations := net.stations[a := st])
    requires var was := net.stations[a];
      && Ok(was) && Ok(st) && SendsRight(st) && Part(st) == Part(was)
      && st.rx == was.rx && st.inbox == was.inbox && st.me == was.me
    ensures RightAt(r, h, p, q)
  {
    assert RightAt(net, h, p, p) && RightAt(net, h, p, q) && RightAt(net, h, p, a);
    SameWires(net, a, st);
    NotChanged(h, a);
    ChangedAt(net, h, p, a, st, net.wires[a], h.heard[a], h.room[a], h.taken[a], q);
  }

  lemma SendsRightAt(net: Net, h: History, p: nat, a: nat, dest: byte, src: byte, payload: seq<byte>, q: nat)
    requires Right(net, h, p) && a < |net.stations| && q < |net.stations|
    ensures RightAt(Next(net, Sends(a, dest, src, payload)), h, p, q)
  {
    assert RightAt(net, h, p, a);
    SendingKeepsPart(net.stations[a], dest, src, payload);
    StationRightAt(net, h, p, a, Send(net.stations[a], dest, src, payload), Next(net, Sends(a, dest, src, payload)), q);
  }

  lemma FetchesRightAt(net: Net, h: History, p: nat, a: nat, q: nat)
    requires Right(net, h, p) && Enabled(net, Fetches(a)) && q < |net.stations|
    ensures RightAt(Next(net, Fetches(a)), Noted(net, Fetches(a), h), p, q)
  {
    assert RightAt(net, h, p, p) && RightAt(net, h, p, q) && RightAt(net, h, p, a);
    var st := net.stations[a];
    FetchOk(st);
    OneAndRest(st.inbox);
    Associative(h.taken[a], [st.inbox[0]], st.inbox[1..]);
    SameWires(net, a, Fetch(st));
    NotChanged(h, a);
    ChangedAt(net, h, p, a, Fetch(st), net.wires[a], h.heard[a], h.room[a], h.taken[a] + [st.inbox[0]], q);
  }

  /** Every step on a channel that loses nothing keeps all that right. */
  lemma StepRight(net: Net, h: History, p: nat, s: Step) returns (next: nat)
    requires Right(net, h, p) && Enabled(net, s) && Lossless(s)
    ensures Right(Next(net, s), Noted(net, s, h), next)
  {
    next := if HandsOver(net, s) then PartnerOf(p, |net.stations|) else p;
    StepTokens(net, s);
    TokenMoves(net, s, p);
    forall q | 0 <= q < |net.stations| ensures RightAt(Next(net, s), Noted(net, s, h), next, q) {
      match s
      case Transmits(a, deaf) => TransmitsRight(net, h, p, a, next, q);
      case Hears(a) => HearsRightAt(net, h, p, a, q);
      case Sends(a, dest, src, payload) => SendsRightAt(net, h, p, a, dest, src, payload, q);
      case Fetches(a) => FetchesRightAt(net, h, p, a, q);
      case Impatient(a) => OthersArePatient(net, a);
    }
  }

  // Whole runs.

  function AllNoted(net: Net, steps: seq<Step>, h: History): (r: History)
    requires Possible(net, steps) && Shaped(net) && Fits(net, h)
    ensures |r.heard| == |r.room| == |r.taken| == |net.stations|
    decreases |steps|
  {
    if steps == [] then h
    else
      NextShaped(net, steps[0]);
      AllNoted(Next(net, steps[0]), steps[1..], Noted(net, steps[0], h))
  }

  lemma {:induction false} RunRight(net: Net, steps: seq<Step>, h: History, p: nat) returns (q: nat)
    requires Right(net, h, p) && Possible(net, steps) && AllLossless(steps)
    ensures Right(Run(net, steps), AllNoted(net, steps, h), q)
    decreases |steps|
  {
    if steps == [] {
      q := p;
    } else {
      var next := StepRight(net, h, p, steps[0]);
      q := RunRight(Next(net, steps[0]), steps[1..], Noted(net, steps[0], h), next);
    }
  }

  function NothingYet(n: nat): (h: History)
    ensures |h.heard| == |h.room| == |h.taken| == n
  {
    History([], seq(n, q => []), seq(n, q => []), seq(n, q => []))
  }

  lemma StartRight(n: nat)
    requires 2 <= n <= MAXNETNODES
    ensures Right(StartNet(n), NothingYet(n), 0)
  {
    var net, h := StartNet(n), NothingYet(n);
    StartGood(n);
    StartTokens(n);
    forall q | 0 <= q < n ensures RightAt(net, h, 0, q) {
      assert Hear(net.stations[q].rx, net.wires[q]) == (CLEAN, []);
      NothingAdded<Heard>([]);
      NothingAdded<seq<byte>>([]);
    }
  }

  /** From the start of the game, as long as the channel loses nothing: every machine hears, in order, the packets
      that the others have transmitted, each as the code sends it, and no others; those it has not heard yet are
      on their way. Its game has fetched, or still finds in the queue, in order, exactly those that were addressed
      to it and found room when they came. */
  lemma Delivery(n: nat, steps: seq<Step>, q: nat)
    requires 2 <= n <= MAXNETNODES && Possible(StartNet(n), steps) && AllLossless(steps) && q < n
    ensures Shaped(StartNet(n))
    ensures var net, h := Run(StartNet(n), steps), AllNoted(StartNet(n), steps, NothingYet(n));
      && |net.stations| == n == |net.wires| && |h.heard[q]| == |h.room[q]|
      && h.heard[q] + Hear(net.stations[q].rx, net.wires[q]).1 == For(h.log, q)
      && h.taken[q] + net.stations[q].inbox == Stored(net.stations[q].me, h.heard[q], h.room[q])
  {
    StartRight(n);
    RunSize(StartNet(n), steps);
    var p := RunRight(StartNet(n), steps, NothingYet(n), 0);
    assert RightAt(Run(StartNet(n), steps), AllNoted(StartNet(n), steps, NothingYet(n)), p, q);
  }

  /** Packets that are unharmed are heard as they were queued. */
  lemma {:induction false} UnharmedAreHeard(log: seq<Entry>, q: nat)
    requires forall i :: 0 <= i < |log| ==> Unharmed(log[i].packet)
    ensures For(log, q) == AsQueued(log, q)
  {
    if log == [] {
    } else {
      UnharmedAreHeard(log[..|log| - 1], q);
      KeptIffUnharmed(log[|log| - 1].packet);
    }
  }

  function AsQueued(log: seq<Entry>, q: nat): seq<Heard> {
    if log == [] then []
    else
      var e := log[|log| - 1];
      AsQueued(log[..|log| - 1], q) + if e.from == q then [] else [Ended(e.packet, e.code)]
  }
}
