/** Two machines on a serial line finding out who is player 1, over a channel that may lose, repeat and
    reorder packets. */
module Arbitration {
  import opened Bytes

  const CLOCKS_PER_SEC := 1000

  /** The packets that matter, with the ID of the sender and how far it has got, or in the old protocol the
      player it takes itself for; others are ignored. */
  datatype Packet = ID(id: seq<byte>, stage: int) | Play(player: int, stage: int) | Noise

  /** Of two different IDs exactly one is the greater. */
  lemma OneIsGreater(a: seq<byte>, b: seq<byte>)
    requires |a| == |b|
    ensures MemCmp(a, b) == 0 <==> a == b
    ensures a != b ==> (MemCmp(a, b) > 0) != (MemCmp(b, a) > 0)
  {
    MemCmpIsNumeric(a, b);
    MemCmpIsNumeric(b, a);
  }

  const ID_LEN := 6

  /** One machine; `failed` once it has seen its own ID come from the other end, and given up. */
  datatype Side = Side(id: seq<byte>, player: int, stage: int, lastSend: int, newProtocol: bool, failed: bool)

  predicate Sized(id: seq<byte>, ps: seq<Packet>) {
    |id| == ID_LEN && forall i :: 0 <= i < |ps| ==> ps[i].ID? ==> |ps[i].id| == ID_LEN
  }

  /** The player that an ID makes against another. */
  function PlayerOf(mine: seq<byte>, other: seq<byte>): int
    requires |mine| == |other|
  {
    if MemCmp(mine, other) > 0 then 1 else 0
  }

  function Take(s: Side, p: Packet): Side
    requires p.ID? ==> |p.id| == |s.id|
  {
    if s.failed then s
    else match p
    case Noise => s
    case ID(id, stage) =>
      if id == s.id then s.(player := 0, newProtocol := true, failed := true)
      else s.(player := PlayerOf(s.id, id), stage := stage + 1, lastSend := 0, newProtocol := true)
    case Play(player, stage) =>
      s.(stage := (if player == s.player then 0 else stage) + 1, lastSend := 0, newProtocol := false)
  }

  /** What a machine tells the other end, in the protocol that the other was last heard to use. */
  function Tells(s: Side): Packet { if s.newProtocol then ID(s.id, s.stage) else Play(s.player, s.stage) }

  /** The packets waiting are taken one after the other. */
  function TakeAll(s: Side, ps: seq<Packet>): (r: Side)
    requires Sized(s.id, ps)
    ensures r.id == s.id
  {
    if ps == [] then s else Take(TakeAll(s, ps[..|ps| - 1]), ps[|ps| - 1])
  }

  datatype Polled = Polled(side: Side, sent: seq<Packet>, done: bool)

  /** A machine that has got to stage 2 is done; another takes what has come and, once a second or when
      something new has come, tells the other end how far it is. */
  function Poll(s: Side, ps: seq<Packet>, now: int): Polled
    requires Sized(s.id, ps)
  {
    if s.failed then Polled(s, [], false)
    else if s.stage >= 2 then Polled(s, [], true)
    else
      var t := TakeAll(s, ps);
      if t.failed || now - t.lastSend < CLOCKS_PER_SEC then Polled(t, [], false)
      else Polled(t.(lastSend := now), [Tells(t)], false)
  }

  class Arbiter {
    const localid: seq<byte>
    var consoleplayer: int
    var localstage: int
    var lastSendTime: int
    var newProtocol: bool
    var failed: bool
    var incoming: seq<Packet>
    var outgoing: seq<Packet>

    ghost predicate Valid()
      reads this
    {
      Sized(localid, incoming)
    }

    function Abs(): Side
      reads this
    {
      Side(localid, consoleplayer, localstage, lastSendTime, newProtocol, failed)
    }

    constructor (id: seq<byte>, player: int)
      requires |id| == ID_LEN
      ensures Valid() && Abs() == Side(id, player, 0, 0, true, false) && incoming == outgoing == []
    {
      localid, consoleplayer := id, player;
      localstage, lastSendTime, newProtocol, failed, incoming, outgoing := 0, 0, true, false, [], [];
    }

    method ProcessPackets()
      requires Valid() && !failed
      modifies `consoleplayer, `localstage, `lastSendTime, `newProtocol, `failed, `incoming
      ensures Valid() && Abs() == TakeAll(old(Abs()), old(incoming)) && (failed || incoming == [])
    {
      ghost var all, k := incoming, 0;
      while incoming != []
        invariant Valid() && !failed && k <= |all| && incoming == all[k..]
        invariant Abs() == TakeAll(old(Abs()), all[..k])
        decreases |incoming|
      {
        var packet := incoming[0];
        incoming := incoming[1..];
        assert all[..k + 1][..k] == all[..k];
        k := k + 1;
        var remotestage;
        if packet.ID? {
          remotestage := packet.stage;
          newProtocol := true;
          var c := MemCmp(localid, packet.id);
          OneIsGreater(localid, packet.id);
          consoleplayer := if c > 0 then 1 else 0;
          if c == 0 {
            failed := true;
            FailedStays(old(Abs()), all, k);
            return;
          }
        } else if packet.Play? {
          remotestage := packet.stage;
          newProtocol := false;
          if packet.player == consoleplayer {
            remotestage := 0;
          }
        } else {
          continue;
        }
        localstage := remotestage + 1;
        lastSendTime := 0;
      }
      assert all[..k] == all;
    }

    method PollArbitratePlayers(now: int) returns (done: bool)
      requires Valid() && !failed
      modifies this
      ensures Valid()
      ensures var r := Poll(old(Abs()), old(incoming), now);
        Abs() == r.side && outgoing == old(outgoing) + r.sent && done == r.done
    {
      done := false;
      if localstage >= 2 {
        incoming := [];
        return true;
      }
      ProcessPackets();
      if !failed && now - lastSendTime >= CLOCKS_PER_SEC {
        lastSendTime := now;
        outgoing := outgoing + [if newProtocol then ID(localid, localstage) else Play(consoleplayer, localstage)];
      }
    }
  }

  lemma {:induction false} FailedStays(s: Side, ps: seq<Packet>, k: nat)
    requires Sized(s.id, ps) && k <= |ps| && TakeAll(s, ps[..k]).failed
    ensures TakeAll(s, ps) == TakeAll(s, ps[..k])
    decreases |ps| - k
  {
    if k < |ps| {
      assert ps[..k + 1][..k] == ps[..k];
      FailedStays(s, ps, k + 1);
    } else {
      assert ps[..k] == ps;
    }
  }

  // The two ends.

  /** The ends, everything each has ever sent, and whether each has heard from the other. */
  datatype World = World(a: Side, b: Side, sentA: seq<Packet>, sentB: seq<Packet>, heardA: bool, heardB: bool)

  /** One end polls. Any packets the other has ever sent may have come, in any order and number, or none. */
  datatype Step = Polls(isA: bool, came: seq<Packet>, now: int)

  predicate Came(came: seq<Packet>, sent: seq<Packet>) {
    forall i :: 0 <= i < |came| ==> !came[i].Noise? ==> came[i] in sent
  }

  predicate Enabled(w: World, s: Step) { Came(s.came, if s.isA then w.sentB else w.sentA) }

  predicate HasId(came: seq<Packet>) { exists i :: 0 <= i < |came| && came[i].ID? }

  function Swap(w: World): World { World(w.b, w.a, w.sentB, w.sentA, w.heardB, w.heardA) }

  function PollA(w: World, came: seq<Packet>, now: int): World
    requires Sized(w.a.id, came)
  {
    var r := Poll(w.a, came, now);
    w.(a := r.side, sentA := w.sentA + r.sent, heardA := w.heardA || (w.a.stage < 2 && !w.a.failed && HasId(came)))
  }

  function Next(w: World, s: Step): World
    requires Sized(w.a.id, s.came) && Sized(w.b.id, s.came)
  {
    if s.isA then PollA(w, s.came, s.now) else Swap(PollA(Swap(w), s.came, s.now))
  }

  /** What is true of one end: it has its number once it has heard, and only then can get further. */
  predicate EndOk(s: Side, sent: seq<Packet>, heard: bool, other: Side, otherHeard: bool) {
    && |s.id| == |other.id| == ID_LEN && s.id != other.id && !s.failed && s.newProtocol
    && (heard ==> s.player == PlayerOf(s.id, other.id))
    && (s.stage >= 1 ==> heard) && (s.stage >= 2 ==> otherHeard)
    && (forall i :: 0 <= i < |sent| ==> sent[i].ID? && sent[i].id == s.id && (sent[i].stage >= 1 ==> heard))
  }

  ghost predicate Inv(w: World) {
    EndOk(w.a, w.sentA, w.heardA, w.b, w.heardB) && EndOk(w.b, w.sentB, w.heardB, w.a, w.heardA)
  }

  lemma {:induction false} TakeAllOk(w: World, came: seq<Packet>)
    requires Inv(w) && Came(came, w.sentB)
    ensures Sized(w.a.id, came)
    ensures var t := TakeAll(w.a, came);
      && !t.failed && t.newProtocol && (w.heardA || HasId(came) ==> t.player == PlayerOf(w.a.id, w.b.id))
      && (!HasId(came) ==> t == w.a)
      && (t.stage >= 1 ==> w.heardA || HasId(came)) && (t.stage >= 2 ==> w.heardB)
  {
    if came == [] {
    } else {
      var before, p := came[..|came| - 1], came[|came| - 1];
      TakeAllOk(w, before);
      if !p.Noise? { assert p in w.sentB; }
    }
  }

  lemma PollAKeeps(w: World, came: seq<Packet>, now: int)
    requires Inv(w) && Came(came, w.sentB)
    ensures Sized(w.a.id, came) && Inv(PollA(w, came, now))
  {
    TakeAllOk(w, came);
  }

  lemma StepKeeps(w: World, s: Step)
    requires Inv(w) && Enabled(w, s)
    ensures Sized(w.a.id, s.came) && Sized(w.b.id, s.came) && Inv(Next(w, s))
    ensures var r := Next(w, s);
      r.a.id == w.a.id && r.b.id == w.b.id && (w.heardA ==> r.heardA) && (w.heardB ==> r.heardB)
  {
    if s.isA { PollAKeeps(w, s.came, s.now); } else { PollAKeeps(Swap(w), s.came, s.now); }
  }

  ghost predicate Possible(w: World, steps: seq<Step>)
    decreases |steps|
  {
    steps == [] || (Enabled(w, steps[0]) && Sized(w.a.id, steps[0].came) && Sized(w.b.id, steps[0].came)
                    && Possible(Next(w, steps[0]), steps[1..]))
  }

  function Run(w: World, steps: seq<Step>): World
    requires Possible(w, steps)
    decreases |steps|
  {
    if steps == [] then w else Run(Next(w, steps[0]), steps[1..])
  }

  lemma {:induction false} RunKeeps(w: World, steps: seq<Step>)
    requires Inv(w) && Possible(w, steps)
    ensures var r := Run(w, steps);
      Inv(r) && r.a.id == w.a.id && r.b.id == w.b.id && (w.heardA ==> r.heardA) && (w.heardB ==> r.heardB)
    decreases |steps|
  {
    if steps == [] {
    } else {
      StepKeeps(w, steps[0]);
      RunKeeps(Next(w, steps[0]), steps[1..]);
    }
  }

  function Start(idA: seq<byte>, idB: seq<byte>, playerA: int, playerB: int): World {
    World(Side(idA, playerA, 0, 0, true, false), Side(idB, playerB, 0, 0, true, false), [], [], false, false)
  }

  /** Whenever either end has got to stage 2, both have their numbers, one is player 0 and the other
      player 1, and whatever happens afterwards they keep them. */
  lemma Agreement(idA: seq<byte>, idB: seq<byte>, playerA: int, playerB: int, steps: seq<Step>, more: seq<Step>)
    requires |idA| == |idB| == ID_LEN && idA != idB
    requires Possible(Start(idA, idB, playerA, playerB), steps)
    requires var w := Run(Start(idA, idB, playerA, playerB), steps); w.a.stage >= 2 || w.b.stage >= 2
    requires Possible(Run(Start(idA, idB, playerA, playerB), steps), more)
    ensures var w := Run(Start(idA, idB, playerA, playerB), steps);
      var later := Run(w, more);
      && w.heardA && w.heardB && {w.a.player, w.b.player} == {0, 1}
      && (w.a.player == 1 <==> Value(idA) > Value(idB))
      && later.a.player == w.a.player && later.b.player == w.b.player
  {
    var start := Start(idA, idB, playerA, playerB);
    RunKeeps(start, steps);
    RunKeeps(Run(start, steps), more);
    OneIsGreater(idA, idB);
    MemCmpIsNumeric(idA, idB);
  }

  lemma {:induction false} FailedAsZero(s: Side, ps: seq<Packet>)
    requires Sized(s.id, ps) && !s.failed && TakeAll(s, ps).failed
    ensures TakeAll(s, ps).player == 0 && TakeAll(s, ps).newProtocol
  {
    if ps == [] {
    } else if TakeAll(s, ps[..|ps| - 1]).failed {
      FailedAsZero(s, ps[..|ps| - 1]);
    }
  }

  /** With the same ID at both ends, the first packet heard stops the machine instead, for good. */
  lemma SameIdStops(s: Side, ps: seq<Packet>, k: nat, now: int, more: seq<Packet>, later: int)
    requires Sized(s.id, ps) && !s.failed && s.stage < 2 && k < |ps| && ps[k].ID? && ps[k].id == s.id
    requires Sized(s.id, more)
    ensures var r := Poll(s, ps, now);
      && r.side.failed && r.side.player == 0 && r.side.newProtocol && r.sent == [] && !r.done
      && Poll(r.side, more, later) == Polled(r.side, [], false)
  {
    assert ps[..k + 1][..k] == ps[..k];
    assert TakeAll(s, ps[..k + 1]).failed;
    FailedStays(s, ps, k + 1);
    FailedAsZero(s, ps);
  }

  // Getting there.

  /** A machine that last hears stage k goes on at stage k + 1, and unless it is done, or its clock has not run for
      a second yet, it says so at once. */
  lemma HearsStage(s: Side, ps: seq<Packet>, id: seq<byte>, k: int, now: int)
    requires Sized(s.id, ps) && |id| == ID_LEN && !TakeAll(s, ps).failed && s.stage < 2 && !s.failed && id != s.id
    ensures Sized(s.id, ps + [ID(id, k)])
    ensures var r := Poll(s, ps + [ID(id, k)], now);
      && !r.side.failed && r.side.stage == k + 1 && !r.done
      && r.sent == if now >= 1000 then [ID(s.id, k + 1)] else []
  {
    assert (ps + [ID(id, k)])[..|ps|] == ps;
  }

  /** The same of the old protocol, where a machine that takes itself for the same player as we do must start over. */
  lemma HearsOldStage(s: Side, ps: seq<Packet>, player: int, k: int, now: int)
    requires Sized(s.id, ps) && !TakeAll(s, ps).failed && s.stage < 2 && !s.failed
    ensures Sized(s.id, ps + [Play(player, k)])
    ensures var r, t := Poll(s, ps + [Play(player, k)], now), TakeAll(s, ps);
      && !r.side.failed && r.side.player == t.player && r.side.stage == (if player == t.player then 1 else k + 1)
      && r.sent == if now >= 1000 then [Play(t.player, r.side.stage)] else []
  {
    assert (ps + [Play(player, k)])[..|ps|] == ps;
  }

  /** A machine that hears nothing says the same again once a second. */
  lemma OnceASecond(s: Side, before: int, now: int)
    requires |s.id| == ID_LEN && !s.failed && s.stage < 2 && Poll(s, [], before).sent != []
    ensures Poll(Poll(s, [], before).side, [], now).sent ==
            if now - before >= 1000 then Poll(s, [], before).sent else []
  {
  }

  ghost predicate HasStage(sent: seq<Packet>, k: int) { exists i :: 0 <= i < |sent| && sent[i].ID? && sent[i].stage >= k }

  /** One end is done and says nothing any more, and has not said anything that could get the other there. */
  ghost predicate Stuck(s: Side, sent: seq<Packet>, other: Side) {
    s.stage >= 2 && other.stage < 2 && !HasStage(sent, 1)
  }

  predicate NotNegative(w: World) {
    && w.a.stage >= 0 && w.b.stage >= 0 && w.a.lastSend >= 0 && w.b.lastSend >= 0
    && (forall i :: 0 <= i < |w.sentA| && w.sentA[i].ID? ==> w.sentA[i].stage >= 0)
    && (forall i :: 0 <= i < |w.sentB| && w.sentB[i].ID? ==> w.sentB[i].stage >= 0)
  }

  ghost predicate Both(w: World) { w.a.stage >= 2 && w.b.stage >= 2 }

  /** Both ends are done: each says so at its next poll. */
  lemma BothDone(w: World, now: int)
    requires Inv(w) && Both(w)
    ensures Poll(w.a, [], now).done && Poll(w.b, [], now).done
  {
  }

  /** These polls are possible, none of them before `clock`, and lead from one state to the other. */
  ghost predicate Leads(w: World, steps: seq<Step>, r: World, clock: int) {
    Possible(w, steps) && Run(w, steps) == r && forall i :: 0 <= i < |steps| ==> steps[i].now >= clock
  }

  lemma OnePoll(w: World, s: Step, clock: int)
    requires Inv(w) && Enabled(w, s) && s.now >= clock
    ensures Sized(w.a.id, s.came) && Sized(w.b.id, s.came) && Leads(w, [s], Next(w, s), clock) && Inv(Next(w, s))
  {
    StepKeeps(w, s);
    assert [s][1..] == [] && Possible(Next(w, s), []);
  }

  lemma {:induction false} LeadsOn(w: World, s: seq<Step>, m: World, t: seq<Step>, r: World, clock: int)
    requires Leads(w, s, m, clock) && Leads(m, t, r, clock)
    ensures Leads(w, s + t, r, clock)
    decreases |s|
  {
    if s == [] {
      assert s + t == t;
    } else {
      assert (s + t)[1..] == s[1..] + t && (s + t)[0] == s[0];
      assert forall i :: 0 <= i < |s| - 1 ==> s[1..][i] == s[i + 1];
      LeadsOn(Next(w, s[0]), s[1..], m, t, r, clock);
      assert forall i :: 0 <= i < |s + t| ==> (s + t)[i] == if i < |s| then s[i] else t[i - |s|];
    }
  }

  /** One end polls with one packet of the other's. */
  lemma PollsOne(w: World, isA: bool, p: Packet, now: int)
    requires Inv(w) && p.ID? && p in (if isA then w.sentB else w.sentA) && now >= 1000
    requires (if isA then w.a.stage else w.b.stage) < 2
    ensures var s := Step.Polls(isA, [p], now);
      && Enabled(w, s) && Sized(w.a.id, [p]) && Sized(w.b.id, [p])
      && var r := Next(w, s);
         if isA then r.a.stage == p.stage + 1 && r.b == w.b && r.sentA == w.sentA + [ID(w.a.id, p.stage + 1)]
                     && r.sentB == w.sentB
         else r.b.stage == p.stage + 1 && r.a == w.a && r.sentB == w.sentB + [ID(w.b.id, p.stage + 1)]
              && r.sentA == w.sentA
  {
    var me := if isA then w.a else w.b;
    StepKeeps(w, Step.Polls(isA, [p], now));
    NothingAddedBefore(p);
    HearsStage(me, [], p.id, p.stage, now);
  }

  lemma NothingAddedBefore(p: Packet)
    ensures [] + [p] == [p]
  {
  }

  function Latest(a: int, b: int): int { if a > b then a else b }

  /** An end that has nothing to read says how far it is. */
  lemma PollsNothing(w: World, now: int)
    requires Inv(w) && w.a.stage < 2 && now - w.a.lastSend >= 1000
    ensures var s := Step.Polls(true, [], now);
      && Enabled(w, s) && Sized(w.a.id, []) && Sized(w.b.id, [])
      && Next(w, s) == w.(a := w.a.(lastSend := now), sentA := w.sentA + [ID(w.a.id, w.a.stage)])
  {
  }

  /** An end that is not done hears a packet of the other's. */
  lemma HearsOne(w: World, isA: bool, p: Packet, now: int, clock: int) returns (steps: seq<Step>, r: World)
    requires Inv(w) && p.ID? && p in (if isA then w.sentB else w.sentA) && now >= 1000 && now >= clock
    requires (if isA then w.a.stage else w.b.stage) < 2
    ensures Leads(w, steps, r, clock) && Inv(r)
    ensures if isA then r.a.stage == p.stage + 1 && r.b == w.b && ID(w.a.id, p.stage + 1) in r.sentA
            else r.b.stage == p.stage + 1 && r.a == w.a && ID(w.b.id, p.stage + 1) in r.sentB && r.sentA == w.sentA
  {
    var s := Step.Polls(isA, [p], now);
    PollsOne(w, isA, p, now);
    OnePoll(w, s, clock);
    steps, r := [s], Next(w, s);
  }

  lemma SaysStage(w: World, now: int, clock: int) returns (steps: seq<Step>, r: World)
    requires Inv(w) && w.a.stage < 2 && now - w.a.lastSend >= 1000 && now >= clock
    ensures Leads(w, steps, r, clock) && Inv(r)
    ensures r.a.stage == w.a.stage && r.b == w.b && ID(w.a.id, w.a.stage) in r.sentA
    ensures r.sentA == w.sentA + [ID(w.a.id, w.a.stage)]
  {
    var s := Step.Polls(true, [], now);
    PollsNothing(w, now);
    OnePoll(w, s, clock);
    steps, r := [s], Next(w, s);
  }

  /** When one end is done the other gets there with a packet that says so. */
  lemma OtherCanFinish(w: World, isA: bool, clock: int) returns (steps: seq<Step>, r: World)
    requires Inv(w) && (if isA then w.b.stage >= 2 else w.a.stage >= 2)
    requires HasStage(if isA then w.sentB else w.sentA, 1)
    ensures Leads(w, steps, r, clock) && Inv(r) && Both(r)
  {
    var sent := if isA then w.sentB else w.sentA;
    var i :| 0 <= i < |sent| && sent[i].ID? && sent[i].stage >= 1;
    if Both(w) {
      steps, r := [], w;
    } else {
      steps, r := HearsOne(w, isA, sent[i], Latest(1000, clock), clock);
    }
  }

  /** While neither end is done, one of them says how far it is, the other and then the first hear that, and so on. */
  lemma BothCanFinish(w: World, clock: int) returns (steps: seq<Step>, r: World)
    requires Inv(w) && NotNegative(w) && w.a.stage < 2 && w.b.stage < 2
    ensures Leads(w, steps, r, clock) && Inv(r) && Both(r)
  {
    var now := Latest(1000 + w.a.lastSend, Latest(1000, clock));
    var k := w.a.stage;
    var one, m1 := SaysStage(w, now, clock);
    var two, m2 := HearsOne(m1, false, ID(w.a.id, k), now, clock);
    LeadsOn(w, one, m1, two, m2, clock);
    var three, m3 := HearsOne(m2, true, ID(m1.b.id, k + 1), now, clock);
    LeadsOn(w, one + two, m2, three, m3, clock);
    var i :| 0 <= i < |m3.sentA| && m3.sentA[i] == ID(m2.a.id, k + 2);
    assert HasStage(m3.sentA, 1);
    var four;
    four, r := OtherCanFinish(m3, false, clock);
    LeadsOn(w, one + two + three, m3, four, r, clock);
    steps := one + two + three + four;
  }

  lemma CanFinish(w: World, clock: int) returns (steps: seq<Step>, r: World)
    requires Inv(w) && NotNegative(w) && !Stuck(w.a, w.sentA, w.b) && !Stuck(w.b, w.sentB, w.a)
    ensures Leads(w, steps, r, clock) && Inv(r) && Both(r)
  {
    if w.a.stage < 2 && w.b.stage < 2 {
      steps, r := BothCanFinish(w, clock);
    } else if Both(w) {
      steps, r := [], w;
    } else {
      steps, r := OtherCanFinish(w, w.a.stage < 2, clock);
    }
  }

  // When an end is stuck.

  predicate LowStages(ps: seq<Packet>) { forall i :: 0 <= i < |ps| ==> !ps[i].Play? && (ps[i].ID? ==> ps[i].stage < 1) }

  /** Hearing nothing higher than stage 0 does not get an end done. */
  lemma {:induction false} StaysLow(s: Side, ps: seq<Packet>)
    requires Sized(s.id, ps) && LowStages(ps) && s.stage < 2
    ensures TakeAll(s, ps).stage < 2
  {
    if ps == [] {
    } else {
      StaysLow(s, ps[..|ps| - 1]);
    }
  }

  ghost predicate AStuck(w: World) { Inv(w) && Stuck(w.a, w.sentA, w.b) }

  lemma StepStaysStuck(w: World, s: Step)
    requires AStuck(w) && Enabled(w, s) && Sized(w.a.id, s.came) && Sized(w.b.id, s.came)
    ensures AStuck(Next(w, s))
  {
    StepKeeps(w, s);
    if !s.isA {
      forall i | 0 <= i < |s.came| ensures !s.came[i].Play? && (s.came[i].ID? ==> s.came[i].stage < 1) {
        if !s.came[i].Noise? { assert s.came[i] in w.sentA; }
      }
      StaysLow(w.b, s.came);
    }
  }

  lemma {:induction false} StaysStuck(w: World, steps: seq<Step>)
    requires AStuck(w) && Possible(w, steps)
    ensures AStuck(Run(w, steps))
    decreases |steps|
  {
    if steps == [] {
    } else {
      StepStaysStuck(w, steps[0]);
      StaysStuck(Next(w, steps[0]), steps[1..]);
    }
  }

  function Mirrored(steps: seq<Step>): (r: seq<Step>)
    ensures |r| == |steps| && forall i :: 0 <= i < |r| ==> r[i] == steps[i].(isA := !steps[i].isA)
  {
    seq(|steps|, i requires 0 <= i < |steps| => steps[i].(isA := !steps[i].isA))
  }

  lemma {:induction false} RunMirrored(w: World, steps: seq<Step>)
    requires Possible(w, steps)
    ensures Possible(Swap(w), Mirrored(steps)) && Run(Swap(w), Mirrored(steps)) == Swap(Run(w, steps))
    decreases |steps|
  {
    if steps == [] {
    } else {
      assert Mirrored(steps)[1..] == Mirrored(steps[1..]);
      assert Next(Swap(w), Mirrored(steps)[0]) == Swap(Next(w, steps[0]));
      RunMirrored(Next(w, steps[0]), steps[1..]);
    }
  }

  ghost predicate CanEnd(w: World, clock: int) {
    exists steps, r :: Leads(w, steps, r, clock) && Both(r)
  }

  /** From every state that a run of two machines with different IDs reaches, polls that deliver what the other end
      has sent can get both ends done: if and only if neither is done already without having said anything but
      stage 0. Its own packets are all it takes. */
  lemma CanEndIff(idA: seq<byte>, idB: seq<byte>, playerA: int, playerB: int, steps: seq<Step>, clock: int)
    requires |idA| == |idB| == ID_LEN && idA != idB
    requires Possible(Start(idA, idB, playerA, playerB), steps) && NotBefore(steps, 0)
    ensures var w := Run(Start(idA, idB, playerA, playerB), steps);
      CanEnd(w, clock) <==> !Stuck(w.a, w.sentA, w.b) && !Stuck(w.b, w.sentB, w.a)
  {
    var start := Start(idA, idB, playerA, playerB);
    var w := Run(start, steps);
    RunKeeps(start, steps);
    RunNotNegative(start, steps);
    if Stuck(w.a, w.sentA, w.b) {
      forall more, r | Leads(w, more, r, clock) ensures !Both(r) { StaysStuck(w, more); }
    } else if Stuck(w.b, w.sentB, w.a) {
      forall more, r | Leads(w, more, r, clock) ensures !Both(r) {
        RunMirrored(w, more);
        StaysStuck(Swap(w), Mirrored(more));
      }
    } else {
      var more, r := CanFinish(w, clock);
    }
  }

  // Clocks.

  predicate NotBefore(steps: seq<Step>, clock: int) { forall i :: 0 <= i < |steps| ==> steps[i].now >= clock }

  lemma {:induction false} TakeAllNotNegative(s: Side, ps: seq<Packet>)
    requires Sized(s.id, ps) && s.stage >= 0 && s.lastSend >= 0
    requires forall i :: 0 <= i < |ps| ==> !ps[i].Play? && (ps[i].ID? ==> ps[i].stage >= 0)
    ensures TakeAll(s, ps).stage >= 0 && TakeAll(s, ps).lastSend >= 0
    ensures HasId(ps) && !TakeAll(s, ps).failed ==> TakeAll(s, ps).lastSend == 0
  {
    if ps == [] {
    } else {
      TakeAllNotNegative(s, ps[..|ps| - 1]);
    }
  }

  lemma CameNotNegative(came: seq<Packet>, sent: seq<Packet>)
    requires Came(came, sent) && forall i :: 0 <= i < |sent| ==> sent[i].ID? && sent[i].stage >= 0
    ensures forall i :: 0 <= i < |came| ==> !came[i].Play? && (came[i].ID? ==> came[i].stage >= 0)
    ensures HasId(came) ==> sent != []
  {
  }

  lemma StepNotNegative(w: World, s: Step)
    requires Inv(w) && NotNegative(w) && Enabled(w, s) && Sized(w.a.id, s.came) && Sized(w.b.id, s.came) && s.now >= 0
    ensures NotNegative(Next(w, s))
  {
    if s.isA {
      CameNotNegative(s.came, w.sentB);
      TakeAllNotNegative(w.a, s.came);
    } else {
      CameNotNegative(s.came, w.sentA);
      TakeAllNotNegative(w.b, s.came);
    }
  }

  lemma {:induction false} RunNotNegative(w: World, steps: seq<Step>)
    requires Inv(w) && NotNegative(w) && Possible(w, steps) && NotBefore(steps, 0)
    ensures NotNegative(Run(w, steps))
    decreases |steps|
  {
    if steps == [] {
    } else {
      StepKeeps(w, steps[0]);
      StepNotNegative(w, steps[0]);
      assert forall i :: 0 <= i < |steps| - 1 ==> steps[1..][i] == steps[i + 1];
      RunNotNegative(Next(w, steps[0]), steps[1..]);
    }
  }

  /** Neither end's clock, now at `a` and at `b`, ever goes back. */
  predicate InTime(steps: seq<Step>, a: int, b: int)
    decreases |steps|
  {
    steps == []
    || (steps[0].now >= (if steps[0].isA then a else b)
        && InTime(steps[1..], if steps[0].isA then steps[0].now else a, if steps[0].isA then b else steps[0].now))
  }

  /** An end that has said anything has run for a second; one that has heard anything has been spoken to; and one
      that is done has said so. */
  ghost predicate EndInTime(s: Side, sent: seq<Packet>, heardByOther: bool, clock: int) {
    (sent != [] ==> clock >= 1000) && (heardByOther ==> sent != []) && (s.stage >= 2 ==> HasStage(sent, 1))
  }

  ghost predicate WellTimed(w: World, a: int, b: int) {
    && Inv(w) && NotNegative(w) && a >= 0 && b >= 0
    && EndInTime(w.a, w.sentA, w.heardB, a) && EndInTime(w.b, w.sentB, w.heardA, b)
  }

  lemma PollInTime(w: World, came: seq<Packet>, now: int, a: int, b: int)
    requires WellTimed(w, a, b) && Came(came, w.sentB) && now >= a
    ensures Sized(w.a.id, came) && WellTimed(PollA(w, came, now), now, b)
  {
    PollAKeeps(w, came, now);
    TakeAllOk(w, came);
    CameNotNegative(came, w.sentB);
    TakeAllNotNegative(w.a, came);
    var t, r := TakeAll(w.a, came), PollA(w, came, now);
    StepNotNegative(w, Step.Polls(true, came, now));
    if r.a.stage >= 2 && w.a.stage < 2 {
      assert now >= 1000 && r.sentA == w.sentA + [ID(t.id, t.stage)];
      assert r.sentA[|w.sentA|].ID? && r.sentA[|w.sentA|].stage >= 1;
    } else if HasStage(w.sentA, 1) {
      var i :| 0 <= i < |w.sentA| && w.sentA[i].ID? && w.sentA[i].stage >= 1;
      assert r.sentA[i] == w.sentA[i];
    }
  }

  lemma {:induction false} RunInTime(w: World, steps: seq<Step>, a: int, b: int) returns (c: int, d: int)
    requires WellTimed(w, a, b) && Possible(w, steps) && InTime(steps, a, b)
    ensures WellTimed(Run(w, steps), c, d)
    decreases |steps|
  {
    if steps == [] {
      c, d := a, b;
    } else {
      var s := steps[0];
      if s.isA {
        PollInTime(w, s.came, s.now, a, b);
        c, d := RunInTime(Next(w, s), steps[1..], s.now, b);
      } else {
        PollInTime(Swap(w), s.came, s.now, b, a);
        c, d := RunInTime(Next(w, s), steps[1..], a, s.now);
      }
    }
  }

  /** As long as neither clock goes back nobody is ever stuck: from every state, with the clocks going on from
      there, both ends can get done. */
  lemma ArbitrationCanFinish(idA: seq<byte>, idB: seq<byte>, playerA: int, playerB: int, steps: seq<Step>, clock: int)
    returns (more: seq<Step>, r: World)
    requires |idA| == |idB| == ID_LEN && idA != idB
    requires Possible(Start(idA, idB, playerA, playerB), steps) && InTime(steps, 0, 0)
    ensures Leads(Run(Start(idA, idB, playerA, playerB), steps), more, r, clock) && Both(r) && Inv(r)
    ensures Poll(r.a, [], clock).done && Poll(r.b, [], clock).done
  {
    var start := Start(idA, idB, playerA, playerB);
    var c, d := RunInTime(start, steps, 0, 0);
    more, r := CanFinish(Run(start, steps), clock);
    BothDone(r, clock);
  }

  /** If a clock goes back below a second just when an end gets done, the other end is left behind for ever. */
  lemma ClockGoesBack(idA: seq<byte>, idB: seq<byte>, playerA: int, playerB: int) returns (steps: seq<Step>)
    requires |idA| == |idB| == ID_LEN && idA != idB
    ensures Possible(Start(idA, idB, playerA, playerB), steps) && NotBefore(steps, 0)
    ensures var w := Run(Start(idA, idB, playerA, playerB), steps);
      Stuck(w.a, w.sentA, w.b) && forall clock :: !CanEnd(w, clock)
  {
    var start := Start(idA, idB, playerA, playerB);
    var one, m1 := SaysStage(start, 1000, 0);
    var two, m2 := HearsOne(m1, false, ID(idA, 0), 1000, 0);
    LeadsOn(start, one, m1, two, m2, 0);
    var s := Step.Polls(true, [ID(idB, 1)], 0);
    NothingAddedBefore(ID(idB, 1));
    HearsStage(m2.a, [], idB, 1, 0);
    OnePoll(m2, s, 0);
    LeadsOn(start, one + two, m2, [s], Next(m2, s), 0);
    steps := one + two + [s];
    var w := Next(m2, s);
    forall clock, more, r | Leads(w, more, r, clock) ensures !Both(r) { StaysStuck(w, more); }
  }

  // Against a machine of the old protocol.

  /** What comes between two polls, and the time of the second. */
  datatype Turn = Turn(came: seq<Packet>, now: int)

  predicate OldPackets(ps: seq<Packet>) { forall i :: 0 <= i < |ps| ==> !ps[i].ID? }

  predicate OldPeer(turns: seq<Turn>) { forall i :: 0 <= i < |turns| ==> OldPackets(turns[i].came) }

  /** The other end has said that it is the other player, and that it has heard from us. */
  predicate Settled(player: int, p: Packet) { p.Play? && p.player != player && p.stage >= 1 }

  predicate SettledIn(player: int, ps: seq<Packet>) { exists i :: 0 <= i < |ps| && Settled(player, ps[i]) }

  ghost predicate SettledAfter(player: int, turns: seq<Turn>) {
    exists i :: 0 <= i < |turns| && SettledIn(player, turns[i].came)
  }

  /** A machine after these turns, and all it has sent. */
  function Polls(s: Side, turns: seq<Turn>): (r: (Side, seq<Packet>))
    requires |s.id| == ID_LEN && OldPeer(turns)
    ensures r.0.id == s.id
  {
    if turns == [] then (s, [])
    else
      var (t, sent) := Polls(s, turns[..|turns| - 1]);
      var r := Poll(t, turns[|turns| - 1].came, turns[|turns| - 1].now);
      (r.side, sent + r.sent)
  }

  lemma {:induction false} TakeAllOld(s: Side, ps: seq<Packet>)
    requires |s.id| == ID_LEN && OldPackets(ps) && !s.failed
    ensures var t := TakeAll(s, ps);
      && !t.failed && t.player == s.player && (t.newProtocol ==> s.newProtocol && t.stage == s.stage)
      && (t.stage >= 2 ==> s.stage >= 2 || SettledIn(s.player, ps))
  {
    if ps == [] {
    } else {
      var before, last := ps[..|ps| - 1], ps[|ps| - 1];
      TakeAllOld(s, before);
      if SettledIn(s.player, before) {
        var i :| 0 <= i < |before| && Settled(s.player, before[i]);
        assert Settled(s.player, ps[i]);
      }
      if Settled(s.player, last) { assert Settled(s.player, ps[|ps| - 1]); }
    }
  }

  /** A machine that hears only the old protocol never changes its player, whatever the other does, and
      says so in everything it sends after hearing from it; and it is never done before the other has
      said that it is the other player: a conflict takes it back to the start. */
  lemma {:induction false} SticksToItsPlayer(s: Side, turns: seq<Turn>)
    requires |s.id| == ID_LEN && OldPeer(turns) && !s.failed && s.stage < 2
    ensures var (t, sent) := Polls(s, turns);
      && !t.failed && t.player == s.player && (t.stage >= 2 ==> SettledAfter(s.player, turns))
      && forall i :: 0 <= i < |sent| ==> sent[i].Play? ==> sent[i].player == s.player
  {
    if turns == [] {
    } else {
      var before, last := turns[..|turns| - 1], turns[|turns| - 1];
      SticksToItsPlayer(s, before);
      TakeAllOld(Polls(s, before).0, last.came);
      if SettledAfter(s.player, before) {
        var i :| 0 <= i < |before| && SettledIn(s.player, before[i].came);
        assert SettledIn(s.player, turns[i].came);
      }
      if SettledIn(s.player, last.came) { assert SettledIn(s.player, turns[|turns| - 1].came); }
    }
  }
}
