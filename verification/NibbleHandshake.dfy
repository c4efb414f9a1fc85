/** Two parallel ports wired to each other: every interleaving of the port reads and writes of the
    sending and the receiving end. */
module NibbleHandshake {
  import opened Bytes
  import opened NibblePacket
  import opened Wrappers

  type nibble = x: int | 0 <= x < 16

  /** The five data wires from one end to the other. */
  datatype Port = Port(low: nibble, clock: bool)

  const QUIET := Port(0, false)
  const REQUEST_IRQ := Port(8, false)
  const READY := Port(1, false)
  const ACK := Port(0, true)

  function Low(b: byte): nibble { b % 16 }
  function High(b: byte): nibble { b / 16 }

  /** The other end's status register; its three lowest bits are not wired. */
  function Status(p: Port, unwired: nat): byte
    requires unwired < 8
  {
    8 * p.low + (if p.clock then 0 else 0x80) + unwired
  }

  /** A register whose five upper bits are `q`. */
  lemma UpperBits(q: nat, unwired: nat)
    requires q < 32 && unwired < 8
    ensures var s := 8 * q + unwired;
      s / 8 == q && s - s % 8 == 8 * q && 2 * s % 16 == 2 * unwired
      && 2 * s % 256 == 16 * (if q < 16 then q else q - 16) + 2 * unwired
  {
    var s := 8 * q + unwired;
    assert s % 8 == unwired;
    assert 2 * s == 16 * q + 2 * unwired;
  }

  /** The masks and shifts of the program read the wires as follows. */
  lemma StatusBits(p: Port, unwired: nat)
    requires unwired < 8
    ensures var s := Status(p, unwired) as int;
      && (s / 8 % 2 == 1 <==> p.low % 2 == 1)
      && (s - s % 8 == 0xc0 <==> p == REQUEST_IRQ)
      && (s - s % 8 == 0x80 <==> p == QUIET)
      && (s >= 0x80 <==> !p.clock)
      && s / 8 % 16 == p.low
      && 2 * s % 256 - 2 * s % 16 == 16 * p.low
  {
    UpperBits(if p.clock then p.low else p.low + 16, unwired);
  }

  /** Where the sending end is: the index of the byte being sent, and what it does next. */
  datatype Sender = Request | AwaitReady | PutLow(k: nat) | AwaitHigh(k: nat) | PutHigh(k: nat) | AwaitLow(k: nat)
                  | Finish | Sent

  /** Where the receiving end is, with the nibble or byte it has read. */
  datatype Receiver = Idle | PutReady | PollLow | RereadLow | PutAck(low: nibble) | PollHigh(low: nibble)
                    | RereadHigh(low: nibble) | PutDone(b: byte) | Free | PutZero | Done

  datatype World = World(s: Sender, r: Receiver, sOut: Port, rOut: Port, taken: seq<byte>, outcome: Option<Outcome>)

  const START := World(Request, Idle, QUIET, QUIET, [], None)

  /** One port access of the sending end, and what follows up to the next. */
  function SenderStep(msg: seq<byte>, w: World): World
    requires Fits(msg, w.s)
  {
    match w.s
    case Request => w.(s := AwaitReady, sOut := REQUEST_IRQ)
    case AwaitReady => if w.rOut.low % 2 == 1 then w.(s := PutLow(0)) else w
    case PutLow(k) => w.(s := AwaitHigh(k), sOut := Port(Low(msg[k]), true))
    case AwaitHigh(k) => if w.rOut.clock then w.(s := PutHigh(k)) else w
    case PutHigh(k) => w.(s := AwaitLow(k), sOut := Port(High(msg[k]), false))
    case AwaitLow(k) => if w.rOut.clock then w else w.(s := if k + 1 < |msg| then PutLow(k + 1) else Finish)
    case Finish => w.(s := Sent, sOut := QUIET)
    case Sent => w
  }

  /** One port access of the receiving end, and what follows up to the next. */
  function ReceiverStep(w: World): World {
    match w.r
    case Idle => if w.sOut == REQUEST_IRQ then w.(r := PutReady) else w
    case PutReady => w.(r := PollLow, rOut := READY)
    case PollLow => if w.sOut.clock then w.(r := RereadLow) else w
    case RereadLow => w.(r := PutAck(w.sOut.low))
    case PutAck(low) => w.(r := PollHigh(low), rOut := ACK)
    case PollHigh(low) => if w.sOut.clock then w else w.(r := RereadHigh(low))
    case RereadHigh(low) => w.(r := PutDone(low + 16 * w.sOut.low))
    case PutDone(b) =>
      var taken := w.taken + [b];
      if Complete(taken) then w.(r := Free, rOut := QUIET, taken := taken, outcome := Some(OutcomeOf(taken)))
      else w.(r := PollLow, rOut := QUIET, taken := taken)
    case Free => if w.sOut == QUIET then w.(r := PutZero) else w
    case PutZero => w.(r := Done, rOut := QUIET)
    case Done => w
  }

  // The invariant.

  function SenderPort(msg: seq<byte>, s: Sender): Port
    requires Fits(msg, s)
  {
    match s
    case Request => QUIET
    case AwaitReady => REQUEST_IRQ
    case PutLow(k) => if k == 0 then REQUEST_IRQ else Port(High(msg[k - 1]), false)
    case AwaitHigh(k) => Port(Low(msg[k]), true)
    case PutHigh(k) => Port(Low(msg[k]), true)
    case AwaitLow(k) => Port(High(msg[k]), false)
    case Finish => Port(High(msg[|msg| - 1]), false)
    case Sent => QUIET
  }

  predicate Fits(msg: seq<byte>, s: Sender) {
    msg != [] && match s
    case PutLow(k) => k < |msg|
    case AwaitHigh(k) => k < |msg|
    case PutHigh(k) => k < |msg|
    case AwaitLow(k) => k < |msg|
    case _ => true
  }

  function ReceiverPort(r: Receiver, taken: seq<byte>): Port {
    match r
    case PollLow => if taken == [] then READY else QUIET
    case RereadLow => if taken == [] then READY else QUIET
    case PutAck(_) => if taken == [] then READY else QUIET
    case PollHigh(_) => ACK
    case RereadHigh(_) => ACK
    case PutDone(_) => ACK
    case _ => QUIET
  }

  predicate Over(r: Receiver) { r in {Free, PutZero, Done} }

  /** How far the receiving end can be while the sending end is where it is. */
  predicate InStep(msg: seq<byte>, s: Sender, r: Receiver, n: nat)
    requires Fits(msg, s)
  {
    match s
    case Request => n == 0 && r == Idle
    case AwaitReady => n == 0 && r in {Idle, PutReady, PollLow}
    case PutLow(k) => n == k && r == PollLow
    case AwaitHigh(k) => n == k && r in {PollLow, RereadLow, PutAck(Low(msg[k])), PollHigh(Low(msg[k]))}
    case PutHigh(k) => n == k && r == PollHigh(Low(msg[k]))
    case AwaitLow(k) =>
      if n == k then r in {PollHigh(Low(msg[k])), RereadHigh(Low(msg[k])), PutDone(msg[k])}
      else n == k + 1 && if n < |msg| then r == PollLow else Over(r)
    case Finish => n == |msg| && Over(r)
    case Sent => n == |msg| && Over(r)
  }

  ghost predicate Inv(count: nat, data: seq<byte>, w: World)
    requires count < 0x1_0000 && |data| == Times(count)
  {
    var msg := Message(count, data);
    && Fits(msg, w.s) && w.sOut == SenderPort(msg, w.s) && w.rOut == ReceiverPort(w.r, w.taken)
    && |w.taken| <= |msg| && w.taken == msg[..|w.taken|] && InStep(msg, w.s, w.r, |w.taken|)
    && w.outcome == if Over(w.r) then Some(Received(count, data)) else None
  }

  lemma SenderKeeps(count: nat, data: seq<byte>, w: World)
    requires count < 0x1_0000 && |data| == Times(count) && Inv(count, data, w)
    ensures Inv(count, data, SenderStep(Message(count, data), w))
  {
  }

  /** The receiving end takes in exactly the byte being sent. */
  lemma ByteKeeps(count: nat, data: seq<byte>, w: World)
    requires count < 0x1_0000 && |data| == Times(count) && Inv(count, data, w) && w.r.PutDone?
    ensures Inv(count, data, ReceiverStep(w))
  {
    var msg, n := Message(count, data), |w.taken|;
    var taken := w.taken + [w.r.b];
    assert taken == msg[..n + 1];
    MessageReceived(count, data, n + 1);
    if Complete(taken) {
      assert taken == msg;
    }
  }

  lemma ReceiverKeeps(count: nat, data: seq<byte>, w: World)
    requires count < 0x1_0000 && |data| == Times(count) && Inv(count, data, w)
    ensures Inv(count, data, ReceiverStep(w))
  {
    if w.r.PutDone? { ByteKeeps(count, data, w); }
  }

  // Ending.

  function SenderLeft(msg: seq<byte>, s: Sender): nat
    requires Fits(msg, s)
  {
    match s
    case Request => 4 * |msg| + 3
    case AwaitReady => 4 * |msg| + 2
    case PutLow(k) => 4 * (|msg| - k) + 1
    case AwaitHigh(k) => 4 * (|msg| - k)
    case PutHigh(k) => 4 * (|msg| - k) - 1
    case AwaitLow(k) => 4 * (|msg| - k) - 2
    case Finish => 1
    case Sent => 0
  }

  function ReceiverLeft(msg: seq<byte>, r: Receiver, n: nat): nat
    requires n <= |msg| && (n == |msg| ==> Over(r))
  {
    match r
    case Idle => 6 * |msg| + 4
    case PutReady => 6 * |msg| + 3
    case PollLow => 6 * (|msg| - n) + 2
    case RereadLow => 6 * (|msg| - n) + 1
    case PutAck(_) => 6 * (|msg| - n)
    case PollHigh(_) => 6 * (|msg| - n) - 1
    case RereadHigh(_) => 6 * (|msg| - n) - 2
    case PutDone(_) => 6 * (|msg| - n) - 3
    case Free => 2
    case PutZero => 1
    case Done => 0
  }

  /** How many more port accesses of the two ends can make a difference. */
  function Left(count: nat, data: seq<byte>, w: World): nat
    requires count < 0x1_0000 && |data| == Times(count) && Inv(count, data, w)
  {
    SenderLeft(Message(count, data), w.s) + ReceiverLeft(Message(count, data), w.r, |w.taken|)
  }

  predicate Ended(w: World) { w.s == Sent && w.r == Done }

  datatype End = Sending | Receiving

  function Step(msg: seq<byte>, w: World, e: End): World
    requires Fits(msg, w.s)
  {
    match e
    case Sending => SenderStep(msg, w)
    case Receiving => ReceiverStep(w)
  }

  /** A step keeps the invariant, and either changes nothing or leaves less to do. */
  lemma StepKeeps(count: nat, data: seq<byte>, w: World, e: End)
    requires count < 0x1_0000 && |data| == Times(count) && Inv(count, data, w)
    ensures var r := Step(Message(count, data), w, e);
      Inv(count, data, r) && (r == w || Left(count, data, r) < Left(count, data, w))
  {
    match e
    case Sending =>
      SenderKeeps(count, data, w);
      SenderShrinks(count, data, w);
    case Receiving =>
      ReceiverKeeps(count, data, w);
      ReceiverShrinks(count, data, w);
  }

  lemma SenderShrinks(count: nat, data: seq<byte>, w: World)
    requires count < 0x1_0000 && |data| == Times(count) && Inv(count, data, w)
    requires Inv(count, data, SenderStep(Message(count, data), w))
    ensures var r := SenderStep(Message(count, data), w); r == w || Left(count, data, r) < Left(count, data, w)
  {
  }

  lemma ReceiverShrinks(count: nat, data: seq<byte>, w: World)
    requires count < 0x1_0000 && |data| == Times(count) && Inv(count, data, w)
    requires Inv(count, data, ReceiverStep(w))
    ensures var r := ReceiverStep(w); r == w || Left(count, data, r) < Left(count, data, w)
  {
    ReceiverGetsOn(Message(count, data), w);
  }

  lemma ReceiverGetsOn(msg: seq<byte>, w: World)
    requires |w.taken| <= |msg| && (|w.taken| == |msg| ==> Over(w.r))
    requires var r := ReceiverStep(w); |r.taken| <= |msg| && (|r.taken| == |msg| ==> Over(r.r))
    ensures var r := ReceiverStep(w);
      r.s == w.s && (r == w || ReceiverLeft(msg, r.r, |r.taken|) < ReceiverLeft(msg, w.r, |w.taken|))
  {
  }

  /** Until the transfer has ended one of the two ends can always go on: there is no deadlock. */
  lemma NoDeadlock(count: nat, data: seq<byte>, w: World)
    requires count < 0x1_0000 && |data| == Times(count) && Inv(count, data, w) && !Ended(w)
    ensures exists e :: Step(Message(count, data), w, e) != w
  {
    var msg := Message(count, data);
    assert Step(msg, w, Sending) == SenderStep(msg, w);
    assert Step(msg, w, Receiving) == ReceiverStep(w);
  }

  function Run(msg: seq<byte>, w: World, es: seq<End>): (r: World)
    requires Fits(msg, w.s)
    ensures Fits(msg, r.s)
    decreases |es|
  {
    if es == [] then w else Run(msg, Step(msg, w, es[0]), es[1..])
  }

  lemma {:induction false} RunKeeps(count: nat, data: seq<byte>, w: World, es: seq<End>)
    requires count < 0x1_0000 && |data| == Times(count) && Inv(count, data, w)
    ensures var r := Run(Message(count, data), w, es);
      Inv(count, data, r) && (r == w || Left(count, data, r) < Left(count, data, w))
    decreases |es|
  {
    if es == [] {
    } else {
      StepKeeps(count, data, w, es[0]);
      RunKeeps(count, data, Step(Message(count, data), w, es[0]), es[1..]);
    }
  }

  /** In every interleaving the bytes decoded are the first of those sent, in order, and the numbers of
      bytes that the two ends have completed never differ by more than one. */
  lemma InEveryInterleaving(count: nat, data: seq<byte>, es: seq<End>)
    requires count < 0x1_0000 && |data| == Times(count)
    ensures var msg := Message(count, data);
      var w := Run(msg, START, es);
      && |w.taken| <= |msg| && w.taken == msg[..|w.taken|]
      && SentBytes(msg, w.s) <= |w.taken| <= SentBytes(msg, w.s) + 1
  {
    assert Inv(count, data, START);
    RunKeeps(count, data, START, es);
  }

  /** How many bytes send_byte has completed. */
  function SentBytes(msg: seq<byte>, s: Sender): nat {
    match s
    case Request => 0
    case AwaitReady => 0
    case PutLow(k) => k
    case AwaitHigh(k) => k
    case PutHigh(k) => k
    case AwaitLow(k) => k
    case _ => |msg|
  }

  /** Rounds in which each end gets to act at least once. */
  predicate Fair(rounds: seq<seq<End>>) {
    forall i :: 0 <= i < |rounds| ==> Sending in rounds[i] && Receiving in rounds[i]
  }

  function Rounds(msg: seq<byte>, w: World, rounds: seq<seq<End>>): World
    requires Fits(msg, w.s)
    decreases |rounds|
  {
    if rounds == [] then w else Rounds(msg, Run(msg, w, rounds[0]), rounds[1..])
  }

  /** A run that changes nothing has found neither end able to go on. */
  lemma {:induction false} NothingDone(count: nat, data: seq<byte>, w: World, es: seq<End>, e: End)
    requires count < 0x1_0000 && |data| == Times(count) && Inv(count, data, w)
    requires Run(Message(count, data), w, es) == w && e in es
    ensures Step(Message(count, data), w, e) == w
    decreases |es|
  {
    var msg := Message(count, data);
    var next := Step(msg, w, es[0]);
    StepKeeps(count, data, w, es[0]);
    RunKeeps(count, data, next, es[1..]);
    assert next == w;
    if es[0] == e {
    } else {
      NothingDone(count, data, w, es[1..], e);
    }
  }

  lemma RoundShrinks(count: nat, data: seq<byte>, w: World, es: seq<End>)
    requires count < 0x1_0000 && |data| == Times(count) && Inv(count, data, w)
    requires !Ended(w) && Sending in es && Receiving in es
    ensures var r := Run(Message(count, data), w, es); Inv(count, data, r) && Left(count, data, r) < Left(count, data, w)
  {
    RunKeeps(count, data, w, es);
    if Run(Message(count, data), w, es) == w {
      NothingDone(count, data, w, es, Sending);
      NothingDone(count, data, w, es, Receiving);
      NoDeadlock(count, data, w);
    }
  }

  lemma {:induction false} EnoughRounds(count: nat, data: seq<byte>, w: World, rounds: seq<seq<End>>)
    requires count < 0x1_0000 && |data| == Times(count) && Inv(count, data, w)
    requires Fair(rounds) && |rounds| >= Left(count, data, w)
    ensures var r := Rounds(Message(count, data), w, rounds); Inv(count, data, r) && Ended(r)
    decreases |rounds|
  {
    var msg := Message(count, data);
    if rounds == [] {
    } else {
      var next := Run(msg, w, rounds[0]);
      RunKeeps(count, data, w, rounds[0]);
      if !Ended(w) { RoundShrinks(count, data, w, rounds[0]); }
      EnoughRounds(count, data, next, rounds[1..]);
    }
  }

  /** Whatever the interleaving, if both ends keep acting the transfer ends, both ports quiet, with
      exactly the packet sent received: count, bytes and checksum. */
  lemma TransferEnds(count: nat, data: seq<byte>, rounds: seq<seq<End>>)
    requires count < 0x1_0000 && |data| == Times(count)
    requires Fair(rounds) && |rounds| >= 10 * |Message(count, data)| + 7
    ensures var w := Rounds(Message(count, data), START, rounds);
      Ended(w) && w.outcome == Some(Received(count, data)) && w.sOut == w.rOut == QUIET
  {
    assert Inv(count, data, START);
    EnoughRounds(count, data, START, rounds);
  }
}
