/** One sirsetup machine: its two packet queues, its receiver, and whether it holds the channel. */
module SirStation {
  import opened Bytes
  import opened DoomNet
  import opened Escaping
  import opened Sequences
  import opened SirFraming

  const QUEUE_LEN := 8
  const HEADER := 3
  const BROADCAST_DEST: byte := 0xff

  datatype Mode = Arbitrate | Transmit | Wait

  /** Packets to send, how much of the first has gone, the packet being received and those received, and
      whether the serial port has been told to stop reading. */
  datatype Station = Station(me: byte, numnodes: nat, partner: nat, mode: Mode,
                             out: seq<seq<byte>>, offset: nat, rx: Rx, inbox: seq<seq<byte>>, paused: bool)

  predicate Ok(st: Station) {
    && st.me as int < MAXNETNODES && st.partner < MAXNETNODES
    && |st.out| < QUEUE_LEN && |st.inbox| < QUEUE_LEN && |st.rx.data| <= PACKET_MAX
    && (forall i :: 0 <= i < |st.out| ==> |st.out[i]| <= PACKET_MAX)
    && (forall i :: 0 <= i < |st.inbox| ==> HEADER < |st.inbox[i]| <= PACKET_MAX)
    && st.offset <= if st.out == [] then 0 else |st.out[0]|
  }

  /** The player that p hands the channel to. */
  function PartnerOf(p: nat, n: nat): (q: nat)
    requires p < n
    ensures q < n
  {
    if p + 1 == n then 0 else p + 1
  }

  /** A machine as the game starts. */
  function Started(p: byte, n: nat): (st: Station)
    requires p as int < n <= MAXNETNODES
    ensures Ok(st)
  {
    Station(p, n, PartnerOf(p, n), if p == 0 then Transmit else Wait, [], 0, CLEAN, [], false)
  }

  // The checksum.

  function HashStep(h: nat, c: byte): (r: nat)
    ensures r < 0x1_0000
  {
    (33 * h + c as int) % 0x1_0000
  }

  /** The djb2 hash in 16 bits. */
  function Djb2(data: seq<byte>, n: nat): (h: nat)
    requires n <= |data|
    ensures h < 0x1_0000
  {
    if n == 0 then 5381 else HashStep(Djb2(data, n - 1), data[n - 1])
  }

  function HashData(data: seq<byte>): byte { Djb2(data, |data|) % 256 }

  /** The low byte of the hash after one more byte. */
  function LowStep(low: nat, c: byte): nat
    requires low < 256
  {
    (33 * low + c as int) % 256
  }

  lemma Mod256(k: int, x: int)
    ensures (256 * k + x) % 256 == x % 256
  {
  }

  /** Only the low byte of the hash so far matters to the low byte of the hash. */
  lemma LowByte(h: nat, c: byte)
    ensures HashStep(h, c) % 256 == LowStep(h % 256, c)
  {
    var x := 33 * h + c as int;
    Mod256(256 * (x / 0x1_0000), x % 0x1_0000);
    Mod256(33 * (h / 256), 33 * (h % 256) + c as int);
    assert 256 * (256 * (x / 0x1_0000)) + x % 0x1_0000 == x;
    assert 256 * (33 * (h / 256)) + (33 * (h % 256) + c as int) == x;
  }

  /** Since 33 is odd, different low bytes stay different. */
  lemma OddStep(a: nat, b: nat, c: byte)
    requires a < 256 && b < 256 && LowStep(a, c) == LowStep(b, c)
    ensures a == b
  {
    var m := Same256(33 * a + c as int, 33 * b + c as int);
    NoMultiple(a - b, 225 * m - 29 * (a - b));
  }

  lemma Same256(x: nat, y: nat) returns (m: int)
    requires x % 256 == y % 256
    ensures x - y == 256 * m
  {
    m := x / 256 - y / 256;
  }

  lemma NoMultiple(d: int, m: int)
    requires -256 < d < 256 && d == 256 * m
    ensures d == 0
  {
  }

  lemma DataStep(a: nat, c: byte, d: byte)
    requires a < 256 && LowStep(a, c) == LowStep(a, d)
    ensures c == d
  {
  }

  function Low(data: seq<byte>, n: nat): (r: nat)
    requires n <= |data|
    ensures r < 256
  {
    Djb2(data, n) % 256
  }

  lemma LowNext(data: seq<byte>, n: nat)
    requires 0 < n <= |data|
    ensures Low(data, n) == LowStep(Low(data, n - 1), data[n - 1])
  {
    LowByte(Djb2(data, n - 1), data[n - 1]);
    assert Djb2(data, n) == HashStep(Djb2(data, n - 1), data[n - 1]);
  }

  /** One damaged byte anywhere always changes the checksum. */
  lemma {:induction false} OneWrongByte(a: seq<byte>, b: seq<byte>, k: nat, n: nat)
    requires |a| == |b| && k < |a| && n <= |a| && a[k] != b[k] && forall i :: 0 <= i < |a| && i != k ==> a[i] == b[i]
    ensures Low(a, n) == Low(b, n) <==> n <= k
  {
    if n == 0 {
    } else {
      OneWrongByte(a, b, k, n - 1);
      LowNext(a, n);
      LowNext(b, n);
      if Low(a, n) == Low(b, n) && k < n {
        if n - 1 == k {
          DataStep(Low(a, k), a[k], b[k]);
        } else {
          OddStep(Low(a, n - 1), Low(b, n - 1), a[n - 1]);
        }
      }
    }
  }

  lemma DamageIsSeen(a: seq<byte>, b: seq<byte>, k: nat)
    requires |a| == |b| && k < |a| && a[k] != b[k] && forall i :: 0 <= i < |a| && i != k ==> a[i] == b[i]
    ensures HashData(a) != HashData(b)
  {
    OneWrongByte(a, b, k, |a|);
  }

  // Receiving.

  /** Whether a packet heard is for this machine and undamaged. */
  predicate Accepts(me: byte, data: seq<byte>) {
    |data| > HEADER && HashData(data[1..]) == data[0] && (data[1] == BROADCAST_DEST || data[1] == me)
  }

  function QueueFull(q: seq<seq<byte>>): bool { |q| == QUEUE_LEN - 1 }

  function PacketReceived(st: Station, data: seq<byte>): Station {
    if Accepts(st.me, data) && !QueueFull(st.inbox) then st.(inbox := st.inbox + [data]) else st
  }

  /** Taking over the channel; with nothing to send, an empty packet is queued so that it is passed on. */
  function ReceivedHandoff(st: Station): Station {
    if st.mode == Wait then st.(mode := Transmit, out := if st.out == [] then [[]] else st.out) else st
  }

  function HandoffTo(p: nat): byte
    requires p < MAXNETNODES
  {
    HANDOFF_BASE as int + p
  }

  function ByteIn(st: Station, c: byte): (r: Station)
    requires Ok(st)
    ensures Ok(r) && r.rx == RxByte(st.rx, c).0 && r.me == st.me && r.partner == st.partner && r.numnodes == st.numnodes
  {
    var (rx, h) := RxByte(st.rx, c);
    match h
    case Nothing => st.(rx := rx)
    case Ended(data, code) =>
      var got := PacketReceived(st.(rx := rx), data);
      if code == HandoffTo(st.me as int) then ReceivedHandoff(got) else got
  }

  /** Reception pauses when a two-player machine could not store what it heard. */
  predicate KeepReceiving(st: Station, c: byte) {
    match RxByte(st.rx, c).1
    case Nothing => true
    case Ended(data, code) => !(Accepts(st.me, data) && QueueFull(st.inbox)) || st.numnodes > 2
  }

  /** A byte read from the port, which is not read again until a packet has been fetched if it pauses. */
  function Receive(st: Station, c: byte): (r: Station)
    requires Ok(st)
    ensures Ok(r) && r.rx == RxByte(st.rx, c).0 && r.me == st.me && r.partner == st.partner && r.numnodes == st.numnodes
  {
    ByteIn(st, c).(paused := st.paused || !KeepReceiving(st, c))
  }

  /** The game takes the first packet, and the port is read again. */
  function Fetch(st: Station): Station
    requires st.inbox != []
  {
    st.(inbox := st.inbox[1..], paused := false)
  }

  lemma PacketReceivedOk(st: Station, data: seq<byte>)
    requires Ok(st) && |data| <= PACKET_MAX
    ensures Ok(PacketReceived(st, data))
  {
  }

  lemma FetchOk(st: Station)
    requires Ok(st) && st.inbox != []
    ensures Ok(Fetch(st))
  {
  }

  /** The code that ends a packet. */
  lemma EndedByte(st: Station, c: byte)
    requires Ok(st) && st.rx.inEscape && IsTerminator(c)
    ensures var got := PacketReceived(st.(rx := CLEAN), st.rx.data);
      ByteIn(st, c) == if c == HandoffTo(st.me as int) then ReceivedHandoff(got) else got
  {
  }

  // Sending.

  function Packet(dest: byte, src: byte, payload: seq<byte>): seq<byte> {
    [HashData([dest, src] + payload)] + ([dest, src] + payload)
  }

  /** A packet that starts with a header of ordinary bytes and then seven FRAMECHARs is harmed. */
  lemma SevenFramechars(dest: byte, src: byte, payload: seq<byte>)
    requires dest != FRAMECHAR && src != FRAMECHAR && Packet(dest, src, payload)[0] != FRAMECHAR
    requires |payload| >= 7 && forall i :: 0 <= i < 7 ==> payload[i] == FRAMECHAR
    ensures !Unharmed(Packet(dest, src, payload))
  {
    var p := Packet(dest, src, payload);
    assert forall i :: 0 <= i < 7 ==> p[HEADER + i] == payload[i];
    assert SlotOf(p, 1) == 1 && SlotOf(p, 2) == 2 && SlotOf(p, HEADER) == HEADER;
    SlotsOfRun(p, HEADER, 6);
    assert Lost(p, HEADER + 6);
  }

  /** With just those seven it depends on the checksum alone. */
  lemma SevenFramecharsOnly(dest: byte, src: byte, payload: seq<byte>)
    requires dest != FRAMECHAR && src != FRAMECHAR && |payload| == 7 && forall i :: 0 <= i < 7 ==> payload[i] == FRAMECHAR
    ensures !Unharmed(Packet(dest, src, payload)) <==> HashData([dest, src] + payload) != FRAMECHAR
  {
    var p := Packet(dest, src, payload);
    if p[0] != FRAMECHAR {
      SevenFramechars(dest, src, payload);
    } else {
      assert forall i :: 0 <= i < 7 ==> p[HEADER + i] == payload[i];
      assert SlotOf(p, 1) == 2 && SlotOf(p, 2) == 3 && SlotOf(p, HEADER) == HEADER + 1;
      forall k | 0 <= k < |p| ensures !Lost(p, k) {
        if k >= HEADER {
          SlotsOfRun(p, HEADER, k - HEADER);
        }
      }
    }
  }

  /** Such a packet from player 0 to player 1: its checksum is 0xb6, so it is harmed. */
  lemma HarmedPacket(payload: seq<byte>)
    requires payload == seq(7, i => FRAMECHAR)
    ensures HashData([1, 0] + payload) == 0xb6
    ensures !Unharmed(Packet(1, 0, payload))
  {
    var d := [1, 0] + payload;
    assert Djb2(d, 1) == 46502;
    assert Djb2(d, 2) == 27238;
    assert Djb2(d, 3) == 46998;
    assert Djb2(d, 4) == 43718;
    assert Djb2(d, 5) == 1014;
    assert Djb2(d, 6) == 33574;
    assert Djb2(d, 7) == 59478;
    assert Djb2(d, 8) == 62342;
    assert Djb2(d, 9) == 25782;
    SevenFramechars(1, 0, payload);
  }

  /** A packet is queued; on a full queue it replaces the last one if it is longer. */
  function Send(st: Station, dest: byte, src: byte, payload: seq<byte>): Station {
    if |payload| > PACKET_MAX - HEADER then st
    else if !QueueFull(st.out) then st.(out := st.out + [Packet(dest, src, payload)])
    else if |payload| + HEADER <= |st.out[|st.out| - 1]| then st
    else st.(out := st.out[|st.out| - 1 := Packet(dest, src, payload)])
  }

  /** The next bytes for the transmitter. */
  function MoreTX(st: Station): (r: (Station, seq<byte>))
    requires Ok(st)
    ensures Ok(r.0)
  {
    if st.mode == Wait || st.out == [] then (st, [])
    else if st.offset == |st.out[0]| then
      var rest := st.(out := st.out[1..], offset := 0);
      if |st.out| == 1 then
        (rest.(mode := if st.mode == Arbitrate then Arbitrate else Wait), [FRAMECHAR, HandoffTo(st.partner)])
      else (rest, [FRAMECHAR, END_PACKET])
    else
      var (b, o) := Block(Written, st.out[0], st.offset, 0);
      (st.(offset := o), b)
  }

  /** A long silence makes player 0 take the channel. */
  function TimedOut(st: Station): Station {
    if st.mode == Arbitrate || st.me != 0 then st else st.(mode := Transmit)
  }

  lemma SendOk(st: Station, dest: byte, src: byte, payload: seq<byte>)
    requires Ok(st)
    ensures Ok(Send(st, dest, src, payload))
  {
  }

  /** What is being sent is never altered by a later packet. */
  lemma SendKeepsFirst(st: Station, dest: byte, src: byte, payload: seq<byte>)
    requires Ok(st) && st.out != []
    ensures var r := Send(st, dest, src, payload);
      Ok(r) && r.out != [] && r.out[0] == st.out[0] && r.offset == st.offset
  {
  }

  /** What is sent joins the queue while fewer than seven packets wait. On a full queue it takes the place of the
      last if it is longer, and it is dropped otherwise; what is too long for a packet is always dropped. */
  lemma SendEffect(st: Station, dest: byte, src: byte, payload: seq<byte>)
    requires Ok(st)
    ensures var r, p := Send(st, dest, src, payload), Packet(dest, src, payload);
      && r == st.(out := r.out)
      && r.out == if |payload| > 509 then st.out
                  else if |st.out| < 7 then st.out + [p]
                  else if |p| > |st.out[6]| then st.out[..6] + [p]
                  else st.out
  {
    var p := Packet(dest, src, payload);
    if |st.out| == 7 { assert st.out[6 := p] == st.out[..6] + [p]; }
  }

  /** The queue after the game has sent all these. */
  function SendEach(st: Station, dest: byte, src: byte, payloads: seq<seq<byte>>): (r: Station)
    requires Ok(st)
    ensures Ok(r)
    decreases |payloads|
  {
    if payloads == [] then st
    else
      SendOk(st, dest, src, payloads[0]);
      SendEach(Send(st, dest, src, payloads[0]), dest, src, payloads[1..])
  }

  /** However many packets a full queue is flooded with, the first six stay, and the last is the longest there
      was, so that a long packet is not crowded out by short ones. */
  lemma {:induction false} LongestIsKept(st: Station, dest: byte, src: byte, payloads: seq<seq<byte>>)
    requires Ok(st) && |st.out| == 7
    ensures var out := SendEach(st, dest, src, payloads).out;
      && |out| == 7 && out[..6] == st.out[..6] && |st.out[6]| <= |out[6]|
      && (forall i :: 0 <= i < |payloads| && |payloads[i]| <= 509 ==> |payloads[i]| + 3 <= |out[6]|)
      && (out[6] == st.out[6] ||
          exists i :: 0 <= i < |payloads| && out[6] == Packet(dest, src, payloads[i]))
    decreases |payloads|
  {
    if payloads == [] {
    } else {
      var next, rest := Send(st, dest, src, payloads[0]), payloads[1..];
      SendEffect(st, dest, src, payloads[0]);
      SendOk(st, dest, src, payloads[0]);
      LongestIsKept(next, dest, src, rest);
      var out := SendEach(next, dest, src, rest).out;
      assert forall i :: 0 < i < |payloads| ==> payloads[i] == rest[i - 1];
      if i :| 0 <= i < |rest| && out[6] == Packet(dest, src, rest[i]) {
        assert out[6] == Packet(dest, src, payloads[i + 1]);
      }
    }
  }

  /** While the players are still being found out, nothing that is heard, sent or waited for changes that, and the
      same bytes go out as when the channel is held. */
  lemma StaysArbitrating(st: Station, c: byte)
    requires Ok(st) && st.mode == Arbitrate
    ensures Receive(st, c).mode == Arbitrate && Receive(st, c).out == st.out && TimedOut(st) == st
    ensures var (r, b) := MoreTX(st); var (t, d) := MoreTX(st.(mode := Transmit));
      r.mode == Arbitrate && b == d && t == r.(mode := t.mode)
  {
  }

  // A turn on the channel.

  /** How much is left to do before the channel is passed on. */
  function Work(out: seq<seq<byte>>): nat {
    if out == [] then 0 else |out[0]| + 1 + Work(out[1..])
  }

  function TurnWork(st: Station): nat
    requires Ok(st)
  {
    if st.mode == Wait then 0 else Work(st.out) - st.offset
  }

  lemma WorkShrinks(st: Station)
    requires Ok(st) && st.mode != Wait && st.out != []
    ensures TurnWork(MoreTX(st).0) < TurnWork(st)
  {
  }

  /** A whole turn without new packets: the state after it and everything put on the wire. */
  function Turn(st: Station): (r: (Station, seq<byte>))
    requires Ok(st)
    ensures Ok(r.0)
    decreases TurnWork(st)
  {
    if st.mode == Wait || st.out == [] then (st, [])
    else
      WorkShrinks(st);
      var (next, b) := MoreTX(st);
      var (after, bs) := Turn(next);
      (after, b + bs)
  }

  /** The packets of a turn as they should be heard: the last hands the channel on. */
  function Announced(out: seq<seq<byte>>, partner: nat): (r: seq<Heard>)
    requires partner < MAXNETNODES
    ensures |r| == |out| && forall i :: 0 <= i < |r| ==> r[i].Ended?
    ensures forall i :: 0 <= i < |r| ==> r[i].data == Kept(out[i], 0)
    ensures forall i :: 0 <= i < |r| ==> r[i].code == if i == |r| - 1 then HandoffTo(partner) else END_PACKET
  {
    if out == [] then [] else
      [Ended(Kept(out[0], 0), if |out| == 1 then HandoffTo(partner) else END_PACKET)] + Announced(out[1..], partner)
  }

  /** The rest of the packet being sent goes out, and then the turn goes on from its end. */
  lemma {:induction false} TurnPacket(st: Station)
    requires Ok(st) && st.mode != Wait && st.out != []
    ensures var end := st.(offset := |st.out[0]|);
      Turn(st) == (Turn(end).0, Blocks(Written, st.out[0], st.offset) + Turn(end).1)
    decreases |if st.out == [] then [] else st.out[0]| - st.offset
  {
    var p := st.out[0];
    var end := st.(offset := |p|);
    if st.offset == |p| {
      assert end == st;
      NothingAdded(Turn(st).1);
    } else {
      var (b, o) := Block(Written, p, st.offset, 0);
      var next := st.(offset := o);
      assert MoreTX(st) == (next, b);
      TurnPacket(next);
      Associative(b, Blocks(Written, p, o), Turn(end).1);
    }
  }

  lemma TurnEnds(st: Station)
    requires Ok(st) && st.mode == Transmit && st.out != [] && st.offset == |st.out[0]|
    ensures var last, rest := |st.out| == 1, st.(out := st.out[1..], offset := 0);
      Turn(st) == if last then (rest.(mode := Wait), [FRAMECHAR, HandoffTo(st.partner)])
                  else (Turn(rest).0, [FRAMECHAR, END_PACKET] + Turn(rest).1)
  {
    var (next, b) := MoreTX(st);
    if |st.out| == 1 {
      assert Turn(next) == (next, []) && b + [] == b;
    }
  }

  lemma StreamCons(out: seq<seq<byte>>, partner: nat)
    requires out != [] && partner < MAXNETNODES
    ensures var code := if |out| == 1 then HandoffTo(partner) else END_PACKET;
      Stream(Announced(out, partner)) ==
        Escaped(Kept(out[0], 0)) + ([FRAMECHAR, code] + Stream(Announced(out[1..], partner)))
  {
    var heard := Announced(out, partner);
    assert heard[1..] == Announced(out[1..], partner);
    assert Frame(heard[0].data, heard[0].code) + Stream(heard[1..])
        == Escaped(heard[0].data) + ([FRAMECHAR, heard[0].code] + Stream(heard[1..]));
  }

  /** A turn sends the queued packets in order, each as the code sends it, and hands the channel on. */
  lemma {:induction false} TurnSends(st: Station)
    requires Ok(st) && st.mode == Transmit && st.out != [] && st.offset == 0
    ensures Turn(st) == (st.(out := [], mode := Wait), Stream(Announced(st.out, st.partner)))
    decreases |st.out|
  {
    var p := st.out[0];
    TurnPacket(st);
    WrittenBlocks(p, 0);
    TurnEnds(st.(offset := |p|));
    StreamCons(st.out, st.partner);
    if |st.out| == 1 {
      assert st.out[1..] == [];
      assert [FRAMECHAR, HandoffTo(st.partner)] + [] == [FRAMECHAR, HandoffTo(st.partner)];
    } else {
      TurnSends(st.(out := st.out[1..], offset := 0));
    }
  }

  /** What a turn sends is heard as those packets, with those boundaries, and one handoff at the end. */
  lemma TurnIsHeard(st: Station)
    requires Ok(st) && st.mode == Transmit && st.out != [] && st.offset == 0
    ensures Hear(CLEAN, Turn(st).1) == (CLEAN, Announced(st.out, st.partner))
    ensures (forall i :: 0 <= i < |st.out| ==> Unharmed(st.out[i])) <==>
            (forall i :: 0 <= i < |st.out| ==> Announced(st.out, st.partner)[i].data == st.out[i])
  {
    TurnSends(st);
    var heard := Announced(st.out, st.partner);
    forall i | 0 <= i < |st.out| ensures heard[i].data == st.out[i] <==> Unharmed(st.out[i]) {
      KeptIffUnharmed(st.out[i]);
    }
    StreamRoundTrip(heard);
  }

  function After(st: Station, n: nat): (r: Station)
    requires Ok(st)
    ensures Ok(r)
  {
    if n == 0 then st else MoreTX(After(st, n - 1)).0
  }

  lemma {:induction false} AfterMore(st: Station, n: nat)
    requires Ok(st)
    ensures After(MoreTX(st).0, n) == After(st, n + 1)
  {
    if n == 0 {
    } else {
      AfterMore(st, n - 1);
    }
  }

  lemma LastCall(st: Station)
    requires Ok(st) && st.mode == Transmit && MoreTX(st).0.mode == Wait
    ensures MoreTX(st).0.out == [] && MoreTX(st).1 == [FRAMECHAR, HandoffTo(st.partner)]
  {
  }

  lemma CallsGoOn(st: Station)
    requires Ok(st) && st.mode == Transmit && st.out != [] && MoreTX(st).0.mode != Wait
    ensures var r := MoreTX(st).0; r.mode == Transmit && r.out != [] && r.partner == st.partner
  {
  }

  /** The n-th call hands the channel on, with everything sent. */
  predicate HandsOnAt(st: Station, n: nat)
    requires Ok(st)
  {
    && 0 < n <= TurnWork(st) && After(st, n).mode == Wait && After(st, n).out == []
    && MoreTX(After(st, n - 1)).1 == [FRAMECHAR, HandoffTo(st.partner)]
  }

  lemma HandsOnLater(st: Station, next: Station, m: nat)
    requires Ok(st) && Ok(next) && next == MoreTX(st).0 && next.partner == st.partner
    requires HandsOnAt(next, m) && TurnWork(next) < TurnWork(st)
    ensures HandsOnAt(st, m + 1)
  {
    AfterMore(st, m);
    AfterMore(st, m - 1);
    assert After(st, m + 1) == After(next, m) && After(st, m) == After(next, m - 1);
  }

  /** A machine with the channel and something to send passes it on after finitely many calls. */
  lemma {:induction false} HandsOn(st: Station) returns (n: nat)
    requires Ok(st) && st.mode == Transmit && st.out != []
    ensures HandsOnAt(st, n)
    decreases TurnWork(st)
  {
    WorkShrinks(st);
    var next := MoreTX(st).0;
    if next.mode == Wait {
      LastCall(st);
      assert After(st, 0) == st && After(st, 1) == next;
      n := 1;
    } else {
      CallsGoOn(st);
      n := HandsOn(next);
      HandsOnLater(st, next, n);
      n := n + 1;
    }
  }

  /** A packet sent unharmed to a machine that has room is delivered to it with its payload and sender. */
  lemma Delivered(st: Station, dest: byte, src: byte, payload: seq<byte>)
    requires Ok(st) && !QueueFull(st.inbox)
    requires 0 < |payload| <= PACKET_MAX - HEADER && (dest == st.me || dest == BROADCAST_DEST)
    ensures var r := PacketReceived(st, Packet(dest, src, payload));
      && r == st.(inbox := st.inbox + [Packet(dest, src, payload)])
      && r.inbox[|st.inbox|][HEADER..] == payload && r.inbox[|st.inbox|][2] == src
  {
    var p := Packet(dest, src, payload);
    assert p[1..] == [dest, src] + payload;
    assert p[HEADER..] == payload;
  }

  // What is stored and what is not.

  /** A packet that is whole and undamaged, has something in it, and is addressed to this player or to all. */
  predicate IsFor(me: byte, data: seq<byte>) {
    |data| > 3 && data == Packet(data[1], data[2], data[3..]) && (data[1] == 0xff || data[1] == me)
  }

  lemma AcceptsIff(me: byte, data: seq<byte>)
    ensures Accepts(me, data) <==> IsFor(me, data)
  {
    if |data| > 3 {
      assert [data[1], data[2]] + data[3..] == data[1..];
      assert data == [data[0]] + data[1..];
    }
  }

  /** Such packets are stored, and no others, while fewer than seven are waiting; nothing else changes. */
  lemma StoredIff(st: Station, data: seq<byte>)
    requires Ok(st)
    ensures PacketReceived(st, data) ==
            if IsFor(st.me, data) && |st.inbox| < 7 then st.(inbox := st.inbox + [data]) else st
  {
    AcceptsIff(st.me, data);
  }

  /** Another player's packet, or one with nothing in it, is not stored. */
  lemma NotForUs(st: Station, dest: byte, src: byte, payload: seq<byte>)
    requires (dest != 0xff && dest != st.me) || payload == []
    ensures PacketReceived(st, Packet(dest, src, payload)) == st
  {
  }

  lemma TooShort(st: Station, data: seq<byte>)
    requires |data| <= 3
    ensures PacketReceived(st, data) == st
  {
  }

  /** Nor is any packet with one byte of it damaged, whichever it is. */
  lemma DamagedIsRefused(st: Station, dest: byte, src: byte, payload: seq<byte>, k: nat, c: byte)
    requires k < |Packet(dest, src, payload)| && c != Packet(dest, src, payload)[k]
    ensures PacketReceived(st, Packet(dest, src, payload)[k := c]) == st
  {
    var p := Packet(dest, src, payload);
    var q := p[k := c];
    assert p[1..] == [dest, src] + payload;
    if k == 0 {
      assert q[1..] == p[1..];
    } else {
      assert q[1..] == p[1..][k - 1 := c];
      DamageIsSeen(p[1..], q[1..], k - 1);
    }
  }

  // A turn as another machine receives it.

  /** A machine after a run of bytes. */
  function TakeIn(st: Station, wire: seq<byte>): (r: Station)
    requires Ok(st)
    ensures Ok(r)
    decreases |wire|
  {
    if wire == [] then st else TakeIn(Receive(st, wire[0]), wire[1..])
  }

  /** The receive queue after packets heard: those for the machine, in order, while there is room. */
  function Enqueue(me: byte, inbox: seq<seq<byte>>, hs: seq<Heard>): seq<seq<byte>>
    requires forall i :: 0 <= i < |hs| ==> hs[i].Ended?
    decreases |hs|
  {
    if hs == [] then inbox
    else Enqueue(me, if IsFor(me, hs[0].data) && |inbox| < 7 then inbox + [hs[0].data] else inbox, hs[1..])
  }

  /** Whether every packet heard that is for the machine finds room. */
  predicate AllFit(me: byte, inbox: seq<seq<byte>>, hs: seq<Heard>)
    requires forall i :: 0 <= i < |hs| ==> hs[i].Ended?
    decreases |hs|
  {
    hs == []
    || (if IsFor(me, hs[0].data) then |inbox| < 7 && AllFit(me, inbox + [hs[0].data], hs[1..])
        else AllFit(me, inbox, hs[1..]))
  }

  predicate HandedTo(me: nat, hs: seq<Heard>)
    requires me < MAXNETNODES
  {
    exists i :: 0 <= i < |hs| && hs[i].Ended? && hs[i].code == HandoffTo(me)
  }

  lemma HandedMore(me: nat, h: Heard, hs: seq<Heard>)
    requires me < MAXNETNODES
    ensures HandedTo(me, [h] + hs) <==> (h.Ended? && h.code == HandoffTo(me)) || HandedTo(me, hs)
  {
    var all := [h] + hs;
    if h.Ended? && h.code == HandoffTo(me) { assert all[0] == h; }
    if HandedTo(me, hs) {
      var i :| 0 <= i < |hs| && hs[i].Ended? && hs[i].code == HandoffTo(me);
      assert all[i + 1] == hs[i];
    }
  }

  /** A machine after packets heard, the last of which leaves the receiver as `rx`. */
  function Informed(st: Station, rx: Rx, hs: seq<Heard>): Station
    requires Ok(st) && forall i :: 0 <= i < |hs| ==> hs[i].Ended?
  {
    var handed := st.mode == Wait && HandedTo(st.me as int, hs);
    st.(rx := rx, inbox := Enqueue(st.me, st.inbox, hs), mode := if handed then Transmit else st.mode,
        out := if handed && st.out == [] then [[]] else st.out,
        paused := st.paused || (st.numnodes <= 2 && !AllFit(st.me, st.inbox, hs)))
  }

  /** What a machine makes of a run of bytes is settled by the packets it hears in them. */
  lemma {:induction false} TakeInHears(st: Station, wire: seq<byte>)
    requires Ok(st)
    ensures TakeIn(st, wire) == Informed(st, Hear(st.rx, wire).0, Hear(st.rx, wire).1)
    decreases |wire|
  {
    if wire == [] {
    } else {
      var next, h := Receive(st, wire[0]), RxByte(st.rx, wire[0]).1;
      TakeInHears(next, wire[1..]);
      HearCons(st.rx, wire);
      if h.Ended? {
        OneInformed(st, wire[0], Hear(next.rx, wire[1..]).0, Hear(next.rx, wire[1..]).1);
      } else {
        assert [] + Hear(next.rx, wire[1..]).1 == Hear(next.rx, wire[1..]).1;
      }
    }
  }

  lemma OneInformed(st: Station, c: byte, rx: Rx, hs: seq<Heard>)
    requires Ok(st) && RxByte(st.rx, c).1.Ended? && forall i :: 0 <= i < |hs| ==> hs[i].Ended?
    ensures Informed(Receive(st, c), rx, hs) == Informed(st, rx, [RxByte(st.rx, c).1] + hs)
  {
    var h := RxByte(st.rx, c).1;
    HandedMore(st.me as int, h, hs);
    AcceptsIff(st.me, h.data);
    assert ([h] + hs)[1..] == hs;
  }

  /** A machine that reads until it pauses, and what it has left unread then. */
  function Listen(st: Station, wire: seq<byte>): (r: (Station, seq<byte>))
    requires Ok(st)
    ensures Ok(r.0)
    decreases |wire|
  {
    if wire == [] || st.paused then (st, wire) else Listen(Receive(st, wire[0]), wire[1..])
  }

  /** Once paused, always paused. */
  lemma {:induction false} StaysPaused(st: Station, wire: seq<byte>)
    requires Ok(st) && st.paused
    ensures TakeIn(st, wire).paused
    decreases |wire|
  {
    if wire == [] {
    } else {
      StaysPaused(Receive(st, wire[0]), wire[1..]);
    }
  }

  /** A machine pauses if it has only one other to hear and some packet for it finds no room; until then
      it reads everything. */
  lemma {:induction false} ListenHears(st: Station, wire: seq<byte>)
    requires Ok(st) && !st.paused
    ensures var r := Listen(st, wire);
      && (r.0.paused <==> TakeIn(st, wire).paused)
      && (r.0.paused <==> st.numnodes <= 2 && !AllFit(st.me, st.inbox, Hear(st.rx, wire).1))
      && (!r.0.paused ==> r == (TakeIn(st, wire), []))
    decreases |wire|
  {
    TakeInHears(st, wire);
    if wire == [] {
    } else {
      var next := Receive(st, wire[0]);
      if next.paused {
        assert Listen(next, wire[1..]) == (next, wire[1..]);
        StaysPaused(next, wire[1..]);
      } else {
        ListenHears(next, wire[1..]);
      }
    }
  }

  /** The last of a run of bytes is read if and only if the machine has not paused before it. */
  lemma {:induction false} ListenLast(st: Station, wire: seq<byte>, c: byte)
    requires Ok(st) && !st.paused
    ensures var before, r := Listen(st, wire), Listen(st, wire + [c]);
      if before.0.paused then r == (before.0, before.1 + [c]) else r == (Receive(before.0, c), [])
    decreases |wire|
  {
    if wire == [] {
      assert wire + [c] == [c] && [c][1..] == [];
    } else {
      assert (wire + [c])[1..] == wire[1..] + [c] && (wire + [c])[0] == wire[0];
      var next := Receive(st, wire[0]);
      if next.paused {
        assert Listen(next, wire[1..]) == (next, wire[1..]);
        assert Listen(next, wire[1..] + [c]) == (next, wire[1..] + [c]);
      } else {
        ListenLast(next, wire[1..], c);
      }
    }
  }

  /** Without a handoff to it in what it reads, a machine does not take the channel. */
  lemma {:induction false} ListenWaits(st: Station, wire: seq<byte>)
    requires Ok(st) && !HandedTo(st.me as int, Hear(st.rx, wire).1)
    ensures Listen(st, wire).0.mode == st.mode
    decreases |wire|
  {
    if wire == [] || st.paused {
    } else {
      var next, h := Receive(st, wire[0]), RxByte(st.rx, wire[0]).1;
      HearCons(st.rx, wire);
      if h.Ended? {
        HandedMore(st.me as int, h, Hear(next.rx, wire[1..]).1);
      } else {
        assert [] + Hear(next.rx, wire[1..]).1 == Hear(next.rx, wire[1..]).1;
      }
      ListenWaits(next, wire[1..]);
    }
  }

  lemma {:induction false} TakeInSnoc(st: Station, wire: seq<byte>, c: byte)
    requires Ok(st)
    ensures TakeIn(st, wire + [c]) == Receive(TakeIn(st, wire), c)
    decreases |wire|
  {
    if wire == [] {
      assert wire + [c] == [c] && [c][1..] == [];
    } else {
      assert (wire + [c])[1..] == wire[1..] + [c] && (wire + [c])[0] == wire[0];
      TakeInSnoc(Receive(st, wire[0]), wire[1..], c);
    }
  }

  /** A run of bytes with no handoff before its last byte is read through if and only if there are more
      than two machines or every packet completed before that byte finds room. Otherwise the machine
      pauses, with the last byte unread. */
  lemma ThroughOrPaused(st: Station, wire: seq<byte>, c: byte)
    requires Ok(st) && !st.paused && !HandedTo(st.me as int, Hear(st.rx, wire).1)
    ensures var r := Listen(st, wire + [c]);
      && (r.1 == [] <==> st.numnodes > 2 || AllFit(st.me, st.inbox, Hear(st.rx, wire).1))
      && (if r.1 == [] then r.0 == TakeIn(st, wire + [c]) else r.0.paused && r.0.mode == st.mode && c in r.1)
  {
    ListenHears(st, wire);
    ListenLast(st, wire, c);
    ListenWaits(st, wire);
    TakeInSnoc(st, wire, c);
  }

  /** All but the last byte of a turn: all its packets have been heard but the last. */
  lemma TurnButLast(st: Station) returns (wire: seq<byte>)
    requires Ok(st) && st.mode == Transmit && st.out != [] && st.offset == 0
    ensures var hs := Announced(st.out, st.partner);
      Turn(st).1 == wire + [HandoffTo(st.partner)] && Hear(CLEAN, wire).1 == hs[..|hs| - 1]
  {
    TurnSends(st);
    var hs := Announced(st.out, st.partner);
    assert hs == hs[..|hs| - 1] + [hs[|hs| - 1]];
    wire := StreamButLast(hs[..|hs| - 1], hs[|hs| - 1]);
  }

  /** A turn of unharmed packets is received by another machine as those of the packets that are for it,
      in order, as far as its queue has room, and the channel passes to the partner alone: provided that
      there are more than two machines or that every packet but the last finds room. If and only if that
      is not so, the machine pauses with bytes unread, among them the handoff. */
  lemma TurnIsReceived(a: Station, b: Station)
    requires Ok(a) && a.mode == Transmit && a.out != [] && a.offset == 0
    requires forall i :: 0 <= i < |a.out| ==> Unharmed(a.out[i])
    requires Ok(b) && b.rx == CLEAN && !b.paused
    ensures forall i :: 0 <= i < |a.out| ==> Announced(a.out, a.partner)[i].data == a.out[i]
    ensures var hs, r := Announced(a.out, a.partner), Listen(b, Turn(a).1);
      && (r.1 == [] <==> b.numnodes > 2 || AllFit(b.me, b.inbox, hs[..|hs| - 1]))
      && (if r.1 == [] then
            && r.0.rx == CLEAN && r.0.inbox == Enqueue(b.me, b.inbox, hs)
            && r.0.mode == if b.mode == Wait && b.me as int == a.partner then Transmit else b.mode
          else r.0.paused && r.0.mode == b.mode && HandoffTo(a.partner) in r.1)
  {
    TurnIsHeard(a);
    var hs := Announced(a.out, a.partner);
    var wire := TurnButLast(a);
    ThroughOrPaused(b, wire, HandoffTo(a.partner));
    TakeInHears(b, Turn(a).1);
    HandedByTurn(a, b.me as int);
  }

  lemma HandedByTurn(a: Station, me: nat)
    requires Ok(a) && a.out != [] && me < MAXNETNODES
    ensures var hs := Announced(a.out, a.partner);
      !HandedTo(me, hs[..|hs| - 1]) && (HandedTo(me, hs) <==> me == a.partner)
  {
    var hs := Announced(a.out, a.partner);
    if me == a.partner { assert hs[|hs| - 1].code == HandoffTo(a.partner); }
  }
}
