/** metanet's discover messages as the bytes they travel as, and filled in where they lie. */
module MetaMessages {
  import opened Bytes
  import opened DoomNet
  import opened Sequences
  import opened Wrappers
  import opened Topology
  import opened MetaRouting
  import opened MetaTable
  import opened MetaDiscovery
  import opened MetaDriver

  // Offsets behind the header: status, number of neighbours, station ID, neighbours.
  const COUNT := 2
  const STATION := 4
  const NEIGHBORS := 8
  const DISCOVER_LEN := 24

  function Word(b: seq<byte>, i: nat): nat
    requires i + 2 <= |b|
  {
    b[i] as int + 0x100 * b[i + 1] as int
  }

  function Long(b: seq<byte>, i: nat): nat
    requires i + 4 <= |b|
  {
    Word(b, i) + 0x10000 * Word(b, i + 2)
  }

  function FlagBits(f: Flags): byte {
    (if f.gotDiscover then 1 else 0) + (if f.ready then 2 else 0) + (if f.launched then 4 else 0)
    + (if f.forwarder then 8 else 0) + if f.quit then 0x10 else 0
  }

  function FlagsOf(w: nat): Flags {
    Flags(w % 2 == 1, w / 2 % 2 == 1, w / 4 % 2 == 1, w / 8 % 2 == 1, w / 0x10 % 2 == 1)
  }

  lemma FlagsBack(f: Flags)
    ensures FlagsOf(FlagBits(f)) == f && FlagBits(f) < 0x20
  {
  }

  lemma LowBit(w: bv8)
    ensures w & 0x01 != 0 <==> w as int % 2 == 1
  {
  }

  lemma OtherBits(w: bv8)
    ensures w & 0x02 != 0 <==> w as int / 2 % 2 == 1
    ensures w & 0x04 != 0 <==> w as int / 4 % 2 == 1
  {
    assert w as int / 2 == (w >> 1) as int && w as int / 4 == (w >> 2) as int;
    LowBit(w >> 1);
    LowBit(w >> 2);
  }

  lemma HigherBits(w: bv8)
    ensures w & 0x08 != 0 <==> w as int / 8 % 2 == 1
    ensures w & 0x10 != 0 <==> w as int / 0x10 % 2 == 1
  {
    assert w as int / 8 == (w >> 3) as int && w as int / 0x10 == (w >> 4) as int;
    LowBit(w >> 3);
    LowBit(w >> 4);
  }

  /** The bits of a status word, by their masks. */
  lemma StatusMasks(w: bv8)
    ensures FlagsOf(w as int) == Flags(w & 0x01 != 0, w & 0x02 != 0, w & 0x04 != 0, w & 0x08 != 0, w & 0x10 != 0)
  {
    LowBit(w);
    OtherBits(w);
    HigherBits(w);
  }

  /** The count is a signed word; no more than sixteen neighbours are looked at. */
  function CountOf(w: nat): (n: nat)
    ensures n <= MAXNETNODES
  {
    if w >= 0x8000 then 0 else Min(w, MAXNETNODES)
  }

  function ParseDiscover(b: seq<byte>): (a: Announcement)
    requires |b| >= DISCOVER_LEN
    ensures |a.neighbors| <= MAXNETNODES
  {
    Announcement(FlagsOf(Word(b, 0)), Long(b, STATION), b[NEIGHBORS..NEIGHBORS + CountOf(Word(b, COUNT))])
  }

  /** What a packet on the wire means. Who made it is not on the wire. */
  function Meaning(p: Packet<seq<byte>>): Packet<Body> {
    Packet(p.kind, p.src, p.dest,
           if p.kind == DISCOVER && |p.body| >= DISCOVER_LEN then Discover(0, ParseDiscover(p.body)) else Data(0, p.body))
  }

  function Meanings(sends: seq<Send<seq<byte>>>): (r: seq<Send<Body>>)
    ensures |r| == |sends|
  {
    seq(|sends|, i requires 0 <= i < |sends| => Send(sends[i].hop, Meaning(sends[i].packet)))
  }

  lemma MeaningsAppend(a: seq<Send<seq<byte>>>, b: seq<Send<seq<byte>>>)
    ensures Meanings(a + b) == Meanings(a) + Meanings(b)
  {
  }

  lemma MeaningOfOne(hop: byte, p: Packet<seq<byte>>)
    ensures Meanings([Send(hop, p)]) == [Send(hop, Meaning(p))]
  {
  }

  /** The words of a message without neighbours yet. */
  lemma StartedMessage(b: seq<byte>, f: Flags, stationId: nat)
    requires |b| >= DISCOVER_LEN && stationId < 0x1_0000_0000
    requires b[0] == FlagBits(f) && b[1] == b[2] == b[3] == 0
    requires b[4] == stationId % 0x100 && b[5] == stationId / 0x100 % 0x100
    requires b[6] == stationId / 0x10000 % 0x100 && b[7] == stationId / 0x1000000
    ensures Word(b, COUNT) == 0 && ParseDiscover(b) == Announcement(f, stationId, [])
  {
    FlagsBack(f);
    FourBytes(stationId);
  }

  lemma FourBytes(n: nat)
    requires n < 0x1_0000_0000
    ensures n % 0x100 + 0x100 * (n / 0x100 % 0x100) + 0x10000 * (n / 0x10000 % 0x100 + 0x100 * (n / 0x1000000)) == n
  {
  }

  /** One more neighbour, and the count one higher. */
  lemma LongerMessage(b: seq<byte>, c: seq<byte>, hop: byte)
    requires |b| == |c| >= DISCOVER_LEN && Word(b, COUNT) < MAXNETNODES
    requires forall k :: 0 <= k < |b| && k != COUNT && k != NEIGHBORS + Word(b, COUNT) ==> c[k] == b[k]
    requires c[COUNT] == b[COUNT] + 1 && c[NEIGHBORS + Word(b, COUNT)] == hop
    ensures Word(c, COUNT) == Word(b, COUNT) + 1
    ensures var a := ParseDiscover(b); ParseDiscover(c) == a.(neighbors := a.neighbors + [hop])
  {
    var n := Word(b, COUNT);
    assert b[COUNT + 1] == 0;
    assert c[NEIGHBORS..NEIGHBORS + n + 1] == b[NEIGHBORS..NEIGHBORS + n] + [hop];
  }

  /** Writes the header and everything of a discover message but its neighbours. */
  method StartDiscover(data: array<byte>, addr: Addr, flags: Flags, stationId: nat)
    requires data.Length == BUFFER && stationId < 0x1_0000_0000
    modifies data
    ensures Magic(data[..]) == DISCOVER && data[..][SRC..DEST] == NO_HOPS && data[..][DEST..HEADER] == addr
    ensures Word(data[..], HEADER + COUNT) == 0
    ensures ParseDiscover(data[HEADER..]) == Announcement(flags, stationId, [])
  {
    WriteLong(data, HEADER + STATION, stationId);
    data[HEADER], data[HEADER + 1], data[HEADER + 2], data[HEADER + 3] := FlagBits(flags), 0, 0, 0;
    ghost var body := data[HEADER..];
    Metanet.FillHeader(data, 0x41, addr);
    assert data[HEADER..] == body;
    StartedMessage(body, flags, stationId);
  }

  method WriteLong(data: array<byte>, at: nat, n: nat)
    requires at + 4 <= data.Length && n < 0x1_0000_0000
    modifies data
    ensures data[at] == n % 0x100 && data[at + 1] == n / 0x100 % 0x100
    ensures data[at + 2] == n / 0x10000 % 0x100 && data[at + 3] == n / 0x1000000
  {
    data[at] := n % 0x100;
    data[at + 1] := n / 0x100 % 0x100;
    data[at + 2] := n / 0x10000 % 0x100;
    data[at + 3] := n / 0x1000000;
  }

  /** As many of the hops as a message has room for. */
  function FirstHops(hops: seq<byte>): seq<byte> { hops[..Min(|hops|, MAXNETNODES)] }

  lemma OneMoreHop(hops: seq<byte>, hop: byte)
    ensures FirstHops(hops + [hop]) == if |FirstHops(hops)| < MAXNETNODES then FirstHops(hops) + [hop] else FirstHops(hops)
  {
  }

  /** The header of a discover message, and what it says. */
  predicate Says(b: seq<byte>, addr: Addr, a: Announcement) {
    && |b| == BUFFER && Magic(b) == DISCOVER && b[SRC..DEST] == NO_HOPS && b[DEST..HEADER] == addr
    && Word(b, HEADER + COUNT) == |a.neighbors| <= MAXNETNODES && ParseDiscover(b[HEADER..]) == a
  }

  /** A message with one more neighbour, if there is room. */
  function WithNeighbor(b: seq<byte>, hop: byte): (r: seq<byte>)
    requires |b| == BUFFER
    ensures |r| == |b|
  {
    var n := Word(b, HEADER + COUNT);
    if n < MAXNETNODES then b[HEADER + NEIGHBORS + n := hop][HEADER + COUNT := n + 1] else b
  }

  method AddNeighbor(data: array<byte>, hop: byte)
    requires data.Length == BUFFER
    modifies data
    ensures data[..] == WithNeighbor(old(data[..]), hop)
  {
    var n := data[HEADER + COUNT] as int + 0x100 * data[HEADER + COUNT + 1] as int;
    if n < MAXNETNODES {
      data[HEADER + NEIGHBORS + n] := hop;
      data[HEADER + COUNT] := n + 1;
    }
  }

  lemma SaysMore(b: seq<byte>, hop: byte, addr: Addr, a: Announcement)
    requires Says(b, addr, a)
    ensures Says(WithNeighbor(b, hop), addr,
                 if |a.neighbors| < MAXNETNODES then a.(neighbors := a.neighbors + [hop]) else a)
  {
    var c := WithNeighbor(b, hop);
    if |a.neighbors| < MAXNETNODES {
      LongerMessage(b[HEADER..], c[HEADER..], hop);
      HeaderStays(b, c);
    }
  }

  lemma SaysNext(b: seq<byte>, hops: seq<byte>, hop: byte, addr: Addr, a: Announcement)
    requires Says(b, addr, a.(neighbors := FirstHops(hops)))
    ensures Says(WithNeighbor(b, hop), addr, a.(neighbors := FirstHops(hops + [hop])))
  {
    SaysMore(b, hop, addr, a.(neighbors := FirstHops(hops)));
    OneMoreHop(hops, hop);
  }

  function WithNeighbors(b: seq<byte>, hops: seq<byte>): (r: seq<byte>)
    requires |b| == BUFFER
    ensures |r| == BUFFER
  {
    if hops == [] then b else WithNeighbor(WithNeighbors(b, hops[..|hops| - 1]), hops[|hops| - 1])
  }

  lemma WithOneMore(b: seq<byte>, hops: seq<byte>, hop: byte)
    requires |b| == BUFFER
    ensures WithNeighbors(b, hops + [hop]) == WithNeighbor(WithNeighbors(b, hops), hop)
  {
    assert (hops + [hop])[..|hops|] == hops;
  }

  lemma {:induction false} SaysAll(b: seq<byte>, hops: seq<byte>, addr: Addr, a: Announcement)
    requires Says(b, addr, a) && a.neighbors == []
    ensures Says(WithNeighbors(b, hops), addr, a.(neighbors := FirstHops(hops)))
  {
    if hops == [] {
    } else {
      var before, last := hops[..|hops| - 1], hops[|hops| - 1];
      SaysAll(b, before, addr, a);
      SaysNext(WithNeighbors(b, before), before, last, addr, a);
      RestAndLast(hops);
    }
  }

  lemma HeaderStays(b: seq<byte>, c: seq<byte>)
    requires |b| == |c| >= HEADER && forall k :: 0 <= k < HEADER ==> c[k] == b[k]
    ensures Magic(c) == Magic(b) && c[SRC..DEST] == b[SRC..DEST] && c[DEST..HEADER] == b[DEST..HEADER]
  {
  }

  /** Where a message has what it says: from byte 12 on two for the status, two for the number of neighbours, four
      for the station ID, lowest first, and the neighbours. */
  lemma Layout(b: seq<byte>, addr: Addr, a: Announcement)
    requires Says(b, addr, a)
    ensures b[0] as int + 0x100 * b[1] as int + 0x10000 * b[2] as int + 0x1000000 * b[3] as int == 0x01C26441
    ensures b[4..8] == [0, 0, 0, 0] && b[8..12] == addr
    ensures FlagsOf(b[12] as int + 0x100 * b[13] as int) == a.status
    ensures b[14] as int + 0x100 * b[15] as int == |a.neighbors| <= 16
    ensures b[16] as int + 0x100 * b[17] as int + 0x10000 * b[18] as int + 0x1000000 * b[19] as int == a.stationId
    ensures forall i :: 0 <= i < |a.neighbors| ==> b[20 + i] == a.neighbors[i]
  {
    var body := b[HEADER..];
    assert forall k :: 0 <= k < |body| ==> body[k] == b[12 + k];
    assert forall i :: 0 <= i < |a.neighbors| ==> a.neighbors[i] == body[NEIGHBORS + i];
  }

  /** Of the neighbours that a message counts, a negative number is none and more than sixteen are sixteen. */
  lemma NeighborsRead(b: seq<byte>, n: int)
    requires |b| >= DISCOVER_LEN && -0x8000 <= n < 0x8000
    requires b[2] as int + 0x100 * b[3] as int == if n < 0 then n + 0x1_0000 else n
    ensures ParseDiscover(b).neighbors == if n < 0 then [] else if n > 16 then b[8..24] else b[8..8 + n]
  {
    assert b[8..8] == [];
  }

  /** A whole message is read as what it says. */
  lemma SaysMeans(b: seq<byte>, addr: Addr, a: Announcement)
    requires Says(b, addr, a)
    ensures Meaning(ParseFrame(b[..HEADER + DISCOVER_LEN])) == Packet(DISCOVER, NO_HOPS, addr, Discover(0, a))
  {
    FrameFields(b, HEADER + DISCOVER_LEN);
    SameMessage(b[HEADER..], b[HEADER..HEADER + DISCOVER_LEN]);
  }

  lemma SameMessage(b: seq<byte>, c: seq<byte>)
    requires |b| >= |c| >= DISCOVER_LEN && b[..|c|] == c
    ensures ParseDiscover(b) == ParseDiscover(c)
  {
    assert forall k :: 0 <= k < |c| ==> b[k] == c[k];
    var n := CountOf(Word(b, COUNT));
    assert b[NEIGHBORS..NEIGHBORS + n] == c[NEIGHBORS..NEIGHBORS + n];
  }

  /** Goes through the drivers and adds the machines on all links but the one that the message goes out by. */
  method AddNeighbors(data: array<byte>, config: seq<nat>, hop: byte)
    requires ValidConfig(config) && data.Length == BUFFER
    modifies data
    ensures data[..] == WithNeighbors(old(data[..]), HopsExcept(config, AddrDriver(hop), |config|))
  {
    ghost var b, hops: seq<byte> := data[..], [];
    for d := 0 to |config|
      invariant hops == HopsExcept(config, AddrDriver(hop), d)
      invariant data[..] == WithNeighbors(b, hops)
    {
      NextDriver(config, AddrDriver(hop), d);
      if d != AddrDriver(hop) {
        AddLink(data, d, config[d], b, hops);
        hops := hops + DriverHops(d, config[d] - 1);
      }
    }
  }

  method AddLink(data: array<byte>, d: nat, numnodes: nat, ghost b: seq<byte>, ghost hops: seq<byte>)
    requires d < 8 && 1 <= numnodes <= 16 && data.Length == |b| == BUFFER && data[..] == WithNeighbors(b, hops)
    modifies data
    ensures data[..] == WithNeighbors(b, hops + DriverHops(d, numnodes - 1))
  {
    NothingAdded(hops);
    for n := 1 to numnodes
      invariant data[..] == WithNeighbors(b, hops + DriverHops(d, n - 1))
    {
      AddNeighbor(data, MakeAddress(d, n));
      WithOneMore(b, hops + DriverHops(d, n - 1), MakeAddress(d, n));
      Associative(hops, DriverHops(d, n - 1), [MakeAddress(d, n)]);
    }
  }

  /** The method that writes a whole discover message into a driver's buffer. */
  method WriteDiscover(data: array<byte>, config: seq<nat>, hop: byte, addr: Addr, flags: Flags, stationId: nat)
    requires ValidConfig(config) && data.Length == BUFFER && stationId < 0x1_0000_0000
    modifies data
    ensures Says(data[..], addr, Announcement(flags, stationId, Announced(config, hop)))
  {
    StartDiscover(data, addr, flags, stationId);
    ghost var b := data[..];
    assert b[HEADER..] == data[HEADER..];
    AddNeighbors(data, config, hop);
    SaysAll(b, HopsExcept(config, AddrDriver(hop), |config|), addr, Announcement(flags, stationId, []));
  }
}
