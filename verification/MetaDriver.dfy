/** The metanet packet handlers as they work on the drivers' buffers, byte by byte and in place. */
module MetaDriver {
  import opened Bytes
  import opened Sequences
  import opened Topology
  import opened MetaRouting

  // Offsets in a packet: magic number, source address, destination address, payload.
  const SRC := 4
  const DEST := 8
  const HEADER := 12
  const BUFFER := 512

  function Magic(f: seq<byte>): nat
    requires |f| >= 4
  {
    f[0] as int + 0x100 * f[1] as int + 0x10000 * f[2] as int + 0x1000000 * f[3] as int
  }

  /** What a buffer's bytes mean as a packet. */
  function ParseFrame(f: seq<byte>): Packet<seq<byte>>
    requires |f| >= HEADER
  {
    Packet(Magic(f), f[SRC..DEST], f[DEST..HEADER], f[HEADER..])
  }

  /** The fields of a packet that takes up the first n bytes of a buffer. */
  lemma FrameFields(b: seq<byte>, n: nat)
    requires HEADER <= n <= |b|
    ensures ParseFrame(b[..n]) == Packet(Magic(b), b[SRC..DEST], b[DEST..HEADER], b[HEADER..n])
  {
    var f := b[..n];
    assert f[SRC..DEST] == b[SRC..DEST] && f[DEST..HEADER] == b[DEST..HEADER] && f[HEADER..] == b[HEADER..n];
  }

  /** A header with a payload written behind it. */
  lemma FrameParts(b: seq<byte>, body: seq<byte>)
    requires HEADER + |body| <= |b|
    ensures ParseFrame(Splice(b, HEADER, body)[..HEADER + |body|]) == Packet(Magic(b), b[SRC..DEST], b[DEST..HEADER], body)
  {
    var f := Splice(b, HEADER, body)[..HEADER + |body|];
    assert f[SRC..DEST] == b[SRC..DEST] && f[DEST..HEADER] == b[DEST..HEADER] && f[HEADER..] == body;
  }

  /** A packet that the underlying driver has received, and the remote node it came from. */
  type Frame = f: seq<byte> | HEADER <= |f| <= BUFFER witness seq(HEADER, i => 0)
  datatype Received = Received(node: nat, frame: Frame)

  /** One of the drivers metanet runs on: a packet buffer and who the packet is from or for. */
  class Doomcom {
    const numnodes: nat
    const data: array<byte>
    var remotenode: nat
    var datalength: nat
    var incoming: seq<Received>

    constructor (numnodes: nat)
      ensures this.numnodes == numnodes && fresh(data) && data.Length == BUFFER
    {
      this.numnodes := numnodes;
      data := new byte[BUFFER](i => 0);
      remotenode, datalength, incoming := 0, 0, [];
    }

    ghost predicate Untouched(registers: (nat, nat, seq<Received>), bytes: seq<byte>)
      reads this, data
    {
      Registers() == registers && data[..] == bytes
    }

    /** Everything but the packet buffer. */
    ghost function Registers(): (nat, nat, seq<Received>)
      reads this
    {
      (remotenode, datalength, incoming)
    }

    ghost predicate HasPacket()
      reads this, data
    {
      HEADER <= datalength <= data.Length && 1 <= remotenode < numnodes <= 16
    }

    ghost predicate Receivable(r: Received) {
      1 <= r.node < numnodes <= 16
    }

    ghost predicate AllReceivable(q: seq<Received>) {
      forall i :: 0 <= i < |q| ==> Receivable(q[i])
    }

    lemma FirstReceivable(q: seq<Received>)
      requires q != [] && AllReceivable(q)
      ensures Receivable(q[0]) && AllReceivable(q[1..])
    {
    }

    method NetGetPacket() returns (ok: bool)
      requires data.Length == BUFFER && AllReceivable(incoming)
      modifies `incoming, `remotenode, `datalength, data
      ensures ok == (old(incoming) != [])
      ensures ok ==> HasPacket() && incoming == old(incoming[1..]) &&
                     remotenode == old(incoming[0].node) && data[..datalength] == old(incoming[0].frame)
      ensures !ok ==> incoming == []
    {
      if incoming == [] {
        return false;
      }
      var r := incoming[0];
      for i := 0 to |r.frame|
        modifies data
        invariant data[..i] == r.frame[..i]
      {
        data[i] := r.frame[i];
      }
      incoming := incoming[1..];
      remotenode := r.node;
      datalength := |r.frame|;
      return true;
    }

    /** The packet in the buffer. */
    ghost function Held(): Packet<seq<byte>>
      requires HasPacket()
      reads this, data
    {
      ParseFrame(data[..datalength])
    }
  }

  /** Constructs a new source address from the old one and the hop before, which fails at the hop
      limit. The result may be built over the old address. */
  method PrependPreviousHop(result: array<byte>, r: nat, prev: byte, old_addr: array<byte>, o: nat) returns (ok: bool)
    requires r + 4 <= result.Length && o + 4 <= old_addr.Length
    requires result == old_addr ==> r == o
    modifies result
    ensures ok == !Full(old(old_addr[o..o + 4]))
    ensures result[..] == if ok then Splice(old(result[..]), r, Prepend(prev, old(old_addr[o..o + 4]))) else old(result[..])
  {
    if old_addr[o + 3] != 0 {
      return false;
    }
    ghost var a := old_addr[o..o + 4];
    FarMemmove(result, r + 1, old_addr, o, 3);
    result[r] := prev;
    assert a[..3] == old(old_addr[o..o + 3]);
    return true;
  }

  /** The bytes of a frame after a forwarder has moved one hop from its destination to its source. */
  function Forwarded(f: seq<byte>, via: byte): (g: seq<byte>)
    requires |f| >= HEADER
  {
    var s := Splice(f, SRC, Prepend(via, f[SRC..DEST]));
    Splice(s, DEST, s[DEST + 1..HEADER])[HEADER - 1 := 0]
  }

  lemma ForwardedPacket(f: seq<byte>, n: nat, via: byte)
    requires HEADER <= n <= |f|
    ensures var p := ParseFrame(f[..n]);
      && |Forwarded(f, via)| == |f|
      && ParseFrame(Forwarded(f, via)[..n]) == Packet(p.kind, Prepend(via, p.src), p.dest[1..] + [0], p.body)
  {
    var g, s := Forwarded(f, via), Splice(f, SRC, Prepend(via, f[SRC..DEST]));
    assert s[DEST + 1..HEADER] == f[DEST + 1..HEADER] == f[DEST..HEADER][1..];
    assert f[..n][SRC..DEST] == f[SRC..DEST] && f[..n][DEST..HEADER] == f[DEST..HEADER];
    assert g[SRC..DEST] == s[SRC..DEST] == Prepend(via, f[SRC..DEST]);
    assert g[DEST..HEADER] == s[DEST + 1..HEADER] + [0];
    assert g[..n][SRC..DEST] == g[SRC..DEST] && g[..n][DEST..HEADER] == g[DEST..HEADER];
    assert g[..n][HEADER..] == f[..n][HEADER..];
  }

  lemma UnicastSends<B>(config: seq<nat>, via: byte, p: Packet<B>)
    requires ValidConfig(config) && !IsLocal(p)
    ensures ForwardSends(config, via, p) ==
            if Full(p.src) || !ForwardableHop(config, via, p.dest[0]) then []
            else [Send(p.dest[0], Packet(p.kind, Prepend(via, p.src), p.dest[1..] + [0], p.body))]
  {
  }

  /** Setup packets of the underlying driver, and other programs' packets, are skipped. */
  predicate Accepted(f: seq<byte>)
    requires |f| >= HEADER
  {
    Magic(f) / 0x10000000 != 2 && Magic(f) % 0x10000000 / 16 == META_MAGIC / 16
  }

  /** What reading a packet from driver `d` sends on. */
  function SendsOf(config: seq<nat>, d: nat, r: Received): seq<Send<seq<byte>>>
    requires ValidConfig(config) && d < 8 && r.node < 32
  {
    if Accepted(r.frame) then ForwardSends(config, MakeAddress(d, r.node), ParseFrame(r.frame)) else []
  }

  predicate NodesFit(q: seq<Received>) {
    forall i :: 0 <= i < |q| ==> q[i].node < 32
  }

  function SendsFor(config: seq<nat>, d: nat, q: seq<Received>): seq<Send<seq<byte>>>
    requires ValidConfig(config) && d < 8 && NodesFit(q)
  {
    if q == [] then [] else SendsFor(config, d, q[..|q| - 1]) + SendsOf(config, d, q[|q| - 1])
  }

  lemma SendsForNext(config: seq<nat>, d: nat, q: seq<Received>, r: Received)
    requires ValidConfig(config) && d < 8 && r.node < 32 && NodesFit(q)
    ensures NodesFit(q + [r]) && SendsFor(config, d, q + [r]) == SendsFor(config, d, q) + SendsOf(config, d, r)
  {
    assert (q + [r])[..|q|] == q;
  }

  /** Whether a packet read from a driver is handed up. */
  predicate HandedUp(r: Received) {
    Accepted(r.frame) && IsLocal(ParseFrame(r.frame))
  }

  /** Of the frames that arrive, those of metanet have its magic number but for the lowest and the highest four
      bits, and the highest are not those of a setup packet. They are handed up if the destination is empty or
      is the broadcast address, and passed on as the routing rule says; all others are skipped. */
  lemma WhatIsRead(config: seq<nat>, d: nat, r: Received)
    requires ValidConfig(config) && d < 8 && r.node < 32
    ensures var f := r.frame;
      var ours := f[0] / 16 == 4 && f[1] == 0x64 && f[2] == 0xC2 && f[3] % 16 == 1 && f[3] / 16 != 2;
      && (HandedUp(r) <==> ours && (f[8] == 0 || f[8] == f[9] == f[10] == f[11] == 0xff))
      && SendsOf(config, d, r) == if ours then ForwardSends(config, MakeAddress(d, r.node), ParseFrame(f)) else []
  {
    MagicBytes(r.frame);
  }

  lemma MagicBytes(f: seq<byte>)
    requires |f| >= HEADER
    ensures Accepted(f) <==> f[0] / 16 == 4 && f[1] == 0x64 && f[2] == 0xC2 && f[3] % 16 == 1 && f[3] / 16 != 2
  {
    Digits(Magic(f), f[0] as int + 0x100 * f[1] as int + 0x10000 * f[2] as int + 0x1000000 * (f[3] as int % 16), f[3] / 16);
    var low: int, high: int := f[0] as int / 16, f[3] as int % 16;
    assert Magic(f) % 0x10000000 / 16 == low + 0x10 * f[1] as int + 0x1000 * f[2] as int + 0x100000 * high;
  }

  lemma Digits(n: nat, low: nat, high: nat)
    requires n == low + 0x10000000 * high && low < 0x10000000
    ensures n / 0x10000000 == high && n % 0x10000000 == low
  {
  }

  /** What the machines themselves send. */
  predicate OwnKind(kind: nat) { kind == DATA || kind == DISCOVER || kind == QUIT }

  lemma OwnFramesAreRead(config: seq<nat>, d: nat, r: Received)
    requires ValidConfig(config) && d < 8 && r.node < 32 && OwnKind(ParseFrame(r.frame).kind)
    ensures HandedUp(r) <==> IsLocal(ParseFrame(r.frame))
    ensures SendsOf(config, d, r) == ForwardSends(config, MakeAddress(d, r.node), ParseFrame(r.frame))
  {
    OwnKindIsAccepted(Magic(r.frame));
  }

  lemma OwnKindIsAccepted(kind: nat)
    requires OwnKind(kind)
    ensures kind / 0x10000000 != 2 && kind % 0x10000000 / 16 == META_MAGIC / 16
  {
  }

  /** Every machine that is sent a packet reads it: whether it comes from the game, or announces a machine, or
      has been passed on. `config'`, `d'` and `r` are the receiver's. */
  lemma SentIsRead(config: seq<nat>, skip: int, src: Addr, body: seq<byte>, i: nat, config': seq<nat>, d': nat, r: Received)
    requires ValidConfig(config) && ValidConfig(config') && d' < 8 && r.node < 32
    requires i < |BroadcastSends(config, skip, src, body)|
    requires ParseFrame(r.frame) == BroadcastSends(config, skip, src, body)[i].packet
    ensures HandedUp(r)
    ensures SendsOf(config', d', r) == ForwardSends(config', MakeAddress(d', r.node), ParseFrame(r.frame))
  {
    OwnFramesAreRead(config', d', r);
  }

  lemma PassedOnIsRead(config: seq<nat>, d: nat, q: Received, i: nat, config': seq<nat>, d': nat, r: Received)
    requires ValidConfig(config) && d < 8 && q.node < 32 && ValidConfig(config') && d' < 8 && r.node < 32
    requires i < |SendsOf(config, d, q)| && ParseFrame(r.frame) == SendsOf(config, d, q)[i].packet
    ensures HandedUp(r) <==> IsLocal(ParseFrame(r.frame))
    ensures SendsOf(config', d', r) == ForwardSends(config', MakeAddress(d', r.node), ParseFrame(r.frame))
  {
    var p := ParseFrame(q.frame);
    if p.dest == BROADCAST {
      OwnFramesAreRead(config', d', r);
    } else {
      assert ParseFrame(r.frame).kind == p.kind;
    }
  }

  lemma EachOfBoth<B>(a: seq<byte>, b: seq<byte>, p: Packet<B>)
    ensures ToEach(a + b, p) == ToEach(a, p) + ToEach(b, p)
    ensures forall h: byte :: b == [h] ==> ToEach(b, p) == [Send(h, p)]
  {
  }

  class Metanet {
    const drivers: seq<Doomcom>
    ghost const all: set<Doomcom>       // the drivers
    ghost const bufs: set<array<byte>>  // and their packet buffers
    var wire: seq<Send<seq<byte>>>  // what has been handed to the drivers to send

    ghost predicate Valid() {
      && |drivers| <= 8 && (forall d :: 0 <= d < |drivers| ==> drivers[d] in all && drivers[d].data in bufs)
      && (forall d :: 0 <= d < |drivers| ==> drivers[d].data.Length == BUFFER && 1 <= drivers[d].numnodes <= 16)
      && (forall d, e :: 0 <= d < e < |drivers| ==> drivers[d] != drivers[e] && drivers[d].data != drivers[e].data)
    }

    function Config(): (c: seq<nat>)
      ensures |c| == |drivers|
    {
      seq(|drivers|, d requires 0 <= d < |drivers| => drivers[d].numnodes)
    }

    constructor (drivers: seq<Doomcom>)
      ensures this.drivers == drivers && wire == []
      ensures all == (set d | d in drivers) && bufs == (set d | d in drivers :: d.data)
    {
      this.drivers := drivers;
      all := set d | d in drivers;
      bufs := set d | d in drivers :: d.data;
      wire := [];
    }

    method NetSendPacket(d: nat)
      requires Valid() && d < |drivers| && drivers[d].HasPacket()
      modifies this`wire
      ensures wire == old(wire) + [Send(MakeAddress(d, drivers[d].remotenode), drivers[d].Held())]
    {
      var dc := drivers[d];
      wire := wire + [Send(MakeAddress(d, dc.remotenode), ParseFrame(dc.data[..dc.datalength]))];
    }

    /** The packets waiting at each of the drivers. */
    ghost function Queues(): (qs: seq<seq<Received>>)
      requires Valid()
      reads all`incoming
      ensures |qs| == |drivers| && forall e :: 0 <= e < |drivers| ==> qs[e] == drivers[e].incoming
    {
      QueuesOf(|drivers|)
    }

    ghost function QueuesOf(n: nat): (qs: seq<seq<Received>>)
      requires Valid() && n <= |drivers|
      reads all`incoming
      ensures |qs| == n && forall e :: 0 <= e < n ==> qs[e] == drivers[e].incoming
    {
      if n == 0 then [] else QueuesOf(n - 1) + [drivers[n - 1].incoming]
    }

    lemma ConfigValid()
      requires Valid()
      ensures ValidConfig(Config()) && |Config()| == |drivers|
      ensures forall d :: 0 <= d < |drivers| ==> Config()[d] == drivers[d].numnodes
    {
    }

    /** Passes on the packet waiting in driver `d`'s buffer, rewriting its header where it lies. */
    method ForwardPacket(d: nat)
      requires Valid() && d < |drivers| && drivers[d].HasPacket()
      requires !IsLocal(drivers[d].Held())
      modifies this`wire, all`datalength, all`remotenode, bufs
      ensures ValidConfig(Config()) && drivers[d].Registers() == old(drivers[d].Registers())
      ensures wire == old(wire) + ForwardSends(Config(), MakeAddress(d, old(drivers[d].remotenode)), old(drivers[d].Held()))
    {
      var src := drivers[d];
      var via := MakeAddress(d, src.remotenode);
      ghost var f, n, p := src.data[..], src.datalength, src.Held();
      assert p.src == f[SRC..DEST] && p.dest[0] == f[DEST];
      ConfigValid();
      UnicastSends(Config(), via, p);
      ghost var sends := ForwardSends(Config(), via, p);
      var ok := PrependPreviousHop(src.data, SRC, via, src.data, SRC);
      if !ok {
        assert sends == [];
        return;
      }
      var hop := src.data[DEST];
      if AddrDriver(hop) >= |drivers| || drivers[AddrDriver(hop)] == src || AddrNode(hop) == 0
         || AddrNode(hop) >= drivers[AddrDriver(hop)].numnodes {
        assert !ForwardableHop(Config(), via, hop);
        assert sends == [];
        return;
      }
      assert ForwardableHop(Config(), via, hop);
      assert MakeAddress(AddrDriver(hop), AddrNode(hop)) == hop;
      DropHop(src.data);
      assert src.data[..] == Forwarded(f, via);
      ForwardedPacket(f, n, via);
      assert sends == [Send(hop, ParseFrame(src.data[..n]))];
      CopyAndSend(src, AddrDriver(hop), drivers[AddrDriver(hop)], AddrNode(hop));
    }

    /** Drops the first hop of a destination address in place. */
    static method DropHop(data: array<byte>)
      requires data.Length >= HEADER
      modifies data
      ensures data[..] == Splice(old(data[..]), DEST, old(data[DEST + 1..HEADER]))[HEADER - 1 := 0]
    {
      FarMemmove(data, DEST, data, DEST + 1, 3);
      data[DEST + 3] := 0;
    }

    /** Copies a packet from one driver's buffer to another's and sends it. */
    method CopyAndSend(src: Doomcom, d: nat, out: Doomcom, node: nat)
      requires Valid() && d < |drivers| && out == drivers[d] && src in drivers && out != src && 1 <= node < out.numnodes
      requires HEADER <= src.datalength <= BUFFER
      modifies this`wire, out`datalength, out`remotenode, out.data
      ensures wire == old(wire) + [Send(MakeAddress(d, node), ParseFrame(src.data[..src.datalength]))]
    {
      out.datalength := src.datalength;
      out.remotenode := node;
      FarMemmove(out.data, 0, src.data, 0, src.datalength);
      assert out.data[..out.datalength] == src.data[..src.datalength];
      NetSendPacket(d);
    }

    /** Fills a driver's buffer with a broadcast packet. */
    static method FillBroadcast(dest: Doomcom, src_addr: array<byte>, data: array<byte>, off: nat, data_len: nat)
      requires dest.data.Length == BUFFER && src_addr.Length == 4
      requires off + data_len <= data.Length && HEADER + data_len <= BUFFER
      requires dest.data != data && dest.data != src_addr
      modifies dest`datalength, dest.data
      ensures dest.datalength == HEADER + data_len
      ensures ParseFrame(dest.data[..dest.datalength]) == Packet(DATA, src_addr[..], BROADCAST, data[off..off + data_len])
    {
      dest.data[0], dest.data[1], dest.data[2], dest.data[3] := 0x40, 0x64, 0xC2, 0x01;
      dest.data[DEST], dest.data[DEST + 1], dest.data[DEST + 2], dest.data[DEST + 3] := 0xff, 0xff, 0xff, 0xff;
      FarMemmove(dest.data, SRC, src_addr, 0, 4);
      dest.datalength := data_len + HEADER;
      ghost var b := dest.data[..];
      assert b[SRC..DEST] == src_addr[..4] == src_addr[..] && b[DEST..HEADER] == BROADCAST;
      FarMemmove(dest.data, HEADER, data, off, data_len);
      FrameParts(b, data[off..off + data_len]);
    }

    /** Sends a packet to every neighbour except those on the driver `src` that it came from, if any. */
    method SendBroadcast(src: Doomcom?, ghost skip: int, src_addr: array<byte>, data: array<byte>, off: nat, data_len: nat)
      requires Valid() && src_addr.Length == 4 && off + data_len <= data.Length && HEADER + data_len <= BUFFER
      requires forall d :: 0 <= d < |drivers| ==> (drivers[d] == src <==> d == skip)
      requires forall d :: 0 <= d < |drivers| ==> drivers[d].data != src_addr && (d != skip ==> drivers[d].data != data)
      requires src != null ==> src in drivers
      modifies this`wire, all`datalength, all`remotenode, bufs
      ensures ValidConfig(Config())
      ensures wire == old(wire) + BroadcastSends(Config(), skip, old(src_addr[..]), old(data[off..off + data_len]))
      ensures src != null ==> src.Untouched(old(src.Registers()), old(src.data[..]))
    {
      ConfigValid();
      ghost var body := data[off..off + data_len];
      ghost var p := Packet(DATA, src_addr[..], BROADCAST, body);
      ghost var config, start := Config(), wire;
      NothingAdded(start);
      for ddriver := 0 to |drivers|
        invariant wire == start + ToEach(HopsExcept(config, skip, ddriver), p)
        invariant src_addr[..] == p.src && data[off..off + data_len] == body
        invariant src != null ==> src.Untouched(old(src.Registers()), old(src.data[..]))
      {
        NextDriver(config, skip, ddriver);
        var dest := drivers[ddriver];
        if dest != src {
          BroadcastOnLink(ddriver, dest, src_addr, data, off, data_len, start, HopsExcept(config, skip, ddriver), p);
        }
      }
    }

    /** Sends a broadcast to every machine on one driver's link. */
    method BroadcastOnLink(d: nat, dest: Doomcom, src_addr: array<byte>, data: array<byte>, off: nat, data_len: nat,
                           ghost start: seq<Send<seq<byte>>>, ghost hops: seq<byte>, ghost p: Packet<seq<byte>>)
      requires Valid() && d < |drivers| && dest == drivers[d]
      requires src_addr.Length == 4 && off + data_len <= data.Length && HEADER + data_len <= BUFFER
      requires dest.data != data && dest.data != src_addr
      requires p == Packet(DATA, src_addr[..], BROADCAST, data[off..off + data_len]) && wire == start + ToEach(hops, p)
      modifies this`wire, dest`datalength, dest`remotenode, dest.data
      ensures wire == start + ToEach(hops + DriverHops(d, dest.numnodes - 1), p)
      ensures src_addr[..] == p.src && data[off..off + data_len] == p.body
    {
      ghost var more := DriverHops(d, dest.numnodes - 1);
      FillBroadcast(dest, src_addr, data, off, data_len);
      SendToLink(d, dest);
      EachOfBoth(hops, more, p);
      Associative(start, ToEach(hops, p), ToEach(more, p));
    }

    /** Sends the packet in a driver's buffer to each machine on its link. */
    method SendToLink(d: nat, dest: Doomcom)
      requires Valid() && d < |drivers| && dest == drivers[d] && HEADER <= dest.datalength <= BUFFER
      modifies this`wire, dest`remotenode
      ensures wire == old(wire) + ToEach(DriverHops(d, dest.numnodes - 1), ParseFrame(dest.data[..dest.datalength]))
    {
      ghost var p, start := ParseFrame(dest.data[..dest.datalength]), wire;
      NothingAdded(start);
      for dnode := 1 to dest.numnodes
        invariant wire == start + ToEach(DriverHops(d, dnode - 1), p)
      {
        ghost var hops := DriverHops(d, dnode - 1);
        dest.remotenode := dnode;
        NetSendPacket(d);
        EachOfBoth(hops, [MakeAddress(d, dnode)], p);
        Associative(start, ToEach(hops, p), [Send(MakeAddress(d, dnode), p)]);
      }
    }

    /** The source address of a broadcast that is passed on, if there is room for one more hop in it. */
    static method NewSource(src: Doomcom, via: byte) returns (ok: bool, src_addr: array<byte>)
      requires src.data.Length == BUFFER
      ensures fresh(src_addr) && src_addr.Length == 4 && ok == !Full(src.data[SRC..DEST])
      ensures ok ==> src_addr[..] == Prepend(via, src.data[SRC..DEST])
    {
      src_addr := new byte[4](i => 0);
      ok := PrependPreviousHop(src_addr, 0, via, src.data, SRC);
    }

    /** Passes a broadcast on, with the hop it came by put in front of its source, and leaves it in the
        buffer to be delivered here too. */
    method ForwardBroadcast(d: nat)
      requires Valid() && d < |drivers| && drivers[d].HasPacket() && drivers[d].Held().dest == BROADCAST
      modifies this`wire, all`datalength, all`remotenode, bufs
      ensures ValidConfig(Config())
      ensures drivers[d].Registers() == old(drivers[d].Registers()) && drivers[d].data[..] == old(drivers[d].data[..])
      ensures wire == old(wire) + ForwardSends(Config(), MakeAddress(d, drivers[d].remotenode), drivers[d].Held())
    {
      ConfigValid();
      if |drivers| < 2 {
        return;
      }
      var src := drivers[d];
      var via := MakeAddress(d, src.remotenode);
      FrameFields(src.data[..], src.datalength);
      var ok, src_addr := NewSource(src, via);
      if ok {
        SendBroadcast(src, d, src_addr, src.data, HEADER, src.datalength - HEADER);
      }
    }

    /** Reads from a driver until a packet is to be handed up, sending on what is for others. `done` is what
        has been read. */
    method GetAndForward(d: nat, dc: Doomcom) returns (got: bool, ghost done: seq<Received>)
      requires Valid() && d < |drivers| && dc == drivers[d] && dc.AllReceivable(dc.incoming)
      modifies this`wire, dc`incoming, all`datalength, all`remotenode, bufs
      ensures ValidConfig(Config()) && NodesFit(done) && dc.AllReceivable(dc.incoming)
      ensures old(dc.incoming) == done + dc.incoming
      ensures wire == old(wire) + SendsFor(Config(), d, done)
      ensures forall i :: 0 <= i < |done| ==> (HandedUp(done[i]) <==> got && i == |done| - 1)
      ensures if got then done != [] && HeldIs(d, done[|done| - 1]) else dc.incoming == []
    {
      ConfigValid();
      ghost var q, start, config := dc.incoming, wire, Config();
      done, got := [], false;
      NothingAdded(start);
      while true
        invariant q == done + dc.incoming && NodesFit(done) && !got
        invariant dc.AllReceivable(dc.incoming)
        invariant wire == start + SendsFor(config, d, done)
        invariant forall i :: 0 <= i < |done| ==> !HandedUp(done[i])
        decreases |q| - |done|
      {
        if dc.incoming == [] {
          return;
        }
        ghost var before := done;
        ghost var r := dc.incoming[0];
        dc.FirstReceivable(dc.incoming);
        OneAndRest(dc.incoming);
        Associative(before, [r], dc.incoming[1..]);
        SendsForNext(config, d, before, r);
        Associative(start, SendsFor(config, d, before), SendsOf(config, d, r));
        got := ReadOne(d, dc);
        done := before + [r];
        if got {
          return;
        }
      }
    }

    /** The packet in driver d's buffer. */
    ghost predicate HeldIs(d: nat, r: Received)
      requires Valid() && d < |drivers|
      reads drivers[d], drivers[d].data
    {
      drivers[d].HasPacket() && drivers[d].remotenode == r.node && drivers[d].data[..drivers[d].datalength] == r.frame
    }

    /** One turn of that loop: the next packet is read and dealt with. */
    method ReadOne(d: nat, dc: Doomcom) returns (got: bool)
      requires Valid() && d < |drivers| && dc == drivers[d] && dc.AllReceivable(dc.incoming) && dc.incoming != []
      modifies this`wire, dc`incoming, all`datalength, all`remotenode, bufs
      ensures ValidConfig(Config()) && dc.incoming == old(dc.incoming)[1..]
      ensures wire == old(wire) + SendsOf(Config(), d, old(dc.incoming[0]))
      ensures got == HandedUp(old(dc.incoming[0]))
      ensures got ==> HeldIs(d, old(dc.incoming[0]))
    {
      ConfigValid();
      ghost var r := dc.incoming[0];
      var ok := dc.NetGetPacket();
      got := TakePacket(d, r.frame);
    }

    /** Deals with the packet just read: true if it is to be handed up. */
    method TakePacket(d: nat, ghost f: Frame) returns (got: bool)
      requires Valid() && d < |drivers| && drivers[d].HasPacket()
      requires drivers[d].data[..drivers[d].datalength] == f
      modifies this`wire, all`datalength, all`remotenode, bufs
      ensures ValidConfig(Config()) && drivers[d].Registers() == old(drivers[d].Registers())
      ensures got == (Accepted(f) && IsLocal(ParseFrame(f)))
      ensures got ==> drivers[d].data[..drivers[d].datalength] == f
      ensures wire == old(wire) +
                if Accepted(f) then ForwardSends(Config(), MakeAddress(d, drivers[d].remotenode), ParseFrame(f)) else []
    {
      ConfigValid();
      var dc := drivers[d];
      var p := ParseFrame(dc.data[..dc.datalength]);
      if !Accepted(dc.data[..dc.datalength]) {
        return false;
      }
      if p.dest[0] == 0 {
        return true;
      }
      if p.dest == BROADCAST {
        ForwardBroadcast(d);
        return true;
      }
      ForwardPacket(d);
      return false;
    }

    /** Fills a driver's buffer with a packet for one machine. */
    static method FillUnicast(dc: Doomcom, addr: Addr, data: array<byte>, data_len: nat)
      requires dc.data.Length == BUFFER && data_len <= data.Length && HEADER + data_len <= BUFFER && dc.data != data
      modifies dc`datalength, dc.data
      ensures dc.datalength == HEADER + data_len
      ensures ParseFrame(dc.data[..dc.datalength]) == Packet(DATA, NO_HOPS, addr, data[..data_len])
    {
      dc.datalength := HEADER + data_len;
      FillHeader(dc.data, 0x40, addr);
      ghost var b := dc.data[..];
      FarMemmove(dc.data, HEADER, data, 0, data_len);
      FrameParts(b, data[..data_len]);
    }

    /** Fills in a header with an empty source; `kind` is the low byte of the magic number. */
    static method FillHeader(data: array<byte>, kind: byte, addr: Addr)
      requires data.Length == BUFFER
      modifies data
      ensures data[..][HEADER..] == old(data[..])[HEADER..]
      ensures Magic(data[..]) == 0x01C26400 + kind as int
      ensures data[..][SRC..DEST] == NO_HOPS && data[..][DEST..HEADER] == addr
    {
      FarBzero(data, SRC, 4);
      assert data[..][SRC..DEST] == NO_HOPS;
      data[DEST], data[DEST + 1], data[DEST + 2], data[DEST + 3] := addr[0], addr[1], addr[2], addr[3];
      assert data[..][DEST..HEADER] == addr;
      data[0], data[1], data[2], data[3] := kind, 0x64, 0xC2, 0x01;
    }

    /** Tells every neighbour that this machine quits. */
    method SendQuit()
      requires Valid()
      modifies this`wire, all`datalength, all`remotenode, bufs
      ensures ValidConfig(Config())
      ensures wire == old(wire)
                + ToEach(HopsExcept(Config(), NO_DRIVER, |drivers|), Packet(QUIT, NO_HOPS, BROADCAST, []))
    {
      ConfigValid();
      ghost var p: Packet<seq<byte>> := Packet(QUIT, NO_HOPS, BROADCAST, []);
      ghost var config, start := Config(), wire;
      NothingAdded(start);
      for d := 0 to |drivers|
        invariant wire == start + ToEach(HopsExcept(config, NO_DRIVER, d), p)
      {
        NextDriver(config, NO_DRIVER, d);
        QuitOnLink(d, drivers[d], start, HopsExcept(config, NO_DRIVER, d), p);
      }
    }

    method QuitOnLink(d: nat, dc: Doomcom, ghost start: seq<Send<seq<byte>>>, ghost hops: seq<byte>,
                      ghost p: Packet<seq<byte>>)
      requires Valid() && d < |drivers| && dc == drivers[d]
      requires p == Packet(QUIT, NO_HOPS, BROADCAST, []) && wire == start + ToEach(hops, p)
      modifies this`wire, dc`datalength, dc`remotenode, dc.data
      ensures wire == start + ToEach(hops + DriverHops(d, dc.numnodes - 1), p)
    {
      ghost var more := DriverHops(d, dc.numnodes - 1);
      FillHeader(dc.data, 0x43, BROADCAST);
      dc.datalength := HEADER;
      FrameFields(dc.data[..], HEADER);
      assert dc.data[..][..HEADER] == dc.data[..HEADER];
      SendToLink(d, dc);
      EachOfBoth(hops, more, p);
      Associative(start, ToEach(hops, p), ToEach(more, p));
    }

    /** Sends data along a table entry's path. */
    method SendToEntry(hop: byte, addr: Addr, dc: Doomcom, data: array<byte>, data_len: nat)
      requires Valid() && AddrDriver(hop) < |drivers| && dc == drivers[AddrDriver(hop)] && 1 <= AddrNode(hop) < dc.numnodes
      requires data_len <= data.Length && HEADER + data_len <= BUFFER && dc.data != data
      modifies this`wire, dc`datalength, dc`remotenode, dc.data
      ensures wire == old(wire) + [Send(hop, Packet(DATA, NO_HOPS, addr, data[..data_len]))]
    {
      dc.remotenode := AddrNode(hop);
      FillUnicast(dc, addr, data, data_len);
      assert MakeAddress(AddrDriver(hop), AddrNode(hop)) == hop;
      NetSendPacket(AddrDriver(hop));
    }
  }
}
