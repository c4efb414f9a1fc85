/** What one metanet machine sends on when a packet arrives, using only what it knows locally:
    how many machines are on each of its links. */
module MetaRouting {
  import opened Bytes
  import opened Counting
  import opened Topology

  const ADDR_LEN := 4
  type Addr = a: seq<byte> | |a| == 4 witness [0, 0, 0, 0]

  const BROADCAST: Addr := [0xff, 0xff, 0xff, 0xff]
  const NO_HOPS: Addr := [0, 0, 0, 0]

  // The packet kind is the low nibble of the header's 32-bit magic number.
  const META_MAGIC := 0x01C26440
  const DATA := META_MAGIC
  const DISCOVER := META_MAGIC + 1
  const QUIT := META_MAGIC + 3

  datatype Packet<B> = Packet(kind: nat, src: Addr, dest: Addr, body: B)
  datatype Send<B> = Send(hop: byte, packet: Packet<B>)

  /** `config[d]` is the number of machines on driver d's link, this one included. */
  predicate ValidConfig(config: seq<nat>) {
    |config| <= 8 && forall d :: 0 <= d < |config| ==> 1 <= config[d] <= 16
  }

  function LocalConfig(t: Network, u: nat): (c: seq<nat>)
    requires u < |t.nodes|
    ensures |c| == |t.nodes[u]|
  {
    seq(|t.nodes[u]|, d requires 0 <= d < |t.nodes[u]| => |t.nodes[u][d]| + 1)
  }

  predicate Full(src: Addr) { src[3] != 0 }

  function Prepend(prev: byte, src: Addr): Addr { [prev] + src[..3] }

  function DriverHops(d: nat, k: nat): seq<byte>
    requires d < 8 && k < 32
  {
    if k == 0 then [] else DriverHops(d, k - 1) + [MakeAddress(d, k)]
  }

  /** The hop bytes of every neighbour on the first `n` drivers, leaving out driver `skip`. */
  function HopsExcept(config: seq<nat>, skip: int, n: nat): seq<byte>
    requires ValidConfig(config) && n <= |config|
  {
    if n == 0 then []
    else if n - 1 == skip then HopsExcept(config, skip, n - 1)
    else HopsExcept(config, skip, n - 1) + DriverHops(n - 1, config[n - 1] - 1)
  }

  lemma NextDriver(config: seq<nat>, skip: int, d: nat)
    requires ValidConfig(config) && d < |config|
    ensures HopsExcept(config, skip, d + 1) ==
            if d == skip then HopsExcept(config, skip, d) else HopsExcept(config, skip, d) + DriverHops(d, config[d] - 1)
  {
  }

  function ToEach<B>(hops: seq<byte>, p: Packet<B>): (r: seq<Send<B>>)
    ensures |r| == |hops|
  {
    seq(|hops|, i requires 0 <= i < |hops| => Send(hops[i], p))
  }

  function BroadcastSends<B>(config: seq<nat>, skip: int, src: Addr, body: B): seq<Send<B>>
    requires ValidConfig(config)
  {
    ToEach(HopsExcept(config, skip, |config|), Packet(DATA, src, BROADCAST, body))
  }

  predicate ForwardableHop(config: seq<nat>, via: byte, h: byte) {
    && AddrDriver(h) < |config| && AddrDriver(h) != AddrDriver(via)
    && AddrNode(h) != 0 && AddrNode(h) < config[AddrDriver(h)]
  }

  /** What is sent on when `p` arrives from neighbour `via`. */
  function ForwardSends<B>(config: seq<nat>, via: byte, p: Packet<B>): seq<Send<B>>
    requires ValidConfig(config)
  {
    if p.dest[0] == 0 || Full(p.src) then []
    else if p.dest == BROADCAST then
      if |config| < 2 then [] else BroadcastSends(config, AddrDriver(via), Prepend(via, p.src), p.body)
    else if !ForwardableHop(config, via, p.dest[0]) then []
    else [Send(p.dest[0], Packet(p.kind, Prepend(via, p.src), p.dest[1..] + [0], p.body))]
  }

  /** Whether the packet is also for this machine. */
  predicate IsLocal<B>(p: Packet<B>) { p.dest[0] == 0 || p.dest == BROADCAST }

  lemma {:induction false} InDriverHops(d: nat, k: nat, h: byte)
    requires d < 8 && k < 32
    ensures h in DriverHops(d, k) <==> AddrDriver(h) == d && 1 <= AddrNode(h) <= k
    ensures |DriverHops(d, k)| == k
    ensures forall i :: 0 <= i < k ==> DriverHops(d, k)[i] == MakeAddress(d, i + 1)
  {
    if k == 0 {
    } else {
      InDriverHops(d, k - 1, h);
    }
  }

  /** A machine names every neighbour on its other links, each once. */
  lemma {:induction false} InHopsExcept(config: seq<nat>, skip: int, n: nat, h: byte)
    requires ValidConfig(config) && n <= |config|
    ensures h in HopsExcept(config, skip, n) <==>
            AddrDriver(h) < n && AddrDriver(h) != skip && 1 <= AddrNode(h) < config[AddrDriver(h)]
  {
    if n == 0 {
    } else {
      InHopsExcept(config, skip, n - 1, h);
      InDriverHops(n - 1, config[n - 1] - 1, h);
    }
  }

  lemma {:induction false} HopsExceptDistinct(config: seq<nat>, skip: int, n: nat)
    requires ValidConfig(config) && n <= |config|
    ensures Distinct(HopsExcept(config, skip, n))
  {
    if n == 0 {
    } else {
      HopsExceptDistinct(config, skip, n - 1);
      var a, b := HopsExcept(config, skip, n - 1), DriverHops(n - 1, config[n - 1] - 1);
      forall i, j | 0 <= i < |a| && 0 <= j < |b| ensures a[i] != b[j] {
        InHopsExcept(config, skip, n - 1, a[i]);
        InDriverHops(n - 1, config[n - 1] - 1, b[j]);
        assert a[i] in a && b[j] in b;
      }
      InDriverHops(n - 1, config[n - 1] - 1, 0);
    }
  }

  lemma ConfigOfNetwork(t: Network, u: nat, via: byte, h: byte)
    requires WellFormed(t) && u < |t.nodes|
    ensures ValidConfig(LocalConfig(t, u))
    ensures h in HopsExcept(LocalConfig(t, u), AddrDriver(via), |t.nodes[u]|) <==>
            ValidHop(t, u, h) && AddrDriver(h) != AddrDriver(via)
    ensures ForwardableHop(LocalConfig(t, u), via, h) <==> ValidHop(t, u, h) && AddrDriver(h) != AddrDriver(via)
  {
    InHopsExcept(LocalConfig(t, u), AddrDriver(via), |t.nodes[u]|, h);
  }

  lemma {:induction false} HopsExceptLength(config: seq<nat>, skip: int, n: nat)
    requires ValidConfig(config) && n <= |config|
    ensures |HopsExcept(config, skip, n)| <= 15 * n
  {
    if n == 0 {
    } else {
      HopsExceptLength(config, skip, n - 1);
      InDriverHops(n - 1, config[n - 1] - 1, 0);
    }
  }
}
