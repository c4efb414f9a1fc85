/** The node table as the fixed array it is kept in. */
module MetaNodes {
  import opened Bytes
  import opened Wrappers
  import opened DoomNet
  import opened Topology
  import opened MetaRouting
  import opened MetaTable
  import opened MetaDiscovery

  function MarkedReady(table: Table): Table
    requires table != []
  {
    table[0 := table[0].(flags := table[0].flags.(ready := true))]
  }

  /** Getting ready is the step of the network. */
  lemma ReadyStep(t: Network, s: State, u: nat)
    requires Shape(t, s) && Enabled(t, s, MarkReady(u))
    ensures Next(t, s, MarkReady(u)).machines[u] ==
            s.machines[u].(table := MarkedReady(s.machines[u].table))
  {
  }

  function Blank(hop: byte): NodeData { NodeData(hop, NO_HOPS, NO_FLAGS, 0) }

  lemma OneMoreEntry(self: Table, hops: seq<byte>, hop: byte)
    requires |self| == 1
    ensures var e := self + Immediate(hops[..Min(|hops|, MAXNETNODES - 1)]);
      var more := hops + [hop];
      self + Immediate(more[..Min(|more|, MAXNETNODES - 1)]) == if |e| < MAXNETNODES then e + [Blank(hop)] else e
  {
    var more := hops + [hop];
    if |hops| < MAXNETNODES - 1 {
      assert hops[..|hops|] == hops && more[..|more|] == more;
      assert Immediate(more) == Immediate(hops) + [Blank(hop)];
      assert self + (Immediate(hops) + [Blank(hop)]) == (self + Immediate(hops)) + [Blank(hop)];
    } else {
      assert more[..MAXNETNODES - 1] == hops[..MAXNETNODES - 1];
    }
  }

  class NodeTable {
    const nodes: array<NodeData>
    var num_nodes: nat

    ghost predicate Valid()
      reads this, nodes
    {
      && nodes.Length == MAXNETNODES && 1 <= num_nodes <= MAXNETNODES
      && (forall i :: num_nodes <= i < MAXNETNODES ==> nodes[i].flags == NO_FLAGS && nodes[i].stationId == 0)
    }

    function Entries(): Table
      requires num_nodes <= nodes.Length
      reads this, nodes
    {
      nodes[..num_nodes]
    }

    constructor (config: seq<nat>, id: Identity)
      requires ValidConfig(config)
      ensures Valid() && fresh(nodes)
      ensures Entries() == InitNodes(config, id)
    {
      nodes := new NodeData[MAXNETNODES](i => NodeData(0, NO_HOPS, NO_FLAGS, 0));
      num_nodes := 1;
      new;
      nodes[0] := Self(id);
      ghost var self := [Self(id)];
      assert HopsExcept(config, NO_DRIVER, 0) == [];
      assert Entries() == self + Immediate([]);
      for d := 0 to |config|
        modifies this, nodes
        invariant Valid()
        invariant var hops := HopsExcept(config, NO_DRIVER, d);
          Entries() == self + Immediate(hops[..Min(|hops|, MAXNETNODES - 1)])
      {
        AddNeighbors(config, d, self, HopsExcept(config, NO_DRIVER, d));
      }
    }

    /** Adds one entry, if there is room. */
    method AddEntry(hop: byte)
      requires Valid()
      modifies this, nodes
      ensures Valid()
      ensures Entries() == if |old(Entries())| < MAXNETNODES then old(Entries()) + [Blank(hop)] else old(Entries())
    {
      if num_nodes < MAXNETNODES {
        ghost var e := Entries();
        nodes[num_nodes] := nodes[num_nodes].(firstHop := hop, addr := NO_HOPS);
        num_nodes := num_nodes + 1;
        assert Entries() == e + [Blank(hop)];
      }
    }

    /** Adds entries for the machines on one driver's link, as long as there is room. */
    method AddNeighbors(config: seq<nat>, d: nat, ghost self: Table, ghost before: seq<byte>)
      requires ValidConfig(config) && d < |config| && Valid() && |self| == 1
      requires Entries() == self + Immediate(before[..Min(|before|, MAXNETNODES - 1)])
      modifies this, nodes
      ensures Valid()
      ensures var hops := before + DriverHops(d, config[d] - 1);
        Entries() == self + Immediate(hops[..Min(|hops|, MAXNETNODES - 1)])
    {
      assert before + DriverHops(d, 0) == before;
      for n := 1 to config[d]
        invariant Valid()
        invariant var hops := before + DriverHops(d, n - 1);
          Entries() == self + Immediate(hops[..Min(|hops|, MAXNETNODES - 1)])
      {
        ghost var hops := before + DriverHops(d, n - 1);
        assert before + DriverHops(d, n) == hops + [MakeAddress(d, n)];
        OneMoreEntry(self, hops, MakeAddress(d, n));
        AddEntry(MakeAddress(d, n));
      }
    }

    method NodeForAddr(hop: byte, addr: Addr) returns (r: int)
      requires Valid()
      ensures r == MetaTable.NodeForAddr(Entries(), hop, addr)
    {
      for i := 0 to num_nodes
        invariant FirstMatch(Entries(), hop, addr, i) == -1
      {
        if hop == nodes[i].firstHop && nodes[i].addr == addr {
          MatchFound(Entries(), hop, addr, i, num_nodes);
          return i;
        }
      }
      return -1;
    }

    /** The index of the entry with this address, added if it is new; -1 when there is no room. */
    method NodeOrAddNode(hop: byte, addr: Addr) returns (r: int)
      requires Valid()
      modifies this, nodes
      ensures Valid()
      ensures Entries() == MetaTable.NodeOrAddNode(old(Entries()), hop, addr)
      ensures r == MetaTable.NodeForAddr(Entries(), hop, addr)
    {
      var node_idx := NodeForAddr(hop, addr);
      if node_idx >= 0 {
        return node_idx;
      } else if num_nodes >= MAXNETNODES {
        return -1;
      }
      ghost var e := Entries();
      nodes[num_nodes] := nodes[num_nodes].(firstHop := hop, addr := addr);
      num_nodes := num_nodes + 1;
      assert Entries() == e + [NodeData(hop, addr, NO_FLAGS, 0)];
      NoMatchBefore(e, Entries(), hop, addr, |e|);
      return num_nodes - 1;
    }

    /** Learns about the sender of a discover message and the machines behind it. The result says
        which entry, if any, is to be sent an answer. */
    method HandleDiscover(hop: byte, src: Addr, a: Announcement) returns (answer: int)
      requires Valid()
      modifies this, nodes
      ensures Valid()
      ensures Entries() == MetaTable.HandleDiscover(old(Entries()), hop, src, a)
      ensures answer == if AnswersOnly(old(Entries()), a) then MetaTable.NodeForAddr(Entries(), hop, src) else -1
    {
      ghost var t0 := Entries();
      var node := NodeOrAddNode(hop, src);
      ghost var added := Entries();
      assert added[0] == t0[0];
      if node < 0 {
        return -1;
      }
      if nodes[0].flags.launched && !a.status.launched {
        return node;
      }
      nodes[node] := nodes[node].(flags := a.status.(gotDiscover := true), stationId := a.stationId);
      ghost var marked := Entries();
      assert marked == Marked(t0, hop, src, a);
      LearnNeighbors(hop, src, a.neighbors);
      return -1;
    }

    /** Goes through the announced neighbours and adds those not known yet. */
    method LearnNeighbors(hop: byte, src: Addr, neighbors: seq<byte>)
      requires Valid()
      modifies this, nodes
      ensures Valid()
      ensures Entries() == Learn(old(Entries()), hop, src, neighbors, Min(|neighbors|, MAXNETNODES))
    {
      var i := 0;
      while i < |neighbors| && i < MAXNETNODES
        invariant 0 <= i <= Min(|neighbors|, MAXNETNODES)
        invariant Valid() && Entries() == Learn(old(Entries()), hop, src, neighbors, i)
      {
        var ok, addr := AppendNextHop(src, neighbors[i]);
        if ok {
          var _ := NodeOrAddNode(hop, addr);
        }
        i := i + 1;
      }
    }

    /** The loops that fill in a discover message's neighbours, for a machine reached over `hop`. */
    static method ListNeighbors(config: seq<nat>, hop: byte) returns (neighbors: seq<byte>)
      requires ValidConfig(config)
      ensures neighbors == Announced(config, hop)
    {
      neighbors := [];
      ghost var hops: seq<byte> := [];
      for d := 0 to |config|
        invariant hops == HopsExcept(config, AddrDriver(hop), d) && neighbors == hops[..Min(|hops|, MAXNETNODES)]
      {
        if d == AddrDriver(hop) {
          continue;
        }
        ghost var before := hops;
        assert before + DriverHops(d, 0) == before;
        for n := 1 to config[d]
          invariant hops == before + DriverHops(d, n - 1) && neighbors == hops[..Min(|hops|, MAXNETNODES)]
        {
          assert before + DriverHops(d, n) == hops + [MakeAddress(d, n)];
          hops := hops + [MakeAddress(d, n)];
          if |neighbors| < MAXNETNODES {
            neighbors := neighbors + [MakeAddress(d, n)];
          }
        }
      }
    }

    /** Deals with a packet for this machine: data is handed up if its sender is known, a discover
        message goes into the table and may be answered. `u` is this machine. */
    method HandlePacket(u: nat, config: seq<nat>, via: byte, p: Packet<Body>)
      returns (delivered: Option<Delivery>, answers: seq<Send<Body>>)
      requires Valid() && ValidConfig(config)
      modifies this, nodes
      ensures Valid()
      ensures var (m, sends) := Handle(u, Machine(old(Entries()), []), config, via, p);
        Entries() == m.table && answers == sends && m.inbox == if delivered.Some? then [delivered.value] else []
    {
      delivered, answers := None, [];
      if p.kind == DATA && p.body.Data? {
        var remote := NodeForAddr(via, p.src);
        if remote >= 0 {
          delivered := Some(Delivery(remote, p.body.origin, p.body.bytes));
        }
      } else if p.kind == DISCOVER && p.body.Discover? {
        var answer := HandleDiscover(via, p.src, p.body.a);
        if answer >= 0 {
          var neighbors := ListNeighbors(config, nodes[answer].firstHop);
          var a := Announcement(nodes[0].flags, nodes[0].stationId, neighbors);
          answers := [ToEntry(nodes[answer], DISCOVER, Discover(u, a))];
        }
      } else if p.kind == QUIT {
        NodeQuit(via, p.src);
      }
    }

    /** Marks everyone whose address starts with the hops of the machine that quits. */
    method NodeQuit(hop: byte, src: Addr)
      requires Valid()
      modifies nodes
      ensures Valid() && Entries() == MetaTable.NodeQuit(old(Entries()), hop, src)
    {
      var node_id := NodeForAddr(hop, src);
      if node_id < 0 {
        return;
      }
      ghost var e := Entries();
      assert nodes[node_id].addr == src;
      var prefix_len := 0;
      while prefix_len < ADDR_LEN && nodes[node_id].addr[prefix_len] != 0
        invariant prefix_len <= ADDR_LEN && forall k :: 0 <= k < prefix_len ==> src[k] != 0
      {
        prefix_len := prefix_len + 1;
      }
      assert prefix_len == FirstZero(src);
      var hops := src[..prefix_len];
      for i := 0 to num_nodes
        invariant Valid()
        invariant forall k :: 0 <= k < i ==> nodes[k] == MarkQuit(e, hops)[k]
        invariant forall k :: i <= k < num_nodes ==> nodes[k] == e[k]
      {
        if nodes[i].addr[..prefix_len] == hops {
          nodes[i] := nodes[i].(flags := nodes[i].flags.(quit := true));
        }
      }
      assert Entries() == MarkQuit(e, hops);
    }

    method AllPlayersQuit() returns (all: bool)
      requires Valid()
      ensures all == MetaTable.AllPlayersQuit(Entries())
    {
      for i := 1 to num_nodes
        invariant forall k :: 1 <= k < i ==> nodes[k].flags.forwarder || nodes[k].flags.quit
      {
        if !nodes[i].flags.forwarder && !nodes[i].flags.quit {
          return false;
        }
      }
      return true;
    }

    /** Whether every entry has announced itself; `clash` is the error of two with one station ID. */
    method CheckReady() returns (ready: bool, clash: bool)
      requires Valid()
      modifies nodes
      ensures Valid()
      ensures clash <==> exists i, j :: 0 <= i < j < num_nodes && SameStation(old(Entries()), i, j)
      ensures !clash ==> ready == (forall i :: 0 <= i < num_nodes ==> old(Entries())[i].flags.gotDiscover)
      ensures Entries() == if !clash && ready then MarkedReady(old(Entries())) else old(Entries())
    {
      ready := true;
      ghost var e := Entries();
      for i := 0 to num_nodes
        invariant ready == forall k :: 0 <= k < i ==> e[k].flags.gotDiscover
        invariant forall k, j :: 0 <= k < i && k < j < num_nodes ==> !SameStation(e, k, j)
      {
        if !nodes[i].flags.gotDiscover {
          ready := false;
          continue;
        }
        for j := i + 1 to num_nodes
          invariant forall k :: i < k < j ==> !SameStation(e, i, k)
        {
          if nodes[j].flags.gotDiscover && nodes[i].stationId == nodes[j].stationId {
            assert SameStation(e, i, j);
            return false, true;
          }
        }
      }
      clash := false;
      if ready {
        nodes[0] := nodes[0].(flags := nodes[0].flags.(ready := true));
      }
    }
  }

  /** Two announced entries with one station ID. */
  predicate SameStation(table: Table, i: nat, j: nat)
    requires i < |table| && j < |table|
  {
    table[i].flags.gotDiscover && table[j].flags.gotDiscover && table[i].stationId == table[j].stationId
  }

  lemma {:induction false} MatchFound(table: Table, hop: byte, addr: Addr, i: nat, n: nat)
    requires i < n <= |table| && FirstMatch(table, hop, addr, i) == -1 && Matches(table[i], hop, addr)
    ensures FirstMatch(table, hop, addr, n) == i
  {
    if n == i + 1 {
    } else {
      MatchFound(table, hop, addr, i, n - 1);
    }
  }

  lemma {:induction false} NoMatchBefore(e: Table, table: Table, hop: byte, addr: Addr, n: nat)
    requires n <= |e| && |e| < |table| && table[..|e|] == e && FirstMatch(e, hop, addr, |e|) == -1
    ensures FirstMatch(table, hop, addr, n) == -1
  {
    if n == 0 {
    } else {
      NoMatchBefore(e, table, hop, addr, n - 1);
      assert table[n - 1] == table[..|e|][n - 1];
    }
  }

  /** Puts a hop into the first free place of an address. */
  method AppendNextHop(addr: Addr, next: byte) returns (ok: bool, r: Addr)
    ensures ok == (FirstZero(addr) < ADDR_LEN)
    ensures r == if ok then addr[FirstZero(addr) := next] else addr
  {
    for i := 0 to ADDR_LEN
      invariant forall k :: 0 <= k < i ==> addr[k] != 0
    {
      if addr[i] == 0 {
        return true, addr[i := next];
      }
    }
    return false, addr;
  }
}
