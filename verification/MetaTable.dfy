/** The node table one metanet machine builds from discover messages. */
module MetaTable {
  import opened Bytes
  import opened Wrappers
  import opened DoomNet
  import opened Topology
  import opened MetaRouting
  import opened MetaPaths

  datatype Flags = Flags(gotDiscover: bool, ready: bool, launched: bool, forwarder: bool, quit: bool)

  /** The first entry of a table is the machine itself. */
  datatype NodeData = NodeData(firstHop: byte, addr: Addr, flags: Flags, stationId: int)
  type Table = seq<NodeData>

  /** What a machine truly is: its station ID, and whether it only forwards. */
  datatype Identity = Identity(stationId: int, forwarder: bool)

  predicate Describes(id: Identity, flags: Flags, stationId: int) {
    stationId == id.stationId && flags.forwarder == id.forwarder
  }

  /** What a discover message says about its sender. */
  datatype Announcement = Announcement(status: Flags, stationId: int, neighbors: seq<byte>)

  const NO_FLAGS := Flags(false, false, false, false, false)

  predicate Matches(e: NodeData, hop: byte, addr: Addr) { e.firstHop == hop && e.addr == addr }

  /** The first of the first `n` entries with this address, or -1. */
  function FirstMatch(table: Table, hop: byte, addr: Addr, n: nat): (r: int)
    requires n <= |table|
    ensures -1 <= r < n
    ensures r >= 0 ==> Matches(table[r], hop, addr)
    ensures forall i :: 0 <= i < n && (r < 0 || i < r) ==> !Matches(table[i], hop, addr)
  {
    if n == 0 then -1
    else
      var r := FirstMatch(table, hop, addr, n - 1);
      if r >= 0 then r else if Matches(table[n - 1], hop, addr) then n - 1 else -1
  }

  function NodeForAddr(table: Table, hop: byte, addr: Addr): int { FirstMatch(table, hop, addr, |table|) }

  /** The table after making sure this address has an entry, if there is room for one. */
  function NodeOrAddNode(table: Table, hop: byte, addr: Addr): Table {
    if NodeForAddr(table, hop, addr) >= 0 || |table| >= MAXNETNODES then table
    else table + [NodeData(hop, addr, NO_FLAGS, 0)]
  }

  function FirstZero(a: Addr): nat {
    if a[0] == 0 then 0 else if a[1] == 0 then 1 else if a[2] == 0 then 2 else if a[3] == 0 then 3 else 4
  }

  /** One step of the loop over an announcement's neighbours. */
  function AddThrough(table: Table, hop: byte, src: Addr, next: byte): Table {
    if FirstZero(src) < ADDR_LEN then NodeOrAddNode(table, hop, src[FirstZero(src) := next]) else table
  }

  /** The table after the first `n` neighbours have been added behind the announcing machine. */
  function Learn(table: Table, hop: byte, src: Addr, neighbors: seq<byte>, n: nat): Table
    requires n <= |neighbors|
  {
    if n == 0 then table else AddThrough(Learn(table, hop, src, neighbors, n - 1), hop, src, neighbors[n - 1])
  }

  /** The neighbours announced to a machine reached over `hop`: those on the other links, at most 16. */
  function Announced(config: seq<nat>, hop: byte): seq<byte>
    requires ValidConfig(config)
  {
    var hops := HopsExcept(config, AddrDriver(hop), |config|);
    hops[..Min(|hops|, MAXNETNODES)]
  }

  function AnnouncementFor(table: Table, config: seq<nat>, hop: byte): Announcement
    requires table != [] && ValidConfig(config)
  {
    Announcement(table[0].flags, table[0].stationId, Announced(config, hop))
  }

  /** Whether a late announcement only gets an answer: we have launched, its sender has not. */
  predicate AnswersOnly(table: Table, a: Announcement)
    requires table != []
  {
    table[0].flags.launched && !a.status.launched
  }

  /** The table once the sender has its entry, marked unless the message is only answered. */
  function Marked(table: Table, hop: byte, src: Addr, a: Announcement): Table
    requires table != []
  {
    var added := NodeOrAddNode(table, hop, src);
    var i := NodeForAddr(added, hop, src);
    if i < 0 || AnswersOnly(table, a) then added
    else added[i := added[i].(flags := a.status.(gotDiscover := true), stationId := a.stationId)]
  }

  /** The table after a discover message has been handled. */
  function HandleDiscover(table: Table, hop: byte, src: Addr, a: Announcement): Table
    requires table != []
  {
    var added := NodeOrAddNode(table, hop, src);
    if NodeForAddr(added, hop, src) < 0 || AnswersOnly(table, a) then added
    else Learn(Marked(table, hop, src, a), hop, src, a.neighbors, Min(|a.neighbors|, MAXNETNODES))
  }

  /** The entries marked as having quit when their address starts with these hops. */
  function MarkQuit(table: Table, hops: seq<byte>): (r: Table)
    requires |hops| <= ADDR_LEN
    ensures |r| == |table|
  {
    seq(|table|, k requires 0 <= k < |table| =>
      if table[k].addr[..|hops|] == hops then table[k].(flags := table[k].flags.(quit := true)) else table[k])
  }

  /** The table after a machine has said that it quits. */
  function NodeQuit(table: Table, hop: byte, src: Addr): (r: Table)
    ensures |r| == |table|
  {
    if NodeForAddr(table, hop, src) < 0 then table else MarkQuit(table, src[..FirstZero(src)])
  }

  function Self(id: Identity): NodeData {
    NodeData(0, NO_HOPS, Flags(true, false, false, id.forwarder, false), id.stationId)
  }

  function Immediate(hops: seq<byte>): seq<NodeData> {
    seq(|hops|, i requires 0 <= i < |hops| => NodeData(hops[i], NO_HOPS, NO_FLAGS, 0))
  }

  /** At first a machine knows itself and its immediate neighbours. */
  function InitNodes(config: seq<nat>, id: Identity): Table
    requires ValidConfig(config)
  {
    var hops := HopsExcept(config, NO_DRIVER, |config|);
    [Self(id)] + Immediate(hops[..Min(|hops|, MAXNETNODES - 1)])
  }

  // What the entries mean.

  /** The walk an entry spells. */
  function Path(e: NodeData): Walk { [e.firstHop] + Strip(e.addr) }

  predicate Padded(a: Addr) { Pad(Strip(a)) == a }

  /** An entry of u's table spells a legal walk, and once announced carries that machine's identity. */
  predicate EntryOk(t: Network, ids: seq<Identity>, u: nat, e: NodeData) {
    && Padded(e.addr)
    && Legal(t, u, NO_DRIVER, Path(e))
    && End(t, u, Path(e)) < |ids|
    && (e.flags.gotDiscover ==> Describes(ids[End(t, u, Path(e))], e.flags, e.stationId))
  }

  ghost predicate TableOk(t: Network, ids: seq<Identity>, u: nat, table: Table) {
    && 1 <= |table| <= MAXNETNODES
    && u < |ids|
    && table[0].firstHop == 0 && table[0].addr == NO_HOPS
    && Describes(ids[u], table[0].flags, table[0].stationId)
    && table[0].flags.gotDiscover
    && (forall i :: 1 <= i < |table| ==> EntryOk(t, ids, u, table[i]))
    && (forall i, j :: 0 <= i < j < |table| ==> !Matches(table[j], table[i].firstHop, table[i].addr))
  }

  predicate Knows(table: Table, p: Walk) {
    exists i :: 1 <= i < |table| && Path(table[i]) == p
  }

  /** Whether an entry for this walk exists or could still be added. */
  predicate HasRoom(table: Table, p: Walk) { |table| < MAXNETNODES || Knows(table, p) }

  lemma PathDetermines(e: NodeData, hop: byte, addr: Addr)
    requires Padded(e.addr) && Padded(addr)
    ensures Path(e) == [hop] + Strip(addr) <==> Matches(e, hop, addr)
  {
    if Path(e) == [hop] + Strip(addr) {
      assert Path(e)[0] == hop && Path(e)[1..] == Strip(addr) == Strip(e.addr);
    }
  }

  lemma PaddedPad(w: Walk)
    requires |w| <= 4 && forall i :: 0 <= i < |w| ==> w[i] != 0
    ensures Padded(Pad(w)) && Strip(Pad(w)) == w
  {
    StripPad(w);
  }

  /** Making room for a legal walk keeps a table sound. */
  lemma NodeOrAddNodeOk(t: Network, ids: seq<Identity>, u: nat, table: Table, hop: byte, addr: Addr)
    requires TableOk(t, ids, u, table)
    requires EntryOk(t, ids, u, NodeData(hop, addr, NO_FLAGS, 0))
    ensures var r := NodeOrAddNode(table, hop, addr);
      TableOk(t, ids, u, r) && |table| <= |r| && r[..|table|] == table
  {
    var r := NodeOrAddNode(table, hop, addr);
    assert forall i :: 0 <= i < |table| ==> r[i] == table[i];
    if r != table { assert r[|table|] == NodeData(hop, addr, NO_FLAGS, 0); }
  }

  /** Afterwards the walk is known, unless there was no room for it. */
  lemma NodeOrAddNodeKnows(table: Table, hop: byte, addr: Addr)
    requires table != [] && hop != table[0].firstHop && Padded(addr)
    requires forall i :: 1 <= i < |table| ==> Padded(table[i].addr)
    ensures var r, p := NodeOrAddNode(table, hop, addr), [hop] + Strip(addr);
      var k := NodeForAddr(r, hop, addr);
      && (HasRoom(table, p) ==> k >= 0)
      && (k >= 0 ==> k >= 1 && Path(r[k]) == p && Knows(r, p))
  {
    var r, p := NodeOrAddNode(table, hop, addr), [hop] + Strip(addr);
    assert r[0] == table[0];
    if Knows(table, p) {
      var i :| 1 <= i < |table| && Path(table[i]) == p;
      PathDetermines(table[i], hop, addr);
    }
    if r != table { assert r[|table|] == NodeData(hop, addr, NO_FLAGS, 0); }
    var k := NodeForAddr(r, hop, addr);
    if k >= 0 { assert Path(r[k]) == p; }
  }

  /** Appending a hop to an address is appending it to the walk. */
  lemma AppendedHop(a: Addr, h: byte)
    requires Padded(a) && h != 0
    ensures FirstZero(a) == |Strip(a)|
    ensures FirstZero(a) < 4 ==> Padded(a[FirstZero(a) := h]) && Strip(a[FirstZero(a) := h]) == Strip(a) + [h]
  {
    var w, z := Strip(a), FirstZero(a);
    if z < 4 {
      assert forall i :: 0 <= i < |w| ==> w[i] != 0;
      assert a[z := h] == Pad(w + [h]);
      PaddedPad(w + [h]);
    }
  }

  /** What is known about an announcement from the machine `back` leads to: its identity, and
      neighbours that can all be reached by going on from there. */
  ghost predicate AnnouncementOk(t: Network, ids: seq<Identity>, u: nat, back: Walk, a: Announcement) {
    && Legal(t, u, NO_DRIVER, back) && End(t, u, back) < |ids|
    && Describes(ids[End(t, u, back)], a.status, a.stationId)
    && (forall h :: h in a.neighbors ==> Legal(t, u, NO_DRIVER, back + [h]))
  }

  /** Whether u's table can always take one more legal walk that it does not know yet. */
  ghost predicate Roomy(t: Network, ids: seq<Identity>, u: nat) {
    forall table: Table, p: Walk {:trigger HasRoom(table, p)} ::
      TableOk(t, ids, u, table) && 1 <= |p| <= MAX_WALK && Legal(t, u, NO_DRIVER, p) ==> HasRoom(table, p)
  }

  /** Entries are only added, and added ones have not announced themselves yet. */
  predicate Extension(before: Table, after: Table) {
    && |before| <= |after| && after[..|before|] == before
    && (forall i :: |before| <= i < |after| ==> !after[i].flags.gotDiscover)
  }

  lemma ExtensionTransitive(a: Table, b: Table, c: Table)
    requires Extension(a, b) && Extension(b, c)
    ensures Extension(a, c)
  {
    assert c[..|a|] == c[..|b|][..|a|];
    forall i | |a| <= i < |c| ensures !c[i].flags.gotDiscover {
      if i < |b| { assert c[i] == c[..|b|][i]; }
    }
  }

  lemma KnowsMore(before: Table, after: Table, p: Walk)
    requires Extension(before, after) && Knows(before, p)
    ensures Knows(after, p)
  {
    var i :| 1 <= i < |before| && Path(before[i]) == p;
    assert after[i] == after[..|before|][i];
  }

  lemma AddWalkOk(t: Network, ids: seq<Identity>, u: nat, table: Table, hop: byte, addr: Addr)
    requires WellFormed(t) && |ids| == |t.nodes| && TableOk(t, ids, u, table) && Padded(addr)
    requires Legal(t, u, NO_DRIVER, [hop] + Strip(addr))
    ensures var r, p := NodeOrAddNode(table, hop, addr), [hop] + Strip(addr);
      TableOk(t, ids, u, r) && Extension(table, r) && (HasRoom(table, p) ==> Knows(r, p))
  {
    var p := [hop] + Strip(addr);
    LegalHopsNotZero(t, u, NO_DRIVER, p);
    WalkEndsAtMachine(t, u, p);
    assert Path(NodeData(hop, addr, NO_FLAGS, 0)) == p;
    NodeOrAddNodeOk(t, ids, u, table, hop, addr);
    AddressesPadded(t, ids, u, table);
    NodeOrAddNodeKnows(table, hop, addr);
  }

  lemma AddThroughOk(t: Network, ids: seq<Identity>, u: nat, table: Table, hop: byte, src: Addr, next: byte)
    requires WellFormed(t) && |ids| == |t.nodes| && TableOk(t, ids, u, table) && Padded(src)
    requires Legal(t, u, NO_DRIVER, [hop] + Strip(src) + [next])
    ensures var r := AddThrough(table, hop, src, next);
      && TableOk(t, ids, u, r) && Extension(table, r)
      && (|Strip(src)| < 4 && HasRoom(table, [hop] + Strip(src) + [next]) ==> Knows(r, [hop] + Strip(src) + [next]))
  {
    var p := [hop] + Strip(src) + [next];
    LegalHopsNotZero(t, u, NO_DRIVER, p);
    assert p[|p| - 1] == next;
    AppendedHop(src, next);
    if FirstZero(src) < ADDR_LEN {
      var addr := src[FirstZero(src) := next];
      assert [hop] + Strip(addr) == p;
      AddWalkOk(t, ids, u, table, hop, addr);
    }
  }

  lemma AddressesPadded(t: Network, ids: seq<Identity>, u: nat, table: Table)
    requires TableOk(t, ids, u, table)
    ensures forall i :: 1 <= i < |table| ==> Padded(table[i].addr)
  {
  }

  /** The first n machines announced are known. */
  predicate KnowsFirst(table: Table, back: Walk, hs: seq<byte>, n: nat)
    requires n <= |hs|
  {
    forall i :: 0 <= i < n ==> Knows(table, back + [hs[i]])
  }

  lemma {:induction false} LearnOk(t: Network, ids: seq<Identity>, u: nat, table: Table, hop: byte, src: Addr,
                                   neighbors: seq<byte>, n: nat)
    requires WellFormed(t) && |ids| == |t.nodes| && TableOk(t, ids, u, table) && Padded(src) && n <= |neighbors|
    requires forall h :: h in neighbors ==> Legal(t, u, NO_DRIVER, [hop] + Strip(src) + [h])
    ensures TableOk(t, ids, u, Learn(table, hop, src, neighbors, n))
    ensures Extension(table, Learn(table, hop, src, neighbors, n))
  {
    if n == 0 {
    } else {
      LearnOk(t, ids, u, table, hop, src, neighbors, n - 1);
      var m := Learn(table, hop, src, neighbors, n - 1);
      assert neighbors[n - 1] in neighbors;
      AddThroughOk(t, ids, u, m, hop, src, neighbors[n - 1]);
      ExtensionTransitive(table, m, AddThrough(m, hop, src, neighbors[n - 1]));
    }
  }

  /** The turn of the k-th machine announced makes it known and takes nothing away. */
  predicate LearnsInTurn(table: Table, hop: byte, src: Addr, hs: seq<byte>, k: nat)
    requires k < |hs|
  {
    && Extension(Learn(table, hop, src, hs, k), Learn(table, hop, src, hs, k + 1))
    && Knows(Learn(table, hop, src, hs, k + 1), [hop] + Strip(src) + [hs[k]])
  }

  lemma OneLearned(t: Network, ids: seq<Identity>, u: nat, table: Table, hop: byte, src: Addr, hs: seq<byte>, k: nat)
    requires WellFormed(t) && |ids| == |t.nodes| && TableOk(t, ids, u, table) && Padded(src) && k < |hs|
    requires forall h :: h in hs ==> Legal(t, u, NO_DRIVER, [hop] + Strip(src) + [h])
    requires Roomy(t, ids, u) && |Strip(src)| < 4
    ensures LearnsInTurn(table, hop, src, hs, k)
  {
    assert hs[k] in hs;
    LearnOk(t, ids, u, table, hop, src, hs, k);
    var m := Learn(table, hop, src, hs, k);
    assert HasRoom(m, [hop] + Strip(src) + [hs[k]]);
    AddThroughOk(t, ids, u, m, hop, src, hs[k]);
  }

  lemma {:induction false} LearnAll(table: Table, hop: byte, src: Addr, hs: seq<byte>, n: nat)
    requires n <= |hs| && forall k :: 0 <= k < n ==> LearnsInTurn(table, hop, src, hs, k)
    ensures KnowsFirst(Learn(table, hop, src, hs, n), [hop] + Strip(src), hs, n)
  {
    if n == 0 {
    } else {
      LearnAll(table, hop, src, hs, n - 1);
      assert LearnsInTurn(table, hop, src, hs, n - 1);
      StillKnows(Learn(table, hop, src, hs, n - 1), Learn(table, hop, src, hs, n), [hop] + Strip(src), hs, n);
    }
  }

  lemma StillKnows(m: Table, r: Table, back: Walk, hs: seq<byte>, n: nat)
    requires 0 < n <= |hs| && KnowsFirst(m, back, hs, n - 1) && Extension(m, r) && Knows(r, back + [hs[n - 1]])
    ensures KnowsFirst(r, back, hs, n)
  {
    forall i | 0 <= i < n - 1 ensures Knows(r, back + [hs[i]]) { KnowsMore(m, r, back + [hs[i]]); }
  }

  /** Entries keep their place and address and stay announced; only the sender's may become so. */
  predicate KeepsEntries(before: Table, after: Table, sender: Walk) {
    && |before| <= |after|
    && (forall i :: 0 <= i < |before| ==> Matches(after[i], before[i].firstHop, before[i].addr))
    && (forall i :: 0 <= i < |before| ==> (before[i].flags.gotDiscover ==> after[i].flags.gotDiscover))
    && (forall i :: 0 <= i < |after| && after[i].flags.gotDiscover ==>
          Path(after[i]) == sender || (i < |before| && before[i].flags.gotDiscover))
  }

  /** What a table keeps when its owner hears from a machine: its first entry, what it knows, and all it
      has of the others. */
  ghost predicate Succeeds(before: Table, after: Table, sender: Walk) {
    && before != [] && after != [] && after[0] == before[0] && KeepsEntries(before, after, sender)
    && (forall p :: Knows(before, p) ==> Knows(after, p))
  }

  lemma SucceedsTransitive(a: Table, b: Table, c: Table, sender: Walk)
    requires Succeeds(a, b, sender) && Succeeds(b, c, sender)
    ensures Succeeds(a, c, sender)
  {
    KeepsTransitive(a, b, c, sender);
  }

  /** Marking an entry as announced changes nothing else, and keeps the table sound. */
  lemma MarkKeeps(table: Table, i: nat, flags: Flags, stationId: int)
    requires 1 <= i < |table| && flags.gotDiscover
    ensures Succeeds(table, table[i := table[i].(flags := flags, stationId := stationId)], Path(table[i]))
  {
    var r := table[i := table[i].(flags := flags, stationId := stationId)];
    assert forall k :: 0 <= k < |table| ==> Path(r[k]) == Path(table[k]);
    forall p | Knows(table, p) ensures Knows(r, p) {
      var k :| 1 <= k < |table| && Path(table[k]) == p;
      assert Path(r[k]) == p;
    }
  }

  lemma MarkOk(t: Network, ids: seq<Identity>, u: nat, table: Table, i: nat, flags: Flags, stationId: int)
    requires TableOk(t, ids, u, table) && 1 <= i < |table|
    requires Describes(ids[End(t, u, Path(table[i]))], flags, stationId)
    ensures TableOk(t, ids, u, table[i := table[i].(flags := flags, stationId := stationId)])
  {
    var r := table[i := table[i].(flags := flags, stationId := stationId)];
    assert forall k :: 0 <= k < |table| ==> r[k].firstHop == table[k].firstHop && r[k].addr == table[k].addr;
    assert forall k :: 0 <= k < |table| ==> Path(r[k]) == Path(table[k]);
  }

  lemma MarkedOk(t: Network, ids: seq<Identity>, u: nat, table: Table, hop: byte, src: Addr, a: Announcement)
    requires WellFormed(t) && |ids| == |t.nodes| && TableOk(t, ids, u, table) && Padded(src)
    requires AnnouncementOk(t, ids, u, [hop] + Strip(src), a)
    ensures var r, back := Marked(table, hop, src, a), [hop] + Strip(src);
      && TableOk(t, ids, u, r) && Succeeds(table, r, back)
      && (HasRoom(table, back) ==> NodeForAddr(NodeOrAddNode(table, hop, src), hop, src) >= 0 && Knows(r, back))
  {
    AddedOk(t, ids, u, table, hop, src);
    var added, back := NodeOrAddNode(table, hop, src), [hop] + Strip(src);
    var i := NodeForAddr(added, hop, src);
    if i < 0 || AnswersOnly(table, a) {
      assert Marked(table, hop, src, a) == added;
    } else {
      MarkOk(t, ids, u, added, i, a.status.(gotDiscover := true), a.stationId);
      MarkKeeps(added, i, a.status.(gotDiscover := true), a.stationId);
      SucceedsTransitive(table, added, Marked(table, hop, src, a), back);
    }
  }

  lemma KeepsTransitive(a: Table, b: Table, c: Table, sender: Walk)
    requires KeepsEntries(a, b, sender) && KeepsEntries(b, c, sender)
    ensures KeepsEntries(a, c, sender)
  {
  }

  lemma AddedOk(t: Network, ids: seq<Identity>, u: nat, table: Table, hop: byte, src: Addr)
    requires WellFormed(t) && |ids| == |t.nodes| && TableOk(t, ids, u, table) && Padded(src)
    requires Legal(t, u, NO_DRIVER, [hop] + Strip(src)) && End(t, u, [hop] + Strip(src)) < |ids|
    ensures var r, back := NodeOrAddNode(table, hop, src), [hop] + Strip(src);
      var i := NodeForAddr(r, hop, src);
      && TableOk(t, ids, u, r) && Succeeds(table, r, back)
      && (i >= 0 ==> 1 <= i && Path(r[i]) == back && Knows(r, back))
      && (HasRoom(table, back) ==> i >= 0)
  {
    assert Path(NodeData(hop, src, NO_FLAGS, 0)) == [hop] + Strip(src);
    NodeOrAddNodeOk(t, ids, u, table, hop, src);
    AddressesPadded(t, ids, u, table);
    NodeOrAddNodeKnows(table, hop, src);
    AddedKeeps(table, hop, src);
  }

  lemma AddedKeeps(table: Table, hop: byte, src: Addr)
    requires table != []
    ensures Succeeds(table, NodeOrAddNode(table, hop, src), [hop] + Strip(src))
  {
    ExtensionSucceeds(table, NodeOrAddNode(table, hop, src), [hop] + Strip(src));
  }

  /** A table that only has more entries, not announced yet, keeps everything. */
  lemma ExtensionSucceeds(table: Table, r: Table, sender: Walk)
    requires table != [] && Extension(table, r)
    ensures Succeeds(table, r, sender)
  {
    assert forall k :: 0 <= k < |table| ==> r[k] == r[..|table|][k];
    forall p | Knows(table, p) ensures Knows(r, p) { KnowsMore(table, r, p); }
  }

  /** A discover message keeps the table sound. */
  lemma HandleDiscoverOk(t: Network, ids: seq<Identity>, u: nat, table: Table, hop: byte, src: Addr, a: Announcement)
    requires WellFormed(t) && |ids| == |t.nodes| && TableOk(t, ids, u, table) && Padded(src)
    requires AnnouncementOk(t, ids, u, [hop] + Strip(src), a) && |a.neighbors| <= MAXNETNODES
    ensures var r := HandleDiscover(table, hop, src, a); TableOk(t, ids, u, r) && Succeeds(table, r, [hop] + Strip(src))
  {
    var m, r, back := Marked(table, hop, src, a), HandleDiscover(table, hop, src, a), [hop] + Strip(src);
    MarkedOk(t, ids, u, table, hop, src, a);
    HandledCases(table, hop, src, a);
    if r != m {
      LearnOk(t, ids, u, m, hop, src, a.neighbors, |a.neighbors|);
      ExtensionSucceeds(m, r, back);
      SucceedsTransitive(table, m, r, back);
    }
  }

  /** The sender's entry is all that a message adds, or what it announces is learned as well. */
  lemma HandledCases(table: Table, hop: byte, src: Addr, a: Announcement)
    requires table != [] && |a.neighbors| <= MAXNETNODES
    ensures var m, r := Marked(table, hop, src, a), HandleDiscover(table, hop, src, a);
      m != [] && (r == m || r == Learn(m, hop, src, a.neighbors, |a.neighbors|))
  {
  }

  /** With room to spare the sender is known afterwards, and unless it is only answered so is every
      machine it announced. */
  lemma HandleDiscoverLearns(t: Network, ids: seq<Identity>, u: nat, table: Table, hop: byte, src: Addr, a: Announcement)
    requires WellFormed(t) && |ids| == |t.nodes| && TableOk(t, ids, u, table) && Padded(src) && Roomy(t, ids, u)
    requires AnnouncementOk(t, ids, u, [hop] + Strip(src), a) && |a.neighbors| <= MAXNETNODES
    requires !AnswersOnly(table, a) && |Strip(src)| < 4
    ensures KnowsFirst(HandleDiscover(table, hop, src, a), [hop] + Strip(src), a.neighbors, |a.neighbors|)
  {
    assert HasRoom(table, [hop] + Strip(src));
    SenderMarked(t, ids, u, table, hop, src, a);
    var n := |a.neighbors|;
    var m := Marked(table, hop, src, a);
    forall k | 0 <= k < n ensures LearnsInTurn(m, hop, src, a.neighbors, k) {
      OneLearned(t, ids, u, m, hop, src, a.neighbors, k);
    }
    LearnAll(m, hop, src, a.neighbors, n);
  }

  lemma SenderMarked(t: Network, ids: seq<Identity>, u: nat, table: Table, hop: byte, src: Addr, a: Announcement)
    requires WellFormed(t) && |ids| == |t.nodes| && TableOk(t, ids, u, table) && Padded(src)
    requires AnnouncementOk(t, ids, u, [hop] + Strip(src), a) && |a.neighbors| <= MAXNETNODES
    requires !AnswersOnly(table, a) && HasRoom(table, [hop] + Strip(src))
    ensures TableOk(t, ids, u, Marked(table, hop, src, a))
    ensures HandleDiscover(table, hop, src, a) == Learn(Marked(table, hop, src, a), hop, src, a.neighbors, |a.neighbors|)
  {
    MarkedOk(t, ids, u, table, hop, src, a);
  }

  // Quitting.

  /** Marking machines as having quit changes nothing else. */
  lemma QuitKeeps(t: Network, ids: seq<Identity>, u: nat, table: Table, hop: byte, src: Addr)
    requires TableOk(t, ids, u, table)
    ensures var r := NodeQuit(table, hop, src);
      && TableOk(t, ids, u, r) && (forall p :: Knows(table, p) ==> Knows(r, p))
      && (forall k :: 0 <= k < |table| ==> Path(r[k]) == Path(table[k]))
      && (forall k :: 0 <= k < |table| ==> r[k].flags.gotDiscover == table[k].flags.gotDiscover)
  {
    var r := NodeQuit(table, hop, src);
    assert forall k :: 0 <= k < |table| ==> r[k].firstHop == table[k].firstHop && r[k].addr == table[k].addr;
    assert forall k :: 0 <= k < |table| ==> Path(r[k]) == Path(table[k]);
    forall p | Knows(table, p) ensures Knows(r, p) {
      var k :| 1 <= k < |table| && Path(table[k]) == p;
      assert Path(r[k]) == p;
    }
  }

  /** Whether entry k is reached through entry i, or is that entry: same first hop, and its hops first. */
  predicate Through(table: Table, i: nat, k: nat)
    requires i < |table| && k < |table|
  {
    table[k].firstHop == table[i].firstHop && SameStart(table, i, k)
  }

  predicate SameStart(table: Table, i: nat, k: nat)
    requires i < |table| && k < |table|
  {
    var n := FirstZero(table[i].addr);
    table[k].addr[..n] == table[i].addr[..n]
  }

  /** Just the machines reached through the one that quits are marked, and it too. */
  predicate MarksRight(table: Table, i: nat)
    requires i < |table|
  {
    forall k :: 0 <= k < |table| ==>
      NodeQuit(table, table[i].firstHop, table[i].addr)[k] ==
        if Through(table, i, k) then table[k].(flags := table[k].flags.(quit := true)) else table[k]
  }

  /** That is so if and only if no machine behind another first hop, and not marked yet, has an address that
      starts with the same hops: the program compares the quitting machine's first hop with itself. */
  lemma QuitMarks(table: Table, i: nat)
    requires i < |table|
    ensures MarksRight(table, i) <==>
            forall k :: 0 <= k < |table| && SameStart(table, i, k) && !table[k].flags.quit ==>
              table[k].firstHop == table[i].firstHop
  {
    var r := NodeQuit(table, table[i].firstHop, table[i].addr);
    assert Matches(table[i], table[i].firstHop, table[i].addr);
    forall k | 0 <= k < |table|
      ensures r[k] == if SameStart(table, i, k) then table[k].(flags := table[k].flags.(quit := true)) else table[k]
    {
    }
  }

  /** When an immediate neighbour quits, everyone is marked, and a forwarder stops as if all had gone. */
  lemma NeighborQuits(table: Table, i: nat)
    requires i < |table| && table[i].addr == NO_HOPS
    ensures var r := NodeQuit(table, table[i].firstHop, table[i].addr);
      AllPlayersQuit(r) && forall k :: 0 <= k < |r| ==> r[k].flags.quit
  {
    var r := NodeQuit(table, table[i].firstHop, table[i].addr);
    assert Matches(table[i], table[i].firstHop, table[i].addr);
    assert NO_HOPS[..0] == [];
    forall k | 0 <= k < |r| ensures r[k].flags.quit { assert table[k].addr[..0] == []; }
  }

  /** Whether a forwarder has no player left to forward for. */
  predicate AllPlayersQuit(table: Table) {
    forall i :: 1 <= i < |table| ==> table[i].flags.forwarder || table[i].flags.quit
  }
}
