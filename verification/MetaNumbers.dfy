/** metanet: numbering the players from a finished node table, and why all machines agree. */
module MetaNumbers {
  import opened Counting
  import opened Numbering
  import opened Topology
  import opened MetaPaths
  import opened MetaTable
  import opened MetaDiscovery
  import opened MetaComplete
  import MetaNodes

  /** The players of a table: everyone who does not only forward, all numbered automatically. */
  function Players(table: Table): (r: seq<Player>)
    ensures |r| == |table|
  {
    seq(|table|, i requires 0 <= i < |table| =>
      Player(table[i].stationId, if table[i].flags.forwarder then -2 else AUTO))
  }

  ghost predicate DifferentStations(table: Table) {
    forall i, j :: 0 <= i < j < |table| ==> table[i].stationId != table[j].stationId
  }

  /** A table that is ready without a clash of station IDs can be numbered, and no other one that is ready. */
  lemma ReadyIsDifferent(table: Table)
    requires AllAnnounced(table)
    ensures DifferentStations(table) <==>
            !exists i, j :: 0 <= i < j < |table| && MetaNodes.SameStation(table, i, j)
  {
    if !DifferentStations(table) {
      var i, j :| 0 <= i < j < |table| && table[i].stationId == table[j].stationId;
      assert MetaNodes.SameStation(table, i, j);
    }
  }

  /** An arrangement of the entries by station ID, as the library sort returns it. */
  ghost predicate SortedOrder(table: Table, order: seq<nat>) {
    && |order| == |table| && Distinct(order)
    && (forall i :: 0 <= i < |order| ==> order[i] < |table|)
    && (forall i, j :: 0 <= i < j < |order| ==> table[order[i]].stationId <= table[order[j]].stationId)
  }

  function Arranged(table: Table, order: seq<nat>, n: nat): (r: seq<Player>)
    requires n <= |order| && forall i :: 0 <= i < |order| ==> order[i] < |table|
    ensures |r| == n
  {
    seq(n, i requires 0 <= i < n => Players(table)[order[i]])
  }

  /** Going through the entries by station ID, the players met so far are those with lower IDs. */
  lemma MetSoFar(table: Table, order: seq<nat>, n: nat)
    requires DifferentStations(table) && SortedOrder(table, order) && n < |order|
    ensures var id := table[order[n]].stationId;
      (set y | y in Autos(Players(table)) && y < id) == Autos(Arranged(table, order, n))
  {
    var id, met := table[order[n]].stationId, Arranged(table, order, n);
    var all := Players(table);
    forall i | 0 <= i < n ensures met[i].id < id { assert order[i] != order[n]; }
    Pigeonhole(order, |table|);
    forall k | 0 <= k < |table| && all[k].claim == AUTO && all[k].id < id ensures all[k].id in Autos(met) {
      assert k in order;
      var i :| 0 <= i < |order| && order[i] == k;
      assert i < n;
      assert met[i] == all[k];
    }
    forall i | 0 <= i < n && met[i].claim == AUTO ensures met[i].id in Autos(all) { assert met[i] == all[order[i]]; }
  }

  /** Nobody claims a number here, so a player's rank is its number by the common rule. */
  lemma RankIsNumber(table: Table, i: nat)
    requires i < |table| && !table[i].flags.forwarder
    ensures HasNumber(Players(table), Players(table)[i], Rank(Autos(Players(table)), table[i].stationId))
  {
    AllFree(Claims(Players(table)), Rank(Autos(Players(table)), table[i].stationId));
  }

  /** How many of the first `n` entries in this order play. */
  function PlayersBefore(table: Table, order: seq<nat>, n: nat): (r: nat)
    requires n <= |order| && forall i :: 0 <= i < |order| ==> order[i] < |table|
  {
    if n == 0 then 0
    else PlayersBefore(table, order, n - 1) + if table[order[n - 1]].flags.forwarder then 0 else 1
  }

  /** The loop through the entries in the order of their station IDs. */
  method NumberPlayers(nodes: array<NodeData>, num_nodes: nat, order: seq<nat>, player_num: array<int>)
    returns (num_players: nat)
    requires num_nodes <= nodes.Length && num_nodes <= player_num.Length
    requires SortedOrder(nodes[..num_nodes], order)
    modifies player_num
    ensures num_players == PlayersBefore(nodes[..num_nodes], order, num_nodes)
    ensures forall k :: 0 <= k < num_nodes && !nodes[order[k]].flags.forwarder ==>
              player_num[order[k]] == PlayersBefore(nodes[..num_nodes], order, k)
    ensures forall i :: 0 <= i < player_num.Length && (i >= num_nodes || nodes[i].flags.forwarder) ==>
              player_num[i] == old(player_num[i])
  {
    ghost var table := nodes[..num_nodes];
    num_players := 0;
    for i := 0 to num_nodes
      invariant num_players == PlayersBefore(table, order, i)
      invariant forall k :: 0 <= k < i && !table[order[k]].flags.forwarder ==>
                  player_num[order[k]] == PlayersBefore(table, order, k)
      invariant forall k :: 0 <= k < player_num.Length && (k >= num_nodes || table[k].flags.forwarder) ==>
                  player_num[k] == old(player_num[k])
    {
      if !nodes[order[i]].flags.forwarder {
        player_num[order[i]] := num_players;
        num_players := num_players + 1;
      }
    }
  }

  lemma NotMet(table: Table, order: seq<nat>, n: nat)
    requires DifferentStations(table) && SortedOrder(table, order) && n < |order|
    ensures table[order[n]].stationId !in Autos(Arranged(table, order, n))
  {
    var met := Arranged(table, order, n);
    forall i | 0 <= i < n ensures met[i].id != table[order[n]].stationId {
      assert order[i] != order[n];
      assert met[i] == Players(table)[order[i]];
      assert met[i].id == table[order[i]].stationId != table[order[n]].stationId;
    }
  }

  /** The next player's rank is the number of players met before, and meeting it makes them one more. */
  lemma OneMore(table: Table, order: seq<nat>, n: nat)
    requires DifferentStations(table) && SortedOrder(table, order) && n < |order|
    ensures Rank(Autos(Players(table)), table[order[n]].stationId) == |Autos(Arranged(table, order, n))|
    ensures |Autos(Arranged(table, order, n + 1))|
         == |Autos(Arranged(table, order, n))| + if table[order[n]].flags.forwarder then 0 else 1
  {
    MetSoFar(table, order, n);
    NotMet(table, order, n);
    var met, p := Arranged(table, order, n), Players(table)[order[n]];
    assert Arranged(table, order, n + 1) == met + [p];
    AddPlayer(met, p);
  }

  /** Counting in the order of the station IDs gives every player its rank. */
  lemma {:induction false} CountIsRank(table: Table, order: seq<nat>, n: nat)
    requires DifferentStations(table) && SortedOrder(table, order) && n <= |order|
    ensures PlayersBefore(table, order, n) == |Autos(Arranged(table, order, n))|
    ensures n < |order| ==>
              PlayersBefore(table, order, n) == Rank(Autos(Players(table)), table[order[n]].stationId)
  {
    if n == 0 {
    } else {
      CountIsRank(table, order, n - 1);
      OneMore(table, order, n - 1);
    }
    if n < |order| { OneMore(table, order, n); }
  }

  lemma AllMet(table: Table, order: seq<nat>)
    requires SortedOrder(table, order)
    ensures Autos(Arranged(table, order, |order|)) == Autos(Players(table))
  {
    var met, all := Arranged(table, order, |order|), Players(table);
    Pigeonhole(order, |table|);
    forall k | 0 <= k < |table| && all[k].claim == AUTO ensures all[k].id in Autos(met) {
      assert k in order;
      var i :| 0 <= i < |order| && order[i] == k;
      assert met[i] == all[k];
    }
    forall i | 0 <= i < |met| && met[i].claim == AUTO ensures met[i].id in Autos(all) { assert met[i] == all[order[i]]; }
  }

  lemma PlaceOf(table: Table, order: seq<nat>, i: nat) returns (k: nat)
    requires SortedOrder(table, order) && i < |table|
    ensures k < |order| && order[k] == i
  {
    Pigeonhole(order, |table|);
    assert i in order;
    k :| 0 <= k < |order| && order[k] == i;
  }

  /** What the game is told about the players. */
  class Settings {
    var consoleplayer: int
    var numnodes: nat
    var numplayers: nat
    var ticdup: nat
    var extratics: nat
  }

  /** Numbers the players by station ID: each gets the number of players that come before it. */
  method AssignPlayerNumbers(nodes: array<NodeData>, num_nodes: nat, order: seq<nat>, player_num: array<int>,
                             doomcom: Settings)
    requires 1 <= num_nodes <= nodes.Length && num_nodes <= player_num.Length
    requires DifferentStations(nodes[..num_nodes]) && SortedOrder(nodes[..num_nodes], order)
    modifies player_num, doomcom
    ensures var table := nodes[..num_nodes];
      && (forall i :: 0 <= i < num_nodes && !table[i].flags.forwarder ==>
            player_num[i] == Rank(Autos(Players(table)), table[i].stationId) &&
            HasNumber(Players(table), Players(table)[i], player_num[i]))
      && (forall i :: 0 <= i < player_num.Length && (i >= num_nodes || table[i].flags.forwarder) ==>
            player_num[i] == old(player_num[i]))
      && doomcom.consoleplayer == player_num[0]
      && doomcom.numnodes == doomcom.numplayers == |Autos(Players(table))|
      && doomcom.ticdup == 1 && doomcom.extratics == 0
  {
    ghost var table := nodes[..num_nodes];
    var num_players := NumberPlayers(nodes, num_nodes, order, player_num);
    CountIsRank(table, order, num_nodes);
    AllMet(table, order);
    forall i | 0 <= i < num_nodes && !table[i].flags.forwarder
      ensures player_num[i] == Rank(Autos(Players(table)), table[i].stationId)
      ensures HasNumber(Players(table), Players(table)[i], player_num[i])
    {
      var k := PlaceOf(table, order, i);
      CountIsRank(table, order, k);
      RankIsNumber(table, i);
    }
    doomcom.consoleplayer := player_num[0];
    doomcom.numnodes := num_players;
    doomcom.numplayers := num_players;
    doomcom.ticdup := 1;
    doomcom.extratics := 0;
  }

  // Agreement.

  /** The station IDs of the machines that play. */
  function Playing(ids: seq<Identity>): set<int> {
    set m | 0 <= m < |ids| && !ids[m].forwarder :: ids[m].stationId
  }

  ghost predicate Connected(t: Network, u: nat, v: nat) {
    exists w: Walk :: Reachable(t, u, v, w)
  }

  ghost predicate WithinFiveLinks(t: Network) {
    forall u: nat, v: nat :: u < |t.nodes| && v < |t.nodes| && u != v ==> Connected(t, u, v)
  }

  /** A finished table holds exactly the machines that play, whoever's table it is. */
  lemma ExactPlayers(t: Network, ids: seq<Identity>, u: nat, table: Table)
    requires |ids| == |t.nodes| && WithinFiveLinks(t) && Exact(t, ids, u, table)
    ensures Autos(Players(table)) == Playing(ids)
  {
    forall m | 0 <= m < |ids| && !ids[m].forwarder ensures ids[m].stationId in Autos(Players(table)) {
      var i := EntryOf(t, ids, u, table, m);
      assert Players(table)[i].id == ids[m].stationId;
    }
    forall i | 0 <= i < |table| && !table[i].flags.forwarder ensures table[i].stationId in Playing(ids) {
      var m := MachineOf(t, u, table, i);
      assert ids[m].stationId == table[i].stationId;
    }
  }

  lemma EntryOf(t: Network, ids: seq<Identity>, u: nat, table: Table, m: nat) returns (i: nat)
    requires |ids| == |t.nodes| && WithinFiveLinks(t) && Exact(t, ids, u, table) && m < |ids|
    ensures i < |table| && MachineOf(t, u, table, i) == m
  {
    if m == u {
      i := 0;
    } else {
      assert Connected(t, u, m);
      var w: Walk :| Reachable(t, u, m, w);
      i :| 0 <= i < |table| && MachineOf(t, u, table, i) == m;
    }
  }

  /** On an acyclic network of at most 16 machines within five links of each other, in every run, the
      number a machine gives to any player once it has heard from everyone is the rank of that player's
      station ID among all that play, and so the same at every machine. No machine finds two entries with
      one station ID. */
  lemma MachinesAgree(t: Network, ids: seq<Identity>, steps: seq<Step>, s: State, u: nat, i: nat)
    requires WellFormed(t) && Small(t) && WithinFiveLinks(t) && |ids| == |t.nodes|
    requires forall m, n :: 0 <= m < n < |ids| ==> ids[m].stationId != ids[n].stationId
    requires Possible(t, Start(t, ids), steps) && s == After(t, Start(t, ids), steps)
    requires u < |s.machines| && AllAnnounced(s.machines[u].table) && i < |s.machines[u].table|
    ensures DifferentStations(s.machines[u].table)
    ensures var table := s.machines[u].table;
      var m := MachineOf(t, u, table, i);
      && m < |ids| && table[i].stationId == ids[m].stationId && table[i].flags.forwarder == ids[m].forwarder
      && Rank(Autos(Players(table)), table[i].stationId) == Rank(Playing(ids), ids[m].stationId)
      && |Autos(Players(table))| == |Playing(ids)|
      && (!ids[m].forwarder ==> Rank(Playing(ids), ids[m].stationId) < |Playing(ids)|)
  {
    var table := s.machines[u].table;
    DiscoveryComplete(t, ids, steps, s, u);
    ExactPlayers(t, ids, u, table);
    var m := MachineOf(t, u, table, i);
    assert Describes(ids[m], table[i].flags, table[i].stationId);
    if !ids[m].forwarder {
      assert ids[m].stationId in Playing(ids);
      RankBound(Playing(ids), ids[m].stationId);
    }
    forall j, k | 0 <= j < k < |table| ensures table[j].stationId != table[k].stationId {
      assert MachineOf(t, u, table, j) != MachineOf(t, u, table, k);
    }
  }

  /** The number of the machine that an entry stands for, by its place among all that play. */
  function NumberOf(ids: seq<Identity>, entry: NodeData): nat { Rank(Playing(ids), entry.stationId) }

  ghost predicate IsGiven(ids: seq<Identity>, table: Table, k: nat) {
    exists i :: 0 <= i < |table| && !table[i].flags.forwarder && NumberOf(ids, table[i]) == k
  }

  lemma RanksDiffer(table: Table, i: nat, j: nat)
    requires DifferentStations(table) && i < j < |table|
    requires !table[i].flags.forwarder && !table[j].flags.forwarder
    ensures Rank(Autos(Players(table)), table[i].stationId) != Rank(Autos(Players(table)), table[j].stationId)
  {
    var autos, a, b := Autos(Players(table)), table[i].stationId, table[j].stationId;
    assert Players(table)[i].id in autos && Players(table)[j].id in autos;
    if a < b { RankMonotone(autos, a, b); } else { RankMonotone(autos, b, a); }
  }

  /** The numbers that such a machine gives out are different for different players, they are exactly the
      numbers below the number of machines that play, and they are those of the common rule. */
  lemma NumbersAreExact(t: Network, ids: seq<Identity>, steps: seq<Step>, s: State, u: nat)
    requires WellFormed(t) && Small(t) && WithinFiveLinks(t) && |ids| == |t.nodes|
    requires forall m, n :: 0 <= m < n < |ids| ==> ids[m].stationId != ids[n].stationId
    requires Possible(t, Start(t, ids), steps) && s == After(t, Start(t, ids), steps)
    requires u < |s.machines| && AllAnnounced(s.machines[u].table)
    ensures var table := s.machines[u].table;
      && (forall i, j :: 0 <= i < j < |table| && !table[i].flags.forwarder && !table[j].flags.forwarder ==>
            NumberOf(ids, table[i]) != NumberOf(ids, table[j]))
      && (forall i :: 0 <= i < |table| && !table[i].flags.forwarder ==>
            NumberOf(ids, table[i]) < |Playing(ids)| &&
            HasNumber(Players(table), Players(table)[i], NumberOf(ids, table[i])))
      && (forall k: nat :: k < |Playing(ids)| ==> IsGiven(ids, table, k))
  {
    var table := s.machines[u].table;
    DiscoveryComplete(t, ids, steps, s, u);
    ExactPlayers(t, ids, u, table);
    var autos := Autos(Players(table));
    forall i, j | 0 <= i < j < |table| && !table[i].flags.forwarder && !table[j].flags.forwarder
      ensures Rank(autos, table[i].stationId) != Rank(autos, table[j].stationId)
    {
      MachinesAgree(t, ids, steps, s, u, i);
      RanksDiffer(table, i, j);
    }
    forall i | 0 <= i < |table| && !table[i].flags.forwarder
      ensures Rank(autos, table[i].stationId) < |autos|
      ensures HasNumber(Players(table), Players(table)[i], Rank(autos, table[i].stationId))
    {
      assert Players(table)[i].id in autos;
      RankBound(autos, table[i].stationId);
      RankIsNumber(table, i);
    }
    forall k: nat | k < |Playing(ids)| ensures IsGiven(ids, table, k) {
      var i := PlayerOfRank(Players(table), k);
      assert NumberOf(ids, table[i]) == k;
    }
  }
}
