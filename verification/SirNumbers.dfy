/** sirsetup: numbering all the players in place, lowest station ID first. */
module SirNumbers {
  import opened Counting
  import opened Numbering

  /** Whether automatic player `p` has been given one of the first `i` numbers, and which. */
  predicate NumberedBelow(table: seq<Player>, p: Player, i: nat, k: int) {
    var r := Rank(Autos(table), p.id);
    if r < FreeBelow(Claims(table), i) then 0 <= k < i && IsKthFree(Claims(table), r, k) else k == -1
  }

  /** The players' numbers, `players[j]`, and the table the other way round, after the first `i`
      numbers have been handed out. */
  ghost predicate Progress(table: seq<Player>, players: seq<int>, nodes: seq<int>, i: nat) {
    && |players| == |nodes| == |table| && i <= |table|
    && (forall j :: 0 <= j < |table| ==>
          if table[j].claim != AUTO then players[j] == table[j].claim else NumberedBelow(table, table[j], i, players[j]))
    && (forall k :: 0 <= k < |table| ==>
          -1 <= nodes[k] < |table| && (nodes[k] >= 0 ==> players[nodes[k]] == k))
    && (forall j :: 0 <= j < |table| && players[j] >= 0 ==> players[j] < |table| && nodes[players[j]] == j)
    && (forall k :: 0 <= k < i ==> nodes[k] >= 0)
  }

  class SirSetup {
    const numnodes: nat
    const station_id: array<int>
    const player: array<int>          // node_data[].player
    const player_to_node: array<int>

    ghost predicate Valid() {
      && player_to_node != player && player_to_node != station_id && player != station_id
      && station_id.Length == player.Length == player_to_node.Length == numnodes
    }

    constructor (station_ids: seq<int>, claims: seq<int>)
      requires |station_ids| == |claims|
      ensures Valid() && numnodes == |claims| && station_id[..] == station_ids && player[..] == claims
    {
      numnodes := |claims|;
      station_id := new int[|claims|](i requires 0 <= i < |claims| => station_ids[i]);
      player := new int[|claims|](i requires 0 <= i < |claims| => claims[i]);
      player_to_node := new int[|claims|](i => 0);
    }

    /** The table of players as it stands before numbering. */
    function Players(): (r: seq<Player>)
      requires station_id.Length == player.Length == numnodes
      reads station_id, player
      ensures |r| == numnodes
    {
      seq(numnodes, i requires 0 <= i < numnodes && station_id.Length == player.Length == numnodes
                      reads station_id, player => Player(station_id[i], player[i]))
    }

    /** Enters the players that asked for a number in the table of numbers. */
    method EnterClaims()
      requires Valid() && ConflictFree(Players())
      modifies player_to_node
      ensures Progress(Players(), player[..], player_to_node[..], 0)
    {
      ghost var table := Players();
      for i := 0 to numnodes
        invariant forall k :: 0 <= k < i ==> player_to_node[k] == -1
      {
        player_to_node[i] := -1;
      }
      for i := 0 to numnodes
        invariant forall k :: 0 <= k < numnodes ==>
                    -1 <= player_to_node[k] < i && (player_to_node[k] >= 0 ==> table[player_to_node[k]].claim == k)
        invariant forall j :: 0 <= j < i && table[j].claim != AUTO ==> player_to_node[table[j].claim] == j
      {
        assert player[i] == table[i].claim;
        if player[i] != -1 {
          player_to_node[player[i]] := i;
        }
      }
    }

    /** The waiting player with the lowest station ID, or -1. */
    method LowestWaiting() returns (best: int)
      requires Valid()
      ensures -1 <= best < numnodes && (best >= 0 ==> player[best] == -1)
      ensures forall k :: 0 <= k < numnodes && player[k] == -1 ==> best >= 0 && station_id[best] <= station_id[k]
    {
      best := -1;
      for j := 0 to numnodes
        invariant -1 <= best < j && (best >= 0 ==> player[best] == -1)
        invariant forall k :: 0 <= k < j && player[k] == -1 ==> best >= 0 && station_id[best] <= station_id[k]
      {
        if player[j] == -1 && (best == -1 || station_id[j] < station_id[best]) {
          best := j;
        }
      }
    }

    /** One turn of the numbering loop: the search for the next player never comes up empty. */
    method GiveTo(i: nat, ghost table: seq<Player>)
      requires Valid() && ConflictFree(table) && i < numnodes == |table|
      requires forall k :: 0 <= k < numnodes ==> station_id[k] == table[k].id
      requires Progress(table, player[..], player_to_node[..], i)
      modifies player, player_to_node
      ensures Progress(table, player[..], player_to_node[..], i + 1)
    {
      ghost var players, nodes := player[..], player_to_node[..];
      if player_to_node[i] != -1 {
        SkipClaimed(table, players, nodes, i);
        return;
      }
      var best := LowestWaiting();
      ghost var c := NextInLine(table, players, nodes, i);
      assert best != -1;
      Lowest(table, players, nodes, i, best);
      player_to_node[i] := best;
      player[best] := i;
      assert player[..] == players[best := i] && player_to_node[..] == nodes[i := best];
      GiveNumber(table, players, nodes, i, best);
    }

    method GiveToAll(ghost table: seq<Player>)
      requires Valid() && ConflictFree(table) && numnodes == |table|
      requires forall k :: 0 <= k < numnodes ==> station_id[k] == table[k].id
      requires Progress(table, player[..], player_to_node[..], 0)
      modifies player, player_to_node
      ensures Progress(table, player[..], player_to_node[..], numnodes)
    {
      for i := 0 to numnodes
        invariant Progress(table, player[..], player_to_node[..], i)
      {
        GiveTo(i, table);
      }
    }

    /** Gives every player a number. Both tables end up as each other's inverse, and every player has
        the number the rule gives it. */
    method AssignPlayerNumbers()
      requires Valid() && ConflictFree(Players())
      modifies player, player_to_node
      ensures Numbered(old(Players()), player[..], player_to_node[..])
    {
      ghost var table := Players();
      assert forall k :: 0 <= k < numnodes ==> station_id[k] == table[k].id;
      EnterClaims();
      GiveToAll(table);
      AllNumbered(table, player[..], player_to_node[..]);
    }
  }

  /** Players and numbers are each other's inverse, and the numbers are by the rule: first the claims,
      then the free numbers by station ID. */
  ghost predicate Numbered(table: seq<Player>, players: seq<int>, nodes: seq<int>) {
    && |players| == |nodes| == |table|
    && (forall j :: 0 <= j < |table| ==>
          0 <= players[j] < |table| && nodes[players[j]] == j && HasNumber(table, table[j], players[j]))
    && (forall k :: 0 <= k < |table| ==> 0 <= nodes[k] < |table| && players[nodes[k]] == k)
  }

  /** When every number has been handed out, everybody has the right one. */
  lemma AllNumbered(table: seq<Player>, players: seq<int>, nodes: seq<int>)
    requires ConflictFree(table) && Progress(table, players, nodes, |table|)
    ensures Numbered(table, players, nodes)
  {
    EnoughFree(table);
    forall j | 0 <= j < |table| ensures 0 <= players[j] < |table| && HasNumber(table, table[j], players[j]) {
      if table[j].claim == AUTO {
        assert table[j].id in Autos(table);
        RankBound(Autos(table), table[j].id);
      }
    }
  }

  /** Two machines that number the same stations, each in its own order, give every station the same number. */
  lemma SameEverywhere(a: seq<Player>, b: seq<Player>, players: seq<int>, nodes: seq<int>,
                       players': seq<int>, nodes': seq<int>, i: nat, j: nat)
    requires Elements(a) == Elements(b) && Numbered(a, players, nodes) && Numbered(b, players', nodes')
    requires i < |a| && j < |b| && a[i] == b[j]
    ensures players[i] == players'[j]
  {
    OrderDoesNotMatter(a, b, a[i], players[i], players'[j]);
  }

  /** A number that is taken already was claimed. */
  lemma SkipClaimed(table: seq<Player>, players: seq<int>, nodes: seq<int>, i: nat)
    requires ConflictFree(table) && Progress(table, players, nodes, i) && i < |table| && nodes[i] != -1
    ensures Progress(table, players, nodes, i + 1)
  {
    var j := nodes[i];
    assert players[j] == i && table[j].claim == i;
    assert i in Claims(table);
    assert FreeBelow(Claims(table), i + 1) == FreeBelow(Claims(table), i);
  }

  /** Otherwise nobody claimed it, and the player whose turn it is still waits. */
  lemma NextInLine(table: seq<Player>, players: seq<int>, nodes: seq<int>, i: nat) returns (j: nat)
    requires ConflictFree(table) && Progress(table, players, nodes, i) && i < |table| && nodes[i] == -1
    ensures i !in Claims(table)
    ensures j < |table| && table[j].claim == AUTO && players[j] == -1
    ensures Rank(Autos(table), table[j].id) == FreeBelow(Claims(table), i)
  {
    forall k | 0 <= k < |table| && table[k].claim != AUTO ensures table[k].claim != i {
      assert players[k] == table[k].claim;
    }
    EnoughFree(table);
    FreeBelowMonotone(Claims(table), i, |table|);
    j := PlayerOfRank(table, FreeBelow(Claims(table), i));
  }

  /** The waiting player with the lowest station ID is the one whose turn it is. */
  lemma Lowest(table: seq<Player>, players: seq<int>, nodes: seq<int>, i: nat, best: nat)
    requires ConflictFree(table) && Progress(table, players, nodes, i) && i < |table| && nodes[i] == -1
    requires best < |table| && players[best] == -1
    requires forall k :: 0 <= k < |table| && players[k] == -1 ==> table[best].id <= table[k].id
    ensures table[best].claim == AUTO && Rank(Autos(table), table[best].id) == FreeBelow(Claims(table), i)
  {
    var j := NextInLine(table, players, nodes, i);
    if table[best].id < table[j].id { RankMonotone(Autos(table), table[best].id, table[j].id); }
  }

  lemma GiveNumber(table: seq<Player>, players: seq<int>, nodes: seq<int>, i: nat, best: nat)
    requires ConflictFree(table) && Progress(table, players, nodes, i) && i < |table| && nodes[i] == -1
    requires best < |table| && table[best].claim == AUTO && players[best] == -1
    requires Rank(Autos(table), table[best].id) == FreeBelow(Claims(table), i)
    ensures Progress(table, players[best := i], nodes[i := best], i + 1)
  {
    var c := NextInLine(table, players, nodes, i);
    assert FreeBelow(Claims(table), i + 1) == FreeBelow(Claims(table), i) + 1;
    forall j | 0 <= j < |table| && j != best && table[j].claim == AUTO
      ensures NumberedBelow(table, table[j], i + 1, players[j])
    {
      assert table[j].id != table[best].id;
      assert table[j].id in Autos(table) && table[best].id in Autos(table);
      if table[j].id < table[best].id { RankMonotone(Autos(table), table[j].id, table[best].id); }
      else { RankMonotone(Autos(table), table[best].id, table[j].id); }
    }
  }
}
