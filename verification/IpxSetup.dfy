/** ipxsetup: the table of machines found on the network, and this machine's player number. */
module IpxSetup {
  import opened Bytes
  import opened DoomNet
  import opened Counting
  import opened Numbering

  const ADDRESS_LEN := 10

  type Address = a: seq<byte> | |a| == ADDRESS_LEN witness seq(ADDRESS_LEN, i => 0)

  datatype Setup = Setup(drone: bool, nodesfound: int, nodeswanted: int, dupwanted: int, plnumwanted: int)

  /** A machine's entry as a player: -1 asks for an automatic number, except from a drone, and a number
      wanted counts from 1. Anything else is neither automatic nor ever met in the search. */
  function AsPlayer(addr: Address, s: Setup): Player {
    Player(Value(addr), if s.plnumwanted == -1 && !s.drone then AUTO
                        else if s.plnumwanted < 1 then -2 else s.plnumwanted - 1)
  }

  predicate IsAutomatic(s: Setup) { !s.drone && s.plnumwanted == -1 }

  class Ipx {
    const force_player: int
    const numnetnodes: nat
    const nodeaddr: array<Address>
    const nodesetup: array<Setup>
    var numnodes: nat

    ghost predicate Valid()
      reads this, nodeaddr, nodesetup
    {
      && nodeaddr.Length == nodesetup.Length == MAXNETNODES && 1 <= numnodes <= MAXNETNODES
      && (forall i, j :: 0 <= i < j < numnodes ==> nodeaddr[i] != nodeaddr[j])
    }

    constructor (force_player: int, numnetnodes: nat, local: Address)
      ensures Valid() && fresh(nodeaddr) && fresh(nodesetup)
      ensures this.force_player == force_player && this.numnetnodes == numnetnodes
      ensures numnodes == 1 && nodeaddr[0] == local
    {
      this.force_player, this.numnetnodes, numnodes := force_player, numnetnodes, 1;
      nodeaddr := new Address[MAXNETNODES](i => local);
      nodesetup := new Setup[MAXNETNODES](i => Setup(false, 1, numnetnodes, 0, 0));
    }

    method NodeForAddress(addr: Address) returns (r: int)
      requires Valid()
      ensures -1 <= r < numnodes
      ensures r >= 0 ==> nodeaddr[r] == addr
      ensures r < 0 ==> forall i :: 0 <= i < numnodes ==> nodeaddr[i] != addr
    {
      for i := 0 to numnodes
        invariant forall k :: 0 <= k < i ==> nodeaddr[k] != addr
      {
        if nodeaddr[i] == addr {
          return i;
        }
      }
      return -1;
    }

    /** Records what a setup packet says about its sender: a new entry the first time, an update after
        that. Another machine insisting on our number is an error. */
    method ProcessSetupPacket(addr: Address, setup: Setup, old_protocol: bool) returns (ok: bool)
      requires Valid()
      requires numnodes < MAXNETNODES || exists i :: 0 <= i < numnodes && nodeaddr[i] == addr
      modifies this, nodeaddr, nodesetup
      ensures Valid()
      ensures var s := if old_protocol then setup.(dupwanted := 1, plnumwanted := -1) else setup;
        var known := exists i :: 0 <= i < old(numnodes) && old(nodeaddr[..])[i] == addr;
        && (ok <==> known || force_player == -1 || (!old_protocol && force_player != s.plnumwanted))
        && numnodes == old(numnodes) + (if known then 0 else 1)
        && (forall i :: 0 <= i < old(numnodes) ==> nodeaddr[i] == old(nodeaddr[..])[i])
        && (exists n :: 0 <= n < numnodes && nodeaddr[n] == addr && (ok ==> nodesetup[n] == s))
        && (forall i :: 0 <= i < old(numnodes) && (nodeaddr[i] != addr || !ok) ==> nodesetup[i] == old(nodesetup[..])[i])
    {
      var s := setup;
      if old_protocol {
        s := s.(dupwanted := 1, plnumwanted := -1);
      }
      ghost var known := exists i :: 0 <= i < numnodes && nodeaddr[..][i] == addr;
      var n := NodeForAddress(addr);
      assert known <==> n != -1;
      if n == -1 {
        n := numnodes;
        numnodes := numnodes + 1;
        nodeaddr[n] := addr;
        if force_player != -1 && (old_protocol || force_player == s.plnumwanted) {
          return false;
        }
      }
      nodesetup[n] := s;
      assert nodeaddr[n] == addr;
      return true;
    }

    /** Whether the entries, up to the first that has not found everybody, are as many as we want. */
    method FoundAll() returns (done: bool)
      requires Valid()
      ensures var i := nodesetup[0].nodeswanted;
        done <==>
          (&& 0 <= i <= numnodes
           && (forall k :: 0 <= k < i ==> nodesetup[k].nodesfound == nodesetup[k].nodeswanted)
           && (i < numnodes ==> nodesetup[i].nodesfound != nodesetup[i].nodeswanted))
    {
      var i := 0;
      while i < numnodes
        invariant 0 <= i <= numnodes
        invariant forall k :: 0 <= k < i ==> nodesetup[k].nodesfound == nodesetup[k].nodeswanted
      {
        if nodesetup[i].nodesfound != nodesetup[i].nodeswanted {
          break;
        }
        i := i + 1;
      }
      return i == nodesetup[0].nodeswanted;
    }

    function Players(): (r: seq<Player>)
      requires numnetnodes <= nodeaddr.Length && numnetnodes <= nodesetup.Length
      reads nodeaddr, nodesetup
      ensures |r| == numnetnodes
    {
      seq(numnetnodes, i requires 0 <= i < numnetnodes && numnetnodes <= nodeaddr.Length && numnetnodes <= nodesetup.Length
                         reads nodeaddr, nodesetup =>
        AsPlayer(nodeaddr[i], nodesetup[i]))
    }

    lemma PlayersDistinct()
      requires Valid() && numnetnodes <= numnodes
      ensures DistinctIds(Players())
    {
      forall i, j | 0 <= i < j < numnetnodes ensures Players()[i].id != Players()[j].id {
        MemCmpIsNumeric(nodeaddr[i], nodeaddr[j]);
      }
    }

    /** Who counts: a machine that is no drone and wants no number of its own is numbered automatically, by its address,
        and a number is taken if any machine, drone or not, wants it. */
    lemma PlayersMean(x: int, k: nat)
      requires Valid() && numnetnodes <= numnodes
      ensures x in Autos(Players()) <==>
              exists i :: 0 <= i < numnetnodes && IsAutomatic(nodesetup[i]) && Value(nodeaddr[i]) == x
      ensures k in Claims(Players()) <==> exists i :: 0 <= i < numnetnodes && nodesetup[i].plnumwanted - 1 == k
    {
      forall i | 0 <= i < numnetnodes
        ensures Players()[i].claim == AUTO <==> IsAutomatic(nodesetup[i])
        ensures Players()[i].id == Value(nodeaddr[i])
        ensures Players()[i].claim == k <==> nodesetup[i].plnumwanted - 1 == k
      {
      }
    }

    /** The addresses of the automatic players below ours. */
    ghost function LowerOnes(): set<int>
      requires Valid() && 1 <= numnetnodes <= numnodes
      reads this, nodeaddr, nodesetup
    {
      set i | 0 <= i < numnetnodes && IsAutomatic(nodesetup[i]) && Value(nodeaddr[i]) < Value(nodeaddr[0]) ::
        Value(nodeaddr[i])
    }

    lemma LowerCounts()
      requires Valid() && 1 <= numnetnodes <= numnodes
      ensures Rank(Autos(Players()), Value(nodeaddr[0])) == |LowerOnes()|
    {
      var id := Value(nodeaddr[0]);
      forall x ensures x in LowerOnes() <==> x in Autos(Players()) && x < id { PlayersMean(x, 0); }
      assert LowerOnes() == set y | y in Autos(Players()) && y < id;
    }

    /** The number of the console player: the forced one, or the free number with as many free ones
        before it as there are automatic players with lower addresses. */
    method DetermineConsolePlayer() returns (result: int)
      requires Valid() && 1 <= numnetnodes <= numnodes
      ensures force_player != -1 ==> result == force_player - 1
      ensures force_player == -1 ==> result >= 0
      ensures force_player == -1 ==> IsKthFree(Claims(Players()), |LowerOnes()|, result)
      ensures force_player == -1 ==> forall i :: 0 <= i < numnetnodes ==> nodesetup[i].plnumwanted - 1 != result
      ensures nodesetup[0].plnumwanted == force_player && !nodesetup[0].drone
              && (force_player == -1 || force_player >= 1) ==>
                result >= 0 && HasNumber(Players(), Players()[0], result)
    {
      if force_player != -1 {
        return force_player - 1;
      }
      var cnt := CountLower();
      result := KthUnclaimed(cnt);
      LowerCounts();
      PlayersMean(0, result);
    }

    /** How many automatic players have addresses lower than ours. */
    method CountLower() returns (cnt: nat)
      requires Valid() && 1 <= numnetnodes <= numnodes
      ensures cnt == Rank(Autos(Players()), Value(nodeaddr[0]))
    {
      cnt := 0;
      ghost var table, id := Players(), Value(nodeaddr[0]);
      PlayersDistinct();
      for i := 0 to numnetnodes
        invariant cnt == Rank(Autos(table[..i]), id)
      {
        assert table[..i + 1] == table[..i] + [table[i]];
        AddPlayer(table[..i], table[i]);
        MemCmpIsNumeric(nodeaddr[i], nodeaddr[0]);
        AddRank(Autos(table[..i]), table[i].id, id);
        NotYetThere(table, i);
        if !nodesetup[i].drone && nodesetup[i].plnumwanted == -1 && MemCmp(nodeaddr[i], nodeaddr[0]) < 0 {
          cnt := cnt + 1;
        }
      }
      assert table[..numnetnodes] == table;
    }

    /** Skips forward until landing on a number not claimed by another machine, `skip` times over. */
    method KthUnclaimed(skip: nat) returns (result: nat)
      requires Valid() && numnetnodes <= numnodes
      ensures IsKthFree(Claims(Players()), skip, result)
    {
      ghost var table, claims := Players(), Claims(Players());
      var cnt := skip;
      result := 0;
      while true
        invariant FreeBelow(claims, result) + cnt == skip
        decreases skip + |claims| + 1 - result
      {
        ManyFree(claims, result);
        var i := 0;
        while i < numnetnodes
          invariant 0 <= i <= numnetnodes
          invariant forall k :: 0 <= k < i ==> table[k].claim != result
        {
          if result == nodesetup[i].plnumwanted - 1 {
            break;
          }
          i := i + 1;
        }
        if i < numnetnodes {
          assert table[i].claim == result && result in claims;
          result := result + 1;
          continue;
        }
        if cnt == 0 {
          return result;
        }
        result := result + 1;
        cnt := cnt - 1;
      }
    }
  }

  lemma AddRank(autos: set<int>, new_id: int, id: int)
    ensures Rank(autos + {new_id}, id) == Rank(autos, id) + if new_id < id && new_id !in autos then 1 else 0
  {
    if new_id in autos { assert autos + {new_id} == autos; }
    var a, b := (set y | y in autos && y < id), (set y | y in autos + {new_id} && y < id);
    assert b == if new_id < id then a + {new_id} else a;
  }

  lemma ManyFree(claims: set<int>, k: nat)
    ensures k <= FreeBelow(claims, k) + |claims|
  {
    FreeCount(claims, k);
    SubsetSize((set c | c in claims && 0 <= c < k), claims);
  }
}
