/** metanet: moving the machines that only forward to the end of the table, and when that works. */
module MetaArrange {
  import opened MetaTable

  function Swapped(table: Table, i: nat, p: nat): (r: Table)
    requires i < |table| && p < |table|
    ensures |r| == |table| && r[i] == table[p] && r[p] == table[i]
    ensures forall k :: 0 <= k < |table| && k != i && k != p ==> r[k] == table[k]
  {
    table[i := table[p]][p := table[i]]
  }

  /** The loop from `i` on: a forwarder changes places with entry `p`, which is not looked at again. */
  function Rearranged(table: Table, i: nat, p: nat): (r: Table)
    requires p < |table|
    ensures |r| == |table|
    decreases p - i
  {
    if i >= p then table
    else if table[i].flags.forwarder then Rearranged(Swapped(table, i, p), i + 1, p - 1)
    else Rearranged(table, i + 1, p)
  }

  /** Moves the forwarders to the end of the table, except that it leaves some where they are. */
  method RearrangeNodes(nodes: array<NodeData>, num_nodes: nat)
    requires 1 <= num_nodes <= nodes.Length
    modifies nodes
    ensures nodes[..num_nodes] == Rearranged(old(nodes[..num_nodes]), 1, num_nodes - 1)
    ensures nodes[num_nodes..] == old(nodes[num_nodes..])
  {
    var i, p := 1, num_nodes - 1;
    while i < p
      invariant p < num_nodes
      invariant Rearranged(nodes[..num_nodes], i, p) == Rearranged(old(nodes[..num_nodes]), 1, num_nodes - 1)
      invariant forall k :: num_nodes <= k < nodes.Length ==> nodes[k] == old(nodes[k])
      decreases p - i
    {
      if nodes[i].flags.forwarder {
        ghost var table := nodes[..num_nodes];
        var tmp := nodes[p];
        nodes[p] := nodes[i];
        nodes[i] := tmp;
        assert nodes[..num_nodes] == Swapped(table, i, p);
        p := p - 1;
      }
      i := i + 1;
    }
  }

  lemma SwapKeeps(table: Table, i: nat, p: nat)
    requires i < |table| && p < |table|
    ensures multiset(Swapped(table, i, p)) == multiset(table)
  {
  }

  /** Nobody is lost. */
  lemma {:induction false} SameEntries(table: Table, i: nat, p: nat)
    requires p < |table|
    ensures multiset(Rearranged(table, i, p)) == multiset(table)
    decreases p - i
  {
    if i >= p {
    } else if table[i].flags.forwarder {
      SwapKeeps(table, i, p);
      SameEntries(Swapped(table, i, p), i + 1, p - 1);
    } else {
      SameEntries(table, i + 1, p);
    }
  }

  /** From entry `i` on, no forwarder comes before a player. */
  predicate ForwardersLast(table: Table, i: nat) {
    forall j, k :: i <= j < k < |table| && table[j].flags.forwarder ==> table[k].flags.forwarder
  }

  predicate AllForwarders(table: Table, i: nat, p: nat)
    requires p <= |table|
  {
    forall k :: i <= k < p ==> table[k].flags.forwarder
  }

  lemma {:induction false} RestUntouched(table: Table, i: nat, p: nat)
    requires p < |table|
    ensures forall k :: 0 <= k < |table| && (k < i || k > p) ==> Rearranged(table, i, p)[k] == table[k]
    decreases p - i
  {
    if i >= p {
    } else if table[i].flags.forwarder {
      RestUntouched(Swapped(table, i, p), i + 1, p - 1);
    } else {
      RestUntouched(table, i + 1, p);
    }
  }

  lemma {:induction false} AllStay(table: Table, i: nat, p: nat)
    requires p < |table|
    ensures AllForwarders(Rearranged(table, i, p), i, p + 1) <==> AllForwarders(table, i, p + 1)
    decreases p - i
  {
    RestUntouched(table, i, p);
    if i >= p {
    } else if table[i].flags.forwarder {
      var s := Swapped(table, i, p);
      RestUntouched(s, i + 1, p - 1);
      AllStay(s, i + 1, p - 1);
      OneMoreEach(Rearranged(table, i, p), i, p);
      OneMoreEach(table, i, p);
      SameWithin(s, table, i + 1, p);
    } else {
      RestUntouched(table, i + 1, p);
    }
  }

  lemma OneMoreEach(table: Table, i: nat, p: nat)
    requires i < p < |table|
    ensures AllForwarders(table, i, p + 1) <==>
            table[i].flags.forwarder && AllForwarders(table, i + 1, p) && table[p].flags.forwarder
  {
  }

  /** The loop never swaps two forwarders with a player between them. */
  predicate Works(table: Table, i: nat, p: nat)
    requires p < |table|
    decreases p - i
  {
    if i >= p then true
    else if table[i].flags.forwarder then
      (table[p].flags.forwarder ==> AllForwarders(table, i + 1, p)) && Works(table, i + 1, p - 1)
    else Works(table, i + 1, p)
  }

  lemma {:induction false} WorksWithin(a: Table, b: Table, i: nat, p: nat)
    requires p < |a| == |b| && forall k :: i <= k <= p ==> a[k] == b[k]
    ensures Works(a, i, p) <==> Works(b, i, p)
    decreases p - i
  {
    if i >= p {
    } else if a[i].flags.forwarder {
      WorksWithin(a, b, i + 1, p - 1);
    } else {
      WorksWithin(a, b, i + 1, p);
    }
  }

  lemma {:induction false} ForwardersWork(table: Table, i: nat, p: nat)
    requires p < |table| && AllForwarders(table, i, p + 1)
    ensures Works(table, i, p)
    decreases p - i
  {
    if i >= p {
    } else {
      ForwardersWork(table, i + 1, p - 1);
    }
  }

  /** What is in place from `i` on when entry `i` is in place. */
  lemma LastFrom(r: Table, i: nat)
    requires i < |r|
    ensures ForwardersLast(r, i) <==>
            ForwardersLast(r, i + 1) && (r[i].flags.forwarder ==> AllForwarders(r, i + 1, |r|))
  {
  }

  lemma TailStays(table: Table, i: nat, p: nat)
    requires i < p < |table| && AllForwarders(table, p + 1, |table|) && table[i].flags.forwarder
    ensures AllForwarders(Rearranged(Swapped(table, i, p), i + 1, p - 1), p, |table|)
  {
    var s, r := Swapped(table, i, p), Rearranged(Swapped(table, i, p), i + 1, p - 1);
    RestUntouched(s, i + 1, p - 1);
    forall k | p <= k < |table| ensures r[k].flags.forwarder { assert r[k] == s[k]; }
  }

  lemma EndsInForwarders(r: Table, i: nat, p: nat)
    requires i <= p <= |r| && AllForwarders(r, p, |r|)
    ensures AllForwarders(r, i, |r|) <==> AllForwarders(r, i, p)
  {
  }

  lemma SameWithin(a: Table, b: Table, i: nat, p: nat)
    requires p <= |a| == |b| && forall k :: i <= k < p ==> a[k] == b[k]
    ensures AllForwarders(a, i, p) <==> AllForwarders(b, i, p)
  {
  }

  lemma MiddleStays(table: Table, i: nat, p: nat)
    requires i < p < |table|
    ensures AllForwarders(Rearranged(Swapped(table, i, p), i + 1, p - 1), i + 1, p) <==> AllForwarders(table, i + 1, p)
  {
    AllStay(Swapped(table, i, p), i + 1, p - 1);
    SameWithin(Swapped(table, i, p), table, i + 1, p);
  }

  /** Two forwarders that change places leave the first in front of all the players between them. */
  lemma BothForwarders(table: Table, i: nat, p: nat)
    requires i < p < |table| && AllForwarders(table, p + 1, |table|)
    requires table[i].flags.forwarder && table[p].flags.forwarder
    ensures AllForwarders(Rearranged(Swapped(table, i, p), i + 1, p - 1), i + 1, |table|) <==> AllForwarders(table, i + 1, p)
  {
    MiddleStays(table, i, p);
    TailStays(table, i, p);
    EndsInForwarders(Rearranged(Swapped(table, i, p), i + 1, p - 1), i + 1, p);
  }

  lemma {:induction false} LoopWorks(table: Table, i: nat, p: nat)
    requires p < |table| && i <= p + 1 && AllForwarders(table, p + 1, |table|)
    ensures ForwardersLast(Rearranged(table, i, p), i) <==> Works(table, i, p)
    decreases p - i
  {
    var r := Rearranged(table, i, p);
    RestUntouched(table, i, p);
    if i >= p {
    } else if table[i].flags.forwarder {
      var s := Swapped(table, i, p);
      LoopWorks(s, i + 1, p - 1);
      WorksWithin(s, table, i + 1, p - 1);
      RestUntouched(s, i + 1, p - 1);
      LastFrom(r, i);
      if table[p].flags.forwarder {
        BothForwarders(table, i, p);
        if AllForwarders(table, i + 1, p) { ForwardersWork(table, i + 1, p - 1); }
      }
    } else {
      LoopWorks(table, i + 1, p);
      RestUntouched(table, i + 1, p);
      LastFrom(r, i);
    }
  }

  // The same without following the loop.

  function Forwarders(table: Table, n: nat): (c: nat)
    requires n <= |table|
    ensures c <= if n == 0 then 0 else n - 1
  {
    if n <= 1 then 0 else Forwarders(table, n - 1) + if table[n - 1].flags.forwarder then 1 else 0
  }

  /** The entry that entry `i` changes places with if it is a forwarder: one further from the end for each
      forwarder before it. */
  function Partner(table: Table, i: nat): int
    requires 1 <= i <= |table|
  {
    |table| - 1 - Forwarders(table, i)
  }

  predicate SwapWorks(table: Table, i: nat)
    requires 1 <= i < |table|
  {
    var p := Partner(table, i);
    i < p && table[i].flags.forwarder && table[p].flags.forwarder ==> AllForwarders(table, i + 1, p)
  }

  lemma {:induction false} WorksIff(table: Table, i: nat, p: nat)
    requires 1 <= i <= |table| && p == Partner(table, i) < |table|
    ensures Works(table, i, p) <==> forall j :: i <= j < |table| ==> SwapWorks(table, j)
    decreases p - i
  {
    if i >= p {
      forall j | i <= j < |table| ensures SwapWorks(table, j) { PartnersMeet(table, i, j); }
    } else {
      WorksIff(table, i + 1, Partner(table, i + 1));
      assert (forall j :: i <= j < |table| ==> SwapWorks(table, j)) <==>
             SwapWorks(table, i) && forall j :: i + 1 <= j < |table| ==> SwapWorks(table, j);
    }
  }

  lemma {:induction false} PartnersMeet(table: Table, i: nat, j: nat)
    requires 1 <= i <= j <= |table|
    ensures Partner(table, j) <= Partner(table, i)
  {
    if i == j {
    } else {
      PartnersMeet(table, i, j - 1);
    }
  }

  /** The forwarders end up last if and only if no forwarder's partner is itself a forwarder with a player
      between the two. */
  lemma RearrangedRight(table: Table)
    requires table != []
    ensures ForwardersLast(Rearranged(table, 1, |table| - 1), 1) <==>
            forall i :: 1 <= i < |table| ==> SwapWorks(table, i)
  {
    LoopWorks(table, 1, |table| - 1);
    WorksIff(table, 1, |table| - 1);
  }

  /** A forwarder, a player and a forwarder: a forwarder stays in front of the player. */
  lemma LeftInFront(table: Table)
    requires |table| == 4 && table[1].flags.forwarder && !table[2].flags.forwarder && table[3].flags.forwarder
    ensures Rearranged(table, 1, 3) == [table[0], table[3], table[2], table[1]]
    ensures !ForwardersLast(Rearranged(table, 1, 3), 1)
  {
    var r := Rearranged(table, 1, 3);
    assert r == Rearranged(Swapped(table, 1, 3), 2, 2) == Swapped(table, 1, 3);
    assert r[1].flags.forwarder && !r[2].flags.forwarder;
  }
}
