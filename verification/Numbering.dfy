/** Player numbers that every machine works out for itself from its own table of the players. */
module Numbering {
  import opened Counting

  // The rule all three drivers follow: a claimed number is kept, and the automatic players take the
  // unclaimed numbers in the order of their station IDs.

  /** How many automatic players come before this station ID. */
  function Rank(autos: set<int>, id: int): nat { |set y | y in autos && y < id| }

  /** How many numbers below `k` nobody has claimed. */
  function FreeBelow(claims: set<int>, k: nat): nat {
    if k == 0 then 0 else FreeBelow(claims, k - 1) + if k - 1 in claims then 0 else 1
  }

  /** `k` is the unclaimed number with `r` unclaimed ones before it. */
  predicate IsKthFree(claims: set<int>, r: nat, k: nat) { k !in claims && FreeBelow(claims, k) == r }

  /** A player: station ID, and the number it insists on or -1. */
  datatype Player = Player(id: int, claim: int)

  const AUTO := -1

  function Autos(table: seq<Player>): (s: set<int>)
    ensures forall x :: x in s <==> exists i :: 0 <= i < |table| && table[i].claim == AUTO && table[i].id == x
  {
    set i | 0 <= i < |table| && table[i].claim == AUTO :: table[i].id
  }

  function Claims(table: seq<Player>): (s: set<int>)
    ensures forall x :: x in s <==> exists i :: 0 <= i < |table| && table[i].claim != AUTO && table[i].claim == x
  {
    set i | 0 <= i < |table| && table[i].claim != AUTO :: table[i].claim
  }

  /** The number the rule gives to a player of the table. */
  predicate HasNumber(table: seq<Player>, p: Player, k: nat) {
    if p.claim != AUTO then k == p.claim else IsKthFree(Claims(table), Rank(Autos(table), p.id), k)
  }

  predicate DistinctIds(table: seq<Player>) {
    forall i, j :: 0 <= i < j < |table| ==> table[i].id != table[j].id
  }

  /** A complete table without conflicts: different IDs, different claims, all claims in range. */
  predicate ConflictFree(table: seq<Player>) {
    && DistinctIds(table)
    && (forall i, j :: 0 <= i < j < |table| && table[i].claim != AUTO ==> table[i].claim != table[j].claim)
    && (forall i :: 0 <= i < |table| ==> -1 <= table[i].claim < |table|)
  }

  lemma {:induction false} FreeBelowMonotone(claims: set<int>, a: nat, b: nat)
    requires a < b
    ensures FreeBelow(claims, a) <= FreeBelow(claims, b)
    ensures a !in claims ==> FreeBelow(claims, a) < FreeBelow(claims, b)
  {
    if a == b - 1 {
    } else {
      FreeBelowMonotone(claims, a, b - 1);
    }
  }

  lemma KthFreeUnique(claims: set<int>, r: nat, j: nat, k: nat)
    requires IsKthFree(claims, r, j) && IsKthFree(claims, r, k)
    ensures j == k
  {
    if j < k { FreeBelowMonotone(claims, j, k); }
    if k < j { FreeBelowMonotone(claims, k, j); }
  }

  lemma {:induction false} KthFreeExists(claims: set<int>, r: nat, n: nat) returns (k: nat)
    requires r < FreeBelow(claims, n)
    ensures k < n && IsKthFree(claims, r, k)
  {
    if FreeBelow(claims, n - 1) == r && n - 1 !in claims {
      k := n - 1;
    } else {
      k := KthFreeExists(claims, r, n - 1);
    }
  }

  /** Of the first n numbers, those not claimed are free. */
  lemma {:induction false} FreeCount(claims: set<int>, n: nat)
    ensures FreeBelow(claims, n) + |set c | c in claims && 0 <= c < n| == n
  {
    var low := set c | c in claims && 0 <= c < n;
    if n == 0 {
    } else {
      FreeCount(claims, n - 1);
      var lower := set c | c in claims && 0 <= c < n - 1;
      assert low == if n - 1 in claims then lower + {n - 1} else lower;
    }
  }

  lemma AddPlayer(s: seq<Player>, p: Player)
    ensures Autos(s + [p]) == if p.claim == AUTO then Autos(s) + {p.id} else Autos(s)
    ensures Claims(s + [p]) == if p.claim == AUTO then Claims(s) else Claims(s) + {p.claim}
  {
    var t := s + [p];
    assert t[|s|] == p && forall i :: 0 <= i < |s| ==> t[i] == s[i];
  }

  lemma {:induction false} AutosAndClaims(table: seq<Player>, n: nat)
    requires n <= |table| && ConflictFree(table)
    ensures |Autos(table[..n])| + |Claims(table[..n])| == n
  {
    if n == 0 {
    } else {
      AutosAndClaims(table, n - 1);
      var s, p := table[..n - 1], table[n - 1];
      assert table[..n] == s + [p];
      AddPlayer(s, p);
      NotYetThere(table, n - 1);
      OneMore(Autos(s), Claims(s), Autos(s + [p]), Claims(s + [p]), p);
    }
  }

  lemma OneMore(autos: set<int>, claims: set<int>, autos': set<int>, claims': set<int>, p: Player)
    requires if p.claim == AUTO then p.id !in autos && autos' == autos + {p.id} && claims' == claims
             else p.claim !in claims && autos' == autos && claims' == claims + {p.claim}
    ensures |autos'| + |claims'| == |autos| + |claims| + 1
  {
  }

  lemma NotYetThere(table: seq<Player>, n: nat)
    requires n < |table| && DistinctIds(table)
    ensures table[n].id !in Autos(table[..n])
    ensures ConflictFree(table) && table[n].claim != AUTO ==> table[n].claim !in Claims(table[..n])
  {
  }

  lemma RankMonotone(autos: set<int>, a: int, b: int)
    requires a < b
    ensures Rank(autos, a) <= Rank(autos, b) <= |autos|
    ensures a in autos ==> Rank(autos, a) < Rank(autos, b)
  {
    var below := set y | y in autos && y < a;
    SubsetSize(below, (set y | y in autos && y < b));
    SubsetSize((set y | y in autos && y < b), autos);
    if a in autos { SubsetSize(below + {a}, (set y | y in autos && y < b)); }
  }

  lemma RankBound(autos: set<int>, a: int)
    requires a in autos
    ensures Rank(autos, a) < |autos|
  {
    SubsetSize((set y | y in autos && y < a) + {a}, autos);
  }

  /** Every number below their count is the rank of one of the automatic players. */
  lemma {:induction false} RankOnto(autos: set<int>, k: nat) returns (a: int)
    requires k < |autos|
    ensures a in autos && Rank(autos, a) == k
  {
    var top := Largest(autos);
    var rest := autos - {top};
    if k == |rest| {
      a := top;
      assert (set y | y in autos && y < top) == rest;
    } else {
      a := RankOnto(rest, k);
      assert (set y | y in rest && y < a) == (set y | y in autos && y < a);
    }
  }

  lemma PlayerOfRank(table: seq<Player>, r: nat) returns (j: nat)
    requires r < |Autos(table)|
    ensures j < |table| && table[j].claim == AUTO && Rank(Autos(table), table[j].id) == r
  {
    var id := RankOnto(Autos(table), r);
    j :| 0 <= j < |table| && table[j].claim == AUTO && table[j].id == id;
  }

  lemma {:induction false} Largest(s: set<int>) returns (m: int)
    requires s != {}
    ensures m in s && forall y :: y in s ==> y <= m
  {
    m := Pick(s);
    if s == {m} {
    } else {
      var rest := s - {m};
      assert s == rest + {m} && rest != {};
      var n := Largest(rest);
      if n > m { m := n; }
    }
  }

  /** With no claims at all, the rank is the number. */
  lemma {:induction false} AllFree(claims: set<int>, k: nat)
    requires forall c :: c in claims ==> c < 0
    ensures IsKthFree(claims, k, k)
  {
    if k == 0 {
    } else {
      AllFree(claims, k - 1);
    }
  }

  /** There are as many free numbers as automatic players. */
  lemma EnoughFree(table: seq<Player>)
    requires ConflictFree(table)
    ensures FreeBelow(Claims(table), |table|) == |Autos(table)|
  {
    var n := |table|;
    assert table[..n] == table;
    AutosAndClaims(table, n);
    FreeCount(Claims(table), n);
    assert (set c | c in Claims(table) && 0 <= c < n) == Claims(table);
  }

  /** Every player gets a number below the number of players. */
  lemma NumberExists(table: seq<Player>, i: nat) returns (k: nat)
    requires ConflictFree(table) && i < |table|
    ensures k < |table| && HasNumber(table, table[i], k)
  {
    if table[i].claim != AUTO {
      k := table[i].claim;
    } else {
      assert table[i].id in Autos(table);
      RankBound(Autos(table), table[i].id);
      EnoughFree(table);
      k := KthFreeExists(Claims(table), Rank(Autos(table), table[i].id), |table|);
    }
  }

  /** And no two the same. */
  lemma NumbersDiffer(table: seq<Player>, i: nat, j: nat, k: nat)
    requires ConflictFree(table) && i < j < |table|
    requires HasNumber(table, table[i], k)
    ensures !HasNumber(table, table[j], k)
  {
    var p, q := table[i], table[j];
    if p.claim == AUTO && q.claim == AUTO {
      assert p.id in Autos(table) && q.id in Autos(table);
      if p.id < q.id { RankMonotone(Autos(table), p.id, q.id); } else { RankMonotone(Autos(table), q.id, p.id); }
    } else if p.claim != AUTO {
      assert p.claim in Claims(table);
    } else {
      assert q.claim in Claims(table);
    }
  }

  /** Tables with the same players, in whatever order, number them the same way. */
  lemma OrderDoesNotMatter(a: seq<Player>, b: seq<Player>, p: Player, j: nat, k: nat)
    requires Elements(a) == Elements(b)
    requires HasNumber(a, p, j) && HasNumber(b, p, k)
    ensures j == k
  {
    SamePlayersSameSets(a, b);
    if p.claim == AUTO { KthFreeUnique(Claims(a), Rank(Autos(a), p.id), j, k); }
  }

  lemma MorePlayers(a: seq<Player>, b: seq<Player>)
    requires Elements(a) <= Elements(b)
    ensures Autos(a) <= Autos(b) && Claims(a) <= Claims(b)
  {
    forall i | 0 <= i < |a| ensures a[i].id in Autos(b) || a[i].claim != AUTO {
      assert a[i] in Elements(a) && a[i] in b;
    }
    forall i | 0 <= i < |a| ensures a[i].claim in Claims(b) || a[i].claim == AUTO {
      assert a[i] in Elements(a) && a[i] in b;
    }
  }

  lemma SamePlayersSameSets(a: seq<Player>, b: seq<Player>)
    requires Elements(a) == Elements(b)
    ensures Autos(a) == Autos(b) && Claims(a) == Claims(b)
  {
    MorePlayers(a, b);
    MorePlayers(b, a);
  }

  /** So machines that each number themselves from their own table agree: with the numbers they get,
      the players are exactly 0 .. n-1, each once, and every claim is honoured. */
  lemma Agreement(tables: seq<seq<Player>>, numbers: seq<nat>)
    requires |numbers| == |tables|
    requires forall m :: 0 <= m < |tables| ==> |tables[m]| == |tables| && ConflictFree(tables[m])
    requires forall m :: 0 <= m < |tables| ==> HasNumber(tables[m], tables[m][0], numbers[m])
    requires forall m, l :: 0 <= m < l < |tables| ==>
      && Elements(tables[m]) == Elements(tables[l])
      && tables[m][0] != tables[l][0]
    ensures Distinct(numbers)
    ensures forall k :: 0 <= k < |numbers| <==> k in numbers
    ensures forall m :: 0 <= m < |tables| && tables[m][0].claim != AUTO ==> numbers[m] == tables[m][0].claim
  {
    forall m | 0 <= m < |tables| ensures numbers[m] < |tables| {
      var k := NumberExists(tables[m], 0);
      OrderDoesNotMatter(tables[m], tables[m], tables[m][0], k, numbers[m]);
    }
    forall m, l | 0 <= m < l < |tables| ensures numbers[m] != numbers[l] {
      var a, b := tables[m], tables[l];
      SamePlayersSameSets(a, b);
      assert a[0] in Elements(a);
      var i :| 0 <= i < |b| && b[i] == a[0];
      if numbers[m] == numbers[l] { NumbersDiffer(b, 0, i, numbers[l]); }
    }
    Pigeonhole(numbers, |numbers|);
  }
}
