/** What becomes of a packet on the wire when one of its bytes is not read. */
module SirLoss {
  import opened Bytes
  import opened DoomNet
  import opened Escaping
  import opened Sequences
  import opened SirFraming

  function Without(wire: seq<byte>, k: nat): seq<byte>
    requires k < |wire|
  {
    wire[..k] + wire[k + 1..]
  }

  /** The byte of the packet that byte k of its escaped form stands for. */
  function SourceOf(p: seq<byte>, k: nat): (i: nat)
    requires k < |Escaped(p)|
    ensures i < |p|
    decreases |p|
  {
    if k < |Escape(p[0])| then 0 else 1 + SourceOf(p[1..], k - |Escape(p[0])|)
  }

  /** The first byte from i on that is not a FRAMECHAR, or the length of the packet. */
  function NextPlain(p: seq<byte>, i: nat): (j: nat)
    requires i <= |p|
    ensures i <= j <= |p| && (j < |p| ==> p[j] != FRAMECHAR) && forall m :: i <= m < j ==> p[m] == FRAMECHAR
    decreases |p| - i
  {
    if i == |p| || p[i] != FRAMECHAR then i else NextPlain(p, i + 1)
  }

  /** What is heard of a packet of which the escape of byte i has lost a byte: nothing, unless that was half
      a FRAMECHAR and the next other byte is one that may follow an escape. */
  function HeardWithout(p: seq<byte>, i: nat): seq<Heard>
    requires i < |p|
  {
    var j := NextPlain(p, i);
    if p[i] == FRAMECHAR && j < |p| && IsTerminator(p[j]) then [Ended(p[..i] + p[i + 1..j], p[j])] else []
  }

  /** What is left of the escape of a byte when it has lost one. */
  function Half(c: byte): seq<byte> { if c == FRAMECHAR then [FRAMECHAR] else [] }

  lemma WithoutFirst(c: byte, rest: seq<byte>, k: nat)
    requires k < |Escape(c)|
    ensures Without(Escape(c) + rest, k) == Half(c) + rest
  {
  }

  lemma WithoutRest(first: seq<byte>, rest: seq<byte>, k: nat)
    requires k < |rest|
    ensures Without(first + rest, |first| + k) == first + Without(rest, k)
  {
  }

  /** An escaped packet without one byte is the escape of what is before, what is left of one escape, and
      the escape of what comes after. */
  predicate Splits(p: seq<byte>, k: nat, i: nat)
    requires k < |Escaped(p)| && i < |p|
  {
    Without(Escaped(p), k) == Escaped(p[..i]) + (Half(p[i]) + Escaped(p[i + 1..]))
  }

  lemma SplitsFirst(p: seq<byte>, k: nat)
    requires p != [] && k < |Escape(p[0])|
    ensures k < |Escaped(p)| && Splits(p, k, 0)
  {
    WithoutFirst(p[0], Escaped(p[1..]), k);
    assert p[..0] == [] && Escaped(p[..0]) == [];
    NothingAdded(Half(p[0]) + Escaped(p[1..]));
  }

  lemma SplitsRest(p: seq<byte>, k: nat, i: nat)
    requires p != [] && k < |Escaped(p[1..])| && i + 1 < |p| && Splits(p[1..], k, i)
    ensures |Escape(p[0])| + k < |Escaped(p)| && Splits(p, |Escape(p[0])| + k, i + 1)
  {
    WithoutRest(Escape(p[0]), Escaped(p[1..]), k);
    PutBack(p, i);
    assert p[1..][i] == p[i + 1];
  }

  lemma {:induction false} WithoutSplits(p: seq<byte>, k: nat)
    requires k < |Escaped(p)|
    ensures Splits(p, k, SourceOf(p, k))
    decreases |p|
  {
    var n := |Escape(p[0])|;
    if k < n {
      SplitsFirst(p, k);
    } else {
      WithoutSplits(p[1..], k - n);
      SplitsRest(p, k - n, SourceOf(p[1..], k - n));
    }
  }

  lemma FirstOfPrefix(p: seq<byte>, i: nat)
    requires i + 1 <= |p|
    ensures Escaped(p[..i + 1]) == Escape(p[0]) + Escaped(p[1..][..i])
  {
    assert p[..i + 1][1..] == p[1..][..i];
  }

  lemma PutBack(p: seq<byte>, i: nat)
    requires i + 1 < |p|
    ensures var q := p[1..];
      Escape(p[0]) + (Escaped(q[..i]) + (Half(q[i]) + Escaped(q[i + 1..]))) ==
        Escaped(p[..i + 1]) + (Half(p[i + 1]) + Escaped(p[i + 2..]))
  {
    var q := p[1..];
    assert q[i + 1..] == p[i + 2..];
    FirstOfPrefix(p, i);
    Associative(Escape(p[0]), Escaped(q[..i]), Half(q[i]) + Escaped(q[i + 1..]));
  }

  lemma HearPair(data: seq<byte>)
    requires |data| < PACKET_MAX
    ensures Hear(Rx(true, data), Escape(FRAMECHAR)) == (Rx(true, data + [FRAMECHAR]), [])
  {
    HearTwo(Rx(true, data), FRAMECHAR, FRAMECHAR);
    NothingAdded(Said(Nothing));
  }

  /** After half an escape the FRAMECHARs that follow are still gathered, each pair one half late. */
  lemma {:induction false} HearLate(data: seq<byte>, p: seq<byte>)
    requires |data| + |p| <= PACKET_MAX && forall m :: 0 <= m < |p| ==> p[m] == FRAMECHAR
    ensures Hear(Rx(true, data), Escaped(p)) == (Rx(true, data + p), [])
    decreases |p|
  {
    if p == [] {
      NothingAdded(data);
    } else {
      HearPair(data);
      HearLate(data + [FRAMECHAR], p[1..]);
      HearAppend(Rx(true, data), Escape(p[0]), Escaped(p[1..]));
      OneAndRest(p);
      Associative(data, [p[0]], p[1..]);
    }
  }

  /** A byte that is no FRAMECHAR after half an escape, and what follows. */
  lemma HearPlain(data: seq<byte>, c: byte, rest: seq<byte>)
    requires |data| + |rest| <= PACKET_MAX && c != FRAMECHAR
    ensures Hear(Rx(true, data), [c] + Escaped(rest)).1 == if IsTerminator(c) then [Ended(data, c)] else []
  {
    var h := RxByte(Rx(true, data), c).1;
    HearByte(Rx(true, data), c);
    HearEscaped(RxByte(Rx(true, data), c).0.data, rest);
    HearAppend(Rx(true, data), [c], Escaped(rest));
    NothingAdded(Said(h));
  }

  lemma SplitAt(p: seq<byte>, j: nat)
    requires j < |p| && p[j] != FRAMECHAR
    ensures Escaped(p) == Escaped(p[..j]) + ([p[j]] + Escaped(p[j + 1..]))
  {
    assert p == p[..j] + p[j..];
    EscapedAppend(p[..j], p[j..]);
    EscapedFrom(p, j);
  }

  /** The rest of a packet after half an escape. */
  lemma HearRest(data: seq<byte>, p: seq<byte>)
    requires |data| + |p| <= PACKET_MAX
    ensures var j := NextPlain(p, 0);
      Hear(Rx(true, data), Escaped(p)).1 == if j < |p| && IsTerminator(p[j]) then [Ended(data + p[..j], p[j])] else []
  {
    var j := NextPlain(p, 0);
    HearLate(data, p[..j]);
    if j == |p| {
      assert p[..j] == p;
    } else {
      SplitAt(p, j);
      HearPlain(data + p[..j], p[j], p[j + 1..]);
      HearAppend(Rx(true, data), Escaped(p[..j]), [p[j]] + Escaped(p[j + 1..]));
      NothingAdded(Hear(Rx(true, data + p[..j]), [p[j]] + Escaped(p[j + 1..])).1);
    }
  }

  /** Exactly what is heard of a packet of which any one byte is not read. */
  lemma OneByteUnread(p: seq<byte>, k: nat)
    requires |p| <= PACKET_MAX && k < |Escaped(p)|
    ensures Hear(CLEAN, Without(Escaped(p), k)).1 == HeardWithout(p, SourceOf(p, k))
  {
    var i := SourceOf(p, k);
    WithoutSplits(p, k);
    HearEscaped([], p[..i]);
    assert [] + p[..i] == p[..i];
    var clean, half, rest := Rx(false, p[..i]), Half(p[i]), Escaped(p[i + 1..]);
    HearAppend(CLEAN, Escaped(p[..i]), half + rest);
    if p[i] == FRAMECHAR {
      HearByte(clean, FRAMECHAR);
      HearAppend(clean, [FRAMECHAR], rest);
      HearRest(p[..i], p[i + 1..]);
      ShiftPlain(p, i);
    } else {
      assert half + rest == rest;
      HearEscaped(p[..i], p[i + 1..]);
    }
  }

  lemma {:induction false} PlainFrom(p: seq<byte>, i: nat, n: nat)
    requires i + n <= |p|
    ensures NextPlain(p, i + n) == i + NextPlain(p[i..], n)
    decreases |p| - n
  {
    if i + n < |p| && p[i + n] == FRAMECHAR {
      PlainFrom(p, i, n + 1);
    } else {
      assert i + n < |p| ==> p[i..][n] == p[i + n];
    }
  }

  lemma ShiftPlain(p: seq<byte>, i: nat)
    requires i < |p| && p[i] == FRAMECHAR
    ensures NextPlain(p, i) == i + 1 + NextPlain(p[i + 1..], 0)
    ensures var j := NextPlain(p, i); p[i + 1..][..j - i - 1] == p[i + 1..j]
  {
    PlainFrom(p, i + 1, 0);
  }

  /** An unread byte makes a handoff to a player out of a packet if and only if it is half a FRAMECHAR and
      the next byte of the packet that is not a FRAMECHAR is the code of that handoff. */
  lemma ForgesHandoff(p: seq<byte>, k: nat, q: nat)
    requires |p| <= PACKET_MAX && k < |Escaped(p)| && q < MAXNETNODES
    ensures var i := SourceOf(p, k);
      var j := NextPlain(p, i);
      (exists h :: h in Hear(CLEAN, Without(Escaped(p), k)).1 && h.code as int == HANDOFF_BASE as int + q)
        <==> p[i] == FRAMECHAR && j < |p| && p[j] as int == HANDOFF_BASE as int + q
  {
    OneByteUnread(p, k);
    var i := SourceOf(p, k);
    var hs := HeardWithout(p, i);
    if hs != [] { assert hs[0] in hs; }
  }
}
