/** Circular buffers that keep one slot free, and the sequences they stand for. */
module Ring {

  /** A slot number brought back into range; for the power of two that n is, by masking. */
  function Wrap(n: nat, i: nat): (r: nat)
    requires i < 2 * n
    ensures r < n
  {
    if i < n then i else i - n
  }

  /** The slots from `tail` up to `head`, going round. */
  function Contents<T>(a: seq<T>, tail: nat, head: nat): (r: seq<T>)
    requires tail < |a| && head < |a|
    ensures |r| == if tail <= head then head - tail else |a| - tail + head
  {
    if tail <= head then a[tail..head] else a[tail..] + a[..head]
  }

  lemma At<T>(a: seq<T>, tail: nat, head: nat, i: nat)
    requires tail < |a| && head < |a| && i < |Contents(a, tail, head)|
    ensures Contents(a, tail, head)[i] == a[Wrap(|a|, tail + i)]
  {
  }

  /** Filling the slot at `head` and moving `head` on appends, unless that slot is the last one free. */
  lemma Push<T>(a: seq<T>, tail: nat, head: nat, x: T)
    requires tail < |a| && head < |a| && Wrap(|a|, head + 1) != tail
    ensures Contents(a[head := x], tail, Wrap(|a|, head + 1)) == Contents(a, tail, head) + [x]
  {
  }

  lemma Pop<T>(a: seq<T>, tail: nat, head: nat)
    requires tail < |a| && head < |a| && tail != head
    ensures Contents(a, tail, head) == [a[tail]] + Contents(a, Wrap(|a|, tail + 1), head)
  {
  }

  /** Full when the slot after `head` is `tail`. */
  lemma Full<T>(a: seq<T>, tail: nat, head: nat)
    requires tail < |a| && head < |a|
    ensures Wrap(|a|, head + 1) == tail <==> |Contents(a, tail, head)| == |a| - 1
    ensures head == tail <==> Contents(a, tail, head) == []
  {
  }

  /** Overwriting the slot before `head` replaces the last element. */
  lemma SetLast<T>(a: seq<T>, tail: nat, head: nat, x: T)
    requires tail < |a| && head < |a| && tail != head
    ensures var r := Contents(a, tail, head);
      Contents(a[Wrap(|a|, head + |a| - 1) := x], tail, head) == r[|r| - 1 := x]
  {
  }

  /** The slot at `head` is not part of the contents. */
  lemma Spare<T>(a: seq<T>, tail: nat, head: nat, x: T)
    requires tail < |a| && head < |a|
    ensures Contents(a[head := x], tail, head) == Contents(a, tail, head)
  {
  }
}
