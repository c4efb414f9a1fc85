/** Packet aggregation: the same packet sent to every node in turn becomes one broadcast. */
module Aggregation {
  import opened Bytes
  import opened DoomNet

  const PENDING_BUFFER_LEN := 512

  datatype Send = Send(node: int, data: seq<byte>)

  /** The packet held back, the number of nodes it is held back for, and what has been passed on. */
  datatype Agg = Agg(pending: seq<byte>, count: nat, sent: seq<Send>)

  const INITIAL := Agg([], 0, [])

  /** The same packet to nodes 1 to k. */
  function ToEach(data: seq<byte>, k: nat): (r: seq<Send>)
    ensures |r| == k && forall i :: 0 <= i < k ==> r[i] == Send(i + 1, data)
  {
    seq(k, i => Send(i + 1, data))
  }

  function Flushed(a: Agg): Agg { a.(count := 0, sent := a.sent + ToEach(a.pending, a.count)) }

  function Passed(a: Agg, node: int, data: seq<byte>): Agg { a.(sent := a.sent + [Send(node, data)]) }

  /** One more node in the sequence; the last makes it a broadcast. */
  function Counted(n: nat, a: Agg): Agg {
    if a.count + 1 == n - 1 then a.(count := 0, sent := a.sent + [Send(MAXNETNODES, a.pending)])
    else a.(count := a.count + 1)
  }

  function Call(n: nat, a: Agg, node: int, data: seq<byte>): Agg {
    if !(0 < node < n) then Passed(a, node, data)
    else if node == 1 then
      if |data| > PENDING_BUFFER_LEN then Passed(Flushed(a), node, data)
      else Counted(n, Flushed(a).(pending := data))
    else if node != a.count + 1 || a.pending != data then Passed(Flushed(a), node, data)
    else Counted(n, a)
  }

  class Aggregator {
    const numnodes: nat
    const buffer: array<byte>
    var bufferLen: nat
    var pendingCount: nat
    var sent: seq<Send>      // the calls made to the driver's own send function

    ghost predicate Valid()
      reads this
    {
      buffer.Length == PENDING_BUFFER_LEN && bufferLen <= buffer.Length
    }

    ghost function Abs(): Agg
      requires Valid()
      reads this, buffer
    {
      Agg(buffer[..bufferLen], pendingCount, sent)
    }

    constructor (n: nat)
      ensures Valid() && Abs() == INITIAL && numnodes == n && fresh(buffer)
    {
      numnodes := n;
      buffer := new byte[PENDING_BUFFER_LEN];
      bufferLen, pendingCount, sent := 0, 0, [];
    }

    method FlushPendingPackets()
      requires Valid()
      modifies `pendingCount, `sent
      ensures Valid() && Abs() == Flushed(old(Abs()))
    {
      ghost var was, all := sent, ToEach(buffer[..bufferLen], pendingCount);
      for i := 0 to pendingCount
        invariant Valid() && pendingCount == old(pendingCount) && sent == was + all[..i]
      {
        sent := sent + [Send(i + 1, buffer[..bufferLen])];
        assert all[..i + 1] == all[..i] + [all[i]];
      }
      assert all[..pendingCount] == all;
      pendingCount := 0;
    }

    /** Whether `data` is the packet held back, by length and then byte by byte. */
    method SameAsPending(data: seq<byte>) returns (same: bool)
      requires Valid()
      ensures same == (buffer[..bufferLen] == data)
    {
      if bufferLen != |data| {
        return false;
      }
      var i := 0;
      while i < |data| && buffer[i] == data[i]
        invariant i <= |data| && buffer[..i] == data[..i]
      {
        i := i + 1;
      }
      same := i == |data|;
    }

    method TryBroadcastStore(node: int, data: seq<byte>) returns (stored: bool)
      requires Valid() && 0 < node < numnodes
      modifies this, buffer
      ensures Valid()
      ensures Call(numnodes, old(Abs()), node, data) == if stored then Abs() else Passed(Abs(), node, data)
    {
      if node == 1 {
        FlushPendingPackets();
        if |data| > PENDING_BUFFER_LEN {
          return false;
        }
        bufferLen := |data|;
        Copy(data);
        pendingCount := 0;
      } else {
        var same := SameAsPending(data);
        if node != pendingCount + 1 || !same {
          FlushPendingPackets();
          return false;
        }
      }
      pendingCount := pendingCount + 1;
      if pendingCount == numnodes - 1 {
        sent := sent + [Send(MAXNETNODES, buffer[..bufferLen])];
        pendingCount := 0;
      }
      stored := true;
    }

    method Copy(data: seq<byte>)
      requires |data| <= buffer.Length
      modifies buffer
      ensures buffer[..|data|] == data
    {
      for i := 0 to |data|
        invariant buffer[..i] == data[..i]
      {
        buffer[i] := data[i];
      }
    }

    method SendPacket(node: int, data: seq<byte>)
      requires Valid()
      modifies this, buffer
      ensures Valid() && Abs() == Call(numnodes, old(Abs()), node, data)
    {
      if 0 < node < numnodes {
        var stored := TryBroadcastStore(node, data);
        if stored {
          return;
        }
      }
      sent := sent + [Send(node, data)];
    }
  }

  // The same as sending directly.

  /** A broadcast reaches every node but the sender itself. */
  function Expand(n: nat, s: Send): seq<Send> {
    if s.node == MAXNETNODES && n > 0 then ToEach(s.data, n - 1) else [s]
  }

  function ExpandAll(n: nat, sends: seq<Send>): seq<Send> {
    if sends == [] then [] else ExpandAll(n, sends[..|sends| - 1]) + Expand(n, sends[|sends| - 1])
  }

  datatype Step = Calls(node: int, data: seq<byte>) | Flush

  function Next(n: nat, a: Agg, s: Step): Agg {
    match s
    case Calls(node, data) => Call(n, a, node, data)
    case Flush => Flushed(a)
  }

  function Run(n: nat, steps: seq<Step>): Agg {
    if steps == [] then INITIAL else Next(n, Run(n, steps[..|steps| - 1]), steps[|steps| - 1])
  }

  function CallsOf(steps: seq<Step>): seq<Send> {
    if steps == [] then [] else
      CallsOf(steps[..|steps| - 1]) +
      match steps[|steps| - 1]
      case Calls(node, data) => [Send(node, data)]
      case Flush => []
  }

  predicate InRange(n: nat, steps: seq<Step>) {
    forall i :: 0 <= i < |steps| ==> (steps[i].Calls? ==> 0 < steps[i].node < n)
  }

  /** Broadcasts written out, then what is held back: exactly the calls, in order. */
  ghost predicate Same(n: nat, a: Agg, calls: seq<Send>) {
    && ExpandAll(n, a.sent) + ToEach(a.pending, a.count) == calls
    && |a.sent| + a.count <= |calls| && (a.count > 0 ==> a.count < n - 1)
  }

  lemma Assoc<T>(x: seq<T>, y: seq<T>, z: seq<T>)
    ensures x + (y + z) == (x + y) + z
  {
  }

  lemma ExpandOne(n: nat, a: seq<Send>, s: Send)
    requires n <= MAXNETNODES && 0 < s.node < n
    ensures ExpandAll(n, a + [s]) == ExpandAll(n, a) + [s]
  {
    assert (a + [s])[..|a|] == a;
  }

  lemma {:induction false} ExpandAppend(n: nat, a: seq<Send>, b: seq<Send>)
    requires n <= MAXNETNODES && forall i :: 0 <= i < |b| ==> 0 < b[i].node < n
    ensures ExpandAll(n, a + b) == ExpandAll(n, a) + b
  {
    if b == [] {
      assert a + b == a;
    } else {
      var front, last := b[..|b| - 1], b[|b| - 1];
      assert b == front + [last];
      ExpandAppend(n, a, front);
      ExpandOne(n, a + front, last);
      Assoc(a, front, [last]);
      Assoc(ExpandAll(n, a), front, [last]);
    }
  }

  lemma FlushSame(n: nat, a: Agg, calls: seq<Send>)
    requires n <= MAXNETNODES && Same(n, a, calls)
    ensures Same(n, Flushed(a), calls)
  {
    ExpandAppend(n, a.sent, ToEach(a.pending, a.count));
  }

  lemma PassSame(n: nat, a: Agg, calls: seq<Send>, node: int, data: seq<byte>)
    requires n <= MAXNETNODES && Same(n, a, calls) && a.count == 0 && 0 < node < n
    ensures Same(n, Passed(a, node, data), calls + [Send(node, data)])
  {
    ExpandAppend(n, a.sent, [Send(node, data)]);
  }

  lemma CountSame(n: nat, a: Agg, calls: seq<Send>)
    requires n <= MAXNETNODES && Same(n, a, calls) && a.count + 1 <= n - 1
    ensures Same(n, Counted(n, a), calls + [Send(a.count + 1, a.pending)])
  {
    assert ToEach(a.pending, a.count + 1) == ToEach(a.pending, a.count) + [Send(a.count + 1, a.pending)];
    if a.count + 1 == n - 1 {
      assert (a.sent + [Send(MAXNETNODES, a.pending)])[..|a.sent|] == a.sent;
    }
  }

  lemma CallSame(n: nat, a: Agg, calls: seq<Send>, node: int, data: seq<byte>)
    requires n <= MAXNETNODES && Same(n, a, calls) && 0 < node < n
    ensures Same(n, Call(n, a, node, data), calls + [Send(node, data)])
  {
    FlushSame(n, a, calls);
    var b := Flushed(a);
    if node == 1 && |data| <= PENDING_BUFFER_LEN {
      assert Same(n, b.(pending := data), calls);
      CountSame(n, b.(pending := data), calls);
    } else if node == 1 || node != a.count + 1 || a.pending != data {
      PassSame(n, b, calls, node, data);
    } else {
      CountSame(n, a, calls);
    }
  }

  /** After any run of calls, what has been passed on, with each broadcast written out, followed by what
      is held back, is exactly the calls in order, and no more has been passed on than was called for. */
  lemma {:induction false} TraceEquivalent(n: nat, steps: seq<Step>)
    requires n <= MAXNETNODES && InRange(n, steps)
    ensures Same(n, Run(n, steps), CallsOf(steps))
  {
    if steps == [] {
    } else {
      var before := steps[..|steps| - 1];
      TraceEquivalent(n, before);
      match steps[|steps| - 1]
      case Calls(node, data) => CallSame(n, Run(n, before), CallsOf(before), node, data);
      case Flush =>
        FlushSame(n, Run(n, before), CallsOf(before));
        assert CallsOf(before) + [] == CallsOf(before);
    }
  }

  /** After a flush nothing is held back: the other nodes have been sent all the calls. */
  lemma FlushedAll(n: nat, steps: seq<Step>)
    requires n <= MAXNETNODES && InRange(n, steps)
    ensures var a := Flushed(Run(n, steps));
      a.count == 0 && ExpandAll(n, a.sent) == CallsOf(steps) && |a.sent| <= |CallsOf(steps)|
  {
    TraceEquivalent(n, steps);
    FlushSame(n, Run(n, steps), CallsOf(steps));
  }

  /** The same packet to each of the other nodes in turn goes out as one broadcast, and nothing else. */
  lemma {:induction false} OneBroadcast(n: nat, a: Agg, data: seq<byte>, k: nat)
    requires |data| <= PENDING_BUFFER_LEN && 1 <= k < n
    ensures CallEach(n, a, data, k) ==
      if k == n - 1 then Agg(data, 0, Flushed(a).sent + [Send(MAXNETNODES, data)]) else Agg(data, k, Flushed(a).sent)
  {
    if k == 1 {
    } else {
      OneBroadcast(n, a, data, k - 1);
    }
  }

  function CallEach(n: nat, a: Agg, data: seq<byte>, k: nat): Agg {
    if k == 0 then a else Call(n, CallEach(n, a, data, k - 1), k, data)
  }

  /** What goes to no other node in particular, to all of them or to this one, goes out at once, before what is held
      back, which stays held back. */
  lemma OthersGoAtOnce(n: nat, a: Agg, node: int, data: seq<byte>)
    requires node <= 0 || node >= n
    ensures Call(n, a, node, data) == Agg(a.pending, a.count, a.sent + [Send(node, data)])
  {
  }

  /** A packet longer than 512 bytes is never held back, and nothing is left behind before it. */
  lemma LongGoAtOnce(n: nat, a: Agg, node: int, data: seq<byte>)
    requires 0 < node < n && |data| > 512 && |a.pending| <= 512
    ensures var r := Call(n, a, node, data);
      r.count == 0 && r.sent == a.sent + ToEach(a.pending, a.count) + [Send(node, data)]
  {
  }
}
