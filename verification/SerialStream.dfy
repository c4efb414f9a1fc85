/** The sersetup protocol as a stream of bytes: packets written, queued, on the line, queued again and
    read, in whatever pieces. */
module SerialStream {
  import opened Bytes
  import opened Escaping
  import opened Sequences
  import opened Wrappers

  const QUESIZE := 2048

  // Reading.

  /** One byte of the parser: any byte but a FRAMECHAR after a FRAMECHAR ends the packet. */
  function DecByte(rx: Rx, c: byte): (Rx, Option<seq<byte>>) {
    if rx.inEscape then
      if c != FRAMECHAR then (CLEAN, Some(rx.data)) else (Rx(false, AddInByte(rx.data, c)), None)
    else if c == FRAMECHAR then (Rx(true, rx.data), None)
    else (Rx(false, AddInByte(rx.data, c)), None)
  }

  /** Bytes are parsed up to the end of a packet, or all of them. */
  function Scan(rx: Rx, s: seq<byte>): (r: (Rx, seq<byte>, Option<seq<byte>>))
    ensures r.2.None? ==> r.1 == []
    decreases |s|
  {
    if s == [] then (rx, [], None)
    else
      var (next, done) := DecByte(rx, s[0]);
      if done.Some? then (next, s[1..], done) else Scan(next, s[1..])
  }

  /** A call that finds the queue nearly full throws it all out. */
  predicate Overflown(s: seq<byte>) { |s| > QUESIZE - 4 }

  function ReadFrom(rx: Rx, s: seq<byte>): (Rx, seq<byte>, Option<seq<byte>>) {
    if Overflown(s) then (Rx(rx.inEscape, []), [], None) else Scan(rx, s)
  }

  /** All the packets in a stream, and the parser's state at its end. */
  function Decode(rx: Rx, s: seq<byte>): (Rx, seq<seq<byte>>)
    decreases |s|
  {
    if s == [] then (rx, [])
    else
      var (next, done) := DecByte(rx, s[0]);
      var (after, ps) := Decode(next, s[1..]);
      (after, Came(done) + ps)
  }

  function Came(done: Option<seq<byte>>): seq<seq<byte>> {
    if done.Some? then [done.value] else []
  }

  lemma {:induction false} DecodeAppend(rx: Rx, a: seq<byte>, b: seq<byte>)
    ensures Decode(rx, a + b).0 == Decode(Decode(rx, a).0, b).0
    ensures Decode(rx, a + b).1 == Decode(rx, a).1 + Decode(Decode(rx, a).0, b).1
    decreases |a|
  {
    if a == [] {
      assert a + b == b;
    } else {
      assert (a + b)[1..] == a[1..] + b && (a + b)[0] == a[0];
      DecodeAppend(DecByte(rx, a[0]).0, a[1..], b);
    }
  }

  lemma DecodeByte(rx: Rx, c: byte)
    ensures Decode(rx, [c]) == (DecByte(rx, c).0, Came(DecByte(rx, c).1))
  {
    var (next, done) := DecByte(rx, c);
    assert [c][1..] == [] && Decode(next, []) == (next, []);
    assert Came(done) + [] == Came(done);
  }

  lemma DecodeTwo(rx: Rx, c: byte, d: byte)
    ensures var (mid, x) := DecByte(rx, c); var (last, y) := DecByte(mid, d);
      Decode(rx, [c, d]) == (last, Came(x) + Came(y))
  {
    DecodeByte(DecByte(rx, c).0, d);
    assert [c, d][1..] == [d];
  }

  /** Reading as far as the next packet takes that packet from what the whole stream decodes to. */
  lemma {:induction false} ScanDecode(rx: Rx, s: seq<byte>, rest: seq<byte>)
    ensures var (next, left, done) := Scan(rx, s);
      && Decode(rx, s + rest).0 == Decode(next, left + rest).0
      && Decode(rx, s + rest).1 == Came(done) + Decode(next, left + rest).1
    decreases |s|
  {
    if s == [] {
      assert s + rest == [] + rest;
    } else {
      assert (s + rest)[1..] == s[1..] + rest && (s + rest)[0] == s[0];
      ScanDecode(DecByte(rx, s[0]).0, s[1..], rest);
    }
  }

  // Writing.

  function Frame(p: seq<byte>): seq<byte> { Escaped(p) + [FRAMECHAR, 0] }

  /** A packet too long is not written; one that does not fit in the queue takes everybody's place. */
  function WriteTo(out: seq<byte>, p: seq<byte>): seq<byte> {
    if |p| > PACKET_MAX then out
    else if |out| + |Frame(p)| > QUESIZE then Frame(p) else out + Frame(p)
  }

  function StreamOf(ps: seq<seq<byte>>): seq<byte> {
    if ps == [] then [] else Frame(ps[0]) + StreamOf(ps[1..])
  }

  predicate Short(ps: seq<seq<byte>>) { forall i :: 0 <= i < |ps| ==> |ps[i]| <= PACKET_MAX }

  function Cap(data: seq<byte>): seq<byte> {
    if |data| <= PACKET_MAX then data else data[..PACKET_MAX]
  }

  /** From a state between escapes, an escaped packet just adds to the data, as far as it fits. */
  lemma {:induction false} DecodeEscaped(data: seq<byte>, p: seq<byte>)
    requires |data| <= PACKET_MAX
    ensures Decode(Rx(false, data), Escaped(p)) == (Rx(false, Cap(data + p)), [])
    decreases |p|
  {
    if p == [] {
      assert data + p == data;
    } else {
      DecodeOne(data, p[0]);
      var more := AddInByte(data, p[0]);
      DecodeEscaped(more, p[1..]);
      DecodeAppend(Rx(false, data), Escape(p[0]), Escaped(p[1..]));
      CapAdd(data, p);
    }
  }

  lemma CapAdd(data: seq<byte>, p: seq<byte>)
    requires p != [] && |data| <= PACKET_MAX
    ensures Cap(AddInByte(data, p[0]) + p[1..]) == Cap(data + p)
  {
    assert |data| < PACKET_MAX ==> data + p == (data + [p[0]]) + p[1..];
  }

  lemma DecodeOne(data: seq<byte>, c: byte)
    ensures Decode(Rx(false, data), Escape(c)) == (Rx(false, AddInByte(data, c)), [])
  {
    assert Came(None) + Came(None) == [];
    if c == FRAMECHAR { DecodeTwo(Rx(false, data), c, c); } else { DecodeByte(Rx(false, data), c); }
  }

  /** From there, a frame gives exactly one packet and leaves the parser clean. */
  lemma DecodeFrame(data: seq<byte>, p: seq<byte>)
    requires |data| <= PACKET_MAX
    ensures Decode(Rx(false, data), Frame(p)) == (CLEAN, [Cap(data + p)])
  {
    var all := Cap(data + p);
    DecodeEscaped(data, p);
    DecodeAppend(Rx(false, data), Escaped(p), [FRAMECHAR, 0]);
    DecodeTwo(Rx(false, all), FRAMECHAR, 0);
    assert [] + (Came(None) + Came(Some(all))) == [all];
  }

  lemma {:induction false} DecodeStream(ps: seq<seq<byte>>)
    requires Short(ps)
    ensures Decode(CLEAN, StreamOf(ps)) == (CLEAN, ps)
  {
    if ps == [] {
    } else {
      DecodeFrame([], ps[0]);
      assert [] + ps[0] == ps[0];
      DecodeStream(ps[1..]);
      DecodeAppend(CLEAN, Frame(ps[0]), StreamOf(ps[1..]));
      assert ps == [ps[0]] + ps[1..];
    }
  }

  // Any interleaving.

  /** Where everything is: bytes to send, on the line, and received; the parser; packets written and read. */
  datatype World = World(out: seq<byte>, line: seq<byte>, received: seq<byte>, rx: Rx,
                         written: seq<seq<byte>>, read: seq<seq<byte>>)

  datatype Step = Write(p: seq<byte>) | Transmit | Receive | Read

  /** Whether a step is possible without any of the overflow rules coming into play. */
  predicate Enabled(w: World, s: Step) {
    match s
    case Write(p) => |p| <= PACKET_MAX ==> |w.out| + |Frame(p)| <= QUESIZE
    case Transmit => true
    case Receive => w.line != [] && |w.received| != QUESIZE - 1
    case Read => |w.received| <= 2044
  }

  /** A block of at most 16 bytes is taken for the transmitter. */
  function BlockLen(out: seq<byte>): nat { if |out| < TX_BUFFER then |out| else TX_BUFFER }

  function Next(w: World, s: Step): World
    requires Enabled(w, s)
  {
    match s
    case Write(p) => w.(out := WriteTo(w.out, p), written := w.written + if |p| <= PACKET_MAX then [p] else [])
    case Transmit => w.(out := w.out[BlockLen(w.out)..], line := w.line + w.out[..BlockLen(w.out)])
    case Receive => w.(line := w.line[1..], received := w.received + [w.line[0]])
    case Read =>
      var (rx, left, done) := ReadFrom(w.rx, w.received);
      w.(rx := rx, received := left, read := w.read + Came(done))
  }

  /** All the bytes not parsed yet. */
  function Pending(w: World): seq<byte> { w.received + w.line + w.out }

  /** What has been read, and what the bytes still about will decode to, is what was written. */
  ghost predicate Inv(w: World) {
    var (rx, ps) := Decode(w.rx, Pending(w));
    rx == CLEAN && w.read + ps == w.written && |w.rx.data| <= PACKET_MAX
  }

  lemma StepKeeps(w: World, s: Step)
    requires Inv(w) && Enabled(w, s)
    ensures Inv(Next(w, s))
  {
    match s
    case Write(p) => if |p| <= PACKET_MAX { WriteKeeps(w, p); }
    case Transmit =>
      assert w.out == w.out[..BlockLen(w.out)] + w.out[BlockLen(w.out)..];
      assert Pending(Next(w, s)) == Pending(w);
    case Receive =>
      assert w.line == [w.line[0]] + w.line[1..];
      assert Pending(Next(w, s)) == Pending(w);
    case Read => ReadKeeps(w);
  }

  lemma WriteKeeps(w: World, p: seq<byte>)
    requires Inv(w) && Enabled(w, Write(p)) && |p| <= PACKET_MAX
    ensures Inv(Next(w, Write(p)))
  {
    var (rx, ps) := Decode(w.rx, Pending(w));
    DecodeAppend(w.rx, Pending(w), Frame(p));
    DecodeFrame([], p);
    assert [] + p == p;
    assert Pending(Next(w, Write(p))) == Pending(w) + Frame(p);
    assert w.read + (ps + [p]) == (w.read + ps) + [p];
  }

  lemma {:induction false} ScanShort(rx: Rx, s: seq<byte>)
    requires |rx.data| <= PACKET_MAX
    ensures |Scan(rx, s).0.data| <= PACKET_MAX
    decreases |s|
  {
    if s == [] {
    } else {
      ScanShort(DecByte(rx, s[0]).0, s[1..]);
    }
  }

  lemma ReadKeeps(w: World)
    requires Inv(w) && Enabled(w, Read)
    ensures Inv(Next(w, Read))
  {
    var r := Next(w, Read);
    var rest := w.line + w.out;
    var (next, left, done) := Scan(w.rx, w.received);
    ScanDecode(w.rx, w.received, rest);
    ScanShort(w.rx, w.received);
    assert Pending(w) == w.received + rest && Pending(r) == left + rest;
    assert w.read + (Came(done) + Decode(next, left + rest).1) == (w.read + Came(done)) + Decode(next, left + rest).1;
  }

  ghost predicate Possible(w: World, steps: seq<Step>)
    decreases |steps|
  {
    steps == [] || (Enabled(w, steps[0]) && Possible(Next(w, steps[0]), steps[1..]))
  }

  function Run(w: World, steps: seq<Step>): World
    requires Possible(w, steps)
    decreases |steps|
  {
    if steps == [] then w else Run(Next(w, steps[0]), steps[1..])
  }

  lemma {:induction false} RunKeeps(w: World, steps: seq<Step>)
    requires Inv(w) && Possible(w, steps)
    ensures Inv(Run(w, steps))
    decreases |steps|
  {
    if steps == [] {
    } else {
      StepKeeps(w, steps[0]);
      RunKeeps(Next(w, steps[0]), steps[1..]);
    }
  }

  const START := World([], [], [], CLEAN, [], [])

  /** However the bytes are cut up, the packets read are at every moment the first ones written, in order,
      and when no bytes are left they are all of them. */
  lemma StreamCorrect(steps: seq<Step>)
    requires Possible(START, steps)
    ensures var w := Run(START, steps);
      && |w.read| <= |w.written| && w.read == w.written[..|w.read|]
      && (Pending(w) == [] ==> w.read == w.written)
  {
    assert Decode(CLEAN, Pending(START)) == (CLEAN, []);
    RunKeeps(START, steps);
  }

  // What is thrown out, and what is not.

  /** With at most 2044 bytes waiting a call loses nothing of what has arrived: the packet it returns and the
      packets in what it leaves are those there were. With more it returns none, and all that was waiting is lost. */
  lemma ReadLoses(rx: Rx, s: seq<byte>, rest: seq<byte>)
    ensures var (next, left, done) := ReadFrom(rx, s);
      if |s| <= 2044 then
        Decode(rx, s + rest) == (Decode(next, left + rest).0, Came(done) + Decode(next, left + rest).1)
      else next == Rx(rx.inEscape, []) && left == [] && done == None
  {
    ScanDecode(rx, s, rest);
  }

  lemma {:induction false} ScanEscaped(data: seq<byte>, p: seq<byte>, t: seq<byte>)
    requires |data| + |p| <= PACKET_MAX
    ensures Scan(Rx(false, data), Escaped(p) + t) == Scan(Rx(false, data + p), t)
    decreases |p|
  {
    if p == [] {
      NothingAdded(t);
      NothingAdded(data);
    } else {
      ScanOne(data, p[0], Escaped(p[1..]) + t);
      Associative(Escape(p[0]), Escaped(p[1..]), t);
      ScanEscaped(data + [p[0]], p[1..], t);
      Associative(data, [p[0]], p[1..]);
      OneAndRest(p);
    }
  }

  lemma ScanOne(data: seq<byte>, c: byte, t: seq<byte>)
    requires |data| < PACKET_MAX
    ensures Scan(Rx(false, data), Escape(c) + t) == Scan(Rx(false, data + [c]), t)
  {
    assert (Escape(c) + t)[1..] == (if c == FRAMECHAR then [FRAMECHAR] + t else t);
    if c == FRAMECHAR { assert ([FRAMECHAR] + t)[1..] == t; }
  }

  /** So a packet of up to 512 bytes that has arrived whole is returned at once, and what follows it is left; any
      byte but a FRAMECHAR may follow the FRAMECHAR that ends it. */
  lemma FrameIsRead(p: seq<byte>, c: byte, rest: seq<byte>)
    requires |p| <= 512 && c != 0x70 && |Escaped(p)| + 2 + |rest| <= 2044
    ensures ReadFrom(CLEAN, Escaped(p) + [0x70, c] + rest) == (CLEAN, rest, Some(p))
  {
    var end := [FRAMECHAR, c] + rest;
    assert Escaped(p) + [0x70, c] + rest == Escaped(p) + end;
    ScanEscaped([], p, end);
    assert [] + p == p;
    assert end[1..] == [c] + rest && end[1..][1..] == rest;
  }

  /** A packet of up to 512 bytes that is written is whole at the end of the queue, which never holds more than
      2048 bytes: the bytes before it stay if it fits behind them, and go otherwise. */
  lemma NewestIsWhole(out: seq<byte>, p: seq<byte>)
    requires |out| <= 2048 && |p| <= 512
    ensures var r, n := WriteTo(out, p), |Escaped(p)| + 2;
      && n <= |r| <= 2048 && r[|r| - n..] == Frame(p)
      && r[..|r| - n] == if |out| + n <= 2048 then out else []
  {
    EscapedLength(p);
  }

  lemma {:induction false} EscapedLength(p: seq<byte>)
    ensures |p| <= |Escaped(p)| <= 2 * |p|
  {
    if p == [] {
    } else {
      EscapedLength(p[1..]);
    }
  }

  function Transmits(w: World, k: nat): World {
    if k == 0 then w else Next(Transmits(w, k - 1), Transmit)
  }

  lemma TakeMore(line: seq<byte>, out: seq<byte>, done: nat, n: nat)
    requires done + n <= |out|
    ensures (line + out[..done]) + out[done..][..n] == line + out[..done + n]
    ensures out[done..][n..] == out[done + n..]
  {
  }

  /** Each call of the transmitter takes sixteen bytes, as long as there are so many. */
  lemma {:induction false} SixteenAtATime(w: World, k: nat)
    ensures var n := if 16 * k <= |w.out| then 16 * k else |w.out|;
      Transmits(w, k) == w.(out := w.out[n..], line := w.line + w.out[..n])
  {
    if k == 0 {
      NothingAdded(w.line);
    } else {
      SixteenAtATime(w, k - 1);
      var done := if 16 * (k - 1) <= |w.out| then 16 * (k - 1) else |w.out|;
      TakeMore(w.line, w.out, done, BlockLen(w.out[done..]));
    }
  }

  // Getting back in step.

  /** After a whole frame the parser is never in an escape, whatever state it was in. */
  lemma AfterFrame(rx: Rx, p: seq<byte>)
    requires |rx.data| <= PACKET_MAX
    ensures var r := Decode(rx, Frame(p)); !r.0.inEscape && |r.0.data| <= PACKET_MAX && |r.1| <= 2
  {
    if !rx.inEscape {
      DecodeFrame(rx.data, p);
    } else {
      EscapedFrame(rx.data, p);
    }
  }

  lemma {:induction false} EscapedFrame(data: seq<byte>, p: seq<byte>)
    requires |data| <= PACKET_MAX
    ensures var r := Decode(Rx(true, data), Frame(p)); !r.0.inEscape && |r.0.data| <= PACKET_MAX && |r.1| <= 2
    decreases |p|
  {
    var rx := Rx(true, data);
    var more := AddInByte(data, FRAMECHAR);
    if p == [] {
      assert Frame(p) == [FRAMECHAR, 0];
      DecodeTwo(rx, FRAMECHAR, 0);
      assert Came(None) + Came(None) == [];
    } else if p[0] == FRAMECHAR {
      assert Frame(p) == [FRAMECHAR, FRAMECHAR] + Frame(p[1..]);
      DecodeTwo(rx, FRAMECHAR, FRAMECHAR);
      assert Came(None) + Came(None) == [];
      DecodeAppend(rx, [FRAMECHAR, FRAMECHAR], Frame(p[1..]));
      EscapedFrame(more, p[1..]);
    } else {
      assert Frame(p) == [p[0]] + Frame(p[1..]);
      DecodeByte(rx, p[0]);
      DecodeAppend(rx, [p[0]], Frame(p[1..]));
      DecodeFrame([], p[1..]);
    }
  }

  /** From any state of the parser, two frames put it back in step: every later packet is read exactly,
      and the two give at most three damaged ones between them. */
  lemma SelfSync(rx: Rx, p: seq<byte>, q: seq<byte>, ps: seq<seq<byte>>) returns (damaged: seq<seq<byte>>)
    requires |rx.data| <= PACKET_MAX && Short(ps)
    ensures Decode(rx, Frame(p) + Frame(q) + StreamOf(ps)) == (CLEAN, damaged + ps) && |damaged| <= 3
  {
    var first := Decode(rx, Frame(p));
    AfterFrame(rx, p);
    DecodeFrame(first.0.data, q);
    damaged := first.1 + [Cap(first.0.data + q)];
    DecodeAppend(rx, Frame(p), Frame(q));
    DecodeAppend(rx, Frame(p) + Frame(q), StreamOf(ps));
    DecodeStream(ps);
  }

  /** What is left of a frame is a frame again, perhaps after half an escape, or just its last byte. */
  lemma {:induction false} CutFrame(p: seq<byte>, n: nat) returns (rest: seq<byte>)
    requires n < |Frame(p)|
    ensures Frame(p)[n..] == Frame(rest) || Frame(p)[n..] == [FRAMECHAR] + Frame(rest) || Frame(p)[n..] == [0]
    decreases |p|
  {
    rest := p;
    if p == [] {
      assert Frame(p) == [FRAMECHAR, 0];
    } else if n > 0 {
      var k := |Escape(p[0])|;
      assert Frame(p) == Escape(p[0]) + Frame(p[1..]);
      if n < k {
        rest := p[1..];
        assert Frame(p)[n..] == [FRAMECHAR] + Frame(rest);
      } else {
        rest := CutFrame(p[1..], n - k);
        assert Frame(p)[n..] == Frame(p[1..])[n - k..];
      }
    }
  }

  lemma AfterCut(rx: Rx, p: seq<byte>, n: nat)
    requires |rx.data| <= PACKET_MAX && n < |Frame(p)|
    ensures |Decode(rx, Frame(p)[n..]).1| <= 2
  {
    var rest := CutFrame(p, n);
    var cut := Frame(p)[n..];
    DecodeByte(rx, if cut == [0] then 0 else FRAMECHAR);
    if cut == Frame(rest) {
      AfterFrame(rx, rest);
    } else if cut != [0] {
      DecodeAppend(rx, [FRAMECHAR], Frame(rest));
      AfterFrame(DecByte(rx, FRAMECHAR).0, rest);
    }
  }

  /** If the queue is thrown out in the middle of a frame, with part of the frame still to come, one more
      frame is enough: only the frame cut and the next are damaged. */
  lemma CutSync(rx: Rx, p: seq<byte>, n: nat, q: seq<byte>, ps: seq<seq<byte>>) returns (damaged: seq<seq<byte>>)
    requires |rx.data| <= PACKET_MAX && Short(ps) && n < |Frame(p)|
    ensures Decode(rx, Frame(p)[n..] + Frame(q) + StreamOf(ps)) == (CLEAN, damaged + ps) && |damaged| <= 3
  {
    var cut := Frame(p)[n..];
    var first := Decode(rx, cut);
    AfterCut(rx, p, n);
    EndsInZero(rx, cut[..|cut| - 1]);
    assert cut == cut[..|cut| - 1] + [0];
    DecodeFrame(first.0.data, q);
    damaged := first.1 + [Cap(first.0.data + q)];
    DecodeAppend(rx, cut, Frame(q));
    DecodeAppend(rx, cut + Frame(q), StreamOf(ps));
    DecodeStream(ps);
  }

  lemma EndsInZero(rx: Rx, s: seq<byte>)
    requires |rx.data| <= PACKET_MAX
    ensures var r := Decode(rx, s + [0]).0; !r.inEscape && |r.data| <= PACKET_MAX
  {
    DecodeShort(rx, s);
    DecodeAppend(rx, s, [0]);
    DecodeByte(Decode(rx, s).0, 0);
  }

  lemma {:induction false} DecodeShort(rx: Rx, s: seq<byte>)
    requires |rx.data| <= PACKET_MAX
    ensures |Decode(rx, s).0.data| <= PACKET_MAX
    decreases |s|
  {
    if s == [] {
    } else {
      DecodeShort(DecByte(rx, s[0]).0, s[1..]);
    }
  }
}
