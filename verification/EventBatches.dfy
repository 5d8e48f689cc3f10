/** Batches of CPU profiler events.  Each thread collects its begin and end events in a small
    buffer as variable-length numbers, with the cycle counter as a difference to the event
    before, and flushes the buffer as one batch. */
module EventBatches {

  type Byte = b: nat | b < 256
  type Word64 = w: nat | w < WORD64
  type Word32 = w: nat | w < WORD32

  const WORD64: nat := 0x1_0000_0000_0000_0000
  const WORD63: nat := 0x8000_0000_0000_0000
  const WORD32: nat := 0x1_0000_0000
  const MAX_BUFFER_SIZE: nat := 256
  const MAX_ENCODED_EVENT_SIZE: nat := 15
  const FULL_BUFFER_THRESHOLD: nat := MAX_BUFFER_SIZE - MAX_ENCODED_EVENT_SIZE

  datatype Event = Begin(cycle: Word64, spec: Word32) | End(cycle: Word64)

  // ---------------------------------------------------------------- numbers in 7-bit groups

  /** Seven bits per byte, lowest first; the high bit tells that more follow. */
  function Varint(n: nat): (s: seq<Byte>)
    ensures s != []
  {
    if n < 128 then [n] else [128 + n % 128] + Varint(n / 128)
  }

  /** Reads a number off the front: the number and how many bytes it took. */
  function ReadVarint(s: seq<Byte>): (r: (nat, nat))
    ensures r.1 <= |s| && (s != [] ==> r.1 > 0)
  {
    if s == [] then (0, 0)
    else if s[0] < 128 then (s[0], 1)
    else
      var (n, k) := ReadVarint(s[1..]);
      ((s[0] - 128) + 128 * n, k + 1)
  }

  lemma {:induction false} ReadWritten(n: nat, rest: seq<Byte>)
    ensures ReadVarint(Varint(n) + rest) == (n, |Varint(n)|)
  {
    if n >= 128 {
      ReadWritten(n / 128, rest);
      assert (Varint(n) + rest)[1..] == Varint(n / 128) + rest;
    } else {
      assert (Varint(n) + rest)[0] == n;
    }
  }

  function Pow128(k: nat): (r: nat)
    ensures r > 0
  {
    if k == 0 then 1 else 128 * Pow128(k - 1)
  }

  lemma {:induction false} VarintLength(n: nat, k: nat)
    requires k > 0 && n < Pow128(k)
    ensures |Varint(n)| <= k
  {
    if n >= 128 {
      VarintLength(n / 128, k - 1);
    }
  }

  lemma LengthBounds()
    ensures Pow128(10) >= WORD64 && Pow128(5) >= WORD32
  {
    assert Pow128(5) == 34359738368;
    assert Pow128(10) == 128 * 128 * 128 * 128 * 128 * Pow128(5);
  }

  // ---------------------------------------------------------------- events

  /** How far the counter is from the last event, in 64-bit arithmetic. */
  function Delta(last: Word64, e: Event): Word64 {
    (e.cycle + WORD64 - last) % WORD64
  }

  /** The difference shifted left by one, which loses its highest bit; the lowest bit tells a
      begin from an end. */
  function Tag(last: Word64, e: Event): Word64 {
    2 * Delta(last, e) % WORD64 + if e.Begin? then 1 else 0
  }

  function Encoded(last: Word64, e: Event): seq<Byte> {
    Varint(Tag(last, e)) + if e.Begin? then Varint(e.spec) else []
  }

  function EncodedBatch(last: Word64, es: seq<Event>): seq<Byte>
    decreases |es|
  {
    if es == [] then [] else Encoded(last, es[0]) + EncodedBatch(es[0].cycle, es[1..])
  }

  function Advance(last: Word64, delta: nat): Word64 {
    (last + delta) % WORD64
  }

  /** The first event of a batch, as a reader that is at cycle `last` sees it, and how many
      bytes it takes. */
  function Head(last: Word64, s: seq<Byte>): (r: (Event, nat))
    requires s != []
    ensures 0 < r.1 <= |s|
  {
    var (tag, k) := ReadVarint(s);
    var cycle := Advance(last, tag / 2);
    if tag % 2 == 0 then (End(cycle), k)
    else
      var (spec, k') := ReadVarint(s[k..]);
      (Begin(cycle, spec % WORD32), k + k')
  }

  /** What a reader makes of a batch. */
  function Decoded(last: Word64, s: seq<Byte>): seq<Event>
    decreases |s|
  {
    if s == [] then [] else
    var (e, k) := Head(last, s);
    [e] + Decoded(e.cycle, s[k..])
  }

  lemma EncodedLength(last: Word64, e: Event)
    ensures 0 < |Encoded(last, e)| <= MAX_ENCODED_EVENT_SIZE
  {
    LengthBounds();
    VarintLength(Tag(last, e), 10);
    if e.Begin? { VarintLength(e.spec, 5); }
  }

  /** What a reader that is at cycle `at` sees of events recorded from cycle `last`: each
      difference without its highest bit. */
  function Read(at: Word64, last: Word64, es: seq<Event>): seq<Event>
    decreases |es|
  {
    if es == [] then [] else
    var cycle := Advance(at, Delta(last, es[0]) % WORD63);
    [es[0].(cycle := cycle)] + Read(cycle, es[0].cycle, es[1..])
  }

  lemma HeadFrom(at: Word64, s: seq<Byte>, tag: nat, k: nat, spec: Word32, k': nat, tail: seq<Byte>)
    requires s != [] && ReadVarint(s) == (tag, k) && s[k..] == tail
    requires tag % 2 == 1 ==> ReadVarint(tail) == (spec, k')
    ensures Head(at, s) == if tag % 2 == 0 then (End(Advance(at, tag / 2)), k)
                           else (Begin(Advance(at, tag / 2), spec), k + k')
  {
  }

  /** The head of an encoded event. */
  lemma HeadOfEncoded(at: Word64, last: Word64, e: Event, rest: seq<Byte>)
    ensures Head(at, Encoded(last, e) + rest) ==
      (e.(cycle := Advance(at, Delta(last, e) % WORD63)), |Encoded(last, e)|)
  {
    var tag, s := Tag(last, e), Encoded(last, e) + rest;
    TagParts(last, e);
    if e.Begin? {
      var tail := Varint(e.spec) + rest;
      assert s == Varint(tag) + tail;
      ReadWritten(tag, tail);
      ReadWritten(e.spec, rest);
      HeadFrom(at, s, tag, |Varint(tag)|, e.spec, |Varint(e.spec)|, tail);
    } else {
      assert s == Varint(tag) + rest;
      ReadWritten(tag, rest);
      HeadFrom(at, s, tag, |Varint(tag)|, 0, 0, rest);
    }
  }

  /** Decoding one encoded event. */
  lemma DecodedOne(at: Word64, last: Word64, e: Event, rest: seq<Byte>)
    ensures var cycle := Advance(at, Delta(last, e) % WORD63);
      Decoded(at, Encoded(last, e) + rest) == [e.(cycle := cycle)] + Decoded(cycle, rest)
  {
    HeadOfEncoded(at, last, e, rest);
    assert (Encoded(last, e) + rest)[|Encoded(last, e)|..] == rest;
  }

  lemma TagParts(last: Word64, e: Event)
    ensures Tag(last, e) / 2 == Delta(last, e) % WORD63
    ensures Tag(last, e) % 2 == if e.Begin? then 1 else 0
  {
  }

  /** Decoding an encoded batch, whatever the cycles. */
  lemma {:induction false} DecodedIs(at: Word64, last: Word64, es: seq<Event>)
    ensures Decoded(at, EncodedBatch(last, es)) == Read(at, last, es)
    decreases |es|
  {
    if es != [] {
      DecodedOne(at, last, es[0], EncodedBatch(es[0].cycle, es[1..]));
      DecodedIs(Advance(at, Delta(last, es[0]) % WORD63), es[0].cycle, es[1..]);
    }
  }

  /** Every event comes less than 2^63 cycles after the one before. */
  predicate Close(last: Word64, es: seq<Event>)
    decreases |es|
  {
    es == [] || (Delta(last, es[0]) < WORD63 && Close(es[0].cycle, es[1..]))
  }

  /** A batch is read back exactly when its events are close enough to each other. */
  lemma {:induction false} ReadExactly(last: Word64, es: seq<Event>)
    ensures Read(last, last, es) == es <==> Close(last, es)
    decreases |es|
  {
    if es != [] {
      var e := es[0];
      var cycle := Advance(last, Delta(last, e) % WORD63);
      assert cycle == e.cycle <==> Delta(last, e) < WORD63;
      assert es == [e] + es[1..];
      if cycle == e.cycle {
        assert e.(cycle := cycle) == e;
        ReadExactly(e.cycle, es[1..]);
      } else {
        assert Read(last, last, es)[0] != e;
      }
      if Read(last, last, es) == es && cycle == e.cycle {
        assert Read(last, last, es)[1..] == es[1..];
      }
    }
  }

  lemma RoundTrip(es: seq<Event>)
    ensures Decoded(0, EncodedBatch(0, es)) == es <==> Close(0, es)
  {
    DecodedIs(0, 0, es);
    ReadExactly(0, es);
  }

  /** A counter that goes back wraps to a difference of 2^63 or more: the event is read 2^63
      cycles after where it was. */
  lemma CounterGoesBack(first: Event, second: Event)
    requires second.cycle < first.cycle < WORD63
    ensures Decoded(0, EncodedBatch(0, [first, second])) == [first, second.(cycle := second.cycle + WORD63)]
  {
    DecodedIs(0, 0, [first, second]);
    ReadTwo(first, second);
    WrappedBack(first.cycle, second);
  }

  lemma ReadTwo(first: Event, second: Event)
    requires first.cycle < WORD63
    ensures Read(0, 0, [first, second]) ==
      [first, second.(cycle := Advance(first.cycle, Delta(first.cycle, second) % WORD63))]
  {
    ReadNext(0, 0, first, [second]);
    FirstCycle(first.cycle);
    ReadNext(first.cycle, first.cycle, second, []);
  }

  lemma ReadNext(at: Word64, last: Word64, e: Event, rest: seq<Event>)
    ensures var cycle := Advance(at, Delta(last, e) % WORD63);
      Read(at, last, [e] + rest) == [e.(cycle := cycle)] + Read(cycle, e.cycle, rest)
  {
    assert ([e] + rest)[1..] == rest;
  }

  lemma FirstCycle(cycle: Word64)
    requires cycle < WORD63
    ensures Advance(0, (cycle + WORD64) % WORD64 % WORD63) == cycle
  {
  }

  lemma WrappedBack(last: Word64, e: Event)
    requires e.cycle < last < WORD63
    ensures Advance(last, Delta(last, e) % WORD63) == e.cycle + WORD63
  {
    var back := last - e.cycle;
    assert Delta(last, e) == WORD64 - back;
    assert (WORD64 - back) % WORD63 == WORD63 - back;
  }

  /** A difference of exactly 2^63 is lost as a whole. */
  lemma ExactlyHalf()
    ensures Decoded(0, EncodedBatch(0, [End(WORD63)])) == [End(0)]
  {
    assert [End(WORD63)][1..] == [];
    DecodedIs(0, 0, [End(WORD63)]);
  }

  /** Cycles that do not decrease and stay below 2^63, as a counter since start gives them. */
  predicate Rising(last: nat, es: seq<Event>)
    decreases |es|
  {
    es == [] || (last <= es[0].cycle < WORD63 && Rising(es[0].cycle, es[1..]))
  }

  lemma {:induction false} RisingIsClose(last: Word64, es: seq<Event>)
    requires Rising(last, es)
    ensures Close(last, es)
    decreases |es|
  {
    if es != [] {
      assert Delta(last, es[0]) == es[0].cycle - last;
      RisingIsClose(es[0].cycle, es[1..]);
    }
  }

  lemma {:induction false} BatchGrows(last: Word64, es: seq<Event>, e: Event)
    ensures EncodedBatch(last, es + [e]) == EncodedBatch(last, es) + Encoded(LastCycle(last, es), e)
    decreases |es|
  {
    if es == [] {
      assert es + [e] == [e];
      assert [e][1..] == [];
      assert EncodedBatch(last, [e]) == Encoded(last, e) + [];
    } else {
      var head, rest := Encoded(last, es[0]), EncodedBatch(es[0].cycle, es[1..]);
      BatchGrows(es[0].cycle, es[1..], e);
      assert (es + [e])[1..] == es[1..] + [e];
      Associative(head, rest, Encoded(LastCycle(last, es), e));
    }
  }

  lemma Associative(a: seq<Byte>, b: seq<Byte>, c: seq<Byte>)
    ensures a + (b + c) == (a + b) + c
  {
  }

  function LastCycle(last: Word64, es: seq<Event>): Word64 {
    if es == [] then last else es[|es| - 1].cycle
  }

  // ---------------------------------------------------------------- the thread buffer

  ghost function Flat(ess: seq<seq<Event>>): seq<Event> {
    if ess == [] then [] else Flat(ess[..|ess| - 1]) + ess[|ess| - 1]
  }

  /** Each batch is the encoding of its events. */
  ghost predicate Encodes(batches: seq<seq<Byte>>, sent: seq<seq<Event>>) {
    |batches| == |sent| && forall i :: 0 <= i < |sent| ==> batches[i] == EncodedBatch(0, sent[i])
  }

  /** The groups written so far, the next one and those behind it. */
  lemma NextByte(written: seq<Byte>, n: nat, b: Byte)
    requires b == n % 128 + if n > 0x7F then 128 else 0
    ensures |written| < |written + Varint(n)|
    ensures written + Varint(n) == if n / 128 > 0 then (written + [b]) + Varint(n / 128) else written + [b]
  {
    if n > 0x7F {
      assert Varint(n) == [b] + Varint(n / 128);
      Associative(written, [b], Varint(n / 128));
    } else {
      assert Varint(n) == [b];
    }
  }

  lemma OneMore(sent: seq<seq<Event>>, pending: seq<Event>, e: Event)
    ensures Flat(sent) + (pending + [e]) == Flat(sent) + pending + [e]
  {
  }

  /** One more event in the batch: what is written behind it, how long that is at most. */
  lemma Appended(last: Word64, pending: seq<Event>, e: Event)
    requires last == LastCycle(0, pending)
    ensures EncodedBatch(0, pending + [e]) == EncodedBatch(0, pending) + Encoded(last, e)
    ensures LastCycle(0, pending + [e]) == e.cycle
    ensures |Encoded(last, e)| <= MAX_ENCODED_EVENT_SIZE
    ensures Encoded(last, e) ==
      var diff := (e.cycle + WORD64 - last) % WORD64;
      if e.Begin? then Varint(2 * diff % WORD64 + 1) + Varint(e.spec) else Varint(2 * diff % WORD64)
  {
    EncodedLength(last, e);
    BatchGrows(0, pending, e);
  }

  class ThreadBuffer {
    const buffer: array<Byte>
    var size: nat
    var lastCycle: Word64
    var depth: Word32
    /** The batches that have been handed to the trace. */
    var batches: seq<seq<Byte>>
    /** The events of each batch and those in the buffer. */
    ghost var sent: seq<seq<Event>>
    ghost var pending: seq<Event>

    ghost predicate Valid()
      reads this, buffer
    {
      && buffer.Length == MAX_BUFFER_SIZE && size < FULL_BUFFER_THRESHOLD
      && buffer[..size] == EncodedBatch(0, pending) && lastCycle == LastCycle(0, pending)
      && Encodes(batches, sent)
    }

    /** All events recorded so far. */
    ghost function Events(): seq<Event>
      reads this
    {
      Flat(sent) + pending
    }

    constructor ()
      ensures Valid() && fresh(buffer) && Events() == [] && depth == 0
    {
      buffer := new Byte[MAX_BUFFER_SIZE](_ => 0);
      size, lastCycle, depth, batches, sent, pending := 0, 0, 0, [], [], [];
      new;
      assert buffer[..0] == [];
    }

    /** Write a number at `at`, one byte after the other. */
    method Encode7bit(at: nat, value: nat) returns (next: nat)
      requires at + |Varint(value)| <= buffer.Length
      modifies buffer
      ensures next == at + |Varint(value)|
      ensures buffer[..next] == old(buffer[..at]) + Varint(value)
    {
      var n := value;
      ghost var start, written: seq<Byte> := buffer[..at], [];
      next := at;
      var more := true;
      while more
        invariant next == at + |written| <= buffer.Length && buffer[..next] == start + written
        invariant Varint(value) == if more then written + Varint(n) else written
        decreases more, n
      {
        var b: Byte := n % 128 + if n > 0x7F then 128 else 0;
        ghost var before := buffer[..next];
        NextByte(written, n, b);
        buffer[next] := b;
        next := next + 1;
        assert buffer[..next] == before + [b];
        Associative(start, written, [b]);
        written := written + [b];
        n := n / 128;
        more := n > 0;
      }
    }

    method Flush()
      requires buffer.Length == MAX_BUFFER_SIZE && size <= buffer.Length
      requires buffer[..size] == EncodedBatch(0, pending) && Encodes(batches, sent)
      modifies this
      ensures Valid() && pending == [] && sent == old(sent) + [old(pending)] && depth == old(depth)
      ensures Events() == old(Events())
    {
      batches := batches + [buffer[..size]];
      sent := sent + [pending];
      assert sent[..|sent| - 1] == old(sent);
      pending := [];
      size, lastCycle := 0, 0;
      assert buffer[..0] == [];
    }

    method EncodeTwo(first: nat, second: nat) returns (next: nat)
      requires size + |Varint(first)| + |Varint(second)| <= buffer.Length
      modifies buffer
      ensures next == size + |Varint(first)| + |Varint(second)|
      ensures buffer[..next] == old(buffer[..size]) + (Varint(first) + Varint(second))
    {
      next := Encode7bit(size, first);
      next := Encode7bit(next, second);
    }

    /** The buffer holds the pending events, but may be too full for another one. */
    ghost predicate Recorded()
      reads this, buffer
    {
      && buffer.Length == MAX_BUFFER_SIZE && size <= buffer.Length
      && buffer[..size] == EncodedBatch(0, pending) && lastCycle == LastCycle(0, pending)
      && Encodes(batches, sent)
    }

    /** Encode a begin event behind the ones in the buffer, which has room for it. */
    method RecordBegin(cycle: Word64, spec: Word32)
      requires Valid()
      modifies this`size, this`lastCycle, this`pending, buffer
      ensures Recorded() && pending == old(pending) + [Begin(cycle, spec)]
    {
      var diff: Word64 := (cycle + WORD64 - lastCycle) % WORD64;
      ghost var e := Begin(cycle, spec);
      Appended(lastCycle, pending, e);
      lastCycle := cycle;
      size := EncodeTwo(2 * diff % WORD64 + 1, spec);
      pending := pending + [e];
    }

    method RecordEnd(cycle: Word64)
      requires Valid()
      modifies this`size, this`lastCycle, this`pending, buffer
      ensures Recorded() && pending == old(pending) + [End(cycle)]
    {
      var diff: Word64 := (cycle + WORD64 - lastCycle) % WORD64;
      ghost var e := End(cycle);
      Appended(lastCycle, pending, e);
      lastCycle := cycle;
      size := Encode7bit(size, 2 * diff % WORD64);
      pending := pending + [e];
    }

    method BeginEvent(cycle: Word64, spec: Word32)
      requires Valid()
      modifies this, buffer
      ensures Valid() && Events() == old(Events()) + [Begin(cycle, spec)]
      ensures depth == (old(depth) + 1) % WORD32
    {
      depth := (depth + 1) % WORD32;
      RecordBegin(cycle, spec);
      OneMore(old(sent), old(pending), Begin(cycle, spec));
      if size >= FULL_BUFFER_THRESHOLD {
        Flush();
      }
    }

    method EndEvent(cycle: Word64)
      requires Valid()
      modifies this, buffer
      ensures Valid() && Events() == old(Events()) + [End(cycle)]
      ensures depth == (old(depth) + WORD32 - 1) % WORD32
      ensures depth == 0 ==> pending == [] && size == 0
    {
      depth := (depth + WORD32 - 1) % WORD32;
      RecordEnd(cycle);
      OneMore(old(sent), old(pending), End(cycle));
      if depth == 0 || size >= FULL_BUFFER_THRESHOLD {
        Flush();
      }
    }
  }

  /** What a reader makes of all batches. */
  ghost function DecodedAll(batches: seq<seq<Byte>>): seq<Event> {
    if batches == [] then [] else DecodedAll(batches[..|batches| - 1]) + Decoded(0, batches[|batches| - 1])
  }

  /** The reader recovers the events of all batches when those of each batch are close. */
  lemma {:induction false} AllRecovered(batches: seq<seq<Byte>>, sent: seq<seq<Event>>)
    requires Encodes(batches, sent) && forall i :: 0 <= i < |sent| ==> Close(0, sent[i])
    ensures DecodedAll(batches) == Flat(sent)
  {
    if batches != [] {
      var n := |batches| - 1;
      AllRecovered(batches[..n], sent[..n]);
      RoundTrip(sent[n]);
    }
  }

  lemma {:induction false} RisingParts(last: nat, es: seq<Event>, fs: seq<Event>)
    requires Rising(last, es + fs)
    ensures Rising(last, es) && Rising(0, fs)
    decreases |es|
  {
    if es == [] {
      assert es + fs == fs;
    } else {
      assert (es + fs)[1..] == es[1..] + fs;
      RisingParts(es[0].cycle, es[1..], fs);
    }
  }

  lemma {:induction false} BatchesClose(sent: seq<seq<Event>>, pending: seq<Event>)
    requires Rising(0, Flat(sent) + pending)
    ensures Close(0, pending) && forall i :: 0 <= i < |sent| ==> Close(0, sent[i])
  {
    RisingParts(0, Flat(sent), pending);
    RisingIsClose(0, pending);
    if sent != [] {
      var n := |sent| - 1;
      BatchesClose(sent[..n], sent[n]);
      assert forall i :: 0 <= i < n ==> sent[i] == sent[..n][i];
    }
  }

  /** Whatever a thread has recorded, if its counter rises and stays below 2^63: the batches it
      has sent and what is left in its buffer give back exactly the events. */
  lemma EverythingRecovered(b: ThreadBuffer)
    requires b.Valid() && Rising(0, b.Events())
    ensures DecodedAll(b.batches) + Decoded(0, b.buffer[..b.size]) == b.Events()
  {
    BatchesClose(b.sent, b.pending);
    AllRecovered(b.batches, b.sent);
    RoundTrip(b.pending);
  }
}
