/** The tail of the trace: the latest packets are kept in a ring so that a client that connects
    later still gets them.  The ring is one buffer cut into two ranges: the front `0..cursor`
    is being filled; the back `left..right` holds older packets, which are dropped from the
    left to make room. */
module PacketRing {
  import opened Options

  type Byte = b: nat | b < 256

  type Packet = seq<Byte>

  const BASE_SIZE: nat := 4     // PacketSize, ThreadId
  const ENCODED_SIZE: nat := 6  // and DecodedSize
  const ENCODED_MARKER: nat := 0x8000
  const THREAD_ID_MASK: nat := 0x4000

  /** Little-endian 16-bit fields. */
  function Word(n: nat): seq<Byte> {
    [n % 256, n / 256 % 256]
  }

  function SizeField(p: seq<Byte>): nat
    requires |p| >= 2
  {
    (p[0] as nat) + 256 * (p[1] as nat)
  }

  lemma LowBits(k: int, r: nat)
    requires r < 0x1_0000
    ensures (0x1_0000 * k + r) % 0x1_0000 == r
  {
  }

  lemma FieldIs(n: nat)
    ensures SizeField(Word(n)) == n % 0x1_0000
  {
    var low, high := n % 256, n / 256;
    var k, r := high / 256, high % 256;
    assert n == low + 256 * high && high == 256 * k + r;
    LowBits(k, low + 256 * r);
  }

  /** The size field holds 16 bits: this is why packets must be shorter than 64 KiB when they
      are complete. */
  lemma SizeFits(n: nat)
    ensures SizeField(Word(n)) == n <==> n < 0x1_0000
  {
    FieldIs(n);
  }

  lemma WordOfField(n: nat)
    ensures Word(n % 0x1_0000) == Word(n)
  {
    var low, high := n % 256, n / 256;
    FieldIs(n);
    LowByte(low, high % 256);
  }

  lemma LowByte(low: nat, high: nat)
    requires low < 256 && high < 256
    ensures Word(low + 256 * high) == [low, high]
  {
  }

  /** Subtracting in the 16-bit field is subtracting: only what is left must fit. */
  lemma FieldMinus(n: nat, k: nat)
    requires k <= n
    ensures (n % 0x1_0000 + 0x1_0000 - k % 0x1_0000) % 0x1_0000 == (n - k) % 0x1_0000
  {
    var a, b, r := n / 0x1_0000, k / 0x1_0000, (n - k) % 0x1_0000;
    var c := (n - k) / 0x1_0000;
    assert n - k == 0x1_0000 * c + r;
    assert n % 0x1_0000 == n - 0x1_0000 * a && k % 0x1_0000 == k - 0x1_0000 * b;
    assert n % 0x1_0000 + 0x1_0000 - k % 0x1_0000 == 0x1_0000 * (c - a + b + 1) + r;
    LowBits(c - a + b + 1, r);
  }

  /** A packet starts with its own size. */
  predicate Framed(p: Packet) {
    BASE_SIZE <= |p| < 0x1_0000 && SizeField(p) == |p|
  }

  ghost predicate AllFramed(ps: seq<Packet>) {
    forall i :: 0 <= i < |ps| ==> Framed(ps[i])
  }

  /** Packets one after the other. */
  ghost function Flat(ps: seq<Packet>): seq<Byte> {
    if ps == [] then [] else ps[0] + Flat(ps[1..])
  }

  lemma {:induction false} FlatJoin(ps: seq<Packet>, qs: seq<Packet>)
    ensures Flat(ps + qs) == Flat(ps) + Flat(qs)
  {
    if ps == [] {
      assert ps + qs == qs;
    } else {
      FlatJoin(ps[1..], qs);
      assert (ps + qs)[0] == ps[0] && (ps + qs)[1..] == ps[1..] + qs;
      Associative(ps[0], Flat(ps[1..]), Flat(qs));
    }
  }

  lemma Associative<T>(a: seq<T>, b: seq<T>, c: seq<T>)
    ensures a + (b + c) == (a + b) + c
  {
  }

  lemma FlatOne(p: Packet)
    ensures Flat([p]) == p
  {
    assert Flat([p][1..]) == [];
  }

  /** `kept` are the latest of the packets `all`. */
  predicate Latest(kept: seq<Packet>, all: seq<Packet>) {
    |kept| <= |all| && kept == all[|all| - |kept|..]
  }

  lemma LatestBehind(older: seq<Packet>, kept: seq<Packet>, all: seq<Packet>)
    requires Latest(older + kept, all)
    ensures Latest(kept, all)
  {
    var k := |all| - |older + kept|;
    assert all[k..][|older|..] == all[k + |older|..];
    assert (older + kept)[|older|..] == kept;
  }

  lemma LatestAdd(kept: seq<Packet>, all: seq<Packet>, p: Packet)
    requires Latest(kept, all)
    ensures Latest(kept + [p], all + [p])
  {
  }

  // ---------------------------------------------------------------- what an append keeps

  /** The packets of a range that begins at `left` which are still kept when everything below
      `next` is needed: the oldest are dropped one by one, and no more than that. */
  ghost function Survivors(ps: seq<Packet>, left: nat, next: nat): seq<Packet> {
    if ps == [] || left >= next then ps else Survivors(ps[1..], left + |ps[0]|, next)
  }

  /** The survivors are the latest packets, and what is dropped had to go: the last packet
      dropped began below `next`, and the first one kept begins at `next` or later. */
  lemma {:induction false} SurvivorsLeast(ps: seq<Packet>, left: nat, next: nat)
    ensures Latest(Survivors(ps, left, next), ps)
    ensures var k := |ps| - |Survivors(ps, left, next)|;
      && (k > 0 ==> left + |Flat(ps[..k - 1])| < next)
      && (k < |ps| ==> left + |Flat(ps[..k])| >= next)
    decreases |ps|
  {
    var k := |ps| - |Survivors(ps, left, next)|;
    assert ps[..0] == [];
    if ps != [] && left < next {
      SurvivorsLeast(ps[1..], left + |ps[0]|, next);
      FlatTake(ps, k);
      if k > 1 { FlatTake(ps, k - 1); }
    }
  }

  lemma FlatTake(ps: seq<Packet>, k: nat)
    requires 0 < k <= |ps|
    ensures |Flat(ps[..k])| == |ps[0]| + |Flat(ps[1..][..k - 1])|
  {
    assert ps[..k][1..] == ps[1..][..k - 1];
  }

  /** The front range after room has been made for `n` bytes in a ring of `size` bytes. */
  ghost function FrontAfter(front: seq<Packet>, cursor: nat, n: nat, size: nat): seq<Packet> {
    if cursor + n > size then [] else front
  }

  /** The back range then.  When the room does not fit behind the front range, the front range
      takes its place. */
  ghost function BackAfter(back: seq<Packet>, left: nat, front: seq<Packet>, cursor: nat, n: nat,
                           size: nat): seq<Packet> {
    if cursor + n > size then Survivors(front, 0, n) else Survivors(back, left, cursor + n)
  }

  /** What is sent: the packet that was kept, or data that goes to the transport as it came. */
  datatype Outgoing = Kept(packet: Packet) | Direct(threadId: nat, data: seq<Byte>)

  class Ring {
    const data: array<Byte>
    var cursor: nat
    var left: nat
    var right: nat
    /** The packets in the two ranges, and all packets sent since the last reset. */
    ghost var back: seq<Packet>
    ghost var front: seq<Packet>
    ghost var sent: seq<Packet>

    /** The first `end` bytes are the packets of the front range, `left..right` those of the
        back range, which begins at `limit` or later unless it is empty. */
    ghost predicate Holds(end: nat, limit: nat)
      reads this, data
    {
      && end <= data.Length && left <= right <= data.Length
      && data[..end] == Flat(front) && data[left..right] == Flat(back)
      && AllFramed(front) && AllFramed(back)
      && (limit <= left || back == [])
      && Latest(back + front, sent)
    }

    ghost predicate Valid()
      reads this, data
    {
      Holds(cursor, cursor)
    }

    constructor (size: nat)
      ensures Valid() && fresh(data) && data.Length == size && sent == []
    {
      data := new Byte[size](_ => 0);
      cursor, left, right := 0, size, size;
      back, front, sent := [], [], [];
      new;
      assert data[..0] == [] && data[size..size] == [];
    }

    /** Forget all packets. */
    method Reset()
      modifies this
      ensures Valid() && back == front == sent == []
    {
      cursor, left, right := 0, data.Length, data.Length;
      back, front, sent := [], [], [];
      assert data[..0] == [] && data[data.Length..data.Length] == [];
    }

    /** The front range becomes the back range; what was left of the back range is dropped. */
    method WrapAround()
      requires Valid()
      modifies this
      ensures Valid() && cursor == left == 0 && right == old(cursor)
      ensures back == old(front) && front == [] && sent == old(sent)
    {
      LatestBehind(back, front, sent);
      left, right, cursor := 0, cursor, 0;
      back, front := front, [];
      assert back + front == back;
      assert data[..0] == [] && data[0..right] == data[..right];
    }

    /** Drop the oldest packet. */
    method Evict()
      requires Valid() && left < right
      modifies this`left, this`back
      ensures Valid() && old(back) != [] && back == old(back)[1..] && left == old(left) + |old(back)[0]| > old(left)
    {
      ghost var range := data[left..right];
      Dropped(range, back, front, sent);
      assert range[0] == data[left] && range[1] == data[left + 1];
      var size := (data[left] as nat) + 256 * (data[left + 1] as nat);
      assert data[left + size..right] == range[size..];
      left, back := left + size, back[1..];
    }

    /** Discard old packets until the bytes up to `next` are free. */
    method MakeRoom(next: nat)
      requires Valid() && cursor <= next
      modifies this`left, this`back
      ensures Holds(cursor, next) && back == Survivors(old(back), old(left), next)
    {
      while true
        invariant Valid()
        invariant Survivors(back, left, next) == Survivors(old(back), old(left), next)
        decreases right - left
      {
        if left >= next { break; }
        if left >= right { break; }
        Evict();
      }
      EmptyRange(back);
    }

    /** Write the size field of the packet at `at`, which has `n` bytes: the low 16 bits. */
    method WriteSize(at: nat, n: nat, field: nat)
      requires Holds(at, at + n) && 2 <= n && at + n <= data.Length
      modifies data
      ensures Holds(at, at + n)
      ensures data[at..at + n] == Word(field) + old(data[at..at + n])[2..]
    {
      ghost var before := data[..];
      data[at], data[at + 1] := field % 256, field / 256 % 256;
      assert data[..at] == before[..at];
      assert data[left..right] == before[left..right];
      Overwritten(before[at..at + n], data[at..at + n], 0, Word(field));
      assert before[at..at + n][..0] + Word(field) == Word(field);
    }

    /** Make room for a packet of `n` bytes and write its size.  The packet is still to be
        filled in: its bytes are `at..at+n`. */
    method AppendImpl(n: nat) returns (at: Option<nat>)
      requires Valid() && 2 <= n
      modifies this, data
      ensures at.Some? <==> n <= data.Length
      ensures at == None ==> Valid() && back == front == sent == []
      ensures at.Some? ==>
        && Holds(at.value, cursor) && cursor == at.value + n <= data.Length
        && data[at.value..cursor][..2] == Word(n)
        && sent == old(sent)
        && front == FrontAfter(old(front), old(cursor), n, data.Length)
        && back == BackAfter(old(back), old(left), old(front), old(cursor), n, data.Length)
    {
      if n > data.Length {
        Reset();
        return None;
      }
      FindRoom(n);
      WriteSize(cursor, n, n);
      at := Some(cursor);
      cursor := cursor + n;
    }

    /** Free `n` bytes behind the front range, or from the start of the ring when they do not
        fit there. */
    method FindRoom(n: nat)
      requires Valid() && n <= data.Length
      modifies this
      ensures Holds(cursor, cursor + n) && cursor + n <= data.Length
      ensures cursor == (if old(cursor) + n > data.Length then 0 else old(cursor)) && sent == old(sent)
      ensures front == FrontAfter(old(front), old(cursor), n, data.Length)
      ensures back == BackAfter(old(back), old(left), old(front), old(cursor), n, data.Length)
    {
      if cursor + n > data.Length {
        StartOver(n);
      } else {
        MakeRoom(cursor + n);
      }
    }

    /** Free `n` bytes from the start of the ring. */
    method StartOver(n: nat)
      requires Valid() && n <= data.Length
      modifies this
      ensures Holds(cursor, n) && cursor == 0 && front == [] && sent == old(sent)
      ensures back == Survivors(old(front), 0, n)
    {
      WrapAround();
      MakeRoom(n);
    }

    /** Write bytes into the packet that is being filled in. */
    method Fill(at: nat, offset: nat, bytes: seq<Byte>)
      requires Holds(at, cursor) && at + offset + |bytes| <= cursor <= data.Length
      modifies data
      ensures Holds(at, cursor)
      ensures data[at..cursor] == old(data[at..cursor])[..offset] + bytes + old(data[at..cursor])[offset + |bytes|..]
    {
      ghost var before := data[..];
      forall i | 0 <= i < |bytes| {
        data[at + offset + i] := bytes[i];
      }
      assert data[..at] == before[..at];
      assert data[left..right] == before[left..right];
      Overwritten(before[at..cursor], data[at..cursor], offset, bytes);
    }

    /** Give back the last `n` bytes of the packet being filled in, which holds `size` after.  The
        difference is taken in the 16-bit field. */
    method BackUp(at: nat, n: nat, size: nat)
      requires Holds(at, cursor) && 2 <= size && at + size + n == cursor <= data.Length
      requires data[at..cursor][..2] == Word(size + n)
      modifies this`cursor, data
      ensures Holds(at, cursor) && cursor == at + size
      ensures data[at..cursor] == Word(size) + old(data[at..cursor])[2..size]
    {
      ghost var packet := data[at..cursor];
      ghost var kept := data[at..at + size];
      assert kept == packet[..size];
      assert packet[0] == packet[..2][0] && packet[1] == packet[..2][1];
      cursor := cursor - n;
      var field := ((data[at] as nat) + 256 * (data[at + 1] as nat) + 0x1_0000 - n % 0x1_0000) % 0x1_0000;
      FieldAfter(packet, size, n, field);
      WriteSize(at, size, field);
      assert kept[2..] == packet[2..size];
    }

    /** The packet at `at` is complete: it is the latest of the front range. */
    ghost method Commit(at: nat)
      requires Holds(at, cursor) && at <= cursor <= data.Length && Framed(data[at..cursor])
      modifies this`front, this`sent
      ensures Valid() && sent == old(sent) + [data[at..cursor]] && front == old(front) + [data[at..cursor]]
    {
      ghost var p: Packet := data[at..cursor];
      FlatJoin(front, [p]);
      FlatOne(p);
      assert data[..cursor] == data[..at] + p;
      LatestAdd(back + front, sent, p);
      Associative(back, front, [p]);
      front, sent := front + [p], sent + [p];
    }

    /** A packet that is kept as it is. */
    method AppendPlain(tid: nat, payload: seq<Byte>) returns (wire: Packet)
      requires Valid() && |payload| + BASE_SIZE < 0x1_0000 && |payload| + BASE_SIZE <= data.Length
      modifies this, data
      ensures Valid() && sent == old(sent) + [wire] && wire == PlainPacket(tid, payload)
      ensures front == FrontAfter(old(front), old(cursor), |payload| + BASE_SIZE, data.Length) + [wire]
      ensures back == BackAfter(old(back), old(left), old(front), old(cursor), |payload| + BASE_SIZE, data.Length)
    {
      var r := AppendImpl(|payload| + BASE_SIZE);
      wire := FinishPlain(r.value, tid, payload);
    }

    method FinishPlain(at: nat, tid: nat, payload: seq<Byte>) returns (wire: Packet)
      requires Holds(at, cursor) && at + |payload| + BASE_SIZE == cursor <= data.Length && cursor - at < 0x1_0000
      requires data[at..cursor][..2] == Word(cursor - at)
      modifies this`front, this`sent, data
      ensures Valid() && wire == PlainPacket(tid, payload)
      ensures sent == old(sent) + [wire] && front == old(front) + [wire]
    {
      ghost var made := data[at..cursor];
      Fill(at, 2, Word(tid) + payload);
      FilledIn(made, data[at..cursor], Word(tid) + payload);
      FramedBy(data[at..cursor], |payload| + BASE_SIZE, Word(tid) + payload);
      wire := Complete(at);
    }

    /** A packet that is encoded in place: room is made for the largest possible encoding, what
        is not needed is given back.  Only what is left has to be shorter than 64 KiB. */
    method AppendEncoded(tid: nat, size: nat, encMax: nat, encoded: seq<Byte>) returns (wire: Packet)
      requires Valid() && |encoded| <= encMax && |encoded| + ENCODED_SIZE < 0x1_0000
      requires encMax + ENCODED_SIZE <= data.Length
      modifies this, data
      ensures Valid() && sent == old(sent) + [wire] && wire == EncodedPacket(tid, size, encoded)
      ensures front == FrontAfter(old(front), old(cursor), encMax + ENCODED_SIZE, data.Length) + [wire]
      ensures back == BackAfter(old(back), old(left), old(front), old(cursor), encMax + ENCODED_SIZE, data.Length)
    {
      var r := AppendImpl(encMax + ENCODED_SIZE);
      wire := FinishEncoded(r.value, tid, size, encoded);
    }

    method FinishEncoded(at: nat, tid: nat, size: nat, encoded: seq<Byte>) returns (wire: Packet)
      requires Holds(at, cursor) && at + |encoded| + ENCODED_SIZE <= cursor <= data.Length
      requires |encoded| + ENCODED_SIZE < 0x1_0000 && data[at..cursor][..2] == Word(cursor - at)
      modifies this`cursor, this`front, this`sent, data
      ensures Valid() && wire == EncodedPacket(tid, size, encoded)
      ensures sent == old(sent) + [wire] && front == old(front) + [wire]
    {
      FillEncoded(at, tid, size, encoded);
      wire := Complete(at);
    }

    /** The packet at `at` is kept, and goes to the client. */
    method Complete(at: nat) returns (wire: Packet)
      requires Holds(at, cursor) && at <= cursor <= data.Length && Framed(data[at..cursor])
      modifies this`front, this`sent
      ensures Valid() && wire == data[at..cursor] && sent == old(sent) + [wire] && front == old(front) + [wire]
    {
      wire := data[at..cursor];
      Commit(at);
    }

    /** Fill in an encoded packet and give back the room it does not need. */
    method FillEncoded(at: nat, tid: nat, size: nat, encoded: seq<Byte>)
      requires Holds(at, cursor) && at + |encoded| + ENCODED_SIZE <= cursor <= data.Length
      requires |encoded| + ENCODED_SIZE < 0x1_0000 && data[at..cursor][..2] == Word(cursor - at)
      modifies this`cursor, data
      ensures Holds(at, cursor) && at <= cursor <= data.Length
      ensures data[at..cursor] == EncodedPacket(tid, size, encoded) && Framed(data[at..cursor])
    {
      var body := Word(tid + ENCODED_MARKER) + Word(size) + encoded;
      var n := |encoded| + ENCODED_SIZE;
      ghost var made := data[at..cursor];
      Fill(at, 2, body);
      FilledIn(made, data[at..cursor], body);
      BackUp(at, cursor - at - n, n);
      FramedBy(data[at..cursor], n, body);
    }

    /** Keep and send a packet: small ones as they are, others encoded.  A packet that is kept is
        the last one, and older ones are dropped only as far as the room that was made for it
        demands; it is then sent as it is in the ring.  When the data is too big for the ring, the
        tail is forgotten and the data goes to the transport directly, without being kept. */
    method TailAppend(threadId: nat, payload: seq<Byte>, encMax: nat, encoded: seq<Byte>) returns (wire: Outgoing)
      requires Valid()
      requires 384 < |payload| && |payload| + ENCODED_SIZE <= data.Length ==>
        |encoded| <= encMax && |encoded| + ENCODED_SIZE < 0x1_0000 && encMax + ENCODED_SIZE <= data.Length
      modifies this, data
      ensures Valid()
      ensures |payload| + ENCODED_SIZE > data.Length ==>
        wire == Direct(threadId, payload) && back == front == sent == []
      ensures |payload| + ENCODED_SIZE <= data.Length ==> wire == Kept(TailPacket(threadId, payload, encoded))
      ensures wire.Kept? ==> sent == old(sent) + [wire.packet]
      ensures wire.Kept? ==> var n := if |payload| <= 384 then |payload| + BASE_SIZE else encMax + ENCODED_SIZE;
        && front == FrontAfter(old(front), old(cursor), n, data.Length) + [wire.packet]
        && back == BackAfter(old(back), old(left), old(front), old(cursor), n, data.Length)
    {
      if |payload| + ENCODED_SIZE > data.Length {
        Reset();
        return Direct(threadId, payload);
      }
      var tid := threadId % THREAD_ID_MASK;
      var packet: Packet;
      if |payload| <= 384 {
        packet := AppendPlain(tid, payload);
      } else {
        packet := AppendEncoded(tid, |payload|, encMax, encoded);
      }
      wire := Kept(packet);
    }

    /** A client connects: it gets the back range, then the front range. */
    method OnConnect() returns (bytes: seq<Byte>)
      requires Valid()
      ensures bytes == Flat(back + front) && Latest(back + front, sent)
      ensures exists k: nat :: k <= |sent| && bytes == Flat(sent[k..])
    {
      bytes := data[left..right] + data[..cursor];
      FlatJoin(back, front);
      assert sent[|sent| - |back + front|..] == back + front;
    }
  }

  /** What packets look like. */
  function PlainPacket(tid: nat, payload: seq<Byte>): Packet {
    Word(|payload| + BASE_SIZE) + (Word(tid) + payload)
  }

  function EncodedPacket(tid: nat, size: nat, encoded: seq<Byte>): Packet {
    Word(|encoded| + ENCODED_SIZE) + (Word(tid + ENCODED_MARKER) + Word(size) + encoded)
  }

  /** The packet for some data: small data as it is, other data encoded. */
  function TailPacket(threadId: nat, payload: seq<Byte>, encoded: seq<Byte>): Packet {
    var tid := threadId % THREAD_ID_MASK;
    if |payload| <= 384 then PlainPacket(tid, payload) else EncodedPacket(tid, |payload|, encoded)
  }

  /** The size field of a packet of `size + n` bytes once `n` have been taken off it. */
  lemma FieldAfter(packet: seq<Byte>, size: nat, n: nat, field: nat)
    requires |packet| >= 2 && packet[..2] == Word(size + n)
    requires field == (SizeField(packet) + 0x1_0000 - n % 0x1_0000) % 0x1_0000
    ensures Word(field) == Word(size)
  {
    assert packet[0] == packet[..2][0] && packet[1] == packet[..2][1];
    FieldIs(size + n);
    FieldMinus(size + n, n);
    WordOfField(size);
  }

  lemma FilledIn(made: seq<Byte>, filled: seq<Byte>, body: seq<Byte>)
    requires |made| >= 2 + |body| && filled == made[..2] + body + made[2 + |body|..]
    ensures filled[..2] == made[..2] && filled[2..2 + |body|] == body
    ensures |made| == 2 + |body| ==> filled[2..] == body
  {
  }

  lemma FramedBy(p: Packet, n: nat, body: seq<Byte>)
    requires BASE_SIZE <= n < 0x1_0000 && |p| == n == |body| + 2 && p[..2] == Word(n) && p[2..] == body
    ensures Framed(p) && p == Word(n) + body
  {
    assert p[0] == p[..2][0] && p[1] == p[..2][1];
    assert p == p[..2] + p[2..];
  }

  /** Packets are not empty, so an empty range holds none. */
  lemma EmptyRange(ps: seq<Packet>)
    ensures AllFramed(ps) && Flat(ps) == [] ==> ps == []
  {
    if ps != [] && AllFramed(ps) {
      assert |Flat(ps)| >= |ps[0]|;
    }
  }

  /** The size at the start of a range is that of its first packet. */
  lemma HeadPacket(range: seq<Byte>, ps: seq<Packet>)
    requires range == Flat(ps) && AllFramed(ps) && range != []
    ensures ps != [] && |range| >= 2 && SizeField(range) == |ps[0]| <= |range|
    ensures range[SizeField(range)..] == Flat(ps[1..])
  {
    assert range == ps[0] + Flat(ps[1..]);
    assert range[0] == ps[0][0] && range[1] == ps[0][1];
  }

  /** What is left of the back range without its first packet. */
  lemma Dropped(range: seq<Byte>, back: seq<Packet>, front: seq<Packet>, sent: seq<Packet>)
    requires range == Flat(back) && AllFramed(back) && range != [] && Latest(back + front, sent)
    ensures back != [] && |range| >= 2 && 0 < SizeField(range) == |back[0]| <= |range|
    ensures range[SizeField(range)..] == Flat(back[1..]) && AllFramed(back[1..]) && Latest(back[1..] + front, sent)
  {
    HeadPacket(range, back);
    assert Framed(back[0]);
    assert [back[0]] + (back[1..] + front) == back + front;
    LatestBehind([back[0]], back[1..] + front, sent);
  }

  lemma Overwritten(s: seq<Byte>, s': seq<Byte>, offset: nat, bytes: seq<Byte>)
    requires |s| == |s'| && offset + |bytes| <= |s|
    requires forall i :: 0 <= i < |s| ==> s'[i] == if offset <= i < offset + |bytes| then bytes[i - offset] else s[i]
    ensures s' == s[..offset] + bytes + s[offset + |bytes|..]
  {
  }
}
