/** From an address back to the block it lies in.  Segments are aligned to their size; inside
    a segment the slice array leads from any slice of a page back to the page, and inside a
    page the block size leads back to the start of the block.  An aligned allocation hands out
    an address inside a block, so freeing it depends on the way back. */
module BlockLookup {
  import opened Bits
  import opened SizeBins
  import opened SliceTable
  import opened Spans

  const SEGMENT_SIZE: nat := SLICES_PER_SEGMENT * SLICE_SIZE
  const ALIGNMENT_MAX: nat := SEGMENT_SIZE / 2
  const MAX_ALIGN_GUARANTEE: nat := 128
  const WORD: nat := 8
  const SMALL_SIZE_MAX: nat := SMALL_WORDS * WORD
  const PTRDIFF_MAX: nat := 0x7fff_ffff_ffff_ffff

  /** The segment of an address: one byte before it is aligned down. */
  function SegmentOf(p: nat): nat
    requires p > 0
  {
    (p - 1) / SEGMENT_SIZE * SEGMENT_SIZE
  }

  /** The first slice of the span that slice `k` lies in. */
  function SliceFirst(t: Slices, k: nat): int
    requires k < |t.offset|
  {
    k - t.offset[k]
  }

  /** The slice that an address of the segment lies in. */
  function SliceAt(segment: nat, p: nat): nat
    requires segment <= p
  {
    (p - segment) / SLICE_SIZE
  }

  /** Pages of small blocks do not start at the start of a slice. */
  function StartOffset(size: nat): nat {
    if size < WORD then 0 else if size <= 64 then 3 * size else if size <= 512 then size else 0
  }

  /** Where a page's blocks lie in memory. */
  datatype Place = Place(segment: nat, index: nat, slices: nat, blockSize: nat) {
    function Start(): nat {
      segment + index * SLICE_SIZE + StartOffset(blockSize)
    }

    /** A page comes after the segment information and is one of the two kinds. */
    predicate Ok() {
      && segment % SEGMENT_SIZE == 0 && blockSize > 0 && blockSize % WORD == 0
      && 0 < index && 0 < slices && (Normal() || Huge())
    }

    /** A page of a normal segment: it has at most half of the slices. */
    predicate Normal() {
      index + slices <= SLICES_PER_SEGMENT && slices <= MAX_SLICE_OFFSET + 1
    }

    /** The only page of a segment of its own, for a block of any size: the segment may be longer
        than its slice array tells, but the page begins in its first half. */
    predicate Huge() {
      index + MAX_SLICE_OFFSET < SLICES_PER_SEGMENT && blockSize == slices * SLICE_SIZE
    }

    /** Less than the largest alignment behind the first slice of the page: an address that an
        aligned allocation can hand out. */
    predicate Near(p: nat) {
      p < segment + index * SLICE_SIZE + ALIGNMENT_MAX
    }

    function Block(b: nat): (r: nat)
      ensures r >= Start()
    {
      Start() + b * blockSize
    }

    /** The number of the block that starts at `p`. */
    function Number(p: nat): nat
      requires blockSize > 0 && Start() <= p
    {
      (p - Start()) / blockSize
    }

    /** Block `b` lies inside the page. */
    predicate Has(b: nat) {
      StartOffset(blockSize) + b * blockSize + blockSize <= slices * SLICE_SIZE
    }

    predicate InBlock(p: nat, b: nat) {
      Has(b) && Block(b) <= p < Block(b) + blockSize
    }

    /** The start of the block an address lies in. */
    function Unalign(p: nat): nat
      requires blockSize > 0 && Start() <= p
    {
      p - (p - Start()) % blockSize
    }
  }

  // ---------------------------------------------------------------- the way back

  lemma ModIs(q: nat, r: nat, p: nat)
    requires r < p
    ensures (q * p + r) % p == r
  {
    DivIs(q, r, p);
    var n := q * p + r;
    assert n == n / p * p + n % p;
  }

  /** The first slices of the page lead back to its start, all of a page of a normal segment. */
  ghost predicate Leads(t: Slices, at: Place) {
    forall k: nat :: at.index <= k < at.index + at.slices && k <= at.index + MAX_SLICE_OFFSET ==>
      LeadsTo(t, k, at.index)
  }

  predicate LeadsTo(t: Slices, k: nat, index: nat) {
    k < |t.offset| && SliceFirst(t, k) == index
  }

  lemma NormalLeads(t: Slices, m: Layout, n: nat, at: Place)
    requires Tiles(m, n) && RecordedBut(t, m, {})
    requires at.index in m && m[at.index] == Span(at.slices, true)
    ensures Leads(t, at)
  {
    assert RecordsBut(t, m, {}, at.index);
  }

  /** The offsets of the slices of a huge page: the first ones and the last one point back, as far
      as there are entries; the slice array has one more than a segment has slices. */
  method MarkHuge(offset: array<nat>, at: Place)
    requires at.Ok() && at.Huge() && offset.Length == SLICES_PER_SEGMENT + 1
    modifies offset
    ensures forall t: Slices :: t.offset == offset[..] ==> Leads(t, at)
    ensures forall k :: 0 <= k < offset.Length && !(at.index <= k < at.index + at.slices) ==>
      offset[k] == old(offset[k])
  {
    var i := at.index;
    offset[i] := 0;
    var extra := at.slices - 1;
    if extra > MAX_SLICE_OFFSET { extra := MAX_SLICE_OFFSET; }
    if i + extra >= SLICES_PER_SEGMENT { extra := SLICES_PER_SEGMENT - i - 1; }
    for k := 1 to extra + 1
      invariant forall b :: i <= b < i + k ==> offset[b] == b - i
      invariant forall b :: 0 <= b < offset.Length && !(i <= b < i + at.slices) ==> offset[b] == old(offset[b])
    {
      offset[i + k] := k;
    }
    var last := i + at.slices - 1;
    if last > SLICES_PER_SEGMENT { last := SLICES_PER_SEGMENT; }
    if last > i { offset[last] := last - i; }
    forall t: Slices | t.offset == offset[..]
      ensures Leads(t, at)
    {
      OffsetsLead(t, at);
    }
  }

  lemma OffsetsLead(t: Slices, at: Place)
    requires at.index + MAX_SLICE_OFFSET < |t.offset|
    requires forall k :: at.index <= k < at.index + at.slices && k <= at.index + MAX_SLICE_OFFSET ==>
      t.offset[k] == k - at.index
    ensures Leads(t, at)
  {
  }

  /** Any address that can be handed out inside a block of a page leads to the segment, the page
      and the block. */
  lemma MapsBack(t: Slices, at: Place, b: nat, p: nat)
    requires at.Ok() && Leads(t, at) && at.InBlock(p, b) && at.Near(p)
    ensures at.segment < p && SegmentOf(p) == at.segment
    ensures var k := SliceAt(at.segment, p); k < |t.offset| && SliceFirst(t, k) == at.index
    ensures at.Unalign(p) == at.Block(b)
  {
    SegmentBack(at, b, p);
    SliceBack(t, at, b, p);
    ModIs(b, p - at.Block(b), at.blockSize);
  }

  /** In a page of a normal segment that is any address of a block. */
  lemma NormalNear(at: Place, b: nat, p: nat)
    requires at.Ok() && at.Normal() && at.InBlock(p, b)
    ensures at.Near(p)
  {
    var d := InPage(at, b, p);
  }

  /** The largest alignment is the reason for the number of slices that lead back: an address is
      near exactly when it lies in one of them. */
  lemma NearSlices(at: Place, p: nat)
    requires at.segment + at.index * SLICE_SIZE <= p
    ensures at.Near(p) <==> SliceAt(at.segment, p) <= at.index + MAX_SLICE_OFFSET
  {
    var d := p - at.segment - at.index * SLICE_SIZE;
    assert SliceAt(at.segment, p) == at.index + d / SLICE_SIZE;
  }

  /** How far into the page an address is. */
  lemma InPage(at: Place, b: nat, p: nat) returns (d: nat)
    requires at.Ok() && at.InBlock(p, b)
    ensures p == at.segment + at.index * SLICE_SIZE + d && d < at.slices * SLICE_SIZE
  {
    d := StartOffset(at.blockSize) + b * at.blockSize + (p - at.Block(b));
  }

  lemma SegmentBack(at: Place, b: nat, p: nat)
    requires at.Ok() && at.InBlock(p, b) && at.Near(p)
    ensures at.segment < p && SegmentOf(p) == at.segment
  {
    var d := InPage(at, b, p);
    var c := at.segment / SEGMENT_SIZE;
    assert at.segment == c * SEGMENT_SIZE;
    DivIs(c, at.index * SLICE_SIZE + d - 1, SEGMENT_SIZE);
  }

  lemma SliceBack(t: Slices, at: Place, b: nat, p: nat)
    requires at.Ok() && at.InBlock(p, b) && at.Near(p) && Leads(t, at)
    ensures at.segment <= p && SliceAt(at.segment, p) < |t.offset| && SliceFirst(t, SliceAt(at.segment, p)) == at.index
  {
    var d := InPage(at, b, p);
    NearSlices(at, p);
    var k := SliceAt(at.segment, p);
    assert at.index <= k < at.index + at.slices && LeadsTo(t, k, at.index);
  }

  /** Which slices of a page are sure to lead back to its start: the first 256 and the last.
      Pages of normal segments have no others; in a longer page the slices between are not
      written, and whatever they held before stays. */
  lemma WhoPointsBack(count: nat, k: nat)
    requires 0 < k < count
    ensures (forall t: Slices :: Records(t, 0, Span(count, true)) ==> SliceFirst(t, k) == 0) <==>
      k <= MAX_SLICE_OFFSET || k == count - 1
  {
    if MAX_SLICE_OFFSET < k < count - 1 {
      var t := Slices(seq(count, i => if i == 0 then count else 0),
                      seq(count, i => if i == k then 0 else i),
                      seq(count, i => 1));
      assert Records(t, 0, Span(count, true)) && SliceFirst(t, k) == k;
    }
  }

  // ---------------------------------------------------------------- alignment

  predicate IsPow2(a: nat) {
    a > 0 && Pow2(HighBit(a)) == a
  }

  function Words(size: nat): nat {
    (size + WORD - 1) / WORD
  }

  /** The smallest step up from `p` that brings `p + offset` to a multiple of `alignment`. */
  function Adjust(p: nat, offset: nat, alignment: nat): (r: nat)
    requires alignment > 0
    ensures r < alignment && (p + r + offset) % alignment == 0
  {
    var over := (p + offset) % alignment;
    var r := if over == 0 then 0 else alignment - over;
    AdjustLands(p + offset, r, alignment);
    r
  }

  lemma AdjustLands(x: nat, r: nat, a: nat)
    requires a > 0 && r == if x % a == 0 then 0 else a - x % a
    ensures (x + r) % a == 0
  {
    var q := x / a;
    assert x == q * a + x % a;
    if r > 0 {
      assert x + r == (q + 1) * a;
      ModIs(q + 1, 0, a);
    }
  }

  /** A block that has room for the size and for any step leaves room after the step, even for
      a request of no bytes. */
  lemma AdjustFits(size: nat, alignment: nat, blockSize: nat, r: nat)
    requires IsPow2(alignment) && r < alignment && blockSize > 0 && blockSize % WORD == 0
    requires size + alignment - 1 <= blockSize
    ensures r + size <= blockSize && r < blockSize
  {
    Pow2Words(HighBit(alignment));
  }

  lemma Pow2Words(s: nat)
    ensures Pow2(s) % WORD == 0 || Pow2(s) < WORD
  {
    if s >= 3 {
      assert Pow2(s) == 2 * Pow2(s - 1) == 4 * Pow2(s - 2) == 8 * Pow2(s - 3);
    } else {
      assert Pow2(0) == 1 && Pow2(1) == 2 && Pow2(2) == 4;
    }
  }
}
