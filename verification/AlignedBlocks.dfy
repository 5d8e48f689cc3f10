/** Allocating at an alignment: a larger block is taken and an address inside it handed out.
    The page then remembers that it has such addresses, and freeing one goes back to the start
    of its block. */
module AlignedBlocks {
  import opened Bits
  import opened BlockLookup
  import opened Options
  import opened Placement
  import opened SizeBins
  import opened SliceTable
  import opened Spans

  /** A page and its blocks, told by number.  `live` gives the block of each address that a
      client holds. */
  class PageBlocks {
    const at: Place
    const table: Slices
    ghost const layout: Layout
    var free: seq<nat>
    var localFree: seq<nat>
    var used: nat
    var hasAligned: bool
    ghost var live: map<nat, nat>

    ghost predicate Valid()
      reads this
    {
      && InUse(at, table, layout)
      && Good(at, free, localFree, hasAligned, live)
      && used == |live|
    }

    constructor (at: Place, table: Slices, ghost layout: Layout, free: seq<nat>)
      requires InUse(at, table, layout) && Distinct(free) && forall b :: b in free ==> at.Has(b)
      ensures Valid() && this.at == at && this.free == free && live == map[]
    {
      this.at, this.table, this.layout, this.free := at, table, layout, free;
      localFree, used, hasAligned, live := [], 0, false, map[];
      new;
      assert free + localFree == free;
    }

    /** Pop a block. */
    method Malloc() returns (p: Option<nat>)
      requires Valid()
      modifies this
      ensures Valid() && localFree == old(localFree) && hasAligned == old(hasAligned)
      ensures old(free) == [] ==> p.None? && free == old(free) && live == old(live)
      ensures old(free) != [] ==> p == Some(at.Block(old(free)[0])) && Took(old(free), old(live), free, live, p.value)
    {
      if free == [] { return None; }
      var b := free[0];
      p := Some(at.Block(b));
      used := used + 1;
      live := live[p.value := b];
      free := free[1..];
      StepNear(at, b, 0);
      TakeKeeps(at, old(free), localFree, hasAligned, old(live), free, hasAligned, live, p.value);
    }

    /** Take a block that is large enough for every step and step to the alignment. */
    method MallocAligned(size: nat, alignment: nat, offset: nat) returns (p: Option<nat>)
      requires Valid() && IsPow2(alignment) && alignment <= ALIGNMENT_MAX && size + alignment - 1 <= at.blockSize
      modifies this
      ensures Valid() && localFree == old(localFree)
      ensures old(free) == [] ==> p.None? && free == old(free) && live == old(live)
      ensures old(free) != [] ==> p.Some? && Took(old(free), old(live), free, live, p.value)
      ensures p.Some? ==> (p.value + offset) % alignment == 0
      ensures p.Some? ==> at.Block(old(free)[0]) <= p.value && p.value + size <= at.Block(old(free)[0]) + at.blockSize
    {
      if free == [] { return None; }
      var b := free[0];
      var block := at.Block(b);
      var adjust := Adjust(block, offset, alignment);
      AdjustFits(size, alignment, at.blockSize, adjust);
      p := Some(block + adjust);
      if p.value != block { hasAligned := true; }
      used := used + 1;
      live := live[p.value := b];
      free := free[1..];
      StepNear(at, b, adjust);
      TakeKeeps(at, old(free), localFree, old(hasAligned), old(live), free, hasAligned, live, p.value);
    }

    /** Free by address: the block that was taken comes back. */
    method Free(p: nat)
      requires Valid() && p in live
      modifies this
      ensures Valid() && free == old(free)
      ensures localFree == [old(live[p])] + old(localFree) && live == old(live) - {p}
      ensures hasAligned == (old(hasAligned) && live != map[])
    {
      ghost var b := live[p];
      WayBack(at, table, layout, free, localFree, hasAligned, live, p);
      assert SliceFirst(table, SliceAt(SegmentOf(p), p)) == at.index;
      var block := if hasAligned then at.Unalign(p) else p;
      var number := at.Number(block);
      localFree := [number] + localFree;
      used := used - 1;
      live := live - {p};
      if used == 0 { hasAligned := false; }
      FreeKeeps(at, free, old(localFree), old(hasAligned), old(live), localFree, hasAligned, live, p);
    }
  }

  /** Allocate so that `offset` bytes into the result the address is aligned: from the page
      for the size if the alignment is met there, otherwise from the page for the size and the
      largest step.  `exact` and `over` are those pages. */
  method MallocAlignedAt(size: nat, alignment: nat, offset: nat, exact: PageBlocks, over: PageBlocks)
    returns (p: Option<nat>, fromExact: bool)
    requires alignment <= ALIGNMENT_MAX
    requires exact.Valid() && Serves(exact.at.blockSize, size)
    requires over.Valid() && (alignment > 0 ==> Serves(over.at.blockSize, size + alignment - 1))
    modifies exact, over
    ensures exact.Valid() && over.Valid()
    ensures !IsPow2(alignment) || size > PTRDIFF_MAX ==> p.None?
    ensures p.None? ==> exact.live == old(exact.live) && over.live == old(over.live)
    ensures IsPow2(alignment) && size <= PTRDIFF_MAX && old(exact.free) != [] && old(over.free) != [] ==> p.Some?
    ensures p.Some? ==> (p.value + offset) % alignment == 0
    ensures p.Some? && fromExact ==>
      && Took(old(exact.free), old(exact.live), exact.free, exact.live, p.value)
      && Room(exact.at, old(exact.free)[0], p.value, size)
    ensures p.Some? && !fromExact ==>
      && Took(old(over.free), old(over.live), over.free, over.live, p.value)
      && Room(over.at, old(over.free)[0], p.value, size)
  {
    if alignment == 0 || !IsPow2(alignment) { return None, false; }
    if size > PTRDIFF_MAX { return None, false; }
    p, fromExact := MallocChecked(size, alignment, offset, exact, over);
  }

  /** The request is sound: try the first free block of the page for the size, then the fallback. */
  method MallocChecked(size: nat, alignment: nat, offset: nat, exact: PageBlocks, over: PageBlocks)
    returns (p: Option<nat>, fromExact: bool)
    requires IsPow2(alignment) && alignment <= ALIGNMENT_MAX
    requires exact.Valid() && Serves(exact.at.blockSize, size)
    requires over.Valid() && Serves(over.at.blockSize, size + alignment - 1)
    modifies exact, over
    ensures exact.Valid() && over.Valid()
    ensures p.None? ==> exact.live == old(exact.live) && over.live == old(over.live)
    ensures old(exact.free) != [] && old(over.free) != [] ==> p.Some?
    ensures p.Some? ==> (p.value + offset) % alignment == 0
    ensures p.Some? && fromExact ==>
      && Took(old(exact.free), old(exact.live), exact.free, exact.live, p.value)
      && Room(exact.at, old(exact.free)[0], p.value, size)
    ensures p.Some? && !fromExact ==>
      && Took(old(over.free), old(over.live), over.free, over.live, p.value)
      && Room(over.at, old(over.free)[0], p.value, size)
  {
    if size <= SMALL_SIZE_MAX && alignment <= size {
      if exact.free != [] && (exact.at.Block(exact.free[0]) + offset) % alignment == 0 {
        p := MallocFirst(size, exact);
        return p, true;
      }
    }
    p, fromExact := MallocAlignedFallback(size, alignment, offset, exact, over);
  }

  /** Take the first free block of the page for the size. */
  method MallocFirst(size: nat, exact: PageBlocks) returns (p: Option<nat>)
    requires exact.Valid() && Serves(exact.at.blockSize, size) && exact.free != []
    modifies exact
    ensures exact.Valid() && p == Some(exact.at.Block(old(exact.free)[0]))
    ensures Took(old(exact.free), old(exact.live), exact.free, exact.live, p.value)
    ensures Room(exact.at, old(exact.free)[0], p.value, size)
  {
    ServesFits(exact.at.blockSize, size);
    p := exact.Malloc();
  }

  /** Use the page for the size when all its blocks are aligned, and the page for the larger
      size otherwise. */
  method MallocAlignedFallback(size: nat, alignment: nat, offset: nat, exact: PageBlocks, over: PageBlocks)
    returns (p: Option<nat>, fromExact: bool)
    requires IsPow2(alignment) && alignment <= ALIGNMENT_MAX
    requires exact.Valid() && Serves(exact.at.blockSize, size)
    requires over.Valid() && Serves(over.at.blockSize, size + alignment - 1)
    modifies exact, over
    ensures exact.Valid() && over.Valid()
    ensures p.None? ==> exact.live == old(exact.live) && over.live == old(over.live)
    ensures old(exact.free) != [] && old(over.free) != [] ==> p.Some?
    ensures p.Some? ==> (p.value + offset) % alignment == 0
    ensures p.Some? && fromExact ==>
      && Took(old(exact.free), old(exact.live), exact.free, exact.live, p.value)
      && Room(exact.at, old(exact.free)[0], p.value, size)
    ensures p.Some? && !fromExact ==>
      && Took(old(over.free), old(over.live), over.free, over.live, p.value)
      && Room(over.at, old(over.free)[0], p.value, size)
  {
    if offset == 0 && alignment <= size && size <= MAX_ALIGN_GUARANTEE && size % alignment == 0 {
      p := MallocRegular(size, alignment, exact);
      return p, true;
    }
    p := MallocOver(size, alignment, offset, over);
    return p, false;
  }

  /** Over-allocate and step to the alignment. */
  method MallocOver(size: nat, alignment: nat, offset: nat, over: PageBlocks) returns (p: Option<nat>)
    requires IsPow2(alignment) && alignment <= ALIGNMENT_MAX
    requires over.Valid() && Serves(over.at.blockSize, size + alignment - 1)
    modifies over
    ensures over.Valid()
    ensures old(over.free) == [] ==> p.None? && over.live == old(over.live)
    ensures old(over.free) != [] ==>
      p.Some? && (p.value + offset) % alignment == 0
      && Took(old(over.free), old(over.live), over.free, over.live, p.value)
      && Room(over.at, old(over.free)[0], p.value, size)
  {
    ServesFits(over.at.blockSize, size + alignment - 1);
    p := over.MallocAligned(size, alignment, offset);
  }

  /** A small multiple of the alignment: every block of the page for the size is aligned. */
  method MallocRegular(size: nat, alignment: nat, exact: PageBlocks) returns (p: Option<nat>)
    requires IsPow2(alignment) && alignment <= size <= MAX_ALIGN_GUARANTEE && size % alignment == 0
    requires exact.Valid() && Serves(exact.at.blockSize, size)
    modifies exact
    ensures exact.Valid()
    ensures old(exact.free) == [] ==> p.None? && exact.live == old(exact.live)
    ensures old(exact.free) != [] ==>
      p.Some? && p.value % alignment == 0
      && Took(old(exact.free), old(exact.live), exact.free, exact.live, p.value)
      && Room(exact.at, old(exact.free)[0], p.value, size)
  {
    ServesFits(exact.at.blockSize, size);
    if exact.free != [] { RegularAligned(size, alignment, exact.at, exact.free[0]); }
    p := exact.Malloc();
  }

  /** A page that serves requests of `size` bytes. */
  predicate Serves(blockSize: nat, size: nat) {
    if Words(size) <= MEDIUM_WORDS then BinOf(Words(size)) <= FULL && blockSize == WORD * QueueSize(BinOf(Words(size)))
    else blockSize >= size
  }

  /** `size` bytes from `p` on lie in block `b`. */
  predicate Room(at: Place, b: nat, p: nat, size: nat) {
    at.Block(b) <= p && p + size <= at.Block(b) + at.blockSize
  }

  lemma ServesFits(blockSize: nat, size: nat)
    requires Serves(blockSize, size)
    ensures size <= blockSize
  {
    if 0 < Words(size) <= MEDIUM_WORDS { BinServes(Words(size)); }
  }

  /** Blocks for small multiples of the alignment are aligned already. */
  lemma RegularAligned(size: nat, alignment: nat, at: Place, b: nat)
    requires IsPow2(alignment) && alignment <= size <= MAX_ALIGN_GUARANTEE && size % alignment == 0
    requires at.Ok() && Serves(at.blockSize, size)
    ensures at.Block(b) % alignment == 0
  {
    AlignedSize(size, alignment, at.blockSize);
    PowDivides(alignment);
    BlockAligned(at, b, alignment);
  }

  lemma BlockAligned(at: Place, b: nat, alignment: nat)
    requires alignment > 0 && SEGMENT_SIZE % alignment == 0 && SLICE_SIZE % alignment == 0
    requires at.segment % SEGMENT_SIZE == 0
    requires at.blockSize % alignment == 0 && StartOffset(at.blockSize) % alignment == 0
    ensures at.Block(b) % alignment == 0
  {
    SegmentAligned(at.segment, alignment);
    MultipleOf(at.index, SLICE_SIZE, alignment);
    MultipleOf(b, at.blockSize, alignment);
    SumOfFour(at.segment, at.index * SLICE_SIZE, StartOffset(at.blockSize), b * at.blockSize, alignment);
  }

  lemma SegmentAligned(segment: nat, alignment: nat)
    requires segment % SEGMENT_SIZE == 0 && alignment > 0 && SEGMENT_SIZE % alignment == 0
    ensures segment % alignment == 0
  {
    var c := segment / SEGMENT_SIZE;
    assert segment == c * SEGMENT_SIZE;
    MultipleOf(c, SEGMENT_SIZE, alignment);
  }

  lemma SumOfFour(w: nat, x: nat, y: nat, z: nat, a: nat)
    requires a > 0 && w % a == 0 && x % a == 0 && y % a == 0 && z % a == 0
    ensures (w + x + y + z) % a == 0
  {
    SumAligned(w, x, a);
    SumAligned(w + x, y, a);
    SumAligned(w + x + y, z, a);
  }

  lemma MultipleOf(c: nat, y: nat, a: nat)
    requires a > 0 && y % a == 0
    ensures (c * y) % a == 0
  {
    var k := y / a;
    assert y == k * a;
    assert c * y == (c * k) * a;
    ModIs(c * k, 0, a);
  }

  lemma SumAligned(x: nat, y: nat, a: nat)
    requires a > 0 && x % a == 0 && y % a == 0
    ensures (x + y) % a == 0
  {
    var k, j := x / a, y / a;
    assert x == k * a && y == j * a;
    assert x + y == (k + j) * a;
    ModIs(k + j, 0, a);
  }

  lemma PowDivides(a: nat)
    requires IsPow2(a) && a <= MAX_ALIGN_GUARANTEE
    ensures a in {1, 2, 4, 8, 16, 32, 64, 128}
    ensures SLICE_SIZE % a == 0 && SEGMENT_SIZE % a == 0
  {
    HighBitMonotone(a, 128);
    HighBitIs(128, 7) by { assert Pow2(7) == 128 by { assert Pow2(3) == 8; } }
    var s := HighBit(a);
    assert s == 0 || s == 1 || s == 2 || s == 3 || s == 4 || s == 5 || s == 6 || s == 7;
    assert Pow2(0) == 1 && Pow2(1) == 2 && Pow2(2) == 4 && Pow2(3) == 8;
    assert Pow2(4) == 16 && Pow2(5) == 32 && Pow2(6) == 64;
  }

  /** Blocks for up to sixteen words are the size rounded up to two words. */
  lemma SmallBlock(w: nat)
    requires 0 < w <= 16
    ensures BinOf(w) <= FULL && QueueSize(BinOf(w)) == if w == 1 then 1 else (w + 1) / 2 * 2
  {
    if w > 8 {
      var q := (w - 1) / 2;
      assert Pow2(1) == 2;
      assert Times(q, 2) == q * 2;
      assert Parts(w - 1, 3, q);
      BinParts(w - 1, 3, q);
      BlockOf(3, q);
    }
  }

  /** A multiple of sixteen bytes gets a block of just that size. */
  lemma WholeSize(size: nat, s: nat)
    requires 0 < size <= MAX_ALIGN_GUARANTEE && size % 16 == 0 && Serves(s, size)
    ensures s == size
  {
    var k := size / 16;
    assert size == 16 * k && Words(size) == 2 * k;
    SmallBlock(2 * k);
    EvenUp(k);
    assert s == WORD * QueueSize(BinOf(2 * k));
  }

  lemma EvenUp(k: nat)
    ensures (2 * k + 1) / 2 * 2 == 2 * k
  {
  }

  lemma AlignedSize(size: nat, alignment: nat, s: nat)
    requires IsPow2(alignment) && alignment <= size <= MAX_ALIGN_GUARANTEE && size % alignment == 0
    requires Serves(s, size)
    ensures s % alignment == 0 && StartOffset(s) % alignment == 0
  {
    PowDivides(alignment);
    if alignment <= WORD {
      WholeWords(size, s);
      MultipleOf(s / WORD, WORD, alignment);
      assert s == s / WORD * WORD;
    } else {
      Sixteens(size, alignment);
      WholeSize(size, s);
    }
    MultipleOf(3, s, alignment);
  }

  lemma WholeWords(size: nat, s: nat)
    requires size <= MAX_ALIGN_GUARANTEE && Serves(s, size)
    ensures s % WORD == 0
  {
    var w := Words(size);
    assert w <= 16;
    var q := QueueSize(BinOf(w));
    assert s == WORD * q;
    WordMultiple(q);
  }

  lemma Sixteens(size: nat, alignment: nat)
    requires alignment in {16, 32, 64, 128} && size % alignment == 0
    ensures size % 16 == 0
  {
  }

  /** The page is a used span of its segment.  The slice array of a segment with one huge page is
      shorter than the page may be; what matters is that the first slices lead back. */
  ghost predicate InUse(at: Place, table: Slices, layout: Layout) {
    && at.Ok()
    && (if at.Normal() then
          && Tiles(layout, SLICES_PER_SEGMENT) && RecordedBut(table, layout, {})
          && at.index in layout && layout[at.index] == Span(at.slices, true)
        else Leads(table, at))
  }

  /** A step below the largest alignment from the start of a block, but inside the block. */
  lemma StepNear(at: Place, b: nat, step: nat)
    requires at.Ok() && at.Has(b) && step < ALIGNMENT_MAX && step < at.blockSize
    ensures at.InBlock(at.Block(b) + step, b) && at.Near(at.Block(b) + step)
  {
    if at.Normal() {
      NormalNear(at, b, at.Block(b) + step);
    } else {
      if b > 0 { TimesMore(b, at.blockSize); }
      assert b == 0 && at.Block(0) == at.segment + at.index * SLICE_SIZE;
    }
  }

  lemma TimesMore(b: nat, s: nat)
    requires b > 0
    ensures b * s >= s
  {
  }

  /** For every size there is a page that serves it: one of a normal segment up to half of a
      segment, otherwise a huge one.  So no request is without a page it can be made from. */
  lemma SomePage(size: nat, segment: nat) returns (at: Place)
    requires segment % SEGMENT_SIZE == 0
    ensures at.Ok() && at.Has(0) && Serves(at.blockSize, size)
    ensures at.Normal() <==> size <= ALIGNMENT_MAX
  {
    if Words(size) <= MEDIUM_WORDS {
      at := MediumPage(size, segment);
    } else {
      at := LargePage(size, segment);
    }
  }

  lemma MediumPage(size: nat, segment: nat) returns (at: Place)
    requires segment % SEGMENT_SIZE == 0 && Words(size) <= MEDIUM_WORDS
    ensures at.Ok() && at.Normal() && at.Has(0) && Serves(at.blockSize, size) && size <= ALIGNMENT_MAX
  {
    if size > 0 { BinServes(Words(size)); }
    var words := QueueSize(BinOf(Words(size)));
    assert words <= MEDIUM_WORDS;
    WordMultiple(words);
    at := Place(segment, 1, MAX_SLICE_OFFSET + 1, WORD * words);
    FirstFits(at);
  }

  lemma LargePage(size: nat, segment: nat) returns (at: Place)
    requires segment % SEGMENT_SIZE == 0 && Words(size) > MEDIUM_WORDS
    ensures at.Ok() && at.Has(0) && Serves(at.blockSize, size)
    ensures at.Normal() <==> size <= ALIGNMENT_MAX
  {
    var slices := (size + SLICE_SIZE - 1) / SLICE_SIZE;
    assert slices * SLICE_SIZE >= size && slices > 0;
    WordMultiple(slices * (SLICE_SIZE / WORD));
    at := Place(segment, 1, slices, slices * SLICE_SIZE);
    FirstFits(at);
  }

  lemma WordMultiple(k: nat)
    ensures (WORD * k) % WORD == 0
  {
  }

  /** The first block of a page lies in the page if there is room for it. */
  lemma FirstFits(at: Place)
    requires StartOffset(at.blockSize) + at.blockSize <= at.slices * SLICE_SIZE
    ensures at.Has(0)
  {
  }

  /** A held address lies in its block, which is not free; without the mark it is the start. */
  ghost predicate Held(at: Place, live: map<nat, nat>, free: seq<nat>, hasAligned: bool, p: nat) {
    p in live ==>
      at.InBlock(p, live[p]) && at.Near(p) && live[p] !in free && (hasAligned || p == at.Block(live[p]))
  }

  /** The first free block was handed out as address `p`. */
  ghost predicate Took(free: seq<nat>, live: map<nat, nat>, free': seq<nat>, live': map<nat, nat>, p: nat) {
    free != [] && free' == free[1..] && p !in live && live' == live[p := free[0]]
  }

  ghost predicate Good(at: Place, free: seq<nat>, localFree: seq<nat>, hasAligned: bool, live: map<nat, nat>) {
    && at.blockSize > 0
    && Distinct(free + localFree)
    && (forall b :: b in free + localFree ==> at.Has(b))
    && (forall p :: Held(at, live, free + localFree, hasAligned, p))
    && (forall p, q :: p in live && q in live && live[p] == live[q] ==> p == q)
  }

  lemma TakeKeeps(at: Place, free: seq<nat>, localFree: seq<nat>, hasAligned: bool, live: map<nat, nat>,
                  free': seq<nat>, hasAligned': bool, live': map<nat, nat>, p: nat)
    requires Good(at, free, localFree, hasAligned, live)
    requires free != [] && free' == free[1..] && live' == live[p := free[0]]
    requires at.InBlock(p, free[0]) && at.Near(p)
    requires hasAligned' == (hasAligned || p != at.Block(free[0]))
    ensures p !in live && |live'| == |live| + 1
    ensures Good(at, free', localFree, hasAligned', live')
  {
    var b := free[0];
    var all, rest := free + localFree, free' + localFree;
    assert all == [b] + rest;
    HeadDistinct(b, rest);
    assert Held(at, live, all, hasAligned, p);
    if p in live { OneBlock(at, p, b, live[p]); }
    forall q ensures Held(at, live', rest, hasAligned', q) && (q in live ==> live[q] != b) {
      assert Held(at, live, all, hasAligned, q);
      StillHeld(at, live, all, hasAligned, rest, hasAligned', p, b, q);
    }
    OneMoreKey(live, p, b);
  }

  lemma OneMoreKey(live: map<nat, nat>, p: nat, b: nat)
    requires p !in live
    ensures |live[p := b]| == |live| + 1
  {
    assert live[p := b].Keys == live.Keys + {p};
    assert |live[p := b].Keys| == |live.Keys| + 1;
  }

  /** The addresses held are held still when block `b` is taken for address `p`. */
  lemma StillHeld(at: Place, live: map<nat, nat>, all: seq<nat>, hasAligned: bool, rest: seq<nat>, hasAligned': bool,
                  p: nat, b: nat, q: nat)
    requires Held(at, live, all, hasAligned, q)
    requires b in all && b !in rest && forall x :: x in rest ==> x in all
    requires at.InBlock(p, b) && at.Near(p) && hasAligned' == (hasAligned || p != at.Block(b))
    ensures Held(at, live[p := b], rest, hasAligned', q) && (q in live ==> live[q] != b)
  {
  }

  lemma FreeKeeps(at: Place, free: seq<nat>, localFree: seq<nat>, hasAligned: bool, live: map<nat, nat>,
                  localFree': seq<nat>, hasAligned': bool, live': map<nat, nat>, p: nat)
    requires Good(at, free, localFree, hasAligned, live)
    requires p in live && localFree' == [live[p]] + localFree && live' == live - {p}
    requires hasAligned' == (hasAligned && |live| > 1)
    ensures |live'| == |live| - 1 && (|live| > 1 <==> live' != map[])
    ensures Good(at, free, localFree', hasAligned', live')
  {
    var b := live[p];
    var all, more := free + localFree, free + localFree';
    assert Held(at, live, all, hasAligned, p);
    forall x ensures x in more <==> x == b || x in all {
      assert x in more <==> x in free || x in localFree';
      assert x in all <==> x in free || x in localFree;
    }
    InsertDistinct(free, b, localFree);
    assert live'.Keys == live.Keys - {p};
    assert |live'.Keys| == |live.Keys| - 1;
    forall q ensures Held(at, live', more, hasAligned', q) {
      assert Held(at, live, all, hasAligned, q);
      assert q in live' ==> live' != map[];
    }
  }

  /** The address of a held block leads back to the page and to the block's number. */
  lemma WayBack(at: Place, table: Slices, layout: Layout, free: seq<nat>, localFree: seq<nat>, hasAligned: bool,
                live: map<nat, nat>, p: nat)
    requires InUse(at, table, layout) && Good(at, free, localFree, hasAligned, live) && p in live
    ensures p >= at.Start() && p > 0 && SegmentOf(p) == at.segment && at.segment <= p
    ensures SliceAt(at.segment, p) < |table.offset| && SliceFirst(table, SliceAt(at.segment, p)) == at.index
    ensures (if hasAligned then at.Unalign(p) else p) == at.Block(live[p])
    ensures at.Number(at.Block(live[p])) == live[p]
  {
    assert Held(at, live, free + localFree, hasAligned, p);
    if at.Normal() { NormalLeads(table, layout, SLICES_PER_SEGMENT, at); }
    MapsBack(table, at, live[p], p);
    DivIs(live[p], 0, at.blockSize);
  }

  lemma OneBlock(at: Place, p: nat, b: nat, c: nat)
    requires at.blockSize > 0 && at.InBlock(p, b) && at.InBlock(p, c)
    ensures b == c
  {
    DivIs(b, p - at.Block(b), at.blockSize);
    DivIs(c, p - at.Block(c), at.blockSize);
  }

  lemma HeadDistinct(b: nat, rest: seq<nat>)
    requires Distinct([b] + rest)
    ensures Distinct(rest) && b !in rest
    ensures b in [b] + rest && forall x :: x in rest ==> x in [b] + rest
  {
    var all := [b] + rest;
    forall i | 0 <= i < |rest| ensures all[i + 1] == rest[i] && rest[i] != b {
      assert all[0] != all[i + 1];
    }
    forall i, j | 0 <= i < j < |rest| ensures rest[i] != rest[j] {
      assert all[i + 1] != all[j + 1];
    }
    assert all[0] == b;
  }

  lemma InsertDistinct(s: seq<nat>, b: nat, r: seq<nat>)
    requires Distinct(s + r) && b !in s + r
    ensures Distinct(s + ([b] + r))
  {
    var all, more := s + r, s + ([b] + r);
    forall i, j | 0 <= i < j < |more| ensures more[i] != more[j] {
      assert i != |s| ==> more[i] == all[if i < |s| then i else i - 1];
      assert j != |s| ==> more[j] == all[if j < |s| then j else j - 1];
    }
  }
}
