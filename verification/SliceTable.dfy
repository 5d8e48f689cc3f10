/** The slice array of a segment records where each span starts, how long it is and how to get
    back to its start; the free spans of the segments of a thread are on queues by size.  This
    module says what the array and the queues hold for a given layout, and how one change of
    a span carries over to both. */
module SliceTable {
  import opened Bits
  import opened LinkedQueues
  import opened Spans
  import opened CommitMasks

  const SLICE_SIZE: nat := 65536
  const SLICES_PER_SEGMENT: nat := BITS
  /** How many slices after the first of a page point back to it. */
  const MAX_SLICE_OFFSET: nat := 255
  const BIN_MAX: nat := 35

  datatype Slice = Slice(segment: nat, index: nat)

  type SpanQueues = Queues<nat, Slice>

  // ---------------------------------------------------------------- bins

  /** The queue for spans of `count` slices: exact up to 8, then four per doubling. */
  function SliceBin(count: nat): (bin: nat) {
    if count <= 1 then count else
    var n := count - 1;
    var s := HighBit(n);
    if s <= 2 then n + 1 else
    4 * s + (n / Pow2(s - 2)) % 4 - 4
  }

  /** Beyond 8 slices the bin is told by the highest bit and the two bits after it. */
  lemma SliceBinBig(count: nat) returns (s: nat, q: nat)
    requires count > 8
    ensures s == HighBit(count - 1) > 2 && q == (count - 1) / Pow2(s - 2) && 4 <= q < 8
    ensures SliceBin(count) == 4 * s + q - 8
  {
    HighBitMonotone(8, count - 1);
    assert HighBit(8) == 3;
    s := HighBit(count - 1);
    TopBits(count - 1);
    q := (count - 1) / Pow2(s - 2);
    BinFromTop(count, s, q);
  }

  lemma BinFromTop(count: nat, s: nat, q: nat)
    requires count > 8 && s == HighBit(count - 1) > 2 && q == (count - 1) / Pow2(s - 2) && 4 <= q < 8
    ensures SliceBin(count) == 4 * s + q - 8
  {
    LowTwo(q);
  }

  lemma LowTwo(q: nat)
    requires 4 <= q < 8
    ensures q % 4 == q - 4
  {
  }

  lemma SliceBinExact(count: nat)
    requires count <= 8
    ensures SliceBin(count) == count
  {
    if count > 1 {
      HighBitMonotone(count - 1, 7);
      assert HighBit(7) == 2;
    }
  }

  lemma BigBinMonotone(a: nat, b: nat)
    requires 8 < a <= b
    ensures SliceBin(a) <= SliceBin(b)
  {
    var s, q := SliceBinBig(a);
    var s', q' := SliceBinBig(b);
    HighBitMonotone(a - 1, b - 1);
    if s == s' { DivMonotone(a - 1, b - 1, Pow2(s - 2)); }
    assert 4 * s + q <= 4 * s' + q';
  }

  /** A longer span never goes in an earlier queue. */
  lemma SliceBinMonotone(a: nat, b: nat)
    requires a <= b
    ensures SliceBin(a) <= SliceBin(b)
  {
    if a > 8 {
      BigBinMonotone(a, b);
    } else {
      SliceBinExact(a);
      if b > 8 {
        var s, q := SliceBinBig(b);
      } else {
        SliceBinExact(b);
      }
    }
  }

  lemma SliceBinMax(count: nat)
    requires count <= SLICES_PER_SEGMENT
    ensures SliceBin(count) <= 31 < BIN_MAX
  {
    SliceBinMonotone(count, SLICES_PER_SEGMENT);
    assert HighBit(511) == 8;
    assert Pow2(6) == 64;
  }

  // ---------------------------------------------------------------- the slice array

  /** Every slice of a page is committed and none is scheduled to be given back. */
  ghost predicate Backed(m: Layout, masks: CommitState)
    reads masks, masks.commit, masks.purge
  {
    forall i: nat, k: nat :: Within(m, i, k) && m[i].used ==>
      && k < masks.commit.Length && masks.commit[k]
      && k < masks.purge.Length && !masks.purge[k]
  }

  predicate Committed(commit: seq<bool>, i: nat, c: nat) {
    i + c <= |commit| && forall k :: i <= k < i + c ==> commit[k]
  }

  /** The contents of the slice array. */
  datatype Slices = Slices(count: seq<nat>, offset: seq<nat>, blockSize: seq<nat>) {
    predicate Ok(entries: nat) {
      |count| == |offset| == |blockSize| == entries
    }
  }

  /** The slice array records a span: the first slice holds its length, the last one the way
      back to the first, and the first 255 slices of a page point back to the first. */
  ghost predicate Records(t: Slices, i: nat, s: Span) {
    && t.Ok(|t.count|)
    && s.count > 0 && i + s.count <= |t.count|
    && t.count[i] == s.count && t.offset[i] == 0 && (t.blockSize[i] > 0 <==> s.used)
    && (s.count > 1 ==>
          var l := i + s.count - 1;
          t.count[l] == 0 && t.offset[l] == s.count - 1 && (t.blockSize[l] > 0 <==> s.used))
    && (s.used ==> forall k :: i < k <= i + MAX_SLICE_OFFSET && k < i + s.count ==>
          t.count[k] == 0 && t.offset[k] == k - i && t.blockSize[k] == 1)
  }

  ghost predicate RecordsBut(t: Slices, m: Layout, holes: set<nat>, j: nat) {
    j in m && j !in holes ==> Records(t, j, m[j])
  }

  /** All spans of `m` but those at `holes` are recorded. */
  ghost predicate RecordedBut(t: Slices, m: Layout, holes: set<nat>) {
    forall j :: RecordsBut(t, m, holes, j)
  }

  lemma FillHole(t: Slices, m: Layout, holes: set<nat>, i: nat)
    requires RecordedBut(t, m, holes) && i in m && Records(t, i, m[i])
    ensures RecordedBut(t, m, holes - {i})
  {
    forall j
      ensures RecordsBut(t, m, holes - {i}, j)
    {
      assert RecordsBut(t, m, holes, j);
    }
  }

  /** A hole may be free or used. */
  lemma UsedRecorded(t: Slices, m: Layout, l: Layout, i: nat)
    requires RecordedBut(t, m, {i}) && Agree(m, l, i, 1)
    ensures RecordedBut(t, l, {i})
  {
    forall j: nat
      ensures RecordsBut(t, l, {i}, j)
    {
      assert RecordsBut(t, m, {i}, j) && (j == i || SameAt(m, l, j));
    }
  }

  /** A span taken off its queue is a hole. */
  lemma RemovedRecorded(t: Slices, t': Slices, m: Layout, n: nat, i: nat)
    requires Tiles(m, n) && i in m && RecordedBut(t, m, {}) && SameOutside(t, t', i, 1)
    ensures RecordedBut(t', m, {i})
  {
    forall j: nat
      ensures RecordsBut(t, m, {i}, j)
    {
      assert RecordsBut(t, m, {}, j);
    }
    assert Fits(m, n, i);
    OthersRecorded(t, t', m, n, i, {i});
  }

  /** The array differs only in the slices `i..i+c`. */
  ghost predicate SameOutside(t: Slices, t': Slices, i: nat, c: nat) {
    && t.Ok(|t.count|) && t'.Ok(|t.count|)
    && (forall b :: 0 <= b < |t.count| && !(i <= b < i + c) ==>
          t'.count[b] == t.count[b] && t'.offset[b] == t.offset[b] && t'.blockSize[b] == t.blockSize[b])
  }

  /** Writing inside one span of a tiling leaves the records of the others alone. */
  lemma OthersRecorded(t: Slices, t': Slices, m: Layout, n: nat, i: nat, holes: set<nat>)
    requires Tiles(m, n) && i in m && i in holes
    requires RecordedBut(t, m, holes) && SameOutside(t, t', i, m[i].count)
    ensures RecordedBut(t', m, holes)
  {
    assert Fits(m, n, i);
    forall j
      ensures RecordsBut(t', m, holes, j)
    {
      assert Fits(m, n, j) && RecordsBut(t, m, holes, j);
    }
  }

  ghost predicate QueueFits(sh: Shape<nat, Slice>, id: nat, m: Layout, j: nat) {
    Slice(id, j) in sh.spot ==> j in m && !m[j].used && sh.spot[Slice(id, j)].0 == SliceBin(m[j].count)
  }

  /** The queued slices of segment `id` are free spans of `m`, each on the queue for its size. */
  ghost predicate QueuesOnly(sh: Shape<nat, Slice>, id: nat, m: Layout) {
    forall j: nat :: QueueFits(sh, id, m, j)
  }

  predicate Inside(sl: Slice, id: nat, s: nat, c: nat) {
    sl.segment == id && s <= sl.index < s + c
  }

  /** From `sh` to `sh'`, the free span `s` of `c` slices replaced whatever was queued inside it. */
  ghost predicate Requeued(sh: Shape<nat, Slice>, sh': Shape<nat, Slice>, id: nat, owned: bool, s: nat, c: nat) {
    && SameQueues(sh, sh', id, s, c)
    && (forall sl: Slice :: Inside(sl, id, s, c) ==>
          (sl in sh'.spot <==> owned && sl.index == s) && (sl in sh'.spot ==> sh'.spot[sl].0 == SliceBin(c)))
  }

  /** What is queued outside the slices `s..s+c` of the segment is queued where it was. */
  ghost predicate SameQueues(sh: Shape<nat, Slice>, sh': Shape<nat, Slice>, id: nat, s: nat, c: nat) {
    forall sl: Slice :: Inside(sl, id, s, c) || SameQueue(sh, sh', sl)
  }

  ghost predicate SameQueue(sh: Shape<nat, Slice>, sh': Shape<nat, Slice>, sl: Slice) {
    (sl in sh'.spot <==> sl in sh.spot) && (sl in sh.spot ==> sh'.spot[sl].0 == sh.spot[sl].0)
  }

  /** Which slices are backed depends on the pages only. */
  lemma SamePagesBacked(m: Layout, l: Layout, masks: CommitState)
    requires Pages(m) == Pages(l) && Backed(m, masks)
    ensures Backed(l, masks)
  {
    forall i: nat, k: nat | Within(l, i, k) && l[i].used
      ensures k < masks.commit.Length && masks.commit[k] && k < masks.purge.Length && !masks.purge[k]
    {
      assert i in Pages(l) && Pages(m)[i] == Pages(l)[i];
      assert Within(m, i, k);
    }
  }

  ghost predicate QueuedIff(sh: Shape<nat, Slice>, id: nat, owned: bool, m: Layout, limit: nat, j: nat) {
    && (Slice(id, j) in sh.spot <==> owned && j in m && !m[j].used && j < limit)
    && (Slice(id, j) in sh.spot ==> sh.spot[Slice(id, j)].0 == SliceBin(m[j].count))
  }

  /** Exactly the free spans that start before `limit` are queued, each on the queue for its
      size (none when nobody owns the segment). */
  ghost predicate QueuedBelow(sh: Shape<nat, Slice>, id: nat, owned: bool, m: Layout, limit: nat) {
    forall j: nat :: QueuedIff(sh, id, owned, m, limit, j)
  }

  /** Around a span that has been freed and queued, the queues are right if they were right
      outside it.  A walk that has reached `limit` goes on at the end of the span. */
  lemma QueuedAfter(sh: Shape<nat, Slice>, sh': Shape<nat, Slice>, n: nat, id: nat, owned: bool,
                    m: Layout, m': Layout, s: nat, limit: nat, limit': nat)
    requires Tiles(m', n) && s in m' && !m'[s].used
    requires Agree(m, m', s, m'[s].count) && Requeued(sh, sh', id, owned, s, m'[s].count)
    requires forall j: nat :: s <= j < s + m'[s].count || QueuedIff(sh, id, owned, m, limit, j)
    requires limit == limit' >= s + m'[s].count || s <= limit <= s + m'[s].count == limit'
    ensures QueuedBelow(sh', id, owned, m', limit')
  {
    var c := m'[s].count;
    assert Fits(m', n, s);
    forall j: nat
      ensures QueuedIff(sh', id, owned, m', limit', j)
    {
      assert Fits(m', n, j);
      if Inside(Slice(id, j), id, s, c) {
      } else {
        assert QueuedIff(sh, id, owned, m, limit, j) && SameAt(m, m', j) && SameQueue(sh, sh', Slice(id, j));
      }
    }
  }

  /** The queues after a page has been cut from the free span `i`: `sh1` has the span removed,
      `sh'` has what is left of it. */
  lemma QueuedAfterSplit(sh: Shape<nat, Slice>, sh1: Shape<nat, Slice>, sh': Shape<nat, Slice>, n: nat, id: nat,
                         m: Layout, m': Layout, i: nat, c: nat)
    requires Tiles(m, n) && i in m && !m[i].used && 0 < c <= m[i].count && m' == Mark(Split(m, i, c), i, true)
    requires QueuedBelow(sh, id, true, m, n)
    requires Slice(id, i) !in sh1.spot && SameQueues(sh, sh1, id, i, 1)
    requires if c < m[i].count then Added(sh1, sh', Slice(id, i + c), SliceBin(m[i].count - c)) else sh' == sh1
    ensures QueuedBelow(sh', id, true, m', n)
  {
    assert Fits(m, n, i);
    forall j: nat
      ensures QueuedIff(sh', id, true, m', n, j)
    {
      assert Fits(m, n, j) && QueuedIff(sh, id, true, m, n, j);
      assert Inside(Slice(id, j), id, i, 1) || SameQueue(sh, sh1, Slice(id, j));
      if c < m[i].count {
        assert AddedAt(sh1, sh', Slice(id, i + c), SliceBin(m[i].count - c), Slice(id, j));
      }
    }
  }

  /** Queue changes at slices of the segment leave the other segments' spans where they are. */
  ghost predicate OthersQueued(sh: Shape<nat, Slice>, sh': Shape<nat, Slice>, id: nat) {
    forall sl: Slice :: sl.segment == id || SameQueue(sh, sh', sl)
  }

  lemma OthersTwice(sh: Shape<nat, Slice>, sh1: Shape<nat, Slice>, sh2: Shape<nat, Slice>, id: nat)
    requires OthersQueued(sh, sh1, id) && OthersQueued(sh1, sh2, id)
    ensures OthersQueued(sh, sh2, id)
  {
    forall sl: Slice
      ensures sl.segment == id || SameQueue(sh, sh2, sl)
    {
      assert sl.segment == id || (SameQueue(sh, sh1, sl) && SameQueue(sh1, sh2, sl));
    }
  }

  lemma OthersRequeued(sh: Shape<nat, Slice>, sh': Shape<nat, Slice>, id: nat, owned: bool, s: nat, c: nat)
    requires Requeued(sh, sh', id, owned, s, c)
    ensures OthersQueued(sh, sh', id)
  {
    forall sl: Slice
      ensures sl.segment == id || SameQueue(sh, sh', sl)
    {
      assert Inside(sl, id, s, c) || SameQueue(sh, sh', sl);
    }
  }

  lemma OthersOutside(sh: Shape<nat, Slice>, sh': Shape<nat, Slice>, id: nat, i: nat, c: nat)
    requires SameQueues(sh, sh', id, i, c)
    ensures OthersQueued(sh, sh', id)
  {
    forall sl: Slice
      ensures sl.segment == id || SameQueue(sh, sh', sl)
    {
      assert Inside(sl, id, i, c) || SameQueue(sh, sh', sl);
    }
  }

  ghost predicate AddedAt(sh: Shape<nat, Slice>, sh': Shape<nat, Slice>, x: Slice, bin: nat, sl: Slice) {
    if sl == x then sl in sh'.spot && sh'.spot[sl].0 == bin else SameQueue(sh, sh', sl)
  }

  /** One more slice is queued. */
  ghost predicate Added(sh: Shape<nat, Slice>, sh': Shape<nat, Slice>, x: Slice, bin: nat) {
    forall sl: Slice :: AddedAt(sh, sh', x, bin, sl)
  }

  lemma PushedAdds(sh: Shape<nat, Slice>, x: Slice, bin: nat)
    requires ShapeOk(sh) && x !in sh.spot
    ensures Added(sh, Pushed(sh, bin, x), x, bin)
  {
    forall sl: Slice
      ensures AddedAt(sh, Pushed(sh, bin, x), x, bin, sl)
    {
    }
  }

  lemma OthersAdded(sh: Shape<nat, Slice>, sh': Shape<nat, Slice>, id: nat, j: nat, bin: nat)
    requires Added(sh, sh', Slice(id, j), bin)
    ensures OthersQueued(sh, sh', id)
  {
    forall sl: Slice
      ensures sl.segment == id || SameQueue(sh, sh', sl)
    {
      assert AddedAt(sh, sh', Slice(id, j), bin, sl);
    }
  }

  /** A page beside the segment information: freeing it leaves one page less. */
  lemma PageCount(m: Layout, i: nat)
    requires 0 in Pages(m) && i in Pages(m) && i != 0
    ensures |Pages(m)| >= 2 && |Pages(m) - {i}| == |Pages(m)| - 1
  {
    var one := Pages(m) - {i};
    assert 0 in one;
    assert Pages(m) == one[i := Pages(m)[i]];
  }

  /** The queues after the span `i` has been freed and merged into the span `s`. */
  lemma WalkQueued(sh: Shape<nat, Slice>, sh': Shape<nat, Slice>, n: nat, id: nat, owned: bool, m: Layout, m': Layout,
                   i: nat, s: nat, limit: nat)
    requires Tiles(m', n) && s in m' && !m'[s].used && s <= i < s + m'[s].count
    requires QueuedBelow(sh, id, owned, m, limit) && (limit == n || limit == i)
    requires Agree(m, m', s, m'[s].count) && Requeued(sh, sh', id, owned, s, m'[s].count)
    ensures QueuedBelow(sh', id, owned, m', if limit == n then n else s + m'[s].count)
  {
    assert Fits(m', n, s);
    forall j: nat
      ensures s <= j < s + m'[s].count || QueuedIff(sh, id, owned, m, limit, j)
    {
      assert QueuedIff(sh, id, owned, m, limit, j);
    }
    QueuedAfter(sh, sh', n, id, owned, m, m', s, limit, if limit == n then n else s + m'[s].count);
  }

  /** Fewer pages need fewer slices. */
  lemma ClearedBacked(m: Layout, l: Layout, i: nat, masks: CommitState)
    requires i in m && l == Mark(m, i, false) && Backed(m, masks)
    ensures Backed(l, masks)
  {
    forall j: nat, k: nat | Within(l, j, k) && l[j].used
      ensures k < masks.commit.Length && masks.commit[k] && k < masks.purge.Length && !masks.purge[k]
    {
      assert Within(m, j, k);
    }
  }

  /** A page is not queued, so it is loose once it is marked free. */
  lemma ClearedLoose(sh: Shape<nat, Slice>, id: nat, owned: bool, m: Layout, i: nat, limit: nat)
    requires i in m && QueuedBelow(sh, id, owned, m, limit) && (m[i].used || limit <= i)
    ensures QueuesOnly(sh, id, Mark(m, i, false)) && NoneQueued(sh, id, i)
    ensures !owned ==> forall j: nat :: NoneQueued(sh, id, j)
  {
    forall j: nat
      ensures QueueFits(sh, id, Mark(m, i, false), j) && (owned || NoneQueued(sh, id, j))
    {
      assert QueuedIff(sh, id, owned, m, limit, j);
    }
    assert QueuedIff(sh, id, owned, m, limit, i);
  }

  /** A cut whose first part is unqueued is loose there. */
  lemma CutLoose(sh: Shape<nat, Slice>, n: nat, id: nat, cut: Layout, i: nat)
    requires i in cut && !cut[i].used && QueuedBelow(sh, id, true, Mark(cut, i, true), n)
    ensures QueuesOnly(sh, id, cut) && NoneQueued(sh, id, i)
  {
    forall j: nat
      ensures QueueFits(sh, id, cut, j)
    {
      assert QueuedIff(sh, id, true, Mark(cut, i, true), n, j);
    }
    assert QueuedIff(sh, id, true, Mark(cut, i, true), n, i);
  }

  lemma QueuedAfterCut(sh: Shape<nat, Slice>, sh': Shape<nat, Slice>, n: nat, id: nat, cut: Layout, m: Layout, i: nat,
                       s: nat)
    requires Tiles(m, n) && s in m && !m[s].used && s <= i < s + m[s].count
    requires i in cut && QueuedBelow(sh, id, true, Mark(cut, i, true), n)
    requires Agree(cut, m, s, m[s].count) && Requeued(sh, sh', id, true, s, m[s].count)
    ensures QueuedBelow(sh', id, true, m, n)
  {
    var l := Mark(cut, i, true);
    forall j: nat
      ensures s <= j < s + m[s].count || SameAt(l, m, j)
      ensures s <= j < s + m[s].count || QueuedIff(sh, id, true, l, n, j)
    {
      assert s <= j < s + m[s].count || SameAt(cut, m, j);
      assert QueuedIff(sh, id, true, l, n, j);
    }
    assert Fits(m, n, s);
    QueuedAfter(sh, sh', n, id, true, l, m, s, n, n);
  }

  predicate NoneQueued(sh: Shape<nat, Slice>, id: nat, j: nat) {
    Slice(id, j) !in sh.spot
  }

  /** The span `i` of layout `m` is free but neither written nor queued; all others are
      recorded, and what is queued is free. */
  ghost predicate LooseIn(t: Slices, sh: Shape<nat, Slice>, n: nat, id: nat, owned: bool, m: Layout, i: nat) {
    && Tiles(m, n) && i in m && !m[i].used && CoalescedBut(m, i)
    && RecordedBut(t, m, {i})
    && QueuesOnly(sh, id, m) && NoneQueued(sh, id, i)
    && (!owned ==> forall j: nat :: NoneQueued(sh, id, j))
  }

  /** The free span `j` has been taken off its queue (nothing is queued when nobody owns the segment). */
  ghost predicate Unqueued(t: Slices, sh: Shape<nat, Slice>, t': Slices, sh': Shape<nat, Slice>, id: nat, owned: bool,
                           j: nat) {
    if owned then
      && SameOutside(t, t', j, 1) && t'.count == t.count
      && Slice(id, j) !in sh'.spot && SameQueues(sh, sh', id, j, 1)
    else t' == t && sh' == sh
  }

  /** After joining the loose span `i` with the free span next to it, the joined span is loose. */
  lemma JoinLoose(t: Slices, sh: Shape<nat, Slice>, t': Slices, sh': Shape<nat, Slice>, n: nat, id: nat, owned: bool,
                  m: Layout, i: nat, first: nat)
    requires t.Ok(n) && LooseIn(t, sh, n, id, owned, m, i)
    requires first in m && first + m[first].count in m && !m[first].used && !m[first + m[first].count].used
    requires i == first || i == first + m[first].count
    requires Unqueued(t, sh, t', sh', id, owned, if i == first then first + m[first].count else first)
    ensures LooseIn(t', sh', n, id, owned, Join(m, first), first)
    ensures Pages(Join(m, first)) == Pages(m)
    ensures Agree(m, Join(m, first), first, m[first].count + m[first + m[first].count].count)
    ensures SameQueues(sh, sh', id, first, m[first].count + m[first + m[first].count].count)
  {
    var l := Join(m, first);
    assert Fits(m, n, first) && Fits(m, n, first + m[first].count);
    JoinFree(m, n, first, i);
    JoinRecorded(t, t', n, m, i, first, if i == first then first + m[first].count else first);
    JoinQueues(sh, sh', n, id, owned, m, i, first, if i == first then first + m[first].count else first);
  }

  /** The merged span goes on its queue. */
  lemma MergedQueued(sh: Shape<nat, Slice>, sh1: Shape<nat, Slice>, sh2: Shape<nat, Slice>, sh': Shape<nat, Slice>,
                     n: nat, id: nat, owned: bool, l: Layout, i: nat, c: nat, s: nat)
    requires SameQueues(sh, sh1, id, i, c) && s in l && SameQueues(sh1, sh2, id, s, l[s].count)
    requires s <= i && i + c <= s + l[s].count
    requires Tiles(l, n) && QueuesOnly(sh2, id, l) && NoneQueued(sh2, id, s)
    requires !owned ==> forall j: nat :: NoneQueued(sh2, id, j)
    requires ShapeOk(sh2) && sh' == if owned then Pushed(sh2, SliceBin(l[s].count), Slice(id, s)) else sh2
    ensures Requeued(sh, sh', id, owned, s, l[s].count)
  {
    assert Fits(l, n, s);
    forall sl: Slice
      ensures Inside(sl, id, s, l[s].count) || SameQueue(sh, sh', sl)
    {
      assert Inside(sl, id, i, c) || SameQueue(sh, sh1, sl);
      assert Inside(sl, id, s, l[s].count) || SameQueue(sh1, sh2, sl);
    }
    forall sl: Slice | Inside(sl, id, s, l[s].count)
      ensures sl in sh'.spot <==> owned && sl.index == s
      ensures sl in sh'.spot ==> sh'.spot[sl].0 == SliceBin(l[s].count)
    {
      assert sl == Slice(id, sl.index);
      assert QueueFits(sh2, id, l, sl.index) && (owned || NoneQueued(sh2, id, sl.index));
    }
  }

  lemma JoinRecorded(t: Slices, t': Slices, n: nat, m: Layout, i: nat, first: nat, other: nat)
    requires Tiles(m, n) && first in m && first + m[first].count in m
    requires {i, other} == {first, first + m[first].count}
    requires t.Ok(n) && RecordedBut(t, m, {i}) && (SameOutside(t, t', other, 1) || t' == t)
    ensures RecordedBut(t', Join(m, first), {first})
  {
    var l := Join(m, first);
    JoinTiles(m, n, first);
    assert Fits(m, n, first) && Fits(m, n, first + m[first].count);
    forall j
      ensures RecordsBut(t, l, {first}, j)
    {
      assert RecordsBut(t, m, {i}, j);
    }
    OthersRecorded(t, t', l, n, first, {first});
  }

  lemma JoinQueues(sh: Shape<nat, Slice>, sh': Shape<nat, Slice>, n: nat, id: nat, owned: bool, m: Layout, i: nat,
                   first: nat, other: nat)
    requires Tiles(m, n) && first in m && first + m[first].count in m
    requires i in {first, first + m[first].count} && other in {first, first + m[first].count} && i != other
    requires QueuesOnly(sh, id, m) && NoneQueued(sh, id, i) && (!owned ==> forall j: nat :: NoneQueued(sh, id, j))
    requires if owned then Slice(id, other) !in sh'.spot && SameQueues(sh, sh', id, other, 1) else sh' == sh
    ensures QueuesOnly(sh', id, Join(m, first)) && NoneQueued(sh', id, first)
    ensures !owned ==> forall j: nat :: NoneQueued(sh', id, j)
    ensures SameQueues(sh, sh', id, first, m[first].count + m[first + m[first].count].count)
  {
    var next := first + m[first].count;
    assert Fits(m, n, first) && Fits(m, n, next);
    assert NoneQueued(sh, id, other) || owned;
    assert Inside(Slice(id, i), id, other, 1) || SameQueue(sh, sh', Slice(id, i));
    forall j: nat
      ensures QueueFits(sh', id, Join(m, first), j)
    {
      assert QueueFits(sh, id, m, j);
      assert Inside(Slice(id, j), id, other, 1) || SameQueue(sh, sh', Slice(id, j));
    }
    forall sl: Slice
      ensures Inside(sl, id, first, m[first].count + m[next].count) || SameQueue(sh, sh', sl)
    {
      assert Inside(sl, id, other, 1) || SameQueue(sh, sh', sl);
    }
  }

  // ---------------------------------------------------------------- what the walks compute

  /** The pages left when those in `freed` are given back; the segment information stays, and
      a walk has only come as far as slice `i`. */
  ghost function Left(pages: map<nat, nat>, freed: set<nat>, i: nat): map<nat, nat> {
    map j | j in pages && (j == 0 || j >= i || j !in freed) :: pages[j]
  }

  /** The span at `j` can serve a request: a free span that is long enough, or a page with room. */
  predicate Serves(m: Layout, needed: nat, room: set<nat>, j: nat) {
    j in m && j != 0 && (if m[j].used then j in room else m[j].count >= needed)
  }

  ghost predicate ServedBelow(m: Layout, needed: nat, room: set<nat>, i: nat) {
    exists j: nat :: Serves(m, needed, room, j) && j < i
  }

  /** One more span seen. */
  lemma ServedNext(m: Layout, n: nat, needed: nat, room: set<nat>, i: nat)
    requires Tiles(m, n) && i in m && i > 0
    ensures ServedBelow(m, needed, room, i + m[i].count) <==>
      ServedBelow(m, needed, room, i) || Serves(m, needed, room, i)
  {
    assert Fits(m, n, i);
    if ServedBelow(m, needed, room, i + m[i].count) {
      var j: nat :| Serves(m, needed, room, j) && j < i + m[i].count;
      assert Fits(m, n, j);
    }
  }

  /** Merging can only help: what was seen so far is still there or inside the merged span. */
  lemma ServedMerged(m: Layout, m': Layout, n: nat, needed: nat, room: set<nat>, i: nat, s: nat)
    requires Tiles(m, n) && Tiles(m', n) && i in m && m[i].used && i > 0
    requires s in m' && !m'[s].used && s <= i && i + m[i].count <= s + m'[s].count && 0 < s
    requires Agree(m, m', s, m'[s].count)
    requires s in m && (s < i ==> !m[s].used && s + m[s].count == i)
    ensures ServedBelow(m', needed, room, s + m'[s].count) <==> ServedBelow(m, needed, room, i) || m'[s].count >= needed
  {
    assert Fits(m, n, i) && Fits(m', n, s) && Fits(m, n, s);
    if ServedBelow(m, needed, room, i) {
      var j: nat :| Serves(m, needed, room, j) && j < i;
      assert Fits(m, n, j);
      assert s <= j < s + m'[s].count || SameAt(m, m', j);
      assert Serves(m', needed, room, j) || (j == s && Serves(m', needed, room, s));
    }
    if m'[s].count >= needed {
      assert Serves(m', needed, room, s);
    }
    if ServedBelow(m', needed, room, s + m'[s].count) {
      var j: nat :| Serves(m', needed, room, j) && j < s + m'[s].count;
      assert Fits(m', n, j);
      assert s <= j < s + m'[s].count || SameAt(m, m', j);
      assert j == s || Serves(m, needed, room, j);
    }
  }

  /** The segment information is never merged into a free span. */
  lemma InfoStays(m: Layout, i: nat, s: nat, n: nat)
    requires Tiles(m, n) && i in m && i > 0 && m[0].used && s in m && (s < i ==> !m[s].used) && s <= i
    ensures 0 < s
  {
  }

  lemma LeftAtStart(m: Layout, n: nat, freed: set<nat>)
    requires Tiles(m, n)
    ensures Pages(m) == Left(Pages(m), freed, m[0].count)
  {
    assert Fits(m, n, 0);
  }

  /** The walk passes a span that stays. */
  lemma LeftKept(pages: map<nat, nat>, freed: set<nat>, m: Layout, n: nat, i: nat)
    requires Tiles(m, n) && i in m && Pages(m) == Left(pages, freed, i) && (m[i].used ==> i !in freed)
    ensures Pages(m) == Left(pages, freed, i + m[i].count)
  {
    assert Fits(m, n, i);
    forall j: nat | i <= j < i + m[i].count && j in pages
      ensures j !in freed
    {
      assert j in Left(pages, freed, i) && j in m;
    }
  }

  /** The walk passes a page that has been given back. */
  lemma LeftFreed(pages: map<nat, nat>, freed: set<nat>, m: Layout, n: nat, i: nat, s: nat)
    requires Tiles(m, n) && Pages(m) == Left(pages, freed, i) - {i} && i in freed && i > 0
    requires s in m && s <= i < s + m[s].count
    ensures Pages(m) == Left(pages, freed, s + m[s].count)
  {
    assert Fits(m, n, s);
    forall j: nat | i < j < s + m[s].count
      ensures j in pages ==> j in Pages(m)
    {
      assert j in pages ==> j in Left(pages, freed, i);
    }
  }

  /** The pages a walk that has come to slice `i` has not visited yet. */
  ghost function Ahead(m: Layout, i: nat): set<nat> {
    set j | j in Pages(m) && j >= i
  }

  lemma AheadKept(m: Layout, n: nat, i: nat)
    requires Tiles(m, n) && i in m
    ensures Ahead(m, i + m[i].count) == Ahead(m, i) - {i}
    ensures m[i].used <==> i in Ahead(m, i)
  {
    assert Fits(m, n, i);
  }

  lemma AheadFreed(m: Layout, m': Layout, n: nat, i: nat, s: nat)
    requires Tiles(m', n) && Pages(m') == Pages(m) - {i}
    requires s in m' && s <= i < s + m'[s].count
    ensures Ahead(m', s + m'[s].count) == Ahead(m, i) - {i}
  {
    assert Fits(m', n, s);
    forall j: nat | i < j < s + m'[s].count
      ensures j !in Pages(m')
    {
    }
  }

  /** What a walk knows behind the span that a freed page was merged into. */
  lemma FreedNext(m: Layout, m': Layout, n: nat, needed: nat, room: set<nat>, pages: map<nat, nat>, freed: set<nat>,
                  i: nat, s: nat)
    requires Tiles(m, n) && Tiles(m', n) && i in m && m[i].used && i > 0 && m[0].used && i in freed
    requires s in m' && !m'[s].used && s <= i && i + m[i].count <= s + m'[s].count
    requires s in m && (s < i ==> !m[s].used && s + m[s].count == i)
    requires Agree(m, m', s, m'[s].count)
    requires Pages(m) == Left(pages, freed, i) && Pages(m') == Pages(m) - {i}
    ensures var next := s + m'[s].count;
      && i < next <= n && (next < n ==> next in m')
      && (ServedBelow(m', needed, room, next) <==> ServedBelow(m, needed, room, i) || m'[s].count >= needed)
      && Pages(m') == Left(pages, freed, next)
      && Ahead(m', next) == Ahead(m, i) - {i}
  {
    assert Fits(m, n, i) && Fits(m', n, s);
    InfoStays(m, i, s, n);
    ServedMerged(m, m', n, needed, room, i, s);
    LeftFreed(pages, freed, m', n, i, s);
    AheadFreed(m, m', n, i, s);
  }

  lemma NoneAhead(m: Layout, n: nat)
    requires Tiles(m, n)
    ensures Ahead(m, n) == {}
  {
    forall j: nat | j in m
      ensures j < n
    {
      assert Fits(m, n, j);
    }
  }

  lemma OthersSame(sh: Shape<nat, Slice>, id: nat)
    ensures OthersQueued(sh, sh, id)
  {
    forall sl: Slice
      ensures sl.segment == id || SameQueue(sh, sh, sl)
    {
    }
  }

  /** At the start of a walk all pages but the segment information are ahead. */
  lemma AheadAtStart(m: Layout, n: nat)
    requires Tiles(m, n) && 0 in Pages(m)
    ensures Ahead(m, m[0].count) == Pages(m).Keys - {0} && |Ahead(m, m[0].count)| == |Pages(m)| - 1
  {
    assert Fits(m, n, 0);
    assert Pages(m).Keys == Ahead(m, m[0].count) + {0};
    assert |Pages(m).Keys| == |Pages(m)|;
  }

  /** An owner that takes over an abandoned segment starts with nothing queued. */
  lemma QueuedAtStart(sh: Shape<nat, Slice>, n: nat, id: nat, m: Layout)
    requires Tiles(m, n) && m[0].used && QueuedBelow(sh, id, false, m, n)
    ensures QueuedBelow(sh, id, true, m, m[0].count)
  {
    forall j: nat
      ensures QueuedIff(sh, id, true, m, m[0].count, j)
    {
      assert QueuedIff(sh, id, false, m, n, j) && Fits(m, n, 0);
    }
  }

  lemma QueuedPastPage(sh: Shape<nat, Slice>, n: nat, id: nat, owned: bool, m: Layout, i: nat)
    requires Tiles(m, n) && i in m && m[i].used && QueuedBelow(sh, id, owned, m, i)
    ensures QueuedBelow(sh, id, owned, m, i + m[i].count)
  {
    var next := i + m[i].count;
    forall j: nat
      ensures QueuedIff(sh, id, owned, m, next, j)
    {
      assert QueuedIff(sh, id, owned, m, i, j) && Fits(m, n, i) && Fits(m, n, j);
    }
  }

  /** A free span of a coalesced layout that is not queued yet is loose. */
  lemma FreeLoose(t: Slices, sh: Shape<nat, Slice>, n: nat, id: nat, owned: bool, m: Layout, i: nat)
    requires Tiles(m, n) && Coalesced(m) && i in m && !m[i].used && RecordedBut(t, m, {})
    requires QueuedBelow(sh, id, owned, m, i)
    ensures LooseIn(t, sh, n, id, owned, m, i)
  {
    assert Mark(m, i, false) == m;
    ClearedLoose(sh, id, owned, m, i, i);
    forall j: nat
      ensures NextUsedBut(m, j, i) && RecordsBut(t, m, {i}, j)
    {
      assert NextUsed(m, j) && RecordsBut(t, m, {}, j);
    }
  }

  ghost predicate QueuedIffFrom(sh: Shape<nat, Slice>, id: nat, m: Layout, from: nat, j: nat) {
    && (Slice(id, j) in sh.spot <==> j in m && !m[j].used && j >= from)
    && (Slice(id, j) in sh.spot ==> sh.spot[Slice(id, j)].0 == SliceBin(m[j].count))
  }

  /** Exactly the free spans from `from` on are still queued. */
  ghost predicate QueuedFrom(sh: Shape<nat, Slice>, id: nat, m: Layout, from: nat) {
    forall j: nat :: QueuedIffFrom(sh, id, m, from, j)
  }

  lemma DrainStep(sh: Shape<nat, Slice>, sh': Shape<nat, Slice>, n: nat, id: nat, m: Layout, i: nat)
    requires Tiles(m, n) && i in m && QueuedFrom(sh, id, m, i)
    requires if m[i].used then sh' == sh else Slice(id, i) !in sh'.spot && SameQueues(sh, sh', id, i, 1)
    ensures QueuedFrom(sh', id, m, i + m[i].count) && OthersQueued(sh, sh', id)
  {
    assert Fits(m, n, i);
    var next := i + m[i].count;
    forall j: nat
      ensures QueuedIffFrom(sh', id, m, next, j)
    {
      assert QueuedIffFrom(sh, id, m, i, j) && Fits(m, n, j);
      assert m[i].used || Inside(Slice(id, j), id, i, 1) || SameQueue(sh, sh', Slice(id, j));
    }
    forall sl: Slice
      ensures sl.segment == id || SameQueue(sh, sh', sl)
    {
      assert m[i].used || Inside(sl, id, i, 1) || SameQueue(sh, sh', sl);
    }
  }

  lemma Drained(sh: Shape<nat, Slice>, n: nat, id: nat, m: Layout)
    requires Tiles(m, n) && QueuedFrom(sh, id, m, n)
    ensures forall j: nat :: NoneQueued(sh, id, j)
    ensures QueuedBelow(sh, id, false, m, n)
  {
    forall j: nat
      ensures NoneQueued(sh, id, j) && QueuedIff(sh, id, false, m, n, j)
    {
      assert QueuedIffFrom(sh, id, m, n, j) && Fits(m, n, j);
    }
  }

  lemma AllQueuedFrom(sh: Shape<nat, Slice>, n: nat, id: nat, m: Layout)
    requires Tiles(m, n) && QueuedBelow(sh, id, true, m, n)
    ensures QueuedFrom(sh, id, m, 0)
  {
    forall j: nat
      ensures QueuedIffFrom(sh, id, m, 0, j)
    {
      assert QueuedIff(sh, id, true, m, n, j) && Fits(m, n, j);
    }
  }

  /** The pages before slice `i` that are kept, in order, each once. */
  ghost predicate Reclaimed(r: seq<nat>, pages: map<nat, nat>, freed: set<nat>, i: nat) {
    && (forall j, k :: 0 <= j < k < |r| ==> r[j] < r[k])
    && (forall p: nat :: p in r <==> p in pages && 0 < p < i && p !in freed)
  }

  lemma NothingReclaimed(m: Layout, n: nat, freed: set<nat>)
    requires Tiles(m, n)
    ensures Reclaimed([], Pages(m), freed, m[0].count)
  {
    assert Fits(m, n, 0);
  }

  /** What a new owner's walk knows when it starts behind the segment information. */
  lemma ReclaimStarts(sh: Shape<nat, Slice>, id: nat, m: Layout, n: nat, freed: set<nat>)
    requires Tiles(m, n) && 0 in Pages(m) && QueuedBelow(sh, id, false, m, n)
    ensures var i := m[0].count;
      && 0 < i <= n && (i < n ==> i in m)
      && Pages(m) == Left(Pages(m), freed, i)
      && |Ahead(m, i)| == |Pages(m)| - 1
      && QueuedBelow(sh, id, true, m, i)
      && Reclaimed([], Pages(m), freed, i)
  {
    assert Fits(m, n, 0);
    LeftAtStart(m, n, freed);
    AheadAtStart(m, n);
    QueuedAtStart(sh, n, id, m);
    NothingReclaimed(m, n, freed);
  }

  /** There is no page strictly between two stops of the walk. */
  lemma ReclaimedNext(r: seq<nat>, pages: map<nat, nat>, freed: set<nat>, m: Layout, m': Layout, i: nat, next: nat)
    requires Reclaimed(r, pages, freed, i) && Pages(m) == Left(pages, freed, i) && 0 < i < next && i in m
    requires Ahead(m', next) == Ahead(m, i) - {i}
    ensures Reclaimed(if m[i].used && i !in freed then r + [i] else r, pages, freed, next)
  {
    forall p: nat | p in pages && i <= p < next
      ensures p == i && m[i].used
    {
      assert p in Left(pages, freed, i) && p in Ahead(m, i);
      assert p == i || p in Ahead(m', next);
    }
    assert i in Pages(m) ==> i in pages;
    var r' := if m[i].used && i !in freed then r + [i] else r;
    forall j | 0 <= j < |r|
      ensures r[j] < i
    {
      assert r[j] in r;
    }
    forall p: nat
      ensures p in r' <==> p in pages && 0 < p < next && p !in freed
    {
      assert p in r' <==> p in r || (p == i && m[i].used && i !in freed);
    }
  }

  lemma ReclaimedAll(r: seq<nat>, pages: map<nat, nat>, freed: set<nat>, m: Layout, n: nat)
    requires Tiles(m, n) && 0 in Pages(m) && Pages(m) == Left(pages, freed, n) && Reclaimed(r, pages, freed, n)
    ensures |Pages(m)| == 1 ==> r == []
  {
    if |Pages(m)| == 1 && r != [] {
      var p := r[0];
      assert p in r;
      assert p in Left(pages, freed, n);
      PageCount(m, p);
    }
  }

  /** The only page is the segment information. */
  lemma OnePage(m: Layout, info: nat)
    requires 0 in Pages(m) && Pages(m)[0] == info && |Pages(m)| == 1
    ensures Pages(m) == map[0 := info]
  {
    forall j | j in Pages(m)
      ensures j == 0
    {
      if j != 0 { PageCount(m, j); }
    }
  }

  lemma FreshHoles(t: Slices, m: Layout, info: nat)
    requires m.Keys == {0, info}
    ensures RecordedBut(t, m, {0, info})
  {
    forall j: nat
      ensures RecordsBut(t, m, {0, info}, j)
    {
      assert j in m ==> j in m.Keys;
    }
  }

  lemma FreshQueued(sh: Shape<nat, Slice>, sh': Shape<nat, Slice>, info: nat, rest: nat, n: nat, id: nat)
    requires 0 < info < n && rest == n - info && (forall j: nat :: NoneQueued(sh, id, j))
    requires Added(sh, sh', Slice(id, info), SliceBin(rest))
    ensures QueuedBelow(sh', id, true, InfoAndRest(info, n), n)
  {
    var m := InfoAndRest(info, n);
    forall j: nat
      ensures QueuedIff(sh', id, true, m, n, j)
    {
      assert NoneQueued(sh, id, j) && AddedAt(sh, sh', Slice(id, info), SliceBin(rest), Slice(id, j));
    }
  }
}
