/** A segment and its slices: the operations that cut spans, merge them and hand them out as
    pages, and the walks that give back or take over an abandoned segment. */
module Segments {
  import opened LinkedQueues
  import opened Spans
  import opened CommitMasks
  import opened SliceTable

  class Segment {
    const id: nat
    const entries: nat
    const info: nat
    const count: array<nat>
    const offset: array<nat>
    /** 0 on the first slice of a free span. */
    const blockSize: array<nat>
    const masks: CommitState
    var used: nat
    var abandoned: nat
    /** A thread owns the segment; otherwise it is abandoned. */
    var owned: bool
    ghost var spans: Layout

    ghost function Repr(): set<object> {
      {this, count, offset, blockSize, masks, masks.commit, masks.purge}
    }

    ghost function Table(): Slices
      reads count, offset, blockSize
    {
      Slices(count[..], offset[..], blockSize[..])
    }

    ghost predicate Apart()
      reads masks, masks.commit, masks.purge
    {
      && 0 < info < entries <= SLICES_PER_SEGMENT
      && count.Length == entries && offset.Length == entries && blockSize.Length == entries
      && count != offset && count != blockSize && offset != blockSize
      && (var slices: set<object> := {count, offset, blockSize}; slices !! {masks.commit, masks.purge})
      && masks.Valid()
    }

    /** Lay out a fresh segment: the first `info` slices hold the segment information, the rest
        is one free span.  The first `initial` slices are committed already. */
    constructor (id: nat, entries: nat, info: nat, initial: nat, allowPurge: bool, delay: nat, extend: nat,
                 q: SpanQueues, now: nat)
      requires 0 < info < entries <= SLICES_PER_SEGMENT && info <= initial <= BITS && now > 0
      requires q.Valid() && forall j: nat :: NoneQueued(q.shape, id, j)
      modifies q
      ensures Valid(q) && owned && used == 0 && this.id == id && this.entries == entries && this.info == info
      ensures spans == InfoAndRest(info, entries)
      ensures OthersQueued(old(q.shape), q.shape, id)
      ensures fresh(Repr())
    {
      this.id, this.entries, this.info := id, entries, info;
      masks := new CommitState(initial, allowPurge, delay, extend);
      count := new nat[entries](_ => 0);
      offset := new nat[entries](_ => 0);
      blockSize := new nat[entries](_ => 0);
      used, abandoned, owned, spans := 0, 0, true, map[];
      new;
      LayOut(q, now);
    }

    method LayOut(q: SpanQueues, now: nat)
      requires Apart() && owned && used == 0 && abandoned == 0 && now > 0
      requires Committed(masks.commit[..], 0, info)
      requires q.Valid() && forall j: nat :: NoneQueued(q.shape, id, j)
      modifies this`spans, this`used, count, offset, blockSize, masks, masks.commit, masks.purge, q
      ensures Valid(q) && used == 0 && spans == InfoAndRest(info, entries)
      ensures OthersQueued(old(q.shape), q.shape, id)
    {
      ghost var m := InfoAndRest(info, entries);
      var rest := entries - info;
      LayOutInfo(m, now);
      ghost var sh := q.shape;
      assert NoneQueued(sh, id, info);
      PushedAdds(sh, Slice(id, info), SliceBin(rest));
      SpanFree(info, rest, false, q, m, {info}, now, _ => false);
      assert {info} - {info} == {};
      FreshQueued(sh, q.shape, info, rest, entries, id);
      OthersAdded(sh, q.shape, id, info, SliceBin(rest));
    }

    /** Reserve the first slices for the segment information; they are not counted as used. */
    method LayOutInfo(ghost m: Layout, now: nat)
      requires Apart() && used == 0 && now > 0 && m == InfoAndRest(info, entries)
      requires Committed(masks.commit[..], 0, info)
      modifies this`spans, this`used, count, offset, blockSize, masks, masks.commit, masks.purge
      ensures Apart() && used == 0
      ensures RecordedBut(Table(), m, {info}) && Backed(m, masks)
    {
      FreshHoles(Table(), m, info);
      var _ := SpanAllocate(0, info, m, {0, info}, now, false);
      used := 0;
      assert {0, info} - {0} == {info};
    }

    /** Set the first and last slice; those in between can be anything. */
    method MarkFree(i: nat, c: nat)
      requires Apart() && c > 0 && i + c <= entries
      modifies count, offset, blockSize
      ensures Apart() && SameOutside(old(Table()), Table(), i, c)
      ensures count[i] == c && offset[i] == 0
      ensures c > 1 ==> count[i + c - 1] == 0 && offset[i + c - 1] == c - 1 && blockSize[i + c - 1] == 0
    {
      count[i] := c;
      offset[i] := 0;
      if c > 1 {
        var last := i + c - 1;
        count[last], offset[last], blockSize[last] := 0, c - 1, 0;
      }
    }

    /** Mark the first slice of a free span. */
    method MarkUnused(i: nat, c: nat)
      requires Apart() && c > 0 && i + c <= entries
      requires count[i] == c && offset[i] == 0
      requires c > 1 ==> count[i + c - 1] == 0 && offset[i + c - 1] == c - 1 && blockSize[i + c - 1] == 0
      modifies blockSize
      ensures Apart() && Records(Table(), i, Span(c, false)) && SameOutside(old(Table()), Table(), i, c)
    {
      blockSize[i] := 0;
    }

    method SpanPurge(i: nat, c: nat, ghost m: Layout, now: nat, decommits: nat -> bool)
      requires Apart() && now > 0
      requires Tiles(m, entries) && i in m && m[i] == Span(c, false) && Backed(m, masks)
      modifies masks, masks.commit, masks.purge
      ensures Apart() && Backed(m, masks)
    {
      assert Fits(m, entries, i);
      ghost var commit, purge := masks.commit[..], masks.purge[..];
      var runs := masks.SchedulePurge(i, c, now, decommits);
      forall j: nat, k: nat | Within(m, j, k) && m[j].used
        ensures k < BITS && masks.commit[k] && !masks.purge[k]
      {
        assert Fits(m, entries, j);
        assert !InRun(i, c, k) && commit[k] && !purge[k];
        if runs != [] && GivenBack(runs, decommits, k) { OnlyWithRun(commit, purge, i, c, runs, decommits, k); }
      }
    }

    /** Write the slices `i..i+c` as a free span and schedule its memory to be given back. */
    method WriteFree(i: nat, c: nat, allowPurge: bool, ghost m: Layout, ghost holes: set<nat>, now: nat,
                     decommits: nat -> bool)
      requires Apart() && now > 0
      requires Tiles(m, entries) && i in m && m[i] == Span(c, false)
      requires i in holes && RecordedBut(Table(), m, holes) && Backed(m, masks)
      modifies this`spans, count, offset, blockSize, masks, masks.commit, masks.purge
      ensures Apart()
      ensures spans == m && RecordedBut(Table(), m, holes - {i}) && Backed(m, masks)
    {
      assert Fits(m, entries, i);
      ghost var before := Table();
      MarkFree(i, c);
      if allowPurge {
        SpanPurge(i, c, m, now, decommits);
      }
      MarkUnused(i, c);
      spans := m;
      OthersRecorded(before, Table(), m, entries, i, holes);
      FillHole(Table(), m, holes, i);
    }

    /** Make the slices `i..i+c` a free span and put it on the queue for its size. */
    method SpanFree(i: nat, c: nat, allowPurge: bool, q: SpanQueues, ghost m: Layout, ghost holes: set<nat>, now: nat,
                    decommits: nat -> bool)
      requires Apart() && q.Valid() && now > 0
      requires Tiles(m, entries) && i in m && m[i] == Span(c, false)
      requires i in holes && RecordedBut(Table(), m, holes) && Backed(m, masks) && (owned ==> !q.Queued(Slice(id, i)))
      modifies this`spans, count, offset, blockSize, masks, masks.commit, masks.purge, q
      ensures Apart() && q.Valid()
      ensures spans == m && RecordedBut(Table(), m, holes - {i}) && Backed(m, masks)
      ensures q.shape == if owned then Pushed(old(q.shape), SliceBin(c), Slice(id, i)) else old(q.shape)
    {
      if owned {
        q.PushFront(SliceBin(c), Slice(id, i));
      }
      WriteFree(i, c, allowPurge, m, holes, now, decommits);
    }

    /** Commit the slices of the span that is to become a page. */
    method CommitSpan(i: nat, c: nat, ghost m: Layout, now: nat, osCommits: bool) returns (ok: bool)
      requires Apart() && now > 0
      requires Tiles(m, entries) && i in m && m[i] == Span(c, true) && Backed(Mark(m, i, false), masks)
      modifies masks, masks.commit, masks.purge
      ensures Apart() && Backed(Mark(m, i, false), masks)
      ensures osCommits || Committed(old(masks.commit[..]), i, c) ==> ok
      ensures ok ==> Backed(m, masks)
    {
      assert Fits(m, entries, i);
      ok := masks.EnsureCommitted(i, c, now, osCommits);
      forall j: nat, k: nat | Within(m, j, k) && m[j].used && (ok || j != i)
        ensures k < BITS && masks.commit[k] && !masks.purge[k]
      {
        assert Fits(m, entries, j);
        assert Within(Mark(m, i, false), j, k);
        assert j != i ==> !InRun(i, c, k);
        assert j == i ==> InRun(i, c, k);
      }
    }

    /** Set the first slice of a page, the way back from the first 255 after it, and from the
        last one. */
    method MarkUsed(i: nat, c: nat)
      requires Apart() && c > 0 && i + c <= entries
      modifies count, offset, blockSize
      ensures Apart() && Records(Table(), i, Span(c, true)) && SameOutside(old(Table()), Table(), i, c)
    {
      offset[i] := 0;
      count[i] := c;
      blockSize[i] := c * SLICE_SIZE;
      var extra := c - 1;
      if extra > MAX_SLICE_OFFSET { extra := MAX_SLICE_OFFSET; }
      if i + extra >= entries { extra := entries - i - 1; }
      for k := 1 to extra + 1
        invariant count[i] == c && offset[i] == 0 && blockSize[i] > 0
        invariant forall b :: i < b < i + k ==> count[b] == 0 && offset[b] == b - i && blockSize[b] == 1
        invariant forall b :: 0 <= b < entries && !(i <= b < i + c) ==>
          count[b] == old(count[b]) && offset[b] == old(offset[b]) && blockSize[b] == old(blockSize[b])
      {
        offset[i + k] := k;
        count[i + k] := 0;
        blockSize[i + k] := 1;
      }
      var last := i + c - 1;
      if last > i {
        offset[last] := last - i;
        count[last] := 0;
        blockSize[last] := 1;
      }
    }

    /** Turn the span at `i` into a page.  Fails, changing no slice, when the slices cannot be
        committed. */
    method SpanAllocate(i: nat, c: nat, ghost m: Layout, ghost holes: set<nat>, now: nat, osCommits: bool)
      returns (ok: bool)
      requires Apart() && now > 0
      requires Tiles(m, entries) && i in m && m[i] == Span(c, true)
      requires i in holes && RecordedBut(Table(), m, holes) && Backed(Mark(m, i, false), masks)
      modifies this`spans, this`used, count, offset, blockSize, masks, masks.commit, masks.purge
      ensures Apart()
      ensures osCommits || Committed(old(masks.commit[..]), i, c) ==> ok
      ensures !ok ==> spans == old(spans) && used == old(used) && Table() == old(Table())
      ensures !ok ==> Backed(Mark(m, i, false), masks)
      ensures ok ==> spans == m && used == old(used) + 1 && RecordedBut(Table(), m, holes - {i}) && Backed(m, masks)
    {
      assert Fits(m, entries, i);
      ghost var before := Table();
      ok := CommitSpan(i, c, m, now, osCommits);
      if !ok { return; }
      MarkUsed(i, c);
      used := used + 1;
      spans := m;
      OthersRecorded(before, Table(), m, entries, i, holes);
      FillHole(Table(), m, holes, i);
    }

    /** Take a free span off its queue; a span that is on no queue is left as it is. */
    method RemoveFromQueue(j: nat, q: SpanQueues)
      requires Apart() && q.Valid() && j < entries
      requires Slice(id, j) in q.shape.spot ==> q.shape.spot[Slice(id, j)].0 == SliceBin(count[j])
      modifies blockSize, q
      ensures Apart() && q.Valid()
      ensures Slice(id, j) !in q.shape.spot
      ensures SameQueues(old(q.shape), q.shape, id, j, 1)
      ensures SameOutside(old(Table()), Table(), j, 1) && Table().count == old(Table()).count
    {
      q.Delete(SliceBin(count[j]), Slice(id, j));
      blockSize[j] := 1;
    }

    /** The span `i` of layout `m` is free but not written nor queued yet; all others are. */
    ghost predicate Loose(q: SpanQueues, m: Layout, i: nat)
      requires Apart()
      reads this`owned, q, count, offset, blockSize, masks, masks.commit, masks.purge
    {
      && q.Valid()
      && LooseIn(Table(), q.shape, entries, id, owned, m, i) && Backed(m, masks)
    }

    /** Merge the free span after `i`, if there is one. */
    method MergeNext(i: nat, q: SpanQueues, ghost m: Layout) returns (c: nat, ghost l: Layout)
      requires Apart() && i < entries && Loose(q, m, i) && count[i] == m[i].count
      modifies blockSize, q
      ensures Apart() && Loose(q, l, i)
      ensures l[i] == Span(c, false) && c >= m[i].count && Pages(l) == Pages(m) && Agree(m, l, i, c)
      ensures i + c in l ==> l[i + c].used
      ensures SameQueues(old(q.shape), q.shape, id, i, c)
    {
      assert Fits(m, entries, i);
      l, c := m, count[i];
      var next := i + c;
      if next < entries {
        assert RecordsBut(Table(), m, {i}, next) && Fits(m, entries, next) && QueueFits(q.shape, id, m, next);
        if blockSize[next] == 0 {
          c := c + count[next];
          l := Join(m, i);
          ghost var before, shape := Table(), q.shape;
          if owned { RemoveFromQueue(next, q); }
          JoinLoose(before, shape, Table(), q.shape, entries, id, owned, m, i, i);
          SamePagesBacked(m, l, masks);
          assert NextUsedBut(m, next, i) && SameAt(m, l, i + c);
        }
      }
      assert Fits(m, entries, i + c);
    }

    /** Merge the free span before `i`, if there is one. */
    method MergePrev(i: nat, q: SpanQueues, ghost m: Layout) returns (s: nat, more: nat, ghost l: Layout)
      requires Apart() && i < entries && Loose(q, m, i)
      requires i + m[i].count in m ==> m[i + m[i].count].used
      modifies blockSize, q
      ensures Apart() && Loose(q, l, s)
      ensures s <= i && s + more == i && l[s] == Span(more + m[i].count, false) && Pages(l) == Pages(m)
      ensures Agree(m, l, s, l[s].count)
      ensures Coalesced(l)
      ensures s in m && (s < i ==> !m[s].used && s + m[s].count == i)
      ensures SameQueues(old(q.shape), q.shape, id, s, l[s].count)
    {
      l, s, more := m, i, 0;
      if i > 0 {
        ghost var p := Predecessor(m, entries, i);
        assert RecordsBut(Table(), m, {i}, p) && Fits(m, entries, p) && QueueFits(q.shape, id, m, p);
        var prev := i - 1 - offset[i - 1];
        assert prev == p;
        if blockSize[prev] == 0 {
          s, more := prev, count[prev];
          l := Join(m, prev);
          ghost var before, shape := Table(), q.shape;
          if owned { RemoveFromQueue(prev, q); }
          JoinLoose(before, shape, Table(), q.shape, entries, id, owned, m, i, prev);
          SamePagesBacked(m, l, masks);
        }
      }
      forall j | j in l && j + l[j].count == s
        ensures l[j].used
      {
        assert Fits(l, entries, j) && Fits(m, entries, j) && SameAt(m, l, j);
        assert NextUsedBut(m, j, i);
      }
      NothingToMerge(l, s);
    }

    /** Free the span at `i`: merge it with the free spans next to it and queue the result.
        Returns where the merged span starts. */
    method FreeCoalesce(i: nat, q: SpanQueues, ghost m: Layout, now: nat, decommits: nat -> bool) returns (s: nat)
      requires Apart() && now > 0 && i < entries && Loose(q, m, i) && count[i] == m[i].count
      modifies this`spans, count, offset, blockSize, masks, masks.commit, masks.purge, q
      ensures Apart() && q.Valid()
      ensures Tiles(spans, entries) && Coalesced(spans) && Pages(spans) == Pages(m)
      ensures RecordedBut(Table(), spans, {}) && Backed(spans, masks)
      ensures s in spans && !spans[s].used && s <= i && i + m[i].count <= s + spans[s].count
      ensures s in m && (s < i ==> !m[s].used && s + m[s].count == i)
      ensures Agree(m, spans, s, spans[s].count)
      ensures Requeued(old(q.shape), q.shape, id, owned, s, spans[s].count)
    {
      ghost var sh := q.shape;
      var c; ghost var l;
      c, l := MergeNext(i, q, m);
      ghost var sh1 := q.shape;
      var more; ghost var l';
      s, more, l' := MergePrev(i, q, l);
      ghost var sh2 := q.shape;
      AgreeMore(m, l, l', i, c, s, more + c);
      assert s < i ==> SameAt(m, l, s);
      SpanFree(s, more + c, true, q, l', {s}, now, decommits);
      MergedQueued(sh, sh1, sh2, q.shape, entries, id, owned, l', i, c, s);
      assert {s} - {s} == {};
    }

    /** The spans are recorded, coalesced and backed, and `used` counts the pages (the segment
        information is not counted). */
    ghost predicate Wf()
      reads this`spans, this`used, count, offset, blockSize, masks, masks.commit, masks.purge
    {
      && Apart()
      && Tiles(spans, entries) && Coalesced(spans)
      && RecordedBut(Table(), spans, {}) && Backed(spans, masks)
      && |Pages(spans)| == used + 1 && 0 in Pages(spans) && Pages(spans)[0] == info
    }

    ghost predicate Valid(q: SpanQueues)
      reads this, count, offset, blockSize, masks, masks.commit, masks.purge, q
    {
      && Wf() && q.Valid()
      && QueuedBelow(q.shape, id, owned, spans, entries)
      && (if owned then abandoned < used || abandoned == used == 0 else abandoned == used)
    }

    /** Cut the span `i`, which has just been taken off its queue, after `c` slices; the rest
        becomes a free span of its own. */
    method SliceSplit(i: nat, c: nat, q: SpanQueues, now: nat, decommits: nat -> bool)
      requires Apart() && now > 0 && q.Valid() && Tiles(spans, entries) && Coalesced(spans)
      requires i < entries && i in spans && !spans[i].used && 0 < c < spans[i].count == count[i]
      requires RecordedBut(Table(), spans, {i}) && Backed(spans, masks)
      requires Slice(id, i + c) !in q.shape.spot
      modifies this`spans, count, offset, blockSize, masks, masks.commit, masks.purge, q
      ensures Apart() && q.Valid()
      ensures spans == Split(old(spans), i, c) && count[i] == c
      ensures RecordedBut(Table(), spans, {i}) && Backed(spans, masks)
      ensures owned ==> Added(old(q.shape), q.shape, Slice(id, i + c), SliceBin(old(spans)[i].count - c))
      ensures !owned ==> q.shape == old(q.shape)
    {
      var rest := count[i] - c;
      ghost var m := Split(spans, i, c);
      if owned { PushedAdds(q.shape, Slice(id, i + c), SliceBin(rest)); }
      SplitFree(spans, entries, i, c);
      SamePagesBacked(spans, m, masks);
      assert Fits(spans, entries, i);
      ghost var holes := {i, i + c};
      forall j: nat
        ensures RecordsBut(Table(), m, holes, j)
      {
        assert RecordsBut(Table(), spans, {i}, j);
      }
      SpanFree(i + c, rest, false, q, m, holes, now, decommits);
      assert holes - {i + c} == {i};
      ghost var before := Table();
      count[i] := c;
      OthersRecorded(before, Table(), m, entries, i, {i});
    }

    /** Take a free span off its queue. */
    method Unhook(i: nat, q: SpanQueues)
      requires Valid(q) && owned && i < entries && i in spans && !spans[i].used
      modifies blockSize, q
      ensures Apart() && q.Valid() && count[i] == spans[i].count
      ensures RecordedBut(Table(), spans, {i})
      ensures Slice(id, i) !in q.shape.spot && SameQueues(old(q.shape), q.shape, id, i, 1)
    {
      ghost var table := Table();
      assert RecordsBut(table, spans, {}, i) && QueuedIff(q.shape, id, true, spans, entries, i);
      RemoveFromQueue(i, q);
      RemovedRecorded(table, Table(), spans, entries, i);
    }

    /** Take the first `c` slices of a queued free span; the rest is queued again. */
    method CutFrom(i: nat, c: nat, q: SpanQueues, now: nat, decommits: nat -> bool)
      requires Valid(q) && owned && now > 0
      requires i < entries && i in spans && !spans[i].used && 0 < c <= spans[i].count
      modifies this`spans, count, offset, blockSize, masks, masks.commit, masks.purge, q
      ensures Apart() && q.Valid() && spans == Split(old(spans), i, c) && count[i] == c
      ensures RecordedBut(Table(), spans, {i}) && Backed(spans, masks)
      ensures QueuedBelow(q.shape, id, true, Mark(spans, i, true), entries)
      ensures OthersQueued(old(q.shape), q.shape, id)
    {
      ghost var m, sh := spans, q.shape;
      assert Fits(m, entries, i) && QueuedIff(sh, id, true, m, entries, i + c);
      Unhook(i, q);
      ghost var sh1 := q.shape;
      assert SameQueue(sh, sh1, Slice(id, i + c));
      if count[i] > c {
        SliceSplit(i, c, q, now, decommits);
        OthersAdded(sh1, q.shape, id, i + c, SliceBin(m[i].count - c));
      }
      QueuedAfterSplit(sh, sh1, q.shape, entries, id, m, Mark(spans, i, true), i, c);
      OthersOutside(sh, sh1, id, i, 1);
      OthersTwice(sh, sh1, q.shape, id);
    }

    /** Put a cut back: it becomes a free span again and merges with the rest. */
    method RestoreCut(i: nat, q: SpanQueues, ghost m: Layout, now: nat, decommits: nat -> bool)
      requires Apart() && q.Valid() && now > 0 && owned
      requires Tiles(m, entries) && Coalesced(m) && i in m && !m[i].used && i < entries
      requires 0 < count[i] <= m[i].count && spans == Split(m, i, count[i])
      requires RecordedBut(Table(), spans, {i}) && Backed(spans, masks)
      requires QueuedBelow(q.shape, id, true, Mark(spans, i, true), entries)
      modifies this`spans, count, offset, blockSize, masks, masks.commit, masks.purge, q
      ensures Apart() && q.Valid() && spans == m
      ensures RecordedBut(Table(), spans, {}) && Backed(spans, masks)
      ensures QueuedBelow(q.shape, id, true, m, entries) && OthersQueued(old(q.shape), q.shape, id)
    {
      ghost var cut, sh := spans, q.shape;
      SplitFree(m, entries, i, count[i]);
      CutLoose(sh, entries, id, cut, i);
      var s := FreeCoalesce(i, q, cut, now, decommits);
      Canonical(spans, m, entries);
      QueuedAfterCut(sh, q.shape, entries, id, cut, m, i, s);
      OthersRequeued(sh, q.shape, id, owned, s, m[s].count);
    }

    /** Use the first `c` slices of a queued free span as a page.  When they cannot be committed
        the span is put back as it was. */
    method AllocateFrom(i: nat, c: nat, q: SpanQueues, now: nat, osCommits: bool, decommits: nat -> bool)
      returns (ok: bool)
      requires Valid(q) && owned && now > 0
      requires i < entries && i in spans && !spans[i].used && 0 < c <= spans[i].count
      modifies this`spans, this`used, count, offset, blockSize, masks, masks.commit, masks.purge, q
      ensures Valid(q) && OthersQueued(old(q.shape), q.shape, id)
      ensures osCommits ==> ok
      ensures ok ==> Pages(spans) == Pages(old(spans))[i := c] && used == old(used) + 1
      ensures !ok ==> spans == old(spans) && used == old(used)
    {
      ghost var m, sh := spans, q.shape;
      CutFrom(i, c, q, now, decommits);
      ghost var l := Mark(spans, i, true);
      SplitUsed(m, entries, i, c);
      UsedRecorded(Table(), spans, l, i);
      assert Mark(l, i, false) == spans;
      ok := SpanAllocate(i, c, l, {i}, now, osCommits);
      assert {i} - {i} == {};
      if !ok {
        ghost var sh1 := q.shape;
        RestoreCut(i, q, m, now, decommits);
        OthersTwice(sh, sh1, q.shape, id);
      }
    }

    /** The page at `i` is one no more: its slices are a free span that is not written yet. */
    method Unmark(i: nat, q: SpanQueues, ghost limit: nat)
      requires Wf() && q.Valid()
      requires 0 < i < entries && i in spans && spans[i].used
      requires QueuedBelow(q.shape, id, owned, spans, limit) && (limit == entries || limit == i)
      modifies blockSize
      ensures Apart() && Loose(q, Mark(spans, i, false), i) && count[i] == spans[i].count
    {
      ghost var table := Table();
      assert Fits(spans, entries, i) && RecordsBut(table, spans, {}, i);
      assert QueuedIff(q.shape, id, owned, spans, limit, i);
      blockSize[i] := 1;
      ghost var l := Mark(spans, i, false);
      FreePage(spans, entries, i);
      RemovedRecorded(table, Table(), spans, entries, i);
      UsedRecorded(Table(), spans, l, i);
      ClearedBacked(spans, l, i, masks);
      ClearedLoose(q.shape, id, owned, spans, i, limit);
    }

    /** A page whose blocks are all free becomes a free span.  `limit` tells how far a walk over
        the segment has queued the free spans (or all of them are, when it is `entries`). */
    method PageClear(i: nat, q: SpanQueues, ghost limit: nat, now: nat, decommits: nat -> bool) returns (s: nat)
      requires Wf() && q.Valid() && now > 0
      requires 0 < i < entries && i in spans && spans[i].used
      requires QueuedBelow(q.shape, id, owned, spans, limit) && (limit == entries || limit == i)
      modifies this`spans, this`used, count, offset, blockSize, masks, masks.commit, masks.purge, q
      ensures Wf() && q.Valid()
      ensures Pages(spans) == Pages(old(spans)) - {i} && used == old(used) - 1
      ensures s in spans && !spans[s].used && s <= i && i + old(spans)[i].count <= s + spans[s].count
      ensures s in old(spans) && (s < i ==> !old(spans)[s].used && s + old(spans)[s].count == i)
      ensures Agree(old(spans), spans, s, spans[s].count)
      ensures QueuedBelow(q.shape, id, owned, spans, if limit == entries then entries else s + spans[s].count)
      ensures OthersQueued(old(q.shape), q.shape, id)
    {
      ghost var m, sh := spans, q.shape;
      ghost var l := Mark(m, i, false);
      Unmark(i, q, limit);
      assert Fits(m, entries, i);
      FreePage(m, entries, i);
      s := FreeCoalesce(i, q, l, now, decommits);
      PageCount(m, i);
      used := used - 1;
      AgreeMore(m, l, spans, i, m[i].count, s, spans[s].count);
      WalkQueued(sh, q.shape, entries, id, owned, m, spans, i, s, limit);
      OthersRequeued(sh, q.shape, id, owned, s, spans[s].count);
    }

    /** A walk over the segment has come to slice `i`: of the pages before it those in `freed`
        have been given back, and the free spans before `limit` are queued. */
    ghost predicate Walked(q: SpanQueues, i: nat, limit: nat, pages: map<nat, nat>, freed: set<nat>)
      reads this`spans, this`used, this`owned, count, offset, blockSize, masks, masks.commit, masks.purge, q
    {
      && Wf() && q.Valid()
      && QueuedBelow(q.shape, id, owned, spans, limit)
      && 0 < i <= entries && (i < entries ==> i in spans)
      && Pages(spans) == Left(pages, freed, i)
    }

    /** The walk gives back the page at `i` and goes on behind the span it is merged into. */
    method VisitFreed(i: nat, q: SpanQueues, ghost limit: nat, ghost pages: map<nat, nat>, ghost freed: set<nat>,
                      ghost needed: nat, ghost room: set<nat>, now: nat, decommits: nat -> bool)
      returns (next: nat, size: nat)
      requires Walked(q, i, limit, pages, freed) && now > 0
      requires i < entries && spans[i].used && i in freed && (limit == entries || limit == i)
      modifies this`spans, this`used, count, offset, blockSize, masks, masks.commit, masks.purge, q
      ensures i < next && Walked(q, next, if limit == entries then entries else next, pages, freed)
      ensures used == old(used) - 1 && Ahead(spans, next) == Ahead(old(spans), i) - {i}
      ensures ServedBelow(spans, needed, room, next) <==> ServedBelow(old(spans), needed, room, i) || size >= needed
      ensures OthersQueued(old(q.shape), q.shape, id)
    {
      ghost var m := spans;
      assert Fits(m, entries, i);
      var s := PageClear(i, q, limit, now, decommits);
      assert RecordsBut(Table(), spans, {}, s);
      next, size := s + count[s], count[s];
      assert next == s + spans[s].count;
      FreedNext(m, spans, entries, needed, room, pages, freed, i, s);
    }

    /** The walk looks at a span that stays and goes on behind it. */
    method VisitKept(i: nat, q: SpanQueues, ghost pages: map<nat, nat>, ghost freed: set<nat>, needed: nat,
                     room: set<nat>)
      returns (next: nat, hit: bool)
      requires Walked(q, i, entries, pages, freed) && i < entries && (spans[i].used ==> i !in freed)
      ensures i < next && Walked(q, next, entries, pages, freed)
      ensures ServedBelow(spans, needed, room, next) <==> ServedBelow(spans, needed, room, i) || hit
    {
      assert Fits(spans, entries, i) && RecordsBut(Table(), spans, {}, i);
      hit := if blockSize[i] > 0 then i in room else count[i] >= needed;
      next := i + count[i];
      ServedNext(spans, entries, needed, room, i);
      LeftKept(pages, freed, spans, entries, i);
    }

    /** One stop of the walk: a page whose blocks are all free by now is given back. */
    method CheckNext(i: nat, q: SpanQueues, ghost pages: map<nat, nat>, freed: set<nat>, needed: nat, room: set<nat>,
                     now: nat, decommits: nat -> bool)
      returns (next: nat, hit: bool)
      requires Walked(q, i, entries, pages, freed) && abandoned == used && !owned && now > 0 && i < entries
      modifies this`spans, this`used, this`abandoned, count, offset, blockSize, masks, masks.commit, masks.purge, q
      ensures i < next && Walked(q, next, entries, pages, freed) && abandoned == used
      ensures ServedBelow(spans, needed, room, next) <==> ServedBelow(old(spans), needed, room, i) || hit
      ensures OthersQueued(old(q.shape), q.shape, id)
    {
      assert Fits(spans, entries, i) && RecordsBut(Table(), spans, {}, i);
      if blockSize[i] > 0 && i in freed {
        PageCount(spans, i);
        abandoned := abandoned - 1;
        var size;
        next, size := VisitFreed(i, q, entries, pages, freed, needed, room, now, decommits);
        hit := size >= needed;
      } else {
        next, hit := VisitKept(i, q, pages, freed, needed, room);
        OthersSame(q.shape, id);
      }
    }

    /** Visit an abandoned segment: give back the pages whose blocks are all free by now
        (`freed`), and tell whether it can serve a request for `needed` slices or has a page of
        the right kind with room. */
    method CheckFree(needed: nat, freed: set<nat>, room: set<nat>, q: SpanQueues, now: nat, decommits: nat -> bool)
      returns (found: bool)
      requires Valid(q) && !owned && now > 0
      modifies this`spans, this`used, this`abandoned, count, offset, blockSize, masks, masks.commit, masks.purge, q
      ensures Valid(q) && OthersQueued(old(q.shape), q.shape, id)
      ensures Pages(spans) == Left(Pages(old(spans)), freed, entries)
      ensures found <==> ServedBelow(spans, needed, room, entries)
    {
      found := false;
      ghost var pages, sh := Pages(spans), q.shape;
      assert Fits(spans, entries, 0) && RecordsBut(Table(), spans, {}, 0);
      LeftAtStart(spans, entries, freed);
      var i := count[0];
      while i < entries
        invariant Walked(q, i, entries, pages, freed) && abandoned == used && !owned
        invariant OthersQueued(sh, q.shape, id)
        invariant found <==> ServedBelow(spans, needed, room, i)
        decreases entries - i
      {
        ghost var sh1 := q.shape;
        var hit;
        i, hit := CheckNext(i, q, pages, freed, needed, room, now, decommits);
        if hit { found := true; }
        OthersTwice(sh, sh1, q.shape, id);
      }
    }

    /** Walk the segment and take every free span off its queue; `keep` leaves the spans marked
        free. */
    method Drain(keep: bool, q: SpanQueues)
      requires Wf() && q.Valid() && QueuedBelow(q.shape, id, true, spans, entries)
      modifies blockSize, q
      ensures Apart() && q.Valid()
      ensures forall j: nat :: NoneQueued(q.shape, id, j)
      ensures QueuedBelow(q.shape, id, false, spans, entries) && OthersQueued(old(q.shape), q.shape, id)
      ensures keep ==> Table() == old(Table())
    {
      ghost var t, sh := Table(), q.shape;
      AllQueuedFrom(sh, entries, id, spans);
      var i := 0;
      while i < entries
        invariant Apart() && q.Valid() && i <= entries && (i < entries ==> i in spans)
        invariant SameOutside(t, Table(), 0, i) && (keep ==> Table() == t)
        invariant QueuedFrom(q.shape, id, spans, i) && OthersQueued(sh, q.shape, id)
        decreases entries - i
      {
        assert RecordsBut(t, spans, {}, i) && Fits(spans, entries, i) && QueuedIffFrom(q.shape, id, spans, i, i);
        ghost var sh1, b := q.shape, blockSize[..];
        if blockSize[i] == 0 {
          RemoveFromQueue(i, q);
          if keep {
            blockSize[i] := 0;
            assert blockSize[..] == b;
          }
        }
        DrainStep(sh1, q.shape, entries, id, spans, i);
        OthersTwice(sh, sh1, q.shape, id);
        i := i + count[i];
      }
      Drained(q.shape, entries, id, spans);
    }

    /** Give back a segment without pages: it is the segment information and one free span, which
        leaves its queue. */
    method Dispose(q: SpanQueues)
      requires Wf() && q.Valid() && QueuedBelow(q.shape, id, true, spans, entries) && used == 0
      modifies blockSize, q
      ensures spans == InfoAndRest(info, entries)
      ensures forall j: nat :: NoneQueued(q.shape, id, j)
      ensures OthersQueued(old(q.shape), q.shape, id)
    {
      OnePage(spans, info);
      OnlyInfo(spans, entries, info);
      Drain(false, q);
    }

    /** Give up a segment whose pages are all abandoned: its free spans leave the queues but
        stay free, and scheduled memory is given back if it is time. */
    method Abandon(q: SpanQueues, force: bool, now: nat, decommits: nat -> bool)
      requires Wf() && q.Valid() && QueuedBelow(q.shape, id, true, spans, entries) && abandoned == used
      modifies this`owned, blockSize, masks, masks.commit, masks.purge, q
      ensures spans == old(spans) && used == old(used) && abandoned == old(abandoned)
      ensures Valid(q) && !owned && OthersQueued(old(q.shape), q.shape, id)
    {
      Drain(true, q);
      ghost var scheduled := masks.purge[..];
      var runs := masks.TryPurge(force, now, decommits);
      if runs != [] {
        OnlyScheduled(scheduled, runs, decommits);
      }
      owned := false;
    }

    /** The walk of a new owner queues a free span and goes on behind it. */
    method VisitFree(i: nat, q: SpanQueues, ghost pages: map<nat, nat>, ghost freed: set<nat>, now: nat,
                     decommits: nat -> bool)
      returns (next: nat)
      requires Walked(q, i, i, pages, freed) && now > 0 && i < entries && !spans[i].used
      modifies this`spans, count, offset, blockSize, masks, masks.commit, masks.purge, q
      ensures i < next && Walked(q, next, next, pages, freed)
      ensures spans == old(spans) && Ahead(spans, next) == Ahead(spans, i)
      ensures OthersQueued(old(q.shape), q.shape, id)
    {
      ghost var m, sh := spans, q.shape;
      assert Fits(m, entries, i) && RecordsBut(Table(), m, {}, i);
      FreeLoose(Table(), sh, entries, id, owned, m, i);
      var s := FreeCoalesce(i, q, m, now, decommits);
      Canonical(spans, m, entries);
      assert Fits(m, entries, s) && RecordsBut(Table(), m, {}, s);
      next := s + count[s];
      WalkQueued(sh, q.shape, entries, id, owned, m, m, i, s, i);
      OthersRequeued(sh, q.shape, id, owned, s, m[s].count);
      LeftKept(pages, freed, m, entries, i);
      AheadKept(m, entries, i);
    }

    /** The walk of a new owner passes a page it keeps. */
    method VisitPage(i: nat, q: SpanQueues, ghost pages: map<nat, nat>, ghost freed: set<nat>) returns (next: nat)
      requires Walked(q, i, i, pages, freed) && i < entries && spans[i].used && i !in freed
      ensures i < next && Walked(q, next, next, pages, freed)
      ensures Ahead(spans, next) == Ahead(spans, i) - {i} && i in Ahead(spans, i)
    {
      assert Fits(spans, entries, i) && RecordsBut(Table(), spans, {}, i);
      next := i + count[i];
      QueuedPastPage(q.shape, entries, id, owned, spans, i);
      LeftKept(pages, freed, spans, entries, i);
      AheadKept(spans, entries, i);
    }

    /** A page is not abandoned any more; it is given back if all its blocks are free by now. */
    method VisitUsed(i: nat, q: SpanQueues, ghost pages: map<nat, nat>, freed: set<nat>, now: nat,
                     decommits: nat -> bool)
      returns (next: nat)
      requires Walked(q, i, i, pages, freed) && now > 0 && i < entries && owned && spans[i].used
      requires abandoned == |Ahead(spans, i)|
      modifies this`spans, this`used, this`abandoned, count, offset, blockSize, masks, masks.commit, masks.purge, q
      ensures i < next && Walked(q, next, next, pages, freed)
      ensures abandoned == |Ahead(spans, next)| && Ahead(spans, next) == Ahead(old(spans), i) - {i}
      ensures OthersQueued(old(q.shape), q.shape, id)
    {
      AheadKept(spans, entries, i);
      abandoned := abandoned - 1;
      if i in freed {
        var size;
        next, size := VisitFreed(i, q, i, pages, freed, 0, {}, now, decommits);
      } else {
        next := VisitPage(i, q, pages, freed);
        OthersSame(q.shape, id);
      }
    }

    /** One stop of a new owner's walk: a page whose blocks are all free by now is given back,
        another page is kept, a free span is queued. */
    method VisitNext(i: nat, q: SpanQueues, ghost pages: map<nat, nat>, freed: set<nat>, now: nat,
                     decommits: nat -> bool)
      returns (next: nat, kept: bool)
      requires Walked(q, i, i, pages, freed) && now > 0 && i < entries && owned
      requires abandoned == |Ahead(spans, i)|
      modifies this`spans, this`used, this`abandoned, count, offset, blockSize, masks, masks.commit, masks.purge, q
      ensures i < next && Walked(q, next, next, pages, freed)
      ensures abandoned == |Ahead(spans, next)| && Ahead(spans, next) == Ahead(old(spans), i) - {i}
      ensures kept == (old(spans)[i].used && i !in freed)
      ensures OthersQueued(old(q.shape), q.shape, id)
    {
      ghost var m := spans;
      assert Fits(m, entries, i) && RecordsBut(Table(), m, {}, i);
      AheadKept(m, entries, i);
      kept := blockSize[i] > 0 && i !in freed;
      if blockSize[i] > 0 {
        next := VisitUsed(i, q, pages, freed, now, decommits);
      } else {
        next := VisitFree(i, q, pages, freed, now, decommits);
      }
    }

    /** The walk of a new owner.  The pages it keeps go to its heap in order (`reclaimed`). */
    method ReclaimWalk(freed: set<nat>, q: SpanQueues, now: nat, decommits: nat -> bool) returns (reclaimed: seq<nat>)
      requires Valid(q) && !owned && now > 0
      modifies this, count, offset, blockSize, masks, masks.commit, masks.purge, q
      ensures Wf() && q.Valid() && owned && abandoned == 0 && QueuedBelow(q.shape, id, true, spans, entries)
      ensures Pages(spans) == Left(Pages(old(spans)), freed, entries)
      ensures Reclaimed(reclaimed, Pages(old(spans)), freed, entries)
      ensures OthersQueued(old(q.shape), q.shape, id)
    {
      reclaimed := [];
      owned := true;
      ghost var pages, sh := Pages(spans), q.shape;
      assert RecordsBut(Table(), spans, {}, 0);
      ReclaimStarts(sh, id, spans, entries, freed);
      var i: nat := count[0];
      while i < entries
        invariant Walked(q, i, i, pages, freed) && owned && abandoned == |Ahead(spans, i)|
        invariant Reclaimed(reclaimed, pages, freed, i)
        invariant OthersQueued(sh, q.shape, id)
        decreases entries - i
      {
        ghost var sh1, m := q.shape, spans;
        var next, kept := VisitNext(i, q, pages, freed, now, decommits);
        ReclaimedNext(reclaimed, pages, freed, m, spans, i, next);
        if kept { reclaimed := reclaimed + [i]; }
        i := next;
        OthersTwice(sh, sh1, q.shape, id);
      }
      NoneAhead(spans, entries);
    }

    /** Take over an abandoned segment; when none of its pages is in use any more it is given
        back instead, with nothing left on the queues. */
    method Reclaim(freed: set<nat>, q: SpanQueues, now: nat, decommits: nat -> bool)
      returns (alive: bool, reclaimed: seq<nat>)
      requires Valid(q) && !owned && now > 0
      modifies this, count, offset, blockSize, masks, masks.commit, masks.purge, q
      ensures Pages(spans) == Left(Pages(old(spans)), freed, entries)
      ensures Reclaimed(reclaimed, Pages(old(spans)), freed, entries)
      ensures alive <==> used > 0
      ensures alive ==> Valid(q) && owned && abandoned == 0
      ensures !alive ==> reclaimed == [] && spans == InfoAndRest(info, entries)
      ensures !alive ==> forall j: nat :: NoneQueued(q.shape, id, j)
      ensures OthersQueued(old(q.shape), q.shape, id)
    {
      ghost var pages, sh := Pages(spans), q.shape;
      reclaimed := ReclaimWalk(freed, q, now, decommits);
      ReclaimedAll(reclaimed, pages, freed, spans, entries);
      alive := used > 0;
      if !alive {
        ghost var sh1 := q.shape;
        Dispose(q);
        OthersTwice(sh, sh1, q.shape, id);
      }
    }

    /** Free a page.  The last one takes the segment with it; when only abandoned pages are left
        the segment is abandoned too. */
    method PageFree(i: nat, q: SpanQueues, force: bool, now: nat, decommits: nat -> bool) returns (alive: bool)
      requires Valid(q) && owned && now > 0 && 0 < i < entries && i in spans && spans[i].used
      modifies this, count, offset, blockSize, masks, masks.commit, masks.purge, q
      ensures Pages(spans) == Pages(old(spans)) - {i} && abandoned == old(abandoned)
      ensures alive <==> used > 0
      ensures alive ==> Valid(q) && (owned <==> used != abandoned)
      ensures !alive ==> spans == InfoAndRest(info, entries)
      ensures !alive ==> forall j: nat :: NoneQueued(q.shape, id, j)
      ensures OthersQueued(old(q.shape), q.shape, id)
    {
      ghost var sh := q.shape;
      PageCount(spans, i);
      var _ := PageClear(i, q, entries, now, decommits);
      ghost var sh1 := q.shape;
      alive := used > 0;
      if !alive {
        Dispose(q);
        OthersTwice(sh, sh1, q.shape, id);
      } else if used == abandoned {
        Abandon(q, force, now, decommits);
        OthersTwice(sh, sh1, q.shape, id);
      }
    }

    /** The heap of a page goes away; with its last page the segment is abandoned. */
    method PageAbandon(q: SpanQueues, force: bool, now: nat, decommits: nat -> bool)
      requires Valid(q) && owned && abandoned < used
      modifies this, blockSize, masks, masks.commit, masks.purge, q
      ensures Valid(q) && spans == old(spans) && used == old(used) && abandoned == old(abandoned) + 1
      ensures owned <==> used != abandoned
      ensures OthersQueued(old(q.shape), q.shape, id)
    {
      abandoned := abandoned + 1;
      OthersSame(q.shape, id);
      if used == abandoned {
        Abandon(q, force, now, decommits);
      }
    }
  }
}
