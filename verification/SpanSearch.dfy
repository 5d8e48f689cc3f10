/** Finding a free span for a page among all segments of a thread. */
module SpanSearch {
  import opened Options
  import opened Placement
  import opened LinkedQueues
  import opened Spans
  import opened SliceTable
  import opened Segments

  ghost function Footprint(segs: map<nat, Segment>): set<object> {
    set s: Segment, o: object | s in segs.Values && o in s.Repr() :: o
  }

  ghost predicate SegmentOk(segs: map<nat, Segment>, q: SpanQueues, id: nat)
    requires id in segs
    reads q, Footprint(segs)
  {
    assert segs[id] in segs.Values && segs[id].Repr() <= Footprint(segs);
    segs[id].id == id && segs[id].Valid(q) && segs[id].owned
  }

  /** The segments of a thread share its span queues and nothing else. */
  ghost predicate Together(segs: map<nat, Segment>, q: SpanQueues)
    reads q, Footprint(segs)
  {
    && (forall id :: id in segs ==> SegmentOk(segs, q, id))
    && (forall a, b :: a in segs && b in segs && a != b ==> segs[a].Repr() !! segs[b].Repr())
    && (forall sl :: sl in q.shape.spot ==> sl.segment in segs)
    && q.Valid()
  }

  type Layouts = map<nat, Layout>

  /** How each segment is laid out. */
  ghost function LayoutsOf(segs: map<nat, Segment>): Layouts
    reads Footprint(segs)
  {
    map id | id in segs :: assert segs[id] in segs.Values && segs[id].Repr() <= Footprint(segs); segs[id].spans
  }

  /** A free span of some segment. */
  predicate IsFree(m: Layouts, sl: Slice) {
    sl.segment in m && sl.index in m[sl.segment] && !m[sl.segment][sl.index].used
  }

  function Size(m: Layouts, sl: Slice): nat {
    if IsFree(m, sl) then m[sl.segment][sl.index].count else 0
  }

  /** A free span of `c` slices or more, of a segment the request may use. */
  predicate Usable(m: Layouts, suitable: set<nat>, c: nat, sl: Slice) {
    sl.segment in suitable && IsFree(m, sl) && Size(m, sl) >= c
  }

  /** Exactly the free spans are queued, each on the queue for its size. */
  ghost predicate IndexedAt(sh: Shape<nat, Slice>, m: Layouts, sl: Slice) {
    && (sl in sh.spot <==> IsFree(m, sl))
    && (sl in sh.spot ==> sh.spot[sl].0 == SliceBin(Size(m, sl)) <= BIN_MAX)
  }

  ghost predicate Indexed(sh: Shape<nat, Slice>, m: Layouts) {
    forall sl: Slice :: IndexedAt(sh, m, sl)
  }

  lemma TogetherIndexed(segs: map<nat, Segment>, q: SpanQueues)
    requires Together(segs, q)
    ensures Indexed(q.shape, LayoutsOf(segs)) && AllCounted(segs, q.shape, LayoutsOf(segs))
  {
    forall sl: Slice
      ensures IndexedAt(q.shape, LayoutsOf(segs), sl)
    {
      if sl.segment in segs {
        assert SegmentOk(segs, q, sl.segment);
        var s := segs[sl.segment];
        assert sl == Slice(s.id, sl.index);
        assert Fits(s.spans, s.entries, sl.index) && QueuedIff(q.shape, s.id, s.owned, s.spans, s.entries, sl.index);
        if sl in q.shape.spot { SliceBinMax(s.spans[sl.index].count); }
      }
    }
    forall sl: Slice
      ensures CountedAt(segs, q.shape, LayoutsOf(segs), sl)
    {
      assert IndexedAt(q.shape, LayoutsOf(segs), sl);
      QueuedCount(segs, q, sl);
    }
  }

  /** The slice array of the segment tells the length of a queued span. */
  ghost predicate CountedAt(segs: map<nat, Segment>, sh: Shape<nat, Slice>, m: Layouts, sl: Slice)
    reads Footprint(segs)
  {
    sl in sh.spot ==>
      && sl.segment in segs
      && (assert segs[sl.segment] in segs.Values && segs[sl.segment].Repr() <= Footprint(segs);
          sl.index < segs[sl.segment].count.Length)
      && segs[sl.segment].count[sl.index] == Size(m, sl)
  }

  ghost predicate AllCounted(segs: map<nat, Segment>, sh: Shape<nat, Slice>, m: Layouts)
    reads Footprint(segs)
  {
    forall sl: Slice :: CountedAt(segs, sh, m, sl)
  }

  lemma QueuedCount(segs: map<nat, Segment>, q: SpanQueues, sl: Slice)
    requires Together(segs, q) && IndexedAt(q.shape, LayoutsOf(segs), sl)
    ensures CountedAt(segs, q.shape, LayoutsOf(segs), sl)
  {
    if sl in q.shape.spot {
      assert SegmentOk(segs, q, sl.segment);
      CountOf(segs[sl.segment], q, sl.index);
    }
  }

  lemma CountOf(s: Segment, q: SpanQueues, i: nat)
    requires s.Valid(q) && i in s.spans
    ensures i < s.count.Length && s.count[i] == s.spans[i].count
  {
    assert RecordsBut(s.Table(), s.spans, {}, i) && Fits(s.spans, s.entries, i);
  }

  /** Search the queue of one size from its front. */
  method SearchQueue(segs: map<nat, Segment>, q: SpanQueues, bin: nat, c: nat, suitable: set<nat>, ghost m: Layouts)
    returns (r: Option<Slice>)
    requires q.Valid() && AllCounted(segs, q.shape, m)
    ensures r.Some? ==> r.value in q.List(bin) && r.value.segment in suitable && Size(m, r.value) >= c
    ensures r == None ==> forall sl :: sl in q.List(bin) ==> sl.segment !in suitable || Size(m, sl) < c
    ensures AllCounted(segs, q.shape, m)
  {
    assert EndsOk(q.shape, q.first, q.last, bin);
    ghost var list, k := q.List(bin), 0;
    r := if bin in q.first then Some(q.first[bin]) else None;
    while r.Some?
      invariant q.Valid() && AllCounted(segs, q.shape, m) && list == q.List(bin)
      invariant k <= |list| && (if k < |list| then r == Some(list[k]) else r == None)
      invariant forall i :: 0 <= i < k ==> list[i].segment !in suitable || Size(m, list[i]) < c
      decreases |list| - k
    {
      var sl := r.value;
      SpotAt(q.shape, bin, k);
      assert CountedAt(segs, q.shape, m, sl);
      if segs[sl.segment].count[sl.index] >= c && sl.segment in suitable {
        return;
      }
      assert Linked(q.shape, q.next, q.prev, sl);
      r := if sl in q.next then Some(q.next[sl]) else None;
      k := k + 1;
    }
  }

  /** No usable span is shorter, as far as the queues can tell. */
  ghost predicate BestFit(m: Layouts, suitable: set<nat>, c: nat, sl: Slice) {
    && Usable(m, suitable, c, sl)
    && (forall o :: Usable(m, suitable, c, o) ==> SliceBin(Size(m, sl)) <= SliceBin(Size(m, o)))
  }

  /** The search goes through the queues from the best fit up. */
  method FindBest(segs: map<nat, Segment>, bin: nat, c: nat, suitable: set<nat>, q: SpanQueues, ghost m: Layouts)
    returns (r: Option<Slice>)
    requires q.Valid() && AllCounted(segs, q.shape, m) && Indexed(q.shape, m) && bin <= SliceBin(c)
    ensures r.Some? ==> BestFit(m, suitable, c, r.value)
    ensures r == None ==> forall o :: !Usable(m, suitable, c, o)
  {
    ghost var sh := q.shape;
    UsableFrom(sh, m, suitable, c, bin);
    var b := bin;
    while b <= BIN_MAX
      invariant q.Valid() && AllCounted(segs, q.shape, m) && sh == q.shape
      invariant forall o :: Usable(m, suitable, c, o) ==> b <= SliceBin(Size(m, o))
    {
      r := SearchQueue(segs, q, b, c, suitable, m);
      NextBin(sh, m, suitable, c, b, r);
      if r.Some? { return; }
      b := b + 1;
    }
    r := None;
    forall o
      ensures !Usable(m, suitable, c, o)
    {
      assert IndexedAt(sh, m, o);
    }
  }

  lemma UsableFrom(sh: Shape<nat, Slice>, m: Layouts, suitable: set<nat>, c: nat, bin: nat)
    requires Indexed(sh, m) && bin <= SliceBin(c)
    ensures forall o :: Usable(m, suitable, c, o) ==> bin <= SliceBin(Size(m, o))
  {
    forall o | Usable(m, suitable, c, o)
      ensures bin <= SliceBin(Size(m, o))
    {
      SliceBinMonotone(c, Size(m, o));
    }
  }

  /** One queue searched: either the best fit is found or no usable span is on it. */
  lemma NextBin(sh: Shape<nat, Slice>, m: Layouts, suitable: set<nat>, c: nat, bin: nat, r: Option<Slice>)
    requires ShapeOk(sh) && Indexed(sh, m)
    requires forall o :: Usable(m, suitable, c, o) ==> bin <= SliceBin(Size(m, o))
    requires r.Some? ==> r.value in At(sh.lists, bin) && r.value.segment in suitable && Size(m, r.value) >= c
    requires r == None ==> forall sl :: sl in At(sh.lists, bin) ==> sl.segment !in suitable || Size(m, sl) < c
    ensures r.Some? ==> BestFit(m, suitable, c, r.value)
    ensures r == None ==> forall o :: Usable(m, suitable, c, o) ==> bin < SliceBin(Size(m, o))
  {
    if r.Some? {
      assert ListOk(sh, bin) && IndexedAt(sh, m, r.value);
    } else {
      forall o | Usable(m, suitable, c, o)
        ensures bin < SliceBin(Size(m, o))
      {
        assert IndexedAt(sh, m, o) && SpotOk(sh, o);
      }
    }
  }

  method FindIn(segs: map<nat, Segment>, bin: nat, c: nat, suitable: set<nat>, q: SpanQueues, ghost m: Layouts)
    returns (r: Option<Slice>)
    requires Together(segs, q) && m == LayoutsOf(segs) && bin <= SliceBin(c)
    ensures unchanged(Footprint(segs)) && unchanged(q)
    ensures r == None ==> forall o :: !Usable(m, suitable, c, o)
    ensures r.Some? ==> BestFit(m, suitable, c, r.value) && r.value.segment in segs
  {
    TogetherIndexed(segs, q);
    r := FindBest(segs, bin, c, suitable, q, m);
  }

  /** Find a free span for a page of `needed` slices; when nothing is found no suitable segment has
      a free span that is long enough.  `m` is how the segments are laid out. */
  method FindSpan(segs: map<nat, Segment>, needed: nat, suitable: set<nat>, q: SpanQueues, ghost m: Layouts)
    returns (r: Option<Slice>, c: nat)
    requires Together(segs, q) && m == LayoutsOf(segs)
    ensures Together(segs, q) && m == LayoutsOf(segs)
    ensures c == if needed == 0 then 1 else needed
    ensures r == None ==> forall o :: !Usable(m, suitable, c, o)
    ensures r.Some? ==> BestFit(m, suitable, c, r.value) && r.value.segment in segs
  {
    c := if needed == 0 then 1 else needed;
    SliceBinMonotone(needed, c);
    r := FindIn(segs, SliceBin(needed), c, suitable, q, m);
  }

  // ---------------------------------------------------------------- cutting the page off the span found

  /** Segment `id` has the layout `m[id]` and is as `Together` asks for, with the queues as they
      were in `sh`: that depends on nothing but its own objects. */
  ghost predicate Kept(segs: map<nat, Segment>, m: Layouts, sh: Shape<nat, Slice>, id: nat)
    requires id in segs
    reads segs[id].Repr()
  {
    var o := segs[id];
    && o.id == id && o.Wf() && o.owned && (o.abandoned < o.used || o.abandoned == o.used == 0)
    && QueuedBelow(sh, id, true, o.spans, o.entries)
    && id in m && o.spans == m[id]
  }

  /** All segments but `id`, whose objects are in `rest`, are kept. */
  ghost predicate OthersKept(segs: map<nat, Segment>, m: Layouts, sh: Shape<nat, Slice>, id: nat, rest: set<object>)
    reads rest
  {
    forall a :: a in segs && a != id ==> segs[a].Repr() <= rest && Kept(segs, m, sh, a)
  }

  /** `AllocateFrom` touches no object outside its segment but the queues. */
  method AllocateApart(s: Segment, i: nat, c: nat, q: SpanQueues, now: nat, osCommits: bool, decommits: nat -> bool,
                       ghost rest: set<object>)
    returns (ok: bool)
    requires s.Valid(q) && s.owned && now > 0
    requires i < s.entries && i in s.spans && !s.spans[i].used && 0 < c <= s.spans[i].count
    requires rest !! s.Repr() && q !in rest
    modifies s`spans, s`used, s.count, s.offset, s.blockSize, s.masks, s.masks.commit, s.masks.purge, q
    ensures unchanged(rest)
    ensures s.Valid(q) && OthersQueued(old(q.shape), q.shape, s.id)
    ensures osCommits ==> ok
    ensures ok ==> Pages(s.spans) == Pages(old(s.spans))[i := c] && s.used == old(s.used) + 1
    ensures !ok ==> s.spans == old(s.spans) && s.used == old(s.used)
  {
    ok := s.AllocateFrom(i, c, q, now, osCommits, decommits);
  }

  /** A segment whose own state has not changed stays valid when another one was used. */
  lemma OtherKept(segs: map<nat, Segment>, q: SpanQueues, m: Layouts, sh: Shape<nat, Slice>, id: nat, a: nat)
    requires a in segs && Kept(segs, m, sh, a) && a != id && q.Valid() && OthersQueued(sh, q.shape, id)
    ensures SegmentOk(segs, q, a)
  {
    var s := segs[a];
    forall j: nat
      ensures QueuedIff(q.shape, a, true, s.spans, s.entries, j)
    {
      assert QueuedIff(sh, a, true, s.spans, s.entries, j);
      assert SameQueue(sh, q.shape, Slice(a, j));
    }
  }

  predicate SpotsIn(segs: map<nat, Segment>, sh: Shape<nat, Slice>) {
    forall sl :: sl in sh.spot ==> sl.segment in segs
  }

  ghost predicate Disjoint(segs: map<nat, Segment>) {
    forall a, b :: a in segs && b in segs && a != b ==> segs[a].Repr() !! segs[b].Repr()
  }

  /** The objects of all segments but one. */
  lemma RestOf(segs: map<nat, Segment>, id: nat) returns (rest: set<object>)
    requires Disjoint(segs) && id in segs
    ensures forall a :: a in segs && a != id ==> segs[a].Repr() <= rest
    ensures rest !! segs[id].Repr()
    ensures forall o :: o in rest ==> exists a :: a in segs && o in segs[a].Repr()
  {
    var reprs := map a | a in segs :: segs[a].Repr();
    rest := RestOfSets(reprs, id);
    forall a | a in segs && a != id
      ensures segs[a].Repr() <= rest
    {
      assert reprs[a] <= rest;
    }
  }

  lemma RestOfSets(reprs: map<nat, set<object>>, id: nat) returns (rest: set<object>)
    requires forall a, b :: a in reprs && b in reprs && a != b ==> reprs[a] !! reprs[b]
    ensures forall a :: a in reprs && a != id ==> reprs[a] <= rest
    ensures id in reprs ==> rest !! reprs[id]
    ensures forall o :: o in rest ==> exists a :: a in reprs && o in reprs[a]
  {
    rest := set a: nat, o: object | a in reprs && a != id && o in reprs[a] :: o;
  }

  lemma QueuesApart(s: Segment, q: SpanQueues)
    ensures q !in s.Repr()
  {
  }

  lemma TogetherApart(segs: map<nat, Segment>, q: SpanQueues, m: Layouts, id: nat) returns (rest: set<object>)
    requires Together(segs, q) && m == LayoutsOf(segs) && id in segs
    ensures rest !! segs[id].Repr() && q !in rest
    ensures OthersKept(segs, m, q.shape, id, rest)
  {
    assert Disjoint(segs);
    rest := RestOf(segs, id);
    forall a | a in segs
      ensures Kept(segs, m, q.shape, a) && q !in segs[a].Repr()
    {
      TogetherKept(segs, q, m, a);
      QueuesApart(segs[a], q);
    }
  }

  lemma TogetherKept(segs: map<nat, Segment>, q: SpanQueues, m: Layouts, a: nat)
    requires Together(segs, q) && m == LayoutsOf(segs) && a in segs
    ensures Kept(segs, m, q.shape, a)
  {
    assert SegmentOk(segs, q, a);
  }

  lemma StillTogether(segs: map<nat, Segment>, q: SpanQueues, m: Layouts, sh: Shape<nat, Slice>, id: nat,
                      rest: set<object>)
    requires id in segs && OthersKept(segs, m, sh, id, rest) && q.Valid() && OthersQueued(sh, q.shape, id)
    requires SegmentOk(segs, q, id) && Disjoint(segs) && SpotsIn(segs, sh)
    ensures Together(segs, q)
  {
    forall a | a in segs
      ensures SegmentOk(segs, q, a)
    {
      if a != id { OtherKept(segs, q, m, sh, id, a); }
    }
    forall sl | sl in q.shape.spot
      ensures sl.segment in segs
    {
      assert sl.segment == id || SameQueue(sh, q.shape, sl);
    }
  }

  /** `c` slices of the free span `sl` have become a page, or nothing has changed. */
  ghost predicate Cut(m: Layouts, m': Layouts, sl: Slice, c: nat, ok: bool) {
    && sl.segment in m && m'.Keys == m.Keys
    && (forall a :: a in m && a != sl.segment ==> m'[a] == m[a])
    && (if ok then Pages(m'[sl.segment]) == Pages(m[sl.segment])[sl.index := c] else m' == m)
  }

  /** A segment that is ready to have a page cut off its free span `sl`, beside the others. */
  ghost predicate Ready(segs: map<nat, Segment>, q: SpanQueues, m: Layouts, sl: Slice, c: nat, rest: set<object>)
    requires sl.segment in segs
    reads q, segs[sl.segment].Repr(), rest
  {
    var s := segs[sl.segment];
    && s.id == sl.segment && s.Valid(q) && s.owned && sl.segment in m && s.spans == m[sl.segment]
    && sl.index < s.entries && sl.index in s.spans && !s.spans[sl.index].used && 0 < c <= s.spans[sl.index].count
    && rest !! s.Repr() && q !in rest && OthersKept(segs, m, q.shape, sl.segment, rest)
    && Disjoint(segs) && SpotsIn(segs, q.shape)
  }

  lemma FoundReady(segs: map<nat, Segment>, q: SpanQueues, m: Layouts, sl: Slice, c: nat) returns (rest: set<object>)
    requires Together(segs, q) && m == LayoutsOf(segs) && IsFree(m, sl) && 0 < c <= Size(m, sl)
    ensures sl.segment in segs && Ready(segs, q, m, sl, c, rest)
  {
    assert SegmentOk(segs, q, sl.segment);
    var s := segs[sl.segment];
    assert Fits(s.spans, s.entries, sl.index);
    rest := TogetherApart(segs, q, m, sl.segment);
  }

  lemma CutIs(segs: map<nat, Segment>, m: Layouts, sh: Shape<nat, Slice>, sl: Slice, c: nat, rest: set<object>,
              ok: bool)
    requires sl.segment in segs && OthersKept(segs, m, sh, sl.segment, rest) && m.Keys == segs.Keys
    requires var l := segs[sl.segment].spans;
      if ok then Pages(l) == Pages(m[sl.segment])[sl.index := c] else l == m[sl.segment]
    ensures Cut(m, LayoutsOf(segs), sl, c, ok)
  {
    forall a | a in m && a != sl.segment
      ensures LayoutsOf(segs)[a] == m[a]
    {
      assert Kept(segs, m, sh, a);
    }
  }

  method AllocateReady(segs: map<nat, Segment>, sl: Slice, c: nat, q: SpanQueues, now: nat, osCommits: bool,
                       decommits: nat -> bool, ghost m: Layouts, ghost rest: set<object>)
    returns (ok: bool)
    requires sl.segment in segs && Ready(segs, q, m, sl, c, rest) && now > 0
    modifies q, segs[sl.segment].Repr()
    ensures Together(segs, q)
    ensures osCommits ==> ok
    ensures var l := segs[sl.segment].spans;
      if ok then Pages(l) == Pages(m[sl.segment])[sl.index := c] else l == m[sl.segment]
    ensures OthersKept(segs, m, old(q.shape), sl.segment, rest)
  {
    ghost var sh := q.shape;
    ok := AllocateApart(segs[sl.segment], sl.index, c, q, now, osCommits, decommits, rest);
    StillTogether(segs, q, m, sh, sl.segment, rest);
  }

  method AllocateCut(segs: map<nat, Segment>, sl: Slice, c: nat, q: SpanQueues, now: nat, osCommits: bool,
                     decommits: nat -> bool, ghost m: Layouts, ghost rest: set<object>)
    returns (ok: bool)
    requires sl.segment in segs && Ready(segs, q, m, sl, c, rest) && m.Keys == segs.Keys && now > 0
    modifies q, segs[sl.segment].Repr()
    ensures Together(segs, q) && Cut(m, LayoutsOf(segs), sl, c, ok)
    ensures osCommits ==> ok
  {
    ghost var sh := q.shape;
    ok := AllocateReady(segs, sl, c, q, now, osCommits, decommits, m, rest);
    CutIs(segs, m, sh, sl, c, rest, ok);
  }

  /** The span found is cut to the page, or left as it was; the segments stay together. */
  method AllocateFound(segs: map<nat, Segment>, sl: Slice, c: nat, q: SpanQueues, now: nat, osCommits: bool,
                       decommits: nat -> bool, ghost m: Layouts)
    returns (ok: bool)
    requires Together(segs, q) && m == LayoutsOf(segs) && now > 0
    requires sl.segment in segs && IsFree(m, sl) && 0 < c <= Size(m, sl)
    modifies q, segs[sl.segment].Repr()
    ensures Together(segs, q) && Cut(m, LayoutsOf(segs), sl, c, ok)
    ensures osCommits ==> ok
  {
    ghost var rest := FoundReady(segs, q, m, sl, c);
    ok := AllocateCut(segs, sl, c, q, now, osCommits, decommits, m, rest);
  }

  /** Find a page of `needed` slices among the segments a request may use: the best fit is cut and
      becomes a page.  When there is none, or its slices cannot be committed, no layout changes. */
  method FindAndAllocate(segs: map<nat, Segment>, needed: nat, suitable: set<nat>, q: SpanQueues, now: nat,
                         osCommits: bool, decommits: nat -> bool, ghost m: Layouts)
    returns (page: Option<Slice>, c: nat)
    requires Together(segs, q) && m == LayoutsOf(segs) && now > 0
    modifies q, Footprint(segs)
    ensures Together(segs, q) && c == if needed == 0 then 1 else needed
    ensures page.Some? ==> BestFit(m, suitable, c, page.value) && Cut(m, LayoutsOf(segs), page.value, c, true)
    ensures page == None ==> LayoutsOf(segs) == m
    ensures page == None && osCommits ==> forall o :: !Usable(m, suitable, c, o)
  {
    var r;
    r, c := FindSpan(segs, needed, suitable, q, m);
    if r == None { return None, c; }
    FoundInside(segs, r.value.segment);
    var ok := AllocateFound(segs, r.value, c, q, now, osCommits, decommits, m);
    page := if ok then r else None;
  }

  lemma FoundInside(segs: map<nat, Segment>, id: nat)
    requires id in segs
    ensures segs[id].Repr() <= Footprint(segs)
  {
    assert segs[id] in segs.Values;
  }
}
