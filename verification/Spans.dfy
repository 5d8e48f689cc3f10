/** How a segment is cut into spans.  A segment is a row of slices; a span is a run of slices
    that is either free or one page.  `map<nat, Span>` gives the span that starts at each
    index; an index that is not mapped lies inside a span. */
module Spans {

  datatype Span = Span(count: nat, used: bool)

  type Layout = map<nat, Span>

  /** The span at `i` is not empty, overlaps no other, and ends where the next one starts. */
  ghost predicate Fits(m: Layout, n: nat, i: nat) {
    i in m ==>
      && m[i].count > 0 && i + m[i].count <= n
      && (i + m[i].count < n ==> i + m[i].count in m)
      && (forall j :: j in m && i < j ==> i + m[i].count <= j)
  }

  /** The spans cover the slices `0..n` exactly. */
  ghost predicate Tiles(m: Layout, n: nat) {
    0 in m && (forall i :: Fits(m, n, i))
  }

  /** The span after a free one is a page. */
  predicate NextUsed(m: Layout, i: nat) {
    i in m && !m[i].used && i + m[i].count in m ==> m[i + m[i].count].used
  }

  /** No two free spans are next to each other. */
  ghost predicate Coalesced(m: Layout) {
    forall i :: NextUsed(m, i)
  }

  /** The pages: where each used span starts and how long it is. */
  ghost function Pages(m: Layout): map<nat, nat> {
    map i | i in m && m[i].used :: m[i].count
  }

  /** Slice `k` belongs to the span that starts at `i`. */
  predicate Within(m: Layout, i: nat, k: nat) {
    i in m && i <= k < i + m[i].count
  }

  // ---------------------------------------------------------------- a tiling covers everything, once

  lemma {:induction false} WalkTo(m: Layout, n: nat, j: nat, k: nat) returns (i: nat)
    requires Tiles(m, n) && j in m && j <= k < n
    ensures Within(m, i, k)
    decreases k - j
  {
    assert Fits(m, n, j);
    if k < j + m[j].count {
      i := j;
    } else {
      i := WalkTo(m, n, j + m[j].count, k);
    }
  }

  /** Every slice is in exactly one span. */
  lemma CoveredOnce(m: Layout, n: nat, k: nat) returns (i: nat)
    requires Tiles(m, n) && k < n
    ensures Within(m, i, k)
    ensures forall j :: Within(m, j, k) ==> j == i
  {
    i := WalkTo(m, n, 0, k);
    forall j | Within(m, j, k)
      ensures j == i
    {
      assert Fits(m, n, i) && Fits(m, n, j);
    }
  }

  /** Every span but the first has one that ends where it starts. */
  lemma Predecessor(m: Layout, n: nat, j: nat) returns (i: nat)
    requires Tiles(m, n) && j in m && j > 0
    ensures i in m && i + m[i].count == j
  {
    assert Fits(m, n, j);
    i := WalkTo(m, n, 0, j - 1);
    assert Fits(m, n, i);
  }

  // ---------------------------------------------------------------- coalesced layouts are canonical

  lemma SameSpan(m: Layout, m': Layout, n: nat, i: nat)
    requires Tiles(m, n) && Tiles(m', n) && Coalesced(m) && Coalesced(m') && Pages(m) == Pages(m')
    requires i in m && i in m'
    ensures m[i] == m'[i]
  {
    assert m[i].used <==> i in Pages(m);
    assert m'[i].used <==> i in Pages(m');
    if m[i].used {
      assert Pages(m)[i] == Pages(m')[i];
    } else {
      FreeNoLonger(m, m', n, i);
      FreeNoLonger(m', m, n, i);
    }
  }

  lemma FreeNoLonger(m: Layout, m': Layout, n: nat, i: nat)
    requires Tiles(m, n) && Tiles(m', n) && Coalesced(m) && Pages(m) == Pages(m')
    requires i in m && i in m' && !m[i].used
    ensures m'[i].count <= m[i].count
  {
    var j := i + m[i].count;
    assert Fits(m, n, i) && Fits(m', n, i) && NextUsed(m, i);
    if j < n {
      assert m[j].used && j in Pages(m);
      assert j in Pages(m') && j in m';
    }
  }

  lemma {:induction false} SameStart(m: Layout, m': Layout, n: nat, i: nat)
    requires Tiles(m, n) && Tiles(m', n) && Coalesced(m) && Coalesced(m') && Pages(m) == Pages(m')
    requires i in m
    ensures i in m'
    decreases i
  {
    if i > 0 {
      var p := Predecessor(m, n, i);
      assert Fits(m, n, p);
      SameStart(m, m', n, p);
      SameSpan(m, m', n, p);
      assert Fits(m, n, p) && Fits(m', n, p) && Fits(m, n, i);
    }
  }

  /** The pages determine the free spans: two layouts with the same pages and no two adjacent
      free spans are the same.  So it does not matter in which order spans were split, freed
      and merged. */
  lemma Canonical(m: Layout, m': Layout, n: nat)
    requires Tiles(m, n) && Tiles(m', n) && Coalesced(m) && Coalesced(m') && Pages(m) == Pages(m')
    ensures m == m'
  {
    forall i | i in m
      ensures i in m' && m[i] == m'[i]
    {
      SameStart(m, m', n, i);
      SameSpan(m, m', n, i);
    }
    forall i | i in m'
      ensures i in m
    {
      SameStart(m', m, n, i);
    }
  }

  /** The layout of a segment without pages: the segment information and one free span. */
  function InfoAndRest(info: nat, n: nat): (m: Layout)
    requires 0 < info < n
    ensures m.Keys == {0, info} && m[0] == Span(info, true) && m[info] == Span(n - info, false)
    ensures Tiles(m, n) && Coalesced(m) && Pages(m) == map[0 := info] && |Pages(m)| == 1
  {
    var m: Layout := map[0 := Span(info, true), info := Span(n - info, false)];
    assert forall i: nat :: Fits(m, n, i) && NextUsed(m, i);
    assert Pages(m) == map[0 := info];
    m
  }

  /** When the segment information is the only page, the rest is one free span. */
  lemma OnlyInfo(m: Layout, n: nat, info: nat)
    requires Tiles(m, n) && Coalesced(m) && 0 < info < n
    requires Pages(m) == map[0 := info]
    ensures m == InfoAndRest(info, n)
  {
    Canonical(m, InfoAndRest(info, n), n);
  }

  // ---------------------------------------------------------------- the steps

  /** The span at `i` cut after `count` slices. */
  function Split(m: Layout, i: nat, count: nat): Layout
    requires i in m && 0 < count <= m[i].count
  {
    if count == m[i].count then m
    else m[i := Span(count, m[i].used)][i + count := Span(m[i].count - count, false)]
  }

  /** The spans at `i` and right after it joined. */
  function Join(m: Layout, i: nat): Layout
    requires i in m && i + m[i].count in m
  {
    var j := i + m[i].count;
    m[i := Span(m[i].count + m[j].count, m[i].used)] - {j}
  }

  function Mark(m: Layout, i: nat, used: bool): Layout
    requires i in m
  {
    m[i := Span(m[i].count, used)]
  }

  lemma SplitTiles(m: Layout, n: nat, i: nat, count: nat)
    requires Tiles(m, n) && i in m && 0 < count <= m[i].count
    ensures Tiles(Split(m, i, count), n)
  {
    assert Fits(m, n, i);
    forall k
      ensures Fits(Split(m, i, count), n, k)
    {
      assert Fits(m, n, k);
    }
  }

  lemma JoinTiles(m: Layout, n: nat, i: nat)
    requires Tiles(m, n) && i in m && i + m[i].count in m
    ensures Tiles(Join(m, i), n)
  {
    assert Fits(m, n, i) && Fits(m, n, i + m[i].count);
    forall k
      ensures Fits(Join(m, i), n, k)
    {
      assert Fits(m, n, k);
    }
  }

  lemma MarkTiles(m: Layout, n: nat, i: nat, used: bool)
    requires Tiles(m, n) && i in m
    ensures Tiles(Mark(m, i, used), n)
  {
    forall k
      ensures Fits(Mark(m, i, used), n, k)
    {
      assert Fits(m, n, k);
    }
  }

  predicate NextUsedBut(m: Layout, j: nat, hole: nat) {
    NextUsed(m, j) || j == hole || j + m[j].count == hole
  }

  /** Two free spans are adjacent only when one of them is the one at `hole`. */
  ghost predicate CoalescedBut(m: Layout, hole: nat) {
    forall j :: NextUsedBut(m, j, hole)
  }

  predicate SameAt(m: Layout, m': Layout, j: nat) {
    (j in m <==> j in m') && (j in m ==> m[j] == m'[j])
  }

  /** Outside the slices `s..s+c` the two layouts have the same spans. */
  ghost predicate Agree(m: Layout, m': Layout, s: nat, c: nat) {
    forall j: nat :: s <= j < s + c || SameAt(m, m', j)
  }

  lemma AgreeMore(m: Layout, l: Layout, l': Layout, i: nat, c: nat, s: nat, c': nat)
    requires Agree(m, l, i, c) && Agree(l, l', s, c') && s <= i && i + c <= s + c'
    ensures Agree(m, l', s, c')
  {
    forall j: nat
      ensures s <= j < s + c' || SameAt(m, l', j)
    {
      assert i <= j < i + c || SameAt(m, l, j);
      assert s <= j < s + c' || SameAt(l, l', j);
    }
  }

  /** Joining two free spans changes no page, and nothing outside the two. */
  lemma JoinFree(m: Layout, n: nat, i: nat, hole: nat)
    requires Tiles(m, n) && i in m && i + m[i].count in m
    requires !m[i].used && !m[i + m[i].count].used
    requires CoalescedBut(m, hole) && (hole == i || hole == i + m[i].count)
    ensures Tiles(Join(m, i), n) && Pages(Join(m, i)) == Pages(m) && CoalescedBut(Join(m, i), i)
    ensures Agree(m, Join(m, i), i, m[i].count + m[i + m[i].count].count)
  {
    JoinTiles(m, n, i);
    var l := Join(m, i);
    assert Fits(m, n, i) && Fits(m, n, i + m[i].count);
    forall j: nat
      ensures NextUsedBut(l, j, i)
    {
      assert Fits(m, n, j) && NextUsedBut(m, j, hole);
    }
    forall j: nat
      ensures i <= j < i + m[i].count + m[i + m[i].count].count || SameAt(m, l, j)
    {
    }
  }

  /** With used neighbours on both sides nothing is left to merge. */
  lemma NothingToMerge(m: Layout, i: nat)
    requires CoalescedBut(m, i) && i in m
    requires i + m[i].count in m ==> m[i + m[i].count].used
    requires forall j :: j in m && j + m[j].count == i ==> m[j].used
    ensures Coalesced(m)
  {
    forall j: nat
      ensures NextUsed(m, j)
    {
      assert NextUsedBut(m, j, i);
    }
  }

  /** Cutting a free span leaves the pages alone. */
  lemma SplitFree(m: Layout, n: nat, i: nat, count: nat)
    requires Tiles(m, n) && Coalesced(m) && i in m && !m[i].used && 0 < count <= m[i].count
    ensures Tiles(Split(m, i, count), n) && Pages(Split(m, i, count)) == Pages(m)
    ensures CoalescedBut(Split(m, i, count), i)
    ensures Agree(m, Split(m, i, count), i, m[i].count)
  {
    var l := Split(m, i, count);
    SplitTiles(m, n, i, count);
    assert Fits(m, n, i) && NextUsed(m, i);
    forall j: nat
      ensures NextUsedBut(l, j, i) && (i <= j < i + m[i].count || SameAt(m, l, j))
    {
      assert Fits(m, n, j) && NextUsed(m, j);
    }
  }

  /** Using the first part of a cut free span adds one page. */
  lemma SplitUsed(m: Layout, n: nat, i: nat, count: nat)
    requires Tiles(m, n) && Coalesced(m) && i in m && !m[i].used && 0 < count <= m[i].count
    ensures var l := Mark(Split(m, i, count), i, true);
      && Tiles(l, n) && Coalesced(l) && Pages(l) == Pages(m)[i := count]
      && Agree(m, l, i, m[i].count)
  {
    SplitFree(m, n, i, count);
    MarkTiles(Split(m, i, count), n, i, true);
    var l := Mark(Split(m, i, count), i, true);
    assert Fits(m, n, i) && NextUsed(m, i);
    forall j: nat
      ensures NextUsed(l, j) && (i <= j < i + m[i].count || SameAt(m, l, j))
    {
      assert Fits(m, n, j) && NextUsed(m, j) && NextUsedBut(Split(m, i, count), j, i);
    }
  }

  /** A page that is freed may have free neighbours; nothing else changes. */
  lemma FreePage(m: Layout, n: nat, i: nat)
    requires Tiles(m, n) && Coalesced(m) && i in m
    ensures Tiles(Mark(m, i, false), n) && CoalescedBut(Mark(m, i, false), i)
    ensures Pages(Mark(m, i, false)) == Pages(m) - {i}
    ensures Agree(m, Mark(m, i, false), i, m[i].count)
  {
    MarkTiles(m, n, i, false);
    var l := Mark(m, i, false);
    assert Fits(m, n, i);
    forall j: nat
      ensures NextUsedBut(l, j, i) && (i <= j < i + m[i].count || SameAt(m, l, j))
    {
      assert NextUsed(m, j);
    }
  }
}
