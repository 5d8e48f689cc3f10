/** The page queues of a heap and the array that leads from a small size directly to the first
    page of its queue.  Heaps of one thread share the links of their pages, so that one heap
    can take over the queues of another. */
module PageQueues {
  import opened Bits
  import opened LinkedQueues
  import opened Placement
  import opened SizeBins

  /** An entry of the direct array: no page at all, the empty page, or a real page. */
  datatype Entry = Null | EmptyPage | Page(page: nat)

  type PageShape = Shape<(nat, nat), nat>

  /** The fields of the pages: the heap a page belongs to, whether it is marked full, and its
      block size in words. */
  class PageTable {
    var heap: map<nat, nat>
    var full: set<nat>
    const words: map<nat, nat>

    constructor (words: map<nat, nat>)
      ensures this.words == words && heap == map[] && full == {}
    {
      this.words, heap, full := words, map[], {};
    }
  }

  // ---------------------------------------------------------------- what must hold

  ghost function FirstEntry(s: PageShape, id: nat, bin: nat): Entry {
    if At(s.lists, (id, bin)) == [] then EmptyPage else Page(At(s.lists, (id, bin))[0])
  }

  /** Every small size leads to the first page of its queue. */
  ghost predicate Direct(d: seq<Entry>, s: PageShape, id: nat) {
    |d| == SMALL_WORDS + 1 && forall w: nat :: w <= SMALL_WORDS ==> d[w] == FirstEntry(s, id, BinOf(w))
  }

  /** As `Direct`, but the entries of `bin` may be out of date; they are all the same. */
  ghost predicate DirectBut(d: seq<Entry>, s: PageShape, id: nat, bin: nat) {
    && |d| == SMALL_WORDS + 1
    && (forall w: nat :: w <= SMALL_WORDS && BinOf(w) != bin ==> d[w] == FirstEntry(s, id, BinOf(w)))
    && (forall v: nat, w: nat :: v <= SMALL_WORDS && w <= SMALL_WORDS && BinOf(v) == bin && BinOf(w) == bin ==>
        d[v] == d[w])
  }

  /** The pages on the queues of heap `id`. */
  ghost function QueuedOn(s: PageShape, id: nat): set<nat> {
    set x | x in s.spot && s.spot[x].0.0 == id
  }

  /** The queue a page belongs on. */
  function QueueFor(words: nat, full: bool): nat {
    if full then FULL else BinOf(words)
  }

  /** A queued page is on a queue of its heap, the one for its size or the one for full pages. */
  ghost predicate Homed(s: PageShape, heap: map<nat, nat>, full: set<nat>, words: map<nat, nat>, x: nat) {
    x in s.spot ==> x in heap && x in words && s.spot[x].0 == (heap[x], QueueFor(words[x], x in full))
  }

  ghost predicate AllHomed(s: PageShape, heap: map<nat, nat>, full: set<nat>, words: map<nat, nat>) {
    forall x :: Homed(s, heap, full, words, x)
  }

  /** Nothing changed for the queues of heap `id`. */
  ghost predicate SameHeap(s: PageShape, s': PageShape, id: nat) {
    && (forall bin :: At(s'.lists, (id, bin)) == At(s.lists, (id, bin)))
    && QueuedOn(s', id) == QueuedOn(s, id)
  }

  class Heap {
    const id: nat
    const q: Queues<(nat, nat), nat>
    const pages: PageTable
    const direct: array<Entry>
    var pageCount: nat

    ghost predicate Valid()
      reads this, q, pages, direct
    {
      && q.Valid()
      && AllHomed(q.shape, pages.heap, pages.full, pages.words)
      && Direct(direct[..], q.shape, id)
      && pageCount == |QueuedOn(q.shape, id)|
    }

    ghost function List(bin: nat): seq<nat>
      reads q
    {
      q.List((id, bin))
    }

    /** A heap without pages. */
    constructor (id: nat, q: Queues<(nat, nat), nat>, pages: PageTable)
      requires q.Valid() && AllHomed(q.shape, pages.heap, pages.full, pages.words)
      requires QueuedOn(q.shape, id) == {}
      ensures Valid() && this.id == id && this.q == q && this.pages == pages && fresh(direct)
    {
      this.id, this.q, this.pages, pageCount := id, q, pages, 0;
      direct := new Entry[SMALL_WORDS + 1](_ => EmptyPage);
      new;
      forall bin: nat ensures FirstEntry(q.shape, id, bin) == EmptyPage {
        NoPages(q.shape, id, bin);
      }
      assert forall w: nat :: w <= SMALL_WORDS ==> direct[w] == EmptyPage;
    }

    /** The first page of a queue, or the empty page. */
    method First(bin: nat) returns (e: Entry)
      requires q.Valid()
      ensures e == FirstEntry(q.shape, id, bin)
    {
      assert EndsOk(q.shape, q.first, q.last, (id, bin));
      e := if (id, bin) in q.first then Page(q.first[(id, bin)]) else EmptyPage;
    }

    /** The quick look-up of a page for a small size. */
    method FreeSmallPage(w: nat) returns (e: Entry)
      requires Valid() && w <= SMALL_WORDS
      ensures e == if List(BinOf(w)) == [] then EmptyPage else Page(List(BinOf(w))[0])
    {
      e := direct[w];
    }

    /** Bring the entries of a bin up to date.  Nothing is written when the entry of the
        bin's own size is already right; otherwise all sizes after those of the bins before
        it are set. */
    method FirstUpdate(bin: nat)
      requires q.Valid() && Used(bin) && DirectBut(direct[..], q.shape, id, bin)
      modifies direct
      ensures Direct(direct[..], q.shape, id)
    {
      var idx := QueueSize(bin);
      forall w: nat | w <= SMALL_WORDS
        ensures BinOf(w) == bin ==> idx <= SMALL_WORDS
      {
        SmallBins(w);
      }
      if idx > SMALL_WORDS { return; }
      var e := First(bin);
      UsedServes(bin);
      if direct[idx] == e { return; }
      var start := StartSlot(bin);
      ghost var was := direct[..];
      var sz := start;
      while sz <= idx
        invariant start <= sz <= idx + 1
        invariant forall w :: 0 <= w < direct.Length ==> direct[w] == if start <= w < sz then e else was[w]
      {
        direct[sz] := e;
        sz := sz + 1;
      }
    }

    /** Insert a page at the front of a queue; on the queue of full pages it is marked full. */
    method Push(bin: nat, x: nat)
      requires Valid() && !q.Queued(x)
      requires x in pages.heap && pages.heap[x] == id && x in pages.words
      requires bin == FULL || bin == BinOf(pages.words[x])
      modifies this, q, pages`full, direct
      ensures Valid() && q.shape == Pushed(old(q.shape), (id, bin), x)
      ensures pages.full == if bin == FULL then old(pages.full) + {x} else old(pages.full) - {x}
      ensures pageCount == old(pageCount) + 1
    {
      ghost var s := q.shape;
      QueueUsed(pages.words[x], bin == FULL);
      pages.full := if bin == FULL then pages.full + {x} else pages.full - {x};
      LinkFront(bin, x);
      PushKeeps(s, q.shape, id, bin, x, pages.heap, old(pages.full), pages.full, pages.words);
      pageCount := pageCount + 1;
    }

    /** Take a page off its queue; it is no longer marked full. */
    method Remove(bin: nat, x: nat)
      requires Valid() && q.Queued(x) && q.shape.spot[x].0 == (id, bin)
      modifies this, q, pages`full, direct
      ensures Valid() && q.shape == Deleted(old(q.shape), x)
      ensures pages.full == old(pages.full) - {x}
      ensures pageCount == old(pageCount) - 1
    {
      ghost var s := q.shape;
      Unlink(bin, x);
      DeleteKeeps(s, q.shape, id, bin, x, pages.heap, pages.full, pages.words);
      pageCount := pageCount - 1;
      pages.full := pages.full - {x};
    }

    /** Unlink a page and keep the direct entries right. */
    method Unlink(bin: nat, x: nat)
      requires Valid() && q.Queued(x) && q.shape.spot[x].0 == (id, bin)
      modifies q, direct
      ensures q.Valid() && q.shape == Deleted(old(q.shape), x)
      ensures Direct(direct[..], q.shape, id)
    {
      ghost var s := q.shape;
      assert Homed(s, pages.heap, pages.full, pages.words, x);
      QueueUsed(pages.words[x], x in pages.full);
      var e := First(bin);
      q.Delete((id, bin), x);
      DeleteKeeps(s, q.shape, id, bin, x, pages.heap, pages.full, pages.words);
      if e == Page(x) { FirstUpdate(bin); }
    }

    /** Link a page at the front of a queue and keep the direct entries right. */
    method LinkFront(bin: nat, x: nat)
      requires q.Valid() && !q.Queued(x) && Used(bin) && Direct(direct[..], q.shape, id)
      modifies q, direct
      ensures q.Valid() && q.shape == Pushed(old(q.shape), (id, bin), x)
      ensures Direct(direct[..], q.shape, id)
    {
      q.PushFront((id, bin), x);
      FirstUpdate(bin);
    }

    /** Link a page at the end of a queue and keep the direct entries right. */
    method LinkBack(bin: nat, x: nat)
      requires q.Valid() && !q.Queued(x) && Used(bin) && Direct(direct[..], q.shape, id)
      modifies q, direct
      ensures q.Valid() && q.shape == Appended(old(q.shape), (id, bin), x)
      ensures Direct(direct[..], q.shape, id)
    {
      var e := First(bin);
      q.PushBack((id, bin), x);
      if e == EmptyPage { FirstUpdate(bin); }
    }

    /** Move a page to the end of another of the heap's queues. */
    method EnqueueFrom(to: nat, from: nat, x: nat)
      requires Valid() && q.Queued(x) && q.shape.spot[x].0 == (id, from)
      requires to != from && x in pages.words && (to == FULL || to == BinOf(pages.words[x]))
      modifies this, q, pages`full, direct
      ensures Valid() && q.shape == Appended(Deleted(old(q.shape), x), (id, to), x)
      ensures pages.full == if to == FULL then old(pages.full) + {x} else old(pages.full) - {x}
      ensures pageCount == old(pageCount)
    {
      ghost var s := q.shape;
      assert Homed(s, pages.heap, pages.full, pages.words, x);
      QueueUsed(pages.words[x], to == FULL);
      Unlink(from, x);
      LinkBack(to, x);
      pages.full := if to == FULL then pages.full + {x} else pages.full - {x};
      RequeueKeeps(s, q.shape, id, from, to, x, pages.heap, old(pages.full), pages.full, pages.words);
    }

    /** A page that has room again leaves the queue of full pages. */
    method Unfull(x: nat)
      requires Valid() && q.Queued(x) && q.shape.spot[x].0.0 == id
      modifies this, q, pages`full, direct
      ensures Valid() && x !in pages.full && pageCount == old(pageCount)
      ensures x !in old(pages.full) ==> q.shape == old(q.shape)
      ensures x in old(pages.full) ==>
        && q.Queued(x) && x in pages.words && q.shape.spot[x].0 == (id, BinOf(pages.words[x]))
        && List(BinOf(pages.words[x])) == old(List(BinOf(pages.words[x]))) + [x]
    {
      assert Homed(q.shape, pages.heap, pages.full, pages.words, x);
      if x !in pages.full { return; }
      BinNotFull(pages.words[x]);
      EnqueueFrom(BinOf(pages.words[x]), FULL, x);
    }

    /** A page without room goes to the queue of full pages, where searches do not see it. */
    method ToFull(bin: nat, x: nat)
      requires Valid() && q.Queued(x) && q.shape.spot[x].0 == (id, bin)
      modifies this, q, pages`full, direct
      ensures Valid() && x in pages.full && pageCount == old(pageCount)
      ensures x in old(pages.full) ==> q.shape == old(q.shape)
      ensures x !in old(pages.full) ==>
        q.Queued(x) && q.shape.spot[x].0 == (id, FULL) && List(FULL) == old(List(FULL)) + [x] && x !in List(bin)
    {
      assert Homed(q.shape, pages.heap, pages.full, pages.words, x);
      if x in pages.full { return; }
      BinNotFull(pages.words[x]);
      EnqueueFrom(FULL, bin, x);
      assert SpotOk(q.shape, x) && ListOk(q.shape, (id, bin));
    }

    /** Take over one queue of another heap: its pages go behind ours. */
    method QueueAppend(bin: nat, from: Heap) returns (count: nat)
      requires q.Valid() && AllHomed(q.shape, pages.heap, pages.full, pages.words) && Direct(direct[..], q.shape, id)
      requires from.q == q && from.id != id
      modifies q, pages`heap, direct
      ensures q.Valid() && AllHomed(q.shape, pages.heap, pages.full, pages.words) && Direct(direct[..], q.shape, id)
      ensures count == |old(from.List(bin))|
      ensures q.shape == if count == 0 then old(q.shape) else Joined(old(q.shape), (id, bin), (from.id, bin))
      ensures pages.heap == Rehomed(old(pages.heap), old(from.List(bin)), id)
    {
      ghost var s := q.shape;
      var src := (from.id, bin);
      assert EndsOk(s, q.first, q.last, src) && EndsOk(s, q.first, q.last, (id, bin));
      if src !in q.first {
        return 0;
      }
      count := MoveHome(bin, from);
      BinOfQueue(s, from.id, bin, old(pages.heap), pages.full, pages.words);
      var e := First(bin);
      q.Append((id, bin), (from.id, bin));
      JoinKeeps(s, q.shape, id, from.id, bin, old(pages.heap), pages.full, pages.words);
      if e == EmptyPage { FirstUpdate(bin); }
    }

    /** Give every page of another heap's queue to this heap, following the links. */
    method MoveHome(bin: nat, from: Heap) returns (count: nat)
      requires q.Valid() && from.q == q && from.List(bin) != []
      modifies pages`heap
      ensures count == |from.List(bin)|
      ensures pages.heap == Rehomed(old(pages.heap), from.List(bin), id)
    {
      ghost var s := q.shape;
      var src := (from.id, bin);
      ghost var list := At(s.lists, src);
      assert EndsOk(s, q.first, q.last, src);
      var page := q.first[src];
      count := 0;
      var more := true;
      while more
        invariant if more then count < |list| && page == list[count] else count == |list|
        invariant pages.heap == Rehomed(old(pages.heap), list[..count], id)
        decreases |list| - count, more
      {
        SpotAt(s, src, count);
        assert Linked(s, q.next, q.prev, page);
        assert list[..count + 1] == list[..count] + [page];
        pages.heap := pages.heap[page := id];
        count := count + 1;
        if page in q.next { page := q.next[page]; } else { more := false; }
      }
      assert list[..count] == list;
    }

    /** Take over all pages of another heap, which is left without pages. */
    method Absorb(from: Heap)
      requires Valid() && from.Valid()
      requires from.q == q && from.pages == pages && from.id != id && from.direct != direct
      modifies this, from, q, pages`heap, direct, from.direct
      ensures Valid() && pageCount == old(pageCount) + old(from.pageCount)
      ensures from.pageCount == 0 && QueuedOn(q.shape, from.id) == {}
      ensures forall bin: nat :: bin <= FULL ==>
        List(bin) == old(List(bin)) + old(from.List(bin)) && from.List(bin) == []
      ensures forall x :: q.Queued(x) <==> old(q.Queued(x))
      ensures old(from.pageCount) > 0 ==> forall w :: 0 <= w <= SMALL_WORDS ==> from.direct[w] == Null
    {
      ghost var s := q.shape;
      if from.pageCount == 0 {
        forall bin: nat ensures from.List(bin) == [] {
          NoPages(s, from.id, bin);
        }
        return;
      }
      AbsorbQueues(from);
      AllTaken(s, q.shape, id, from.id, pages.heap, pages.full, pages.words);
      from.ResetPages();
    }

    /** Append all queues of the other heap, one after the other. */
    method AbsorbQueues(from: Heap)
      requires Valid() && from.Valid()
      requires from.q == q && from.pages == pages && from.id != id && from.direct != direct
      modifies this, from, q, pages`heap, direct
      ensures q.Valid() && AllHomed(q.shape, pages.heap, pages.full, pages.words) && Direct(direct[..], q.shape, id)
      ensures Absorbed(old(q.shape), q.shape, id, from.id, FULL + 1)
      ensures pageCount == |QueuedOn(q.shape, id)| && from.pageCount == |QueuedOn(q.shape, from.id)|
      ensures pageCount + from.pageCount == old(pageCount) + old(from.pageCount)
    {
      ghost var s := q.shape;
      var i := 0;
      while i <= FULL
        invariant i <= FULL + 1
        invariant q.Valid() && AllHomed(q.shape, pages.heap, pages.full, pages.words) && Direct(direct[..], q.shape, id)
        invariant Absorbed(s, q.shape, id, from.id, i)
        invariant pageCount == |QueuedOn(q.shape, id)| && from.pageCount == |QueuedOn(q.shape, from.id)|
        invariant pageCount + from.pageCount == old(pageCount) + old(from.pageCount)
        modifies this, from, q, pages`heap, direct
      {
        ghost var b := q.shape;
        var count := QueueAppend(i, from);
        JoinCounts(b, q.shape, id, from.id, i, count);
        pageCount := pageCount + count;
        from.pageCount := from.pageCount - count;
        AbsorbNext(s, b, q.shape, id, from.id, i);
        i := i + 1;
      }
    }

    /** A heap that is given up has no direct entries left, not even the empty page. */
    method ResetPages()
      modifies direct, this`pageCount
      ensures forall w :: 0 <= w < direct.Length ==> direct[w] == Null
      ensures pageCount == 0
    {
      var w := 0;
      while w < direct.Length
        invariant 0 <= w <= direct.Length
        invariant forall v :: 0 <= v < w ==> direct[v] == Null
      {
        direct[w] := Null;
        w := w + 1;
      }
      pageCount := 0;
    }
  }

  /** The pages of `list` now belong to heap `id`. */
  ghost function Rehomed(heap: map<nat, nat>, list: seq<nat>, id: nat): (r: map<nat, nat>)
    ensures forall x :: x in r <==> x in heap || x in list
    ensures forall x :: x in r ==> r[x] == if x in list then id else heap[x]
  {
    map x | x in heap.Keys + (set y | y in list) :: if x in list then id else heap[x]
  }

  /** The queues before `i` of heap `from` have been appended to those of heap `id`. */
  ghost predicate Absorbed(s: PageShape, s': PageShape, id: nat, from: nat, i: nat) {
    && (forall bin: nat :: TakenAt(s, s', id, from, i, bin))
    && s'.spot.Keys == s.spot.Keys
  }

  ghost predicate TakenAt(s: PageShape, s': PageShape, id: nat, from: nat, i: nat, bin: nat) {
    if bin < i then At(s'.lists, (id, bin)) == At(s.lists, (id, bin)) + At(s.lists, (from, bin)) &&
      At(s'.lists, (from, bin)) == []
    else At(s'.lists, (id, bin)) == At(s.lists, (id, bin)) && At(s'.lists, (from, bin)) == At(s.lists, (from, bin))
  }

  lemma AbsorbNext(s: PageShape, b: PageShape, s': PageShape, id: nat, from: nat, i: nat)
    requires ShapeOk(b) && id != from && Absorbed(s, b, id, from, i)
    requires s' == if At(b.lists, (from, i)) == [] then b else Joined(b, (id, i), (from, i))
    ensures Absorbed(s, s', id, from, i + 1)
  {
    var next := i + 1;
    forall bin: nat ensures TakenAt(s, s', id, from, next, bin) {
      assert TakenAt(s, b, id, from, i, bin);
    }
  }

  lemma AllTaken(s: PageShape, s': PageShape, id: nat, from: nat, heap: map<nat, nat>, full: set<nat>,
                 words: map<nat, nat>)
    requires ShapeOk(s') && AllHomed(s', heap, full, words) && Absorbed(s, s', id, from, FULL + 1)
    ensures forall bin: nat :: bin <= FULL ==>
      At(s'.lists, (id, bin)) == At(s.lists, (id, bin)) + At(s.lists, (from, bin)) && At(s'.lists, (from, bin)) == []
    ensures QueuedOn(s', from) == {}
  {
    forall bin: nat | bin <= FULL
      ensures At(s'.lists, (id, bin)) == At(s.lists, (id, bin)) + At(s.lists, (from, bin))
      ensures At(s'.lists, (from, bin)) == []
    {
      assert TakenAt(s, s', id, from, FULL + 1, bin);
    }
    forall x ensures x !in QueuedOn(s', from) {
      assert Homed(s', heap, full, words, x) && SpotOk(s', x);
      if x in words { QueueUsed(words[x], x in full); }
    }
  }

  /** Only a bin that serves some size has pages. */
  lemma BinOfQueue(s: PageShape, id: nat, bin: nat, heap: map<nat, nat>, full: set<nat>, words: map<nat, nat>)
    requires ShapeOk(s) && AllHomed(s, heap, full, words) && At(s.lists, (id, bin)) != []
    ensures Used(bin)
  {
    SpotAt(s, (id, bin), 0);
    var x := At(s.lists, (id, bin))[0];
    assert Homed(s, heap, full, words, x);
    QueueUsed(words[x], x in full);
  }

  lemma JoinKeeps(s: PageShape, s': PageShape, id: nat, from: nat, bin: nat,
                  heap: map<nat, nat>, full: set<nat>, words: map<nat, nat>)
    requires ShapeOk(s) && id != from && s' == Joined(s, (id, bin), (from, bin))
    requires AllHomed(s, heap, full, words)
    ensures AllHomed(s', Rehomed(heap, At(s.lists, (from, bin)), id), full, words)
  {
    forall x ensures Homed(s', Rehomed(heap, At(s.lists, (from, bin)), id), full, words, x) {
      assert Homed(s, heap, full, words, x);
      OnList(s, (from, bin), x);
    }
  }

  lemma OnList(s: PageShape, k: (nat, nat), x: nat)
    requires ShapeOk(s)
    ensures x in At(s.lists, k) <==> x in s.spot && s.spot[x].0 == k
  {
    assert SpotOk(s, x) && ListOk(s, k);
  }

  /** Appending a queue moves its pages, and their count, from one heap to the other. */
  lemma JoinCounts(s: PageShape, s': PageShape, id: nat, from: nat, bin: nat, count: nat)
    requires ShapeOk(s) && id != from && count == |At(s.lists, (from, bin))|
    requires s' == if count == 0 then s else Joined(s, (id, bin), (from, bin))
    ensures |QueuedOn(s', id)| == |QueuedOn(s, id)| + count
    ensures |QueuedOn(s', from)| == |QueuedOn(s, from)| - count
  {
    if count > 0 {
      var list := At(s.lists, (from, bin));
      var moved := Elems(list);
      QueueSet(s, (from, bin));
      assert forall x :: x in moved <==> x in s.spot && s.spot[x].0 == (from, bin);
      assert QueuedOn(s', id) == QueuedOn(s, id) + moved;
      assert QueuedOn(s, from) == QueuedOn(s', from) + moved;
      DisjointSizes(QueuedOn(s, id), moved);
      DisjointSizes(QueuedOn(s', from), moved);
    }
  }

  lemma DisjointSizes(a: set<nat>, b: set<nat>)
    ensures a !! b ==> |a + b| == |a| + |b|
  {
  }

  /** The pages on a queue, as a set of the queue's length. */
  lemma QueueSet(s: PageShape, k: (nat, nat))
    requires ShapeOk(s)
    ensures forall x :: x in Elems(At(s.lists, k)) <==> x in s.spot && s.spot[x].0 == k
    ensures |Elems(At(s.lists, k))| == |At(s.lists, k)|
  {
    var list := At(s.lists, k);
    forall x ensures x in list <==> x in s.spot && s.spot[x].0 == k {
      OnList(s, k, x);
    }
    forall i, j | 0 <= i < j < |list| ensures list[i] != list[j] {
      SpotAt(s, k, i);
      SpotAt(s, k, j);
    }
    DistinctSize(list, Elems(list));
    SetSize(list);
  }

  ghost function Elems(list: seq<nat>): set<nat> {
    set x | x in list
  }

  lemma {:induction false} SetSize(list: seq<nat>)
    ensures |Elems(list)| <= |list|
  {
    if list != [] {
      SetSize(list[1..]);
      assert list == [list[0]] + list[1..];
      assert Elems(list) == Elems(list[1..]) + {list[0]};
    }
  }

  /** What is done to the queues of one heap, or of two, is nothing to the other heaps that
      share the page links. */
  lemma OtherHeapsKeep(s: PageShape, s': PageShape, id: nat, from: nat, bin: nat, x: nat, other: nat, d: seq<Entry>)
    requires ShapeOk(s) && other != id && other != from
    requires if x !in s.spot then s' == Pushed(s, (id, bin), x) || s' == Appended(s, (id, bin), x)
             else s.spot[x].0.0 == id
    requires x !in s.spot || s' == Deleted(s, x) || (id != from && s' == Joined(s, (id, bin), (from, bin)))
    ensures SameHeap(s, s', other)
    ensures Direct(d, s, other) ==> Direct(d, s', other)
  {
    forall y ensures y in QueuedOn(s', other) <==> y in QueuedOn(s, other) {
    }
    if Direct(d, s, other) {
      forall w: nat | w <= SMALL_WORDS ensures d[w] == FirstEntry(s', other, BinOf(w)) {
        assert At(s'.lists, (other, BinOf(w))) == At(s.lists, (other, BinOf(w)));
      }
    }
  }

  lemma BinNotFull(w: nat)
    ensures BinOf(w) != FULL && Used(BinOf(w))
  {
    if 0 < w <= MEDIUM_WORDS { BinServes(w); }
  }

  lemma QueueUsed(w: nat, full: bool)
    ensures Used(QueueFor(w, full))
  {
    BinNotFull(w);
  }

  lemma NoPages(s: PageShape, id: nat, bin: nat)
    requires ShapeOk(s)
    ensures At(s.lists, (id, bin)) != [] ==> QueuedOn(s, id) != {}
  {
    if At(s.lists, (id, bin)) != [] {
      SpotAt(s, (id, bin), 0);
      assert At(s.lists, (id, bin))[0] in QueuedOn(s, id);
    }
  }

  lemma PushKeeps(s: PageShape, s': PageShape, id: nat, bin: nat, x: nat,
                  heap: map<nat, nat>, full: set<nat>, full': set<nat>, words: map<nat, nat>)
    requires ShapeOk(s) && x !in s.spot && s' == Pushed(s, (id, bin), x)
    requires AllHomed(s, heap, full, words)
    requires x in heap && heap[x] == id && x in words && bin == QueueFor(words[x], x in full')
    requires full' - {x} == full - {x}
    ensures AllHomed(s', heap, full', words)
    ensures QueuedOn(s', id) == QueuedOn(s, id) + {x} && x !in QueuedOn(s, id)
  {
    forall y ensures Homed(s', heap, full', words, y) {
      assert Homed(s, heap, full, words, y);
      assert y != x ==> (y in full' <==> y in full' - {x}) && (y in full <==> y in full - {x});
    }
  }

  lemma DeleteKeeps(s: PageShape, s': PageShape, id: nat, bin: nat, x: nat,
                    heap: map<nat, nat>, full: set<nat>, words: map<nat, nat>)
    requires ShapeOk(s) && x in s.spot && s.spot[x].0 == (id, bin) && s' == Deleted(s, x)
    requires AllHomed(s, heap, full, words)
    ensures AllHomed(s', heap, full, words) && AllHomed(s', heap, full - {x}, words)
    ensures QueuedOn(s', id) == QueuedOn(s, id) - {x} && x in QueuedOn(s, id)
    ensures FirstEntry(s, id, bin) != Page(x) ==> FirstEntry(s', id, bin) == FirstEntry(s, id, bin)
  {
    forall y ensures Homed(s', heap, full, words, y) && Homed(s', heap, full - {x}, words, y) {
      assert Homed(s, heap, full, words, y);
    }
    assert SpotOk(s, x);
    SpotAt(s, (id, bin), 0);
  }

  lemma RequeueKeeps(s: PageShape, s': PageShape, id: nat, from: nat, to: nat, x: nat,
                  heap: map<nat, nat>, full: set<nat>, full': set<nat>, words: map<nat, nat>)
    requires ShapeOk(s) && x in s.spot && s.spot[x].0 == (id, from)
    requires s' == Appended(Deleted(s, x), (id, to), x)
    requires AllHomed(s, heap, full, words)
    requires x in words && to == QueueFor(words[x], x in full')
    requires full' - {x} == full - {x}
    ensures AllHomed(s', heap, full', words)
    ensures QueuedOn(s', id) == QueuedOn(s, id)
  {
    forall y ensures Homed(s', heap, full', words, y) {
      assert Homed(s, heap, full, words, y);
      assert y != x ==> (y in full' <==> y in full' - {x}) && (y in full <==> y in full - {x});
    }
  }

  /** The smallest size that a bin with small blocks serves. */
  method StartSlot(bin: nat) returns (start: nat)
    requires Used(bin) && QueueSize(bin) <= SMALL_WORDS
    ensures start <= QueueSize(bin)
    ensures forall w: nat :: BinOf(w) == bin <==> start <= w <= QueueSize(bin)
  {
    var idx := QueueSize(bin);
    if idx <= 1 {
      FirstBin(bin);
      return 0;
    }
    UsedServes(bin);
    var prev := bin - 1;
    while bin == BinOf(QueueSize(prev)) && prev > 0
      invariant 0 <= prev < bin
      invariant forall p :: prev < p < bin ==> BinOf(QueueSize(p)) == bin
    {
      prev := prev - 1;
    }
    start := 1 + QueueSize(prev);
    forall w: nat ensures start <= idx && (BinOf(w) == bin <==> start <= w <= idx) {
      BinRange(bin, prev, w);
    }
    if start > idx { start := idx; }
  }

  lemma SmallBins(w: nat)
    requires w <= SMALL_WORDS
    ensures BinOf(w) <= LAST_MEDIUM && QueueSize(BinOf(w)) <= SMALL_WORDS
  {
    if w > 0 { BinServes(w); }
    BinMonotone(w, SMALL_WORDS);
    BlockOf(6, 7);
    assert Pow2(4) == 16;
    BinParts(127, 6, 7);
    SizesRise(BinOf(w), 24);
  }

  lemma FirstBin(bin: nat)
    requires Used(bin) && bin <= LAST_MEDIUM && QueueSize(bin) <= 1
    ensures forall w: nat :: BinOf(w) == bin <==> 0 <= w <= QueueSize(bin)
  {
    if bin > 2 { SizesRise(2, bin); }
    forall w: nat ensures BinOf(w) == 1 <==> w <= 1 {
      BinMonotone(2, if w > 2 then w else 2);
    }
  }
}
