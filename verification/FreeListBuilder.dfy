/** Building the free list of a page.  A page is extended by a number of blocks at a time.  In
    secure mode the new blocks are cut into slices and the list jumps between the slices at
    random; otherwise it runs through the blocks in order. */
module FreeListBuilder {
  import opened Bits
  import opened Options
  import opened Placement

  const MAX_SLICE_SHIFT: nat := 6
  const MIN_SLICES: nat := 2
  const MAX_EXTEND_SIZE: nat := 4096

  function Sum(s: seq<nat>): nat {
    if s == [] then 0 else Sum(s[..|s| - 1]) + s[|s| - 1]
  }

  lemma {:induction false} SumTake(s: seq<nat>, j: nat)
    requires j < |s| && s[j] > 0
    ensures Sum(s) > 0 && Sum(s[j := s[j] - 1]) == Sum(s) - 1
    decreases |s|
  {
    var n := |s| - 1;
    if j < n {
      SumTake(s[..n], j);
      assert s[j := s[j] - 1][..n] == s[..n][j := s[j] - 1];
    } else {
      assert s[j := s[j] - 1][..n] == s[..n];
    }
  }

  lemma {:induction false} SumZero(s: seq<nat>)
    ensures Sum(s) == 0 <==> forall j :: 0 <= j < |s| ==> s[j] == 0
  {
    if s != [] {
      var n := |s| - 1;
      SumZero(s[..n]);
      assert forall j :: 0 <= j < n ==> s[j] == s[..n][j];
    }
  }

  lemma {:induction false} SumEqual(s: seq<nat>, c: nat)
    requires forall j :: 0 <= j < |s| ==> s[j] == c
    ensures Sum(s) == |s| * c
  {
    if s != [] {
      SumEqual(s[..|s| - 1], c);
    }
  }

  // ---------------------------------------------------------------- slices

  /** The blocks `base..base+extend` cut into slices: where each starts and how many it has. */
  ghost predicate Cut(starts: seq<nat>, sizes: seq<nat>, base: nat, extend: nat) {
    && |starts| == |sizes| > 0 && starts[0] == base
    && (forall j :: 0 < j < |starts| ==> starts[j] == starts[j - 1] + sizes[j - 1])
    && starts[|starts| - 1] + sizes[|starts| - 1] == base + extend
  }

  lemma {:induction false} CutApart(starts: seq<nat>, sizes: seq<nat>, base: nat, extend: nat, j: nat, k: nat)
    requires Cut(starts, sizes, base, extend) && j < k < |starts|
    ensures starts[j] + sizes[j] <= starts[k]
  {
    if j + 1 < k {
      CutApart(starts, sizes, base, extend, j, k - 1);
    }
  }

  lemma {:induction false} CutCovers(starts: seq<nat>, sizes: seq<nat>, base: nat, extend: nat, b: nat, k: nat)
    returns (j: nat)
    requires Cut(starts, sizes, base, extend) && k < |starts| && base <= b < starts[k] + sizes[k]
    ensures j < |starts| && starts[j] <= b < starts[j] + sizes[j]
  {
    if b >= starts[k] {
      j := k;
    } else {
      j := CutCovers(starts, sizes, base, extend, b, k - 1);
    }
  }

  /** Block `b` is one of the first `taken[j]` of slice `j`. */
  predicate TakenFrom(starts: seq<nat>, taken: seq<nat>, b: nat, j: nat) {
    j < |starts| && j < |taken| && starts[j] <= b < starts[j] + taken[j]
  }

  ghost predicate Taken(starts: seq<nat>, taken: seq<nat>, b: nat) {
    exists j: nat :: TakenFrom(starts, taken, b, j)
  }

  /** The list so far holds the blocks taken, each once. */
  ghost predicate Threaded(order: seq<nat>, starts: seq<nat>, taken: seq<nat>) {
    Distinct(order) && forall b: nat :: b in order <==> Taken(starts, taken, b)
  }

  lemma AppendDistinct(s: seq<nat>, b: nat)
    requires Distinct(s) && b !in s
    ensures Distinct(s + [b])
  {
    var r := s + [b];
    forall i, j | 0 <= i < j < |r|
      ensures r[i] != r[j]
    {
      assert r[i] in s;
    }
  }

  lemma TakeNext(order: seq<nat>, starts: seq<nat>, sizes: seq<nat>, taken: seq<nat>, base: nat, extend: nat, j: nat)
    requires Cut(starts, sizes, base, extend) && |taken| == |starts| && j < |starts|
    requires forall k :: 0 <= k < |taken| ==> taken[k] <= sizes[k]
    requires taken[j] < sizes[j] && Threaded(order, starts, taken)
    ensures Threaded(order + [starts[j] + taken[j]], starts, taken[j := taken[j] + 1])
    ensures starts[j] + taken[j] !in order && starts[j] + taken[j] < base + extend
  {
    var b, taken' := starts[j] + taken[j], taken[j := taken[j] + 1];
    forall k: nat
      ensures !TakenFrom(starts, taken, b, k)
    {
      if k < j { CutApart(starts, sizes, base, extend, k, j); }
      if j < k < |starts| { CutApart(starts, sizes, base, extend, j, k); }
    }
    if j < |starts| - 1 { CutApart(starts, sizes, base, extend, j, |starts| - 1); }
    assert !Taken(starts, taken, b);
    AppendDistinct(order, b);
    forall x: nat
      ensures Taken(starts, taken', x) <==> Taken(starts, taken, x) || x == b
    {
      assert x == b ==> TakenFrom(starts, taken', x, j);
      if k: nat :| TakenFrom(starts, taken, x, k) {
        assert TakenFrom(starts, taken', x, k);
      }
      if k: nat :| TakenFrom(starts, taken', x, k) {
        assert TakenFrom(starts, taken, x, k) || x == b;
      }
    }
    forall x: nat
      ensures x in order + [b] <==> x in order || x == b
    {
    }
  }

  lemma NoneTaken(starts: seq<nat>, taken: seq<nat>)
    requires forall j :: 0 <= j < |taken| ==> taken[j] == 0
    ensures Threaded([], starts, taken)
  {
  }

  /** The block taken last from a slice is one of the new blocks. */
  lemma LastTaken(order: seq<nat>, starts: seq<nat>, sizes: seq<nat>, taken: seq<nat>, base: nat, extend: nat, j: nat)
    requires Cut(starts, sizes, base, extend) && |taken| == |starts| && j < |starts| && 0 < taken[j] <= sizes[j]
    ensures base <= starts[j] + taken[j] - 1 < base + extend
  {
    if 0 < j { CutApart(starts, sizes, base, extend, 0, j); }
    if j < |starts| - 1 { CutApart(starts, sizes, base, extend, j, |starts| - 1); }
  }

  lemma TwoParts(s: seq<nat>, p: seq<nat>, q: seq<nat>)
    requires s == p + q
    ensures s[..|p|] == p && s[|p|..] == q
  {
  }

  lemma WholeWidth(extend: nat, slices: nat)
    requires 0 < slices <= extend
    ensures extend / slices > 0
  {
    DivBound(extend, slices, 0);
  }

  lemma CutIs(starts: seq<nat>, sizes: seq<nat>, base: nat, extend: nat, slices: nat, width: nat)
    requires |starts| == |sizes| == slices > 0 && width == extend / slices
    requires forall j :: 0 <= j < slices ==> starts[j] == base + j * width
    requires forall j :: 0 <= j < slices ==> sizes[j] == if j == slices - 1 then width + extend % slices else width
    ensures Cut(starts, sizes, base, extend)
  {
    assert extend == slices * width + extend % slices;
    assert (slices - 1) * width + width == slices * width;
    forall j | 0 < j < slices
      ensures starts[j] == starts[j - 1] + sizes[j - 1]
    {
      assert j * width == (j - 1) * width + width;
    }
  }

  /** All blocks taken: the list is a permutation of them. */
  lemma AllTaken(order: seq<nat>, starts: seq<nat>, sizes: seq<nat>, base: nat, extend: nat)
    requires Cut(starts, sizes, base, extend) && Threaded(order, starts, sizes)
    ensures Distinct(order) && forall b: nat :: b in order <==> base <= b < base + extend
  {
    forall b: nat
      ensures b in order <==> base <= b < base + extend
    {
      if base <= b < base + extend {
        var j := CutCovers(starts, sizes, base, extend, b, |starts| - 1);
        assert TakenFrom(starts, sizes, b, j);
      }
      if j: nat :| TakenFrom(starts, sizes, b, j) {
        if 0 < j { CutApart(starts, sizes, base, extend, 0, j); }
        if j < |starts| - 1 { CutApart(starts, sizes, base, extend, j, |starts| - 1); }
      }
    }
  }

  // ---------------------------------------------------------------- the page

  /** `list` are the blocks met when following `next` from `head`. */
  ghost predicate Follows(next: seq<Option<nat>>, head: Option<nat>, list: seq<nat>) {
    && head == (if list == [] then None else Some(list[0]))
    && (forall k :: 0 <= k < |list| ==> list[k] < |next|)
    && (forall k :: 0 <= k < |list| - 1 ==> next[list[k]] == Some(list[k + 1]))
    && (list != [] ==> next[list[|list| - 1]] == None)
  }

  /** Half-way through the slices: `taken` blocks of each are on the list, which ends with the
      block the current slice points to; every other slice points to its next block. */
  ghost predicate Midway(blocks: seq<nat>, counts: seq<nat>, starts: seq<nat>, sizes: seq<nat>, taken: seq<nat>,
                         order: seq<nat>,
                         current: nat, base: nat, extend: nat) {
    && Cut(starts, sizes, base, extend) && Sum(sizes) == extend
    && |blocks| == |counts| == |taken| == |starts| && current < |starts| && taken[current] > 0
    && (forall j :: 0 <= j < |starts| ==> taken[j] + counts[j] == sizes[j])
    && (forall j :: 0 <= j < |starts| ==> blocks[j] == starts[j] + taken[j] - if j == current then 1 else 0)
    && Threaded(order, starts, taken)
    && Sum(counts) == extend - |order| && order != [] && order[|order| - 1] == blocks[current] < base + extend
    && base <= blocks[current]
  }

  lemma FirstTaken(counts: seq<nat>, starts: seq<nat>, sizes: seq<nat>, taken: seq<nat>, base: nat, extend: nat,
                   current: nat)
    requires Cut(starts, sizes, base, extend) && Sum(sizes) == extend && current < |starts| && sizes[current] > 0
    requires counts == sizes[current := sizes[current] - 1]
    requires taken == seq(|starts|, j => if j == current then 1 else 0)
    ensures Midway(starts, counts, starts, sizes, taken, [starts[current]], current, base, extend)
  {
    FirstThreaded(starts, sizes, taken, base, extend, current);
    SumTake(sizes, current);
    LastTaken([], starts, sizes, taken, base, extend, current);
  }

  lemma FirstThreaded(starts: seq<nat>, sizes: seq<nat>, taken: seq<nat>, base: nat, extend: nat, current: nat)
    requires Cut(starts, sizes, base, extend) && current < |starts| && sizes[current] > 0
    requires |taken| == |starts| && forall j :: 0 <= j < |taken| ==> taken[j] == if j == current then 1 else 0
    ensures Threaded([starts[current]], starts, taken)
  {
    var none := seq(|starts|, _ => 0);
    NoneTaken(starts, none);
    TakeNext([], starts, sizes, none, base, extend, current);
    assert [] + [starts[current] + none[current]] == [starts[current]];
    assert none[current := 1] == taken;
  }

  lemma NextTaken(blocks: seq<nat>, counts: seq<nat>, starts: seq<nat>, sizes: seq<nat>, taken: seq<nat>,
                  order: seq<nat>,
                  current: nat, n: nat, base: nat, extend: nat)
    requires Midway(blocks, counts, starts, sizes, taken, order, current, base, extend)
    requires n < |counts| && counts[n] > 0
    ensures var blocks' := blocks[current := blocks[current] + 1];
      Midway(blocks', counts[n := counts[n] - 1], starts, sizes, taken[n := taken[n] + 1], order + [blocks'[n]], n,
             base, extend)
  {
    TakeNext(order, starts, sizes, taken, base, extend, n);
    SumTake(counts, n);
    LastTaken(order, starts, sizes, taken[n := taken[n] + 1], base, extend, n);
  }

  lemma NothingLeft(blocks: seq<nat>, counts: seq<nat>, starts: seq<nat>, sizes: seq<nat>, taken: seq<nat>,
                    order: seq<nat>,
                    current: nat, base: nat, extend: nat)
    requires Midway(blocks, counts, starts, sizes, taken, order, current, base, extend) && |order| == extend
    ensures Distinct(order) && forall b: nat :: b in order <==> base <= b < base + extend
  {
    SumZero(counts);
    assert taken == sizes;
    AllTaken(order, starts, sizes, base, extend);
  }

  /** Each block of `order` is linked to the one after it. */
  ghost predicate Chained(next: seq<Option<nat>>, order: seq<nat>) {
    forall k :: 0 <= k < |order| - 1 ==> order[k] < |next| && next[order[k]] == Some(order[k + 1])
  }

  lemma ChainGrows(next: seq<Option<nat>>, next': seq<Option<nat>>, order: seq<nat>, b: nat)
    requires Chained(next, order) && order != [] && Distinct(order) && order[|order| - 1] < |next|
    requires next' == next[order[|order| - 1] := Some(b)]
    ensures Chained(next', order + [b])
  {
    var n := |order| - 1;
    forall k | 0 <= k < n
      ensures order[k] != order[n]
    {
    }
  }

  /** Going up from `start` to `n`, wrapping round, `j` has been passed. */
  predicate Passed(start: nat, j: int, n: nat) {
    if start <= n then start <= j < n else j >= start || j < n
  }

  /** How many blocks to add when there is room for `room`. */
  function ExtendCount(room: nat, size: nat, secure: nat): (n: nat)
    requires room > 0 && size > 0
    ensures 0 < n <= room
  {
    var least := if secure > 0 then 8 * secure else 4;
    var most := if size >= MAX_EXTEND_SIZE then least else MAX_EXTEND_SIZE / size;
    var bound := if most < least then least else most;
    if room > bound then bound else room
  }

  class Page {
    /** The `next` field of each block. */
    const next: array<Option<nat>>
    var free: Option<nat>
    var capacity: nat
    const reserved: nat
    ghost var list: seq<nat>

    ghost predicate Valid()
      reads this, next
    {
      && next.Length == reserved && capacity <= reserved
      && Follows(next[..], free, list) && Distinct(list)
      && (forall b :: b in list ==> b < capacity)
    }

    constructor (reserved: nat)
      ensures Valid() && fresh(next) && list == [] && capacity == 0 && this.reserved == reserved
    {
      this.reserved := reserved;
      next := new Option<nat>[reserved](_ => None);
      free, capacity, list := None, 0, [];
    }

    /** The list is extended by a chain of new blocks, the last of which is linked to the old
        head. */
    method Prepend(ghost order: seq<nat>, start: nat, last: nat, extend: nat)
      requires Valid() && 0 < extend && capacity + extend <= reserved
      requires order != [] && start == order[0] && last == order[|order| - 1]
      requires Distinct(order) && forall b: nat :: b in order <==> capacity <= b < capacity + extend
      requires Chained(next[..], order)
      modifies this, next
      ensures Valid() && list == order + old(list) && capacity == old(capacity) + extend
    {
      assert last in order && start in order;
      ghost var before := next[..];
      next[last] := free;
      free := Some(start);
      capacity := capacity + extend;
      JoinChains(before, next[..], order, list, old(free), old(capacity));
      list := order + list;
    }

    /** The largest power of two, up to 64, that is not more than `extend`. */
    method SliceCount(extend: nat) returns (slices: nat)
      requires extend > 0
      ensures 0 < slices <= extend && exists k: nat :: k <= MAX_SLICE_SHIFT && slices == Pow2(k)
      ensures slices == Pow2(MAX_SLICE_SHIFT) || extend < 2 * slices
    {
      var shift: nat := MAX_SLICE_SHIFT;
      assert Pow2(0) == 1;
      while extend / Pow2(shift) == 0
        invariant shift <= MAX_SLICE_SHIFT
        invariant shift == MAX_SLICE_SHIFT || extend < 2 * Pow2(shift)
        decreases shift
      {
        DivBound(extend, Pow2(shift), 0);
        shift := shift - 1;
      }
      slices := Pow2(shift);
    }

    /** Cut the new blocks into a power of two of slices, at most 64 and at most as many as there
        are blocks; the last slice has the remainder as well. */
    method CutSlices(extend: nat) returns (blocks: array<nat>, counts: array<nat>)
      requires extend > 0
      ensures fresh(blocks) && fresh(counts) && blocks != counts
      ensures Cut(blocks[..], counts[..], capacity, extend)
      ensures forall j :: 0 <= j < counts.Length ==> counts[j] > 0
    {
      var slices := SliceCount(extend);
      var width := extend / slices;
      blocks, counts := new nat[slices], new nat[slices];
      SameSlices(blocks, counts, capacity, width);
      WholeWidth(extend, slices);
      counts[slices - 1] := counts[slices - 1] + extend % slices;
      CutIs(blocks[..], counts[..], capacity, extend, slices, width);
    }

    /** Slices of the same width, one after the other. */
    static method SameSlices(blocks: array<nat>, counts: array<nat>, base: nat, width: nat)
      requires blocks != counts && blocks.Length == counts.Length
      modifies blocks, counts
      ensures forall j :: 0 <= j < blocks.Length ==> blocks[j] == base + j * width
      ensures forall j :: 0 <= j < counts.Length ==> counts[j] == width
    {
      for i := 0 to blocks.Length
        invariant forall j :: 0 <= j < i ==> blocks[j] == base + j * width
        invariant forall j :: 0 <= j < i ==> counts[j] == width
      {
        blocks[i] := base + i * width;
        counts[i] := width;
      }
    }

    /** `mi_page_free_list_extend_secure`: thread through the slices; `r` and `draws` are the
        random numbers. */
    method ExtendShuffled(extend: nat, r: nat, draws: nat -> nat)
      requires Valid() && 0 < extend && capacity + extend <= reserved
      modifies this, next
      ensures Valid() && capacity == old(capacity) + extend
      ensures |list| == extend + |old(list)| && list[extend..] == old(list)
      ensures Distinct(list[..extend]) && forall b: nat :: b in list[..extend] <==> old(capacity) <= b < capacity
    {
      var start, last;
      ghost var order;
      start, last, order := ThreadNew(extend, r, draws);
      SameChain(old(next[..]), next[..], free, list, capacity);
      Prepend(order, start, last, extend);
      TwoParts(list, order, old(list));
    }

    /** Cut the new blocks into slices and thread them, beginning with the slice drawn. */
    method ThreadNew(extend: nat, r: nat, draws: nat -> nat) returns (start: nat, last: nat, ghost order: seq<nat>)
      requires 0 < extend && capacity + extend <= next.Length
      modifies next
      ensures |order| == extend && order[0] == start && order[extend - 1] == last
      ensures Distinct(order) && forall b: nat :: b in order <==> capacity <= b < capacity + extend
      ensures Chained(next[..], order) && next[..capacity] == old(next[..capacity])
    {
      var blocks, counts := CutSlices(extend);
      ghost var starts, sizes := blocks[..], counts[..];
      var slices := counts.Length;
      CutSum(starts, sizes, capacity, extend, slices - 1);
      assert sizes[..slices] == sizes;

      var current := r % slices;
      start := blocks[current];
      counts[current] := counts[current] - 1;
      ghost var taken := seq(slices, j => if j == current then 1 else 0);
      assert counts[..] == sizes[current := sizes[current] - 1];
      FirstTaken(counts[..], starts, sizes, taken, capacity, extend, current);
      last, order := ThreadAll(blocks, counts, current, extend, draws, starts, sizes, taken);
    }

    /** Thread all blocks, beginning with the first one of slice `first`; returns the last. */
    method ThreadAll(blocks: array<nat>, counts: array<nat>, first: nat, extend: nat, draws: nat -> nat,
                     ghost starts: seq<nat>, ghost sizes: seq<nat>, ghost none: seq<nat>)
      returns (last: nat, ghost order: seq<nat>)
      requires first < blocks.Length && blocks != counts
      requires Midway(blocks[..], counts[..], starts, sizes, none, [blocks[first]], first, capacity, extend)
      requires 0 < extend && capacity + extend <= next.Length
      modifies next, blocks, counts
      ensures |order| == extend && order[0] == old(blocks[first]) && order[extend - 1] == last
      ensures Distinct(order) && forall b: nat :: b in order <==> capacity <= b < capacity + extend
      ensures Chained(next[..], order) && next[..capacity] == old(next[..capacity])
    {
      var current, start := first, blocks[first];
      ghost var taken := none;
      order := [start];
      for i := 1 to extend
        invariant Midway(blocks[..], counts[..], starts, sizes, taken, order, current, capacity, extend)
        invariant |order| == i && order[0] == start
        invariant Chained(next[..], order) && next[..capacity] == old(next[..capacity])
        modifies next, blocks, counts
      {
        var n := Pick(counts, draws(i));
        ThreadNext(blocks, counts, current, n, starts, sizes, taken, order, extend);
        order, taken := order + [blocks[n]], taken[n := taken[n] + 1];
        current := n;
      }
      NothingLeft(blocks[..], counts[..], starts, sizes, taken, order, current, capacity, extend);
      last := blocks[current];
    }

    /** Link the current block to the next one of slice `n`. */
    method ThreadNext(blocks: array<nat>, counts: array<nat>, current: nat, n: nat, ghost starts: seq<nat>,
                      ghost sizes: seq<nat>,
                      ghost taken: seq<nat>, ghost order: seq<nat>, ghost extend: nat)
      requires Midway(blocks[..], counts[..], starts, sizes, taken, order, current, capacity, extend)
      requires blocks != counts
      requires n < counts.Length && counts[n] > 0 && capacity + extend <= next.Length && Chained(next[..], order)
      modifies next, blocks, counts
      ensures Midway(blocks[..], counts[..], starts, sizes, taken[n := taken[n] + 1], order + [blocks[n]], n,
                     capacity, extend)
      ensures Chained(next[..], order + [blocks[n]]) && next[..capacity] == old(next[..capacity])
    {
      NextTaken(blocks[..], counts[..], starts, sizes, taken, order, current, n, capacity, extend);
      var block := Bump(blocks, counts, current, n);
      ghost var links := next[..];
      next[block] := Some(blocks[n]);
      ChainGrows(links, next[..], order, blocks[n]);
    }

    static method Bump(blocks: array<nat>, counts: array<nat>, current: nat, n: nat) returns (block: nat)
      requires blocks != counts && current < blocks.Length && n < counts.Length && counts[n] > 0
      modifies blocks, counts
      ensures block == old(blocks[current])
      ensures counts[..] == old(counts[..])[n := old(counts[n]) - 1]
      ensures blocks[..] == old(blocks[..])[current := block + 1]
    {
      counts[n] := counts[n] - 1;
      block := blocks[current];
      blocks[current] := block + 1;
    }

    /** The next slice at or after the drawn one that still has blocks, wrapping round. */
    method Pick(counts: array<nat>, draw: nat) returns (n: nat)
      requires counts.Length > 0 && Sum(counts[..]) > 0
      ensures n < counts.Length && counts[n] > 0
      ensures forall j :: 0 <= j < counts.Length && Passed(draw % counts.Length, j, n) ==> counts[j] == 0
    {
      n := draw % counts.Length;
      SumZero(counts[..]);
      ghost var z: nat :| z < counts.Length && counts[z] > 0;
      while counts[n] == 0
        invariant n < counts.Length && !Passed(draw % counts.Length, z, n)
        invariant forall j :: 0 <= j < counts.Length && Passed(draw % counts.Length, j, n) ==> counts[j] == 0
        decreases if n <= z then z - n else z + counts.Length - n
      {
        n := n + 1;
        if n == counts.Length { n := 0; }
      }
    }

    /** `mi_page_free_list_extend`: the new blocks in order. */
    method ExtendInOrder(extend: nat)
      requires Valid() && 0 < extend && capacity + extend <= reserved
      modifies this, next
      ensures Valid() && capacity == old(capacity) + extend
      ensures |list| == extend + |old(list)| && list[extend..] == old(list)
      ensures forall k :: 0 <= k < extend ==> list[k] == old(capacity) + k
      ensures forall b: nat :: b in list[..extend] <==> old(capacity) <= b < capacity
    {
      var start, last := capacity, capacity + extend - 1;
      ghost var order := seq(extend, k requires 0 <= k < extend => start + k);
      var block := start;
      while block <= last
        invariant start <= block <= last + 1
        invariant forall b :: start <= b < block ==> next[b] == Some(b + 1)
        invariant next[..start] == old(next[..start])
        modifies next
      {
        next[block] := Some(block + 1);
        block := block + 1;
      }
      SameChain(old(next[..]), next[..], free, list, start);
      forall k | 0 <= k < |order| - 1
        ensures next[order[k]] == Some(order[k + 1])
      {
        assert order[k] == start + k;
      }
      forall b: nat
        ensures b in order <==> capacity <= b < capacity + extend
      {
        assert capacity <= b < capacity + extend ==> order[b - capacity] == b;
      }
      Prepend(order, start, last, extend);
      assert list[..extend] == order;
    }

    /** `mi_page_extend_free`: add blocks of `size` bytes, about one OS page full at a time.
        Except at the highest `secure` levels a page that still has free blocks is left alone. */
    method ExtendFree(size: nat, secure: nat, r: nat, draws: nat -> nat)
      requires Valid() && size > 0
      modifies this, next
      ensures Valid() && old(capacity) <= capacity
      ensures capacity == old(capacity) <==> (secure <= 2 && old(free).Some?) || old(capacity) == reserved
      ensures capacity > old(capacity) ==>
        capacity == old(capacity) + ExtendCount(reserved - old(capacity), size, secure)
      ensures var n := capacity - old(capacity);
        && |list| == n + |old(list)| && list[n..] == old(list)
        && (forall b: nat :: b in list[..n] <==> old(capacity) <= b < capacity)
    {
      if secure <= 2 && free.Some? { return; }
      if capacity >= reserved { return; }
      var extend := ExtendCount(reserved - capacity, size, secure);
      if extend < MIN_SLICES || secure == 0 {
        ExtendInOrder(extend);
      } else {
        ExtendShuffled(extend, r, draws);
      }
    }
  }

  /** The slices have as many blocks as they cover. */
  lemma {:induction false} CutSum(starts: seq<nat>, sizes: seq<nat>, base: nat, extend: nat, k: nat)
    requires Cut(starts, sizes, base, extend) && k < |starts|
    ensures Sum(sizes[..k + 1]) == starts[k] + sizes[k] - base
  {
    assert sizes[..k + 1][..k] == sizes[..k];
    if k > 0 {
      CutSum(starts, sizes, base, extend, k - 1);
    } else {
      assert sizes[..0] == [];
    }
  }

  /** Links below `limit` are as they were, so the old list is. */
  lemma SameChain(next: seq<Option<nat>>, next': seq<Option<nat>>, head: Option<nat>, list: seq<nat>, limit: nat)
    requires Follows(next, head, list) && |next| == |next'| && limit <= |next| && next'[..limit] == next[..limit]
    requires forall b :: b in list ==> b < limit
    ensures Follows(next', head, list)
  {
    forall k | 0 <= k < |list|
      ensures next'[list[k]] == next[list[k]]
    {
      assert list[k] in list;
      assert next'[..limit][list[k]] == next[..limit][list[k]];
    }
  }

  /** A chain of new blocks whose last block is linked to the head of the old list. */
  lemma JoinChains(next: seq<Option<nat>>, next': seq<Option<nat>>, order: seq<nat>, list: seq<nat>,
                   head: Option<nat>, limit: nat)
    requires Follows(next, head, list) && order != [] && Distinct(order) && Distinct(list)
    requires forall b :: b in list ==> b < limit
    requires forall b :: b in order ==> limit <= b < |next|
    requires Chained(next, order)
    requires order[|order| - 1] in order && next' == next[order[|order| - 1] := head]
    ensures Follows(next', Some(order[0]), order + list) && Distinct(order + list)
  {
    var s, n := order + list, |order|;
    forall k | 0 <= k < |s|
      ensures s[k] < |next'| && (k < n ==> s[k] in order) && (k >= n ==> s[k] in list)
    {
      if k < n { assert order[k] in order; } else { assert list[k - n] in list; }
    }
    forall k | 0 <= k < |s| - 1
      ensures next'[s[k]] == Some(s[k + 1])
    {
      if k < n - 1 {
        assert s[k] == order[k] && order[k] != order[n - 1];
      } else if k >= n {
        assert s[k] in list;
      }
    }
    assert s[|s| - 1] == if list == [] then order[n - 1] else list[|list| - 1];
  }
}
