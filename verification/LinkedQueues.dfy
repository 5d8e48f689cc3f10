/** Doubly linked queues threaded through their elements.  The allocator keeps its free spans
    and its pages on such queues: each queue has a first and a last pointer, each element a
    next and a previous one, and an element is on at most one queue at a time. */
module LinkedQueues {
  import opened Placement

  /** `s` without the element at `i`. */
  function Removed<T>(s: seq<T>, i: nat): seq<T>
    requires i < |s|
  {
    s[..i] + s[i + 1..]
  }

  /** What each queue holds, in order; `spot` tells where each element is. */
  datatype Shape<!K, !T> = Shape(lists: Lists<K, T>, spot: map<T, (K, nat)>)

  ghost predicate ListOk<K, T>(s: Shape<K, T>, k: K) {
    forall i :: 0 <= i < |At(s.lists, k)| ==> At(s.lists, k)[i] in s.spot && s.spot[At(s.lists, k)[i]] == (k, i)
  }

  ghost predicate SpotOk<K, T>(s: Shape<K, T>, x: T) {
    x in s.spot ==> s.spot[x].1 < |At(s.lists, s.spot[x].0)| && At(s.lists, s.spot[x].0)[s.spot[x].1] == x
  }

  /** No element is in two places. */
  ghost predicate ShapeOk<K(!new), T(!new)>(s: Shape<K, T>) {
    (forall k :: ListOk(s, k)) && (forall x :: SpotOk(s, x))
  }

  /** The links of an element point to its neighbours; an unqueued element has none. */
  ghost predicate Linked<K, T>(s: Shape<K, T>, next: map<T, T>, prev: map<T, T>, x: T) {
    if x !in s.spot then x !in next && x !in prev else
    var (k, i) := s.spot[x];
    var list := At(s.lists, k);
    && i < |list|
    && (if i == 0 then x !in prev else x in prev && prev[x] == list[i - 1])
    && (if i == |list| - 1 then x !in next else x in next && next[x] == list[i + 1])
  }

  ghost predicate EndsOk<K, T>(s: Shape<K, T>, first: map<K, T>, last: map<K, T>, k: K) {
    var list := At(s.lists, k);
    if list == [] then k !in first && k !in last
    else k in first && first[k] == list[0] && k in last && last[k] == list[|list| - 1]
  }

  // ---------------------------------------------------------------- what the operations do to the shape

  ghost function Pushed<K(!new), T(!new)>(s: Shape<K, T>, k: K, x: T): (r: Shape<K, T>)
    requires ShapeOk(s) && x !in s.spot
    ensures ShapeOk(r)
    ensures At(r.lists, k) == [x] + At(s.lists, k)
    ensures forall q :: q != k ==> At(r.lists, q) == At(s.lists, q)
    ensures r.spot.Keys == s.spot.Keys + {x} && r.spot[x] == (k, 0)
    ensures forall y :: y in s.spot ==> r.spot[y] == if s.spot[y].0 == k then (k, s.spot[y].1 + 1) else s.spot[y]
  {
    var r := Shape(s.lists[k := [x] + At(s.lists, k)],
                   map y | y in s.spot.Keys + {x} ::
                     if y == x then (k, 0) else if s.spot[y].0 == k then (k, s.spot[y].1 + 1) else s.spot[y]);
    PushedOk(s, r, k, x);
    r
  }

  lemma PushedOk<K(!new), T(!new)>(s: Shape<K, T>, r: Shape<K, T>, k: K, x: T)
    requires ShapeOk(s) && x !in s.spot
    requires At(r.lists, k) == [x] + At(s.lists, k)
    requires forall q :: q != k ==> At(r.lists, q) == At(s.lists, q)
    requires r.spot == map y | y in s.spot.Keys + {x} ::
                         if y == x then (k, 0) else if s.spot[y].0 == k then (k, s.spot[y].1 + 1) else s.spot[y]
    ensures ShapeOk(r)
  {
    forall q
      ensures ListOk(r, q)
    {
      assert ListOk(s, q);
      forall i | 0 <= i < |At(r.lists, q)|
        ensures At(r.lists, q)[i] in r.spot && r.spot[At(r.lists, q)[i]] == (q, i)
      {
        assert q == k && i > 0 ==> At(r.lists, q)[i] == At(s.lists, q)[i - 1];
      }
    }
    forall y ensures SpotOk(r, y) { assert SpotOk(s, y); }
  }

  ghost function Appended<K(!new), T(!new)>(s: Shape<K, T>, k: K, x: T): (r: Shape<K, T>)
    requires ShapeOk(s) && x !in s.spot
    ensures ShapeOk(r)
    ensures At(r.lists, k) == At(s.lists, k) + [x]
    ensures forall q :: q != k ==> At(r.lists, q) == At(s.lists, q)
    ensures r.spot == s.spot[x := (k, |At(s.lists, k)|)]
  {
    var r := Shape(s.lists[k := At(s.lists, k) + [x]], s.spot[x := (k, |At(s.lists, k)|)]);
    AppendedOk(s, r, k, x);
    r
  }

  lemma AppendedOk<K(!new), T(!new)>(s: Shape<K, T>, r: Shape<K, T>, k: K, x: T)
    requires ShapeOk(s) && x !in s.spot
    requires At(r.lists, k) == At(s.lists, k) + [x]
    requires forall q :: q != k ==> At(r.lists, q) == At(s.lists, q)
    requires r.spot == s.spot[x := (k, |At(s.lists, k)|)]
    ensures ShapeOk(r)
  {
    forall q
      ensures ListOk(r, q)
    {
      assert ListOk(s, q);
      forall i | 0 <= i < |At(r.lists, q)|
        ensures At(r.lists, q)[i] in r.spot && r.spot[At(r.lists, q)[i]] == (q, i)
      {
        assert q == k && i < |At(s.lists, q)| ==> At(r.lists, q)[i] == At(s.lists, q)[i];
      }
    }
    forall y ensures SpotOk(r, y) { assert SpotOk(s, y); }
  }

  ghost function Deleted<K(!new), T(!new)>(s: Shape<K, T>, x: T): (r: Shape<K, T>)
    requires ShapeOk(s) && x in s.spot
    ensures SpotOk(s, x)
    ensures ShapeOk(r)
    ensures At(r.lists, s.spot[x].0) == Removed(At(s.lists, s.spot[x].0), s.spot[x].1)
    ensures forall q :: q != s.spot[x].0 ==> At(r.lists, q) == At(s.lists, q)
    ensures r.spot.Keys == s.spot.Keys - {x}
    ensures forall y :: y in s.spot && y != x ==>
      r.spot[y] == if s.spot[y].0 == s.spot[x].0 && s.spot[y].1 > s.spot[x].1 then (s.spot[y].0, s.spot[y].1 - 1)
                   else s.spot[y]
  {
    assert SpotOk(s, x);
    var (k, i) := s.spot[x];
    var r := Shape(s.lists[k := Removed(At(s.lists, k), i)],
                   map y | y in s.spot.Keys - {x} ::
                     if s.spot[y].0 == k && s.spot[y].1 > i then (k, s.spot[y].1 - 1) else s.spot[y]);
    DeletedOk(s, r, x);
    r
  }

  lemma DeletedOk<K(!new), T(!new)>(s: Shape<K, T>, r: Shape<K, T>, x: T)
    requires ShapeOk(s) && x in s.spot && SpotOk(s, x)
    requires var (k, i) := s.spot[x];
      && At(r.lists, k) == Removed(At(s.lists, k), i)
      && (forall q :: q != k ==> At(r.lists, q) == At(s.lists, q))
      && r.spot == map y | y in s.spot.Keys - {x} ::
                     if s.spot[y].0 == k && s.spot[y].1 > i then (k, s.spot[y].1 - 1) else s.spot[y]
    ensures ShapeOk(r)
  {
    var (k, i) := s.spot[x];
    forall q
      ensures ListOk(r, q)
    {
      assert ListOk(s, q);
      forall j | 0 <= j < |At(r.lists, q)|
        ensures At(r.lists, q)[j] in r.spot && r.spot[At(r.lists, q)[j]] == (q, j)
      {
        assert At(r.lists, q)[j] == At(s.lists, q)[if q == k && j >= i then j + 1 else j];
      }
    }
    forall y ensures SpotOk(r, y) { assert SpotOk(s, y); }
  }

  /** The list at `src` moved behind the list at `dst`. */
  ghost function Joined<K(!new), T(!new)>(s: Shape<K, T>, dst: K, src: K): (r: Shape<K, T>)
    requires ShapeOk(s) && dst != src
    ensures ShapeOk(r)
    ensures At(r.lists, dst) == At(s.lists, dst) + At(s.lists, src) && At(r.lists, src) == []
    ensures forall q :: q != dst && q != src ==> At(r.lists, q) == At(s.lists, q)
    ensures r.spot.Keys == s.spot.Keys
    ensures forall y :: y in s.spot ==>
      r.spot[y] == if s.spot[y].0 == src then (dst, s.spot[y].1 + |At(s.lists, dst)|) else s.spot[y]
  {
    var c := |At(s.lists, dst)|;
    var r := Shape(s.lists[dst := At(s.lists, dst) + At(s.lists, src)][src := []],
                   map y | y in s.spot.Keys :: if s.spot[y].0 == src then (dst, s.spot[y].1 + c) else s.spot[y]);
    JoinedOk(s, r, dst, src);
    r
  }

  lemma JoinedOk<K(!new), T(!new)>(s: Shape<K, T>, r: Shape<K, T>, dst: K, src: K)
    requires ShapeOk(s) && dst != src
    requires At(r.lists, dst) == At(s.lists, dst) + At(s.lists, src) && At(r.lists, src) == []
    requires forall q :: q != dst && q != src ==> At(r.lists, q) == At(s.lists, q)
    requires r.spot == map y | y in s.spot.Keys ::
                         if s.spot[y].0 == src then (dst, s.spot[y].1 + |At(s.lists, dst)|) else s.spot[y]
    ensures ShapeOk(r)
  {
    var c := |At(s.lists, dst)|;
    forall q
      ensures ListOk(r, q)
    {
      assert ListOk(s, q) && ListOk(s, src);
      forall i | 0 <= i < |At(r.lists, q)|
        ensures At(r.lists, q)[i] in r.spot && r.spot[At(r.lists, q)[i]] == (q, i)
      {
        assert q == dst && i >= c ==> At(r.lists, q)[i] == At(s.lists, src)[i - c];
        assert q == dst && i < c ==> At(r.lists, q)[i] == At(s.lists, dst)[i];
      }
    }
    forall y ensures SpotOk(r, y) { assert SpotOk(s, y); }
  }

  class Queues<K(==,!new), T(==,!new)> {
    var first: map<K, T>
    var last: map<K, T>
    var next: map<T, T>
    var prev: map<T, T>
    ghost var shape: Shape<K, T>

    ghost function List(k: K): seq<T>
      reads this
    {
      At(shape.lists, k)
    }

    ghost predicate Queued(x: T)
      reads this
    {
      x in shape.spot
    }

    ghost predicate Valid()
      reads this
    {
      && ShapeOk(shape)
      && (forall x :: Linked(shape, next, prev, x))
      && (forall k :: EndsOk(shape, first, last, k))
    }

    constructor ()
      ensures Valid()
      ensures forall k :: List(k) == []
      ensures forall x :: !Queued(x)
    {
      first, last, next, prev := map[], map[], map[], map[];
      shape := Shape(map[], map[]);
    }

    /** Insert an element that is on no queue at the front. */
    method PushFront(k: K, x: T)
      requires Valid() && !Queued(x)
      modifies this
      ensures Valid() && shape == Pushed(old(shape), k, x)
    {
      assert Linked(shape, next, prev, x) && EndsOk(shape, first, last, k);
      if k in first {
        next := next[x := first[k]];
        prev := prev[first[k] := x];
        first := first[k := x];
      } else {
        first := first[k := x];
        last := last[k := x];
      }
      ghost var before := shape;
      shape := Pushed(before, k, x);
      forall y ensures Linked(shape, next, prev, y) {
        assert Linked(before, old(next), old(prev), y);
        PushLinks(before, shape, k, x, old(next), old(prev), next, prev, y);
      }
      forall q ensures EndsOk(shape, first, last, q) {
        assert EndsOk(before, old(first), old(last), q);
      }
    }

    /** Insert an element that is on no queue at the back. */
    method PushBack(k: K, x: T)
      requires Valid() && !Queued(x)
      modifies this
      ensures Valid() && shape == Appended(old(shape), k, x)
    {
      assert Linked(shape, next, prev, x) && EndsOk(shape, first, last, k);
      if k in last {
        prev := prev[x := last[k]];
        next := next[last[k] := x];
        last := last[k := x];
      } else {
        first := first[k := x];
        last := last[k := x];
      }
      ghost var before := shape;
      shape := Appended(before, k, x);
      forall y ensures Linked(shape, next, prev, y) {
        assert Linked(before, old(next), old(prev), y);
        AppendLinks(before, shape, k, x, old(next), old(prev), next, prev, y);
      }
      forall q ensures EndsOk(shape, first, last, q) {
        assert EndsOk(before, old(first), old(last), q);
      }
    }

    /** Unlink an element of queue `k`.  An element that is on no queue is left alone, even
        when the caller believes it to be on `k`. */
    method Delete(k: K, x: T)
      requires Valid()
      requires Queued(x) ==> shape.spot[x].0 == k
      modifies this
      ensures Valid()
      ensures shape == if old(Queued(x)) then Deleted(old(shape), x) else old(shape)
    {
      ghost var before := shape;
      assert Linked(before, next, prev, x) && EndsOk(before, first, last, k) && ListOk(before, k);
      assert SpotOk(before, x);
      assert Queued(x) ==> k in first && k in last;
      var n, p := next, prev;
      if x in prev {
        n := if x in next then n[prev[x] := next[x]] else n - {prev[x]};
      }
      if x in next {
        p := if x in prev then p[next[x] := prev[x]] else p - {next[x]};
      }
      if k in last && x == last[k] {
        last := if x in prev then last[k := prev[x]] else last - {k};
      }
      if k in first && x == first[k] {
        first := if x in next then first[k := next[x]] else first - {k};
      }
      next, prev := n - {x}, p - {x};
      if x in before.spot {
        shape := Deleted(before, x);
        forall y ensures Linked(shape, next, prev, y) {
          assert Linked(before, old(next), old(prev), y);
          UnlinkedAt(before, x, old(next), old(prev), next, prev, y);
          DeleteLinks(before, shape, x, old(next), old(prev), next, prev, y);
        }
        forall q ensures EndsOk(shape, first, last, q) {
          DeleteEnds(before, shape, k, x, old(next), old(prev), old(first), old(last), first, last, q);
        }
      } else {
        assert next == old(next) && prev == old(prev);
      }
    }

    /** Link the whole queue `src` behind the queue `dst`. */
    method Append(dst: K, src: K)
      requires Valid() && dst != src
      modifies this
      ensures Valid() && shape == Joined(old(shape), dst, src)
    {
      ghost var before := shape;
      assert EndsOk(before, first, last, src) && EndsOk(before, first, last, dst);
      if src in first {
        if dst in last {
          next := next[last[dst] := first[src]];
          prev := prev[first[src] := last[dst]];
          last := last[dst := last[src]];
        } else {
          first := first[dst := first[src]];
          last := last[dst := last[src]];
        }
        first, last := first - {src}, last - {src};
      }
      shape := Joined(before, dst, src);
      forall y ensures Linked(shape, next, prev, y) {
        assert Linked(before, old(next), old(prev), y);
        JoinLinks(before, shape, dst, src, old(next), old(prev), next, prev, y);
      }
      forall q ensures EndsOk(shape, first, last, q) {
        JoinEnds(before, shape, dst, src, old(first), old(last), first, last, q);
      }
    }
  }

  lemma JoinLinks<K(!new), T(!new)>(s: Shape<K, T>, r: Shape<K, T>, dst: K, src: K, next: map<T, T>, prev: map<T, T>,
                                    next': map<T, T>, prev': map<T, T>, y: T)
    requires ShapeOk(s) && dst != src && r == Joined(s, dst, src) && Linked(s, next, prev, y)
    requires var p, q := At(s.lists, dst), At(s.lists, src);
      if p == [] || q == [] then next' == next && prev' == prev
      else next' == next[p[|p| - 1] := q[0]] && prev' == prev[q[0] := p[|p| - 1]]
    ensures Linked(r, next', prev', y)
  {
    var p, q := At(s.lists, dst), At(s.lists, src);
    if p != [] { SpotAt(s, dst, |p| - 1); }
    if q != [] { SpotAt(s, src, 0); }
    if y in s.spot {
      assert SpotOk(s, y);
      var (k, i) := s.spot[y];
      if k == src {
        assert At(r.lists, dst)[|p| + i] == q[i];
        assert i > 0 ==> At(r.lists, dst)[|p| + i - 1] == q[i - 1];
        assert i == 0 && p != [] ==> At(r.lists, dst)[|p| - 1] == p[|p| - 1];
        assert i + 1 < |q| ==> At(r.lists, dst)[|p| + i + 1] == q[i + 1];
      } else if k == dst {
        assert i > 0 ==> At(r.lists, dst)[i - 1] == p[i - 1];
        assert i + 1 < |p| ==> At(r.lists, dst)[i + 1] == p[i + 1];
        assert i + 1 == |p| && q != [] ==> At(r.lists, dst)[i + 1] == q[0];
      }
    }
  }

  lemma JoinEnds<K(!new), T(!new)>(s: Shape<K, T>, r: Shape<K, T>, dst: K, src: K,
                                   first: map<K, T>, last: map<K, T>, first': map<K, T>, last': map<K, T>, k: K)
    requires ShapeOk(s) && dst != src && r == Joined(s, dst, src)
    requires EndsOk(s, first, last, dst) && EndsOk(s, first, last, src) && EndsOk(s, first, last, k)
    requires first' == if src !in first then first else if dst in last then first - {src}
                                                        else first[dst := first[src]] - {src}
    requires last' == if src !in first then last else last[dst := last[src]] - {src}
    ensures EndsOk(r, first', last', k)
  {
    var p, q := At(s.lists, dst), At(s.lists, src);
    assert p != [] ==> At(r.lists, dst)[0] == p[0];
    assert q != [] ==> At(r.lists, dst)[|p| + |q| - 1] == q[|q| - 1];
  }

  lemma PushLinks<K(!new), T(!new)>(s: Shape<K, T>, r: Shape<K, T>, k: K, x: T, next: map<T, T>, prev: map<T, T>,
                                    next': map<T, T>, prev': map<T, T>, y: T)
    requires ShapeOk(s) && x !in s.spot && r == Pushed(s, k, x)
    requires Linked(s, next, prev, y) && Linked(s, next, prev, x)
    requires At(s.lists, k) == [] ==> next' == next && prev' == prev
    requires At(s.lists, k) != [] ==> next' == next[x := At(s.lists, k)[0]] && prev' == prev[At(s.lists, k)[0] := x]
    ensures Linked(r, next', prev', y)
  {
    var list := At(s.lists, k);
    assert list != [] ==> ListOk(s, k) && list[0] in s.spot && s.spot[list[0]] == (k, 0);
    if y in s.spot {
      assert SpotOk(s, y);
      var (q, i) := s.spot[y];
      if q == k {
        assert At(r.lists, k)[i + 1] == y;
        assert At(r.lists, k)[i] == if i == 0 then x else list[i - 1];
        assert i + 1 < |list| ==> At(r.lists, k)[i + 2] == list[i + 1];
      }
    }
  }

  lemma AppendLinks<K(!new), T(!new)>(s: Shape<K, T>, r: Shape<K, T>, k: K, x: T, next: map<T, T>, prev: map<T, T>,
                                      next': map<T, T>, prev': map<T, T>, y: T)
    requires ShapeOk(s) && x !in s.spot && r == Appended(s, k, x)
    requires Linked(s, next, prev, y) && Linked(s, next, prev, x)
    requires At(s.lists, k) == [] ==> next' == next && prev' == prev
    requires var c := |At(s.lists, k)|;
      c > 0 ==> prev' == prev[x := At(s.lists, k)[c - 1]] && next' == next[At(s.lists, k)[c - 1] := x]
    ensures Linked(r, next', prev', y)
  {
    var list, c := At(s.lists, k), |At(s.lists, k)|;
    assert list != [] ==> ListOk(s, k) && list[c - 1] in s.spot && s.spot[list[c - 1]] == (k, c - 1);
    if y in s.spot {
      assert SpotOk(s, y);
    }
  }

  /** Links are symmetric. */
  lemma NeighbourOf<K(!new), T(!new)>(s: Shape<K, T>, x: T, next: map<T, T>, prev: map<T, T>, y: T)
    requires ShapeOk(s) && x in s.spot
    requires Linked(s, next, prev, x) && Linked(s, next, prev, y)
    ensures y in next && next[y] == x <==> x in prev && prev[x] == y
    ensures y in prev && prev[y] == x <==> x in next && next[x] == y
  {
    assert SpotOk(s, x) && SpotOk(s, y) && ListOk(s, s.spot[x].0);
    assert y in s.spot ==> ListOk(s, s.spot[y].0);
  }

  /** `y` keeps its links but for those to the unlinked `x`, which skip over it. */
  ghost predicate Bypassed<T>(x: T, next: map<T, T>, prev: map<T, T>, next': map<T, T>, prev': map<T, T>, y: T) {
    && (if y in next && next[y] == x then (if x in next then y in next' && next'[y] == next[x] else y !in next')
        else (y in next' <==> y in next) && (y in next ==> next'[y] == next[y]))
    && (if y in prev && prev[y] == x then (if x in prev then y in prev' && prev'[y] == prev[x] else y !in prev')
        else (y in prev' <==> y in prev) && (y in prev ==> prev'[y] == prev[y]))
  }

  lemma UnlinkedAt<K(!new), T(!new)>(s: Shape<K, T>, x: T, next: map<T, T>, prev: map<T, T>, next': map<T, T>,
                                     prev': map<T, T>, y: T)
    requires ShapeOk(s) && x in s.spot && Linked(s, next, prev, x) && Linked(s, next, prev, y)
    requires next' == (if x !in prev then next else if x in next then next[prev[x] := next[x]]
                                                    else next - {prev[x]}) - {x}
    requires prev' == (if x !in next then prev else if x in prev then prev[next[x] := prev[x]]
                                                    else prev - {next[x]}) - {x}
    ensures if y == x then x !in next' && x !in prev' else Bypassed(x, next, prev, next', prev', y)
  {
    NeighbourOf(s, x, next, prev, y);
  }

  lemma DeleteLinks<K(!new), T(!new)>(s: Shape<K, T>, r: Shape<K, T>, x: T, next: map<T, T>, prev: map<T, T>,
                                      next': map<T, T>, prev': map<T, T>, y: T)
    requires ShapeOk(s) && x in s.spot && r == Deleted(s, x)
    requires Linked(s, next, prev, y) && Linked(s, next, prev, x)
    requires if y == x then x !in next' && x !in prev' else Bypassed(x, next, prev, next', prev', y)
    ensures Linked(r, next', prev', y)
  {
    assert SpotOk(s, x) && SpotOk(s, y);
    if y in s.spot && y != x {
      var (k, i) := s.spot[x];
      var (q, j) := s.spot[y];
      var list := At(s.lists, k);
      if q == k {
        assert j != i;
        if j > 0 { SpotAt(s, k, j - 1); }
        if j < |list| - 1 { SpotAt(s, k, j + 1); }
        var j' := if j > i then j - 1 else j;
        assert r.spot[y] == (k, j');
        assert j' > 0 ==> At(r.lists, k)[j' - 1] == list[if j' - 1 >= i then j' else j' - 1];
        assert j' < |list| - 2 ==> At(r.lists, k)[j' + 1] == list[if j' + 1 >= i then j' + 2 else j' + 1];
      } else {
        if j > 0 { SpotAt(s, q, j - 1); }
        if j < |At(s.lists, q)| - 1 { SpotAt(s, q, j + 1); }
      }
    }
  }

  lemma DeleteEnds<K(!new), T(!new)>(s: Shape<K, T>, r: Shape<K, T>, k: K, x: T, next: map<T, T>, prev: map<T, T>,
                                     first: map<K, T>, last: map<K, T>, first': map<K, T>, last': map<K, T>, q: K)
    requires ShapeOk(s) && x in s.spot && s.spot[x].0 == k && r == Deleted(s, x)
    requires Linked(s, next, prev, x) && EndsOk(s, first, last, k) && EndsOk(s, first, last, q)
    requires first' == if first[k] != x then first else if x in next then first[k := next[x]] else first - {k}
    requires last' == if last[k] != x then last else if x in prev then last[k := prev[x]] else last - {k}
    ensures EndsOk(r, first', last', q)
  {
    assert SpotOk(s, x);
    var list, c := At(s.lists, k), |At(s.lists, k)|;
    SpotAt(s, k, 0);
    SpotAt(s, k, c - 1);
    if q == k && c > 1 {
      assert At(r.lists, k)[0] == if s.spot[x].1 == 0 then list[1] else list[0];
      assert At(r.lists, k)[c - 2] == if s.spot[x].1 == c - 1 then list[c - 2] else list[c - 1];
    }
  }

  lemma SpotAt<K(!new), T(!new)>(s: Shape<K, T>, k: K, i: nat)
    requires ShapeOk(s) && i < |At(s.lists, k)|
    ensures At(s.lists, k)[i] in s.spot && s.spot[At(s.lists, k)[i]] == (k, i)
  {
    assert ListOk(s, k);
  }
}
