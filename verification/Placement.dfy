/** Where things are.  The allocator and the trace writer keep blocks, segments and
    buffers on intrusive lists; a thing is on a list when it can be reached from the
    variable that anchors the list.  `Lists` maps each anchor to the things reachable
    from it, in order.  The lemmas say which list operations keep every thing in
    exactly one place. */
module Placement {

  type Lists<!A, B> = map<A, seq<B>>

  /** The list anchored at `a`; an anchor that is not mapped is a null pointer. */
  function At<A, B>(m: Lists<A, B>, a: A): seq<B> {
    if a in m then m[a] else []
  }

  /** `home` and `pos` tell where each thing is: no thing is in two places. */
  ghost predicate Directory<A(!new), B(!new)>(m: Lists<A, B>, home: map<B, A>, pos: map<B, nat>) {
    forall a, i :: 0 <= i < |At(m, a)| ==>
      var b := At(m, a)[i]; b in home && home[b] == a && b in pos && pos[b] == i
  }

  /** The things on the lists are those of `u`, each in exactly one place. */
  ghost predicate Exact<A(!new), B(!new)>(m: Lists<A, B>, u: set<B>) {
    && (exists home, pos :: Directory(m, home, pos))
    && (forall a, i :: 0 <= i < |At(m, a)| ==> At(m, a)[i] in u)
    && (forall b :: b in u ==> exists a :: b in At(m, a))
  }

  /** A thing placed exactly has one place and no other. */
  lemma OnePlace<A(!new), B(!new)>(m: Lists<A, B>, u: set<B>, b: B) returns (a: A, i: nat)
    requires Exact(m, u) && b in u
    ensures i < |At(m, a)| && At(m, a)[i] == b
    ensures forall a', i' :: 0 <= i' < |At(m, a')| && At(m, a')[i'] == b ==> a' == a && i' == i
  {
    a :| b in At(m, a);
    i :| 0 <= i < |At(m, a)| && At(m, a)[i] == b;
  }

  lemma InUniverse<A(!new), B(!new)>(m: Lists<A, B>, u: set<B>, a: A, b: B)
    requires Exact(m, u) && b in At(m, a)
    ensures b in u
  {
  }

  lemma SamePlace<A(!new), B(!new)>(m: Lists<A, B>, u: set<B>, a: A, a': A, b: B)
    requires Exact(m, u) && b in At(m, a) && b in At(m, a')
    ensures a == a'
  {
  }

  /** A sequence without repetition. */
  ghost predicate Distinct<B>(s: seq<B>) {
    forall i, j :: 0 <= i < j < |s| ==> s[i] != s[j]
  }

  /** Lists at different anchors joined: still no repetition. */
  lemma JoinDistinct<A(!new), B(!new)>(m: Lists<A, B>, u: set<B>, a: A, a': A)
    requires Exact(m, u) && a != a'
    ensures Distinct(At(m, a)) && Distinct(At(m, a) + At(m, a'))
  {
    var home: map<B, A>, pos: map<B, nat> :| Directory(m, home, pos);
    var s, n := At(m, a) + At(m, a'), |At(m, a)|;
    forall i | 0 <= i < |s|
      ensures s[i] in home && s[i] in pos && home[s[i]] == (if i < n then a else a')
      ensures pos[s[i]] == (if i < n then i else i - n)
    {
      assert s[i] == if i < n then At(m, a)[i] else At(m, a')[i - n];
    }
  }

  /** The elements of a sequence without repetition, as a set of the same size. */
  lemma {:induction false} DistinctSize<B>(s: seq<B>, u: set<B>)
    requires Distinct(s)
    requires forall b :: b in s ==> b in u
    ensures |s| <= |u|
    ensures |s| == |u| ==> forall b :: b in u ==> b in s
  {
    if s != [] {
      var x, rest := s[0], s[1..];
      assert x !in rest;
      assert forall b :: b in rest ==> b in s;
      DistinctSize(rest, u - {x});
      assert forall b :: b in u - {x} && b in rest ==> b in s;
    }
  }

  // ---------------------------------------------------------------- list operations

  /** Unlink position `i` of the list at `src` and push it on the list at `dst`. */
  function MoveAt<A, B>(m: Lists<A, B>, src: A, i: nat, dst: A): Lists<A, B>
    requires i < |At(m, src)| && src != dst
  {
    m[src := At(m, src)[..i] + At(m, src)[i + 1..]][dst := [At(m, src)[i]] + At(m, dst)]
  }

  /** What `MoveAt` does to each list. */
  ghost predicate Moved<A(!new), B>(m: Lists<A, B>, src: A, i: nat, dst: A, n: Lists<A, B>) {
    && src != dst && i < |At(m, src)|
    && At(n, src) == At(m, src)[..i] + At(m, src)[i + 1..]
    && At(n, dst) == [At(m, src)[i]] + At(m, dst)
    && (forall a :: a != src && a != dst ==> At(n, a) == At(m, a))
  }

  lemma MoveAtExact<A(!new), B(!new)>(m: Lists<A, B>, src: A, i: nat, dst: A, u: set<B>)
    requires i < |At(m, src)| && src != dst
    requires Exact(m, u)
    ensures Exact(MoveAt(m, src, i, dst), u)
    ensures Moved(m, src, i, dst, MoveAt(m, src, i, dst))
  {
    MoveKeepsExact(m, src, i, dst, u, MoveAt(m, src, i, dst));
  }

  lemma MoveExact<A(!new), B(!new)>(m: Lists<A, B>, src: A, i: nat, dst: A, u: set<B>, n: Lists<A, B>, u': set<B>)
    requires i < |At(m, src)| && src != dst && Exact(m, u)
    requires n == MoveAt(m, src, i, dst) && u' == u
    ensures Exact(n, u')
  {
    MoveAtExact(m, src, i, dst, u);
  }

  /** Where the thing at position `k` of list `a` was before the move. */
  function MoveOrigin<A(==)>(src: A, i: nat, dst: A, a: A, k: nat): (A, nat) {
    if a == src then (src, if k < i then k else k + 1)
    else if a == dst then (if k == 0 then (src, i) else (dst, k - 1))
    else (a, k)
  }

  lemma MoveOriginIs<A(!new), B(!new)>(m: Lists<A, B>, src: A, i: nat, dst: A, n: Lists<A, B>, a: A, k: nat)
    requires Moved(m, src, i, dst, n) && k < |At(n, a)|
    ensures var (o, p) := MoveOrigin(src, i, dst, a, k); p < |At(m, o)| && At(m, o)[p] == At(n, a)[k]
  {
  }

  lemma MoveKeepsExact<A(!new), B(!new)>(m: Lists<A, B>, src: A, i: nat, dst: A, u: set<B>, n: Lists<A, B>)
    requires Exact(m, u) && Moved(m, src, i, dst, n)
    ensures Exact(n, u)
  {
    var home: map<B, A>, pos: map<B, nat> :| Directory(m, home, pos);
    MoveDirectory(m, src, i, dst, n, home, pos);
    forall a, k | 0 <= k < |At(n, a)|
      ensures At(n, a)[k] in u
    {
      MoveOriginIs(m, src, i, dst, n, a, k);
    }
    forall b | b in u
      ensures exists a :: b in At(n, a)
    {
      var a :| b in At(m, a);
      MoveKeeps(m, src, i, dst, n, a, b);
    }
  }

  lemma MoveDirectory<A(!new), B(!new)>(m: Lists<A, B>, src: A, i: nat, dst: A, n: Lists<A, B>, home: map<B, A>,
                                        pos: map<B, nat>)
    requires Moved(m, src, i, dst, n) && Directory(m, home, pos)
    ensures exists home', pos' :: Directory(n, home', pos')
  {
    var x := At(m, src)[i];
    var home' := home[x := dst];
    var pos' := map b | b in home && b in pos ::
      if b == x then 0
      else if home[b] == src && pos[b] > i then pos[b] - 1
      else if home[b] == dst then pos[b] + 1
      else pos[b];
    forall a, k | 0 <= k < |At(n, a)|
      ensures At(n, a)[k] in home' && home'[At(n, a)[k]] == a && At(n, a)[k] in pos' && pos'[At(n, a)[k]] == k
    {
      MoveOriginIs(m, src, i, dst, n, a, k);
      var (o, p) := MoveOrigin(src, i, dst, a, k);
      var b := At(m, o)[p];
      assert home[b] == o && pos[b] == p && home[x] == src && pos[x] == i;
    }
    assert Directory(n, home', pos');
  }

  lemma MoveKeeps<A(!new), B(!new)>(m: Lists<A, B>, src: A, i: nat, dst: A, n: Lists<A, B>, a: A, b: B)
    requires Moved(m, src, i, dst, n) && b in At(m, a)
    ensures b in At(n, a) || b in At(n, dst)
  {
    var k :| 0 <= k < |At(m, a)| && At(m, a)[k] == b;
    if a == src {
      assert b == if k == i then At(n, dst)[0] else At(n, src)[if k < i then k else k - 1];
    } else if a == dst {
      assert b == At(n, dst)[k + 1];
    }
  }

  /** Splice the whole list at `src` in front of the list at `dst`. */
  function MoveAll<A, B>(m: Lists<A, B>, src: A, dst: A): Lists<A, B>
    requires src != dst
  {
    m[src := []][dst := At(m, src) + At(m, dst)]
  }

  /** What `MoveAll` does to each list. */
  ghost predicate Spliced<A(!new), B>(m: Lists<A, B>, src: A, dst: A, n: Lists<A, B>) {
    && src != dst
    && At(n, src) == []
    && At(n, dst) == At(m, src) + At(m, dst)
    && (forall a :: a != src && a != dst ==> At(n, a) == At(m, a))
  }

  lemma MoveAllExact<A(!new), B(!new)>(m: Lists<A, B>, src: A, dst: A, u: set<B>)
    requires src != dst
    requires Exact(m, u)
    ensures Exact(MoveAll(m, src, dst), u)
    ensures Spliced(m, src, dst, MoveAll(m, src, dst))
  {
    SpliceKeepsExact(m, src, dst, u, MoveAll(m, src, dst));
  }

  lemma SpliceKeepsExact<A(!new), B(!new)>(m: Lists<A, B>, src: A, dst: A, u: set<B>, n: Lists<A, B>)
    requires Exact(m, u) && Spliced(m, src, dst, n)
    ensures Exact(n, u)
  {
    var home: map<B, A>, pos: map<B, nat> :| Directory(m, home, pos);
    SpliceDirectory(m, src, dst, n, home, pos);
    forall a, k | 0 <= k < |At(n, a)|
      ensures At(n, a)[k] in u
    {
      SpliceElement(m, src, dst, n, u, a, k);
    }
    forall b | b in u
      ensures exists a :: b in At(n, a)
    {
      SpliceCovers(m, src, dst, n, b);
    }
  }

  lemma SpliceElement<A(!new), B(!new)>(m: Lists<A, B>, src: A, dst: A, n: Lists<A, B>, u: set<B>, a: A, k: nat)
    requires Spliced(m, src, dst, n) && k < |At(n, a)|
    requires forall o, i :: 0 <= i < |At(m, o)| ==> At(m, o)[i] in u
    ensures At(n, a)[k] in u
  {
    var c := |At(m, src)|;
    var (o, i) := if a != dst then (a, k) else if k < c then (src, k) else (dst, k - c);
    assert At(n, a)[k] == At(m, o)[i] by { SpliceOrigin(m, src, dst, n, a, k, o, i); }
  }

  lemma SpliceOrigin<A(!new), B(!new)>(m: Lists<A, B>, src: A, dst: A, n: Lists<A, B>, a: A, k: nat, o: A, i: nat)
    requires Spliced(m, src, dst, n) && k < |At(n, a)|
    requires (o, i) == if a != dst then (a, k) else if k < |At(m, src)| then (src, k) else (dst, k - |At(m, src)|)
    ensures i < |At(m, o)| && At(n, a)[k] == At(m, o)[i]
  {
  }

  lemma SpliceCovers<A(!new), B(!new)>(m: Lists<A, B>, src: A, dst: A, n: Lists<A, B>, b: B)
    requires Spliced(m, src, dst, n) && exists a :: b in At(m, a)
    ensures exists a :: b in At(n, a)
  {
    var a :| b in At(m, a);
    assert b in At(n, if a == src then dst else a);
  }

  lemma SpliceDirectory<A(!new), B(!new)>(m: Lists<A, B>, src: A, dst: A, n: Lists<A, B>, home: map<B, A>,
                                          pos: map<B, nat>)
    requires Spliced(m, src, dst, n) && Directory(m, home, pos)
    ensures exists home', pos' :: Directory(n, home', pos')
  {
    var c := |At(m, src)|;
    var home' := map b | b in home :: if home[b] == src then dst else home[b];
    var pos' := map b | b in home && b in pos :: if home[b] == dst then pos[b] + c else pos[b];
    forall a, k | 0 <= k < |At(n, a)|
      ensures At(n, a)[k] in home' && home'[At(n, a)[k]] == a && At(n, a)[k] in pos' && pos'[At(n, a)[k]] == k
    {
      var (o, p) := if a == dst then (if k < c then (src, k) else (dst, k - c)) else (a, k);
      var b := At(m, o)[p];
      assert At(n, a)[k] == b && home[b] == o && pos[b] == p;
    }
    assert Directory(n, home', pos');
  }

  /** Splice new things in front of the list at `dst`. */
  function AddAll<A, B>(m: Lists<A, B>, added: seq<B>, dst: A): Lists<A, B> {
    m[dst := added + At(m, dst)]
  }

  lemma AddAllExact<A(!new), B(!new)>(m: Lists<A, B>, added: seq<B>, dst: A, u: set<B>, u': set<B>)
    requires Exact(m, u)
    requires Distinct(added)
    requires forall b :: b in added <==> b in u' && b !in u
    requires u <= u'
    ensures Exact(AddAll(m, added, dst), u')
  {
    AddKeepsExact(m, added, dst, u, u', AddAll(m, added, dst));
  }

  lemma AddKeepsExact<A(!new), B(!new)>(m: Lists<A, B>, added: seq<B>, dst: A, u: set<B>, u': set<B>, n: Lists<A, B>)
    requires Exact(m, u)
    requires Distinct(added)
    requires forall b :: b in added <==> b in u' && b !in u
    requires u <= u'
    requires At(n, dst) == added + At(m, dst) && (forall a :: a != dst ==> At(n, a) == At(m, a))
    ensures Exact(n, u')
  {
    var home: map<B, A>, pos: map<B, nat> :| Directory(m, home, pos);
    AddDirectory(m, added, dst, u, u', n, home, pos);
    forall a, k | 0 <= k < |At(n, a)|
      ensures At(n, a)[k] in u'
    {
      AddElement(m, added, dst, n, a, k);
    }
    forall b | b in u'
      ensures exists a :: b in At(n, a)
    {
      if b !in added { assert b in u && exists a :: b in At(m, a); }
      AddCovers(m, added, dst, n, b);
    }
  }

  lemma AddElement<A(!new), B(!new)>(m: Lists<A, B>, added: seq<B>, dst: A, n: Lists<A, B>, a: A, k: nat)
    requires At(n, dst) == added + At(m, dst) && (forall a :: a != dst ==> At(n, a) == At(m, a)) && k < |At(n, a)|
    ensures At(n, a)[k] in added || At(n, a)[k] in At(m, a)
  {
    if a == dst {
      assert At(n, a)[k] == if k < |added| then added[k] else At(m, dst)[k - |added|];
    }
  }

  lemma AddDirectory<A(!new), B(!new)>(m: Lists<A, B>, added: seq<B>, dst: A, u: set<B>, u': set<B>, n: Lists<A, B>,
                                       home: map<B, A>, pos: map<B, nat>)
    requires forall a, i :: 0 <= i < |At(m, a)| ==> At(m, a)[i] in u
    requires Distinct(added) && u <= u'
    requires forall b :: b in added <==> b in u' && b !in u
    requires At(n, dst) == added + At(m, dst) && (forall a :: a != dst ==> At(n, a) == At(m, a))
    requires Directory(m, home, pos)
    ensures exists home', pos' :: Directory(n, home', pos')
  {
    var c := |added|;
    var home' := map b | b in u' && (b in added || b in home) :: if b in added then dst else home[b];
    var pos' := map b | b in u' && (b in added || (b in home && b in pos)) ::
      if b in added then IndexOf(added, b) else if home[b] == dst then pos[b] + c else pos[b];
    forall a, k | 0 <= k < |At(n, a)|
      ensures At(n, a)[k] in home' && home'[At(n, a)[k]] == a && At(n, a)[k] in pos' && pos'[At(n, a)[k]] == k
    {
      if a == dst {
        assert At(n, a)[k] == if k < c then added[k] else At(m, dst)[k - c];
        if k < c { assert added[k] in added; }
      }
    }
    assert Directory(n, home', pos');
  }

  lemma AddCovers<A(!new), B(!new)>(m: Lists<A, B>, added: seq<B>, dst: A, n: Lists<A, B>, b: B)
    requires At(n, dst) == added + At(m, dst) && (forall a :: a != dst ==> At(n, a) == At(m, a))
    requires b in added || exists a :: b in At(m, a)
    ensures exists a :: b in At(n, a)
  {
    if b in added {
      assert b in At(n, dst);
    } else {
      var a :| b in At(m, a);
      assert b in At(n, a);
    }
  }

  ghost function IndexOf<B>(s: seq<B>, b: B): (i: nat)
    requires b in s
    ensures i < |s| && s[i] == b
  {
    var i :| 0 <= i < |s| && s[i] == b; i
  }

  /** Drop whole lists (their memory is given back). */
  function DropLists<A, B>(m: Lists<A, B>, gone: set<A>): Lists<A, B> {
    m - gone
  }

  lemma DropListsExact<A(!new), B(!new)>(m: Lists<A, B>, gone: set<A>, u: set<B>, u': set<B>)
    requires Exact(m, u)
    requires u' <= u
    requires forall a, b :: b in At(m, a) ==> (a in gone <==> b !in u')
    ensures Exact(DropLists(m, gone), u')
    ensures forall a :: At(DropLists(m, gone), a) == if a in gone then [] else At(m, a)
  {
    DropKeepsExact(m, gone, u, u', DropLists(m, gone));
  }

  lemma DropKeepsExact<A(!new), B(!new)>(m: Lists<A, B>, gone: set<A>, u: set<B>, u': set<B>, n: Lists<A, B>)
    requires Exact(m, u)
    requires u' <= u
    requires forall a, b :: b in At(m, a) ==> (a in gone <==> b !in u')
    requires forall a :: At(n, a) == if a in gone then [] else At(m, a)
    ensures Exact(n, u')
  {
    var home: map<B, A>, pos: map<B, nat> :| Directory(m, home, pos);
    forall a, k | 0 <= k < |At(n, a)|
      ensures At(n, a)[k] in u'
      ensures At(n, a)[k] in home && home[At(n, a)[k]] == a && At(n, a)[k] in pos && pos[At(n, a)[k]] == k
    {
      assert At(m, a)[k] in At(m, a);
    }
    assert Directory(n, home, pos);
    forall b | b in u'
      ensures exists a :: b in At(n, a)
    {
      var a :| b in At(m, a);
      assert b in At(n, a);
    }
  }
}
