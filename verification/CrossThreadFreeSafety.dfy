/** What the cross-thread free protocol guarantees in every reachable state: the
    consequences of the invariant for whole runs of any number of threads. */
module CrossThreadFreeSafety {
  import opened Options
  import opened Placement
  import opened CrossThreadFree

  /** Some run ends in `s`. */
  ghost predicate Reachable(s: State) {
    exists r :: Run(r) && r[|r| - 1] == s
  }

  lemma InitInv(s: State)
    requires Init(s)
    ensures Inv(s)
  {
    assert forall a :: L(s, a) == [];
    var home: map<Block, Anchor>, pos: map<Block, nat> := map[], map[];
    assert Directory(s.at, home, pos);
    assert Blocks(s) == {};
  }

  lemma {:induction false} RunKeepsInv(r: seq<State>)
    requires Run(r)
    ensures Inv(r[|r| - 1])
  {
    var last := |r| - 1;
    if last == 0 {
      InitInv(r[0]);
    } else {
      assert Run(r[..last]);
      RunKeepsInv(r[..last]);
      assert Next(r[last - 1], r[last]);
      var a :| Step(r[last - 1], a, r[last]);
      StepKeepsInv(r[last - 1], a);
    }
  }

  lemma ReachableInv(s: State)
    requires Reachable(s)
    ensures Inv(s)
  {
    var r :| Run(r) && r[|r| - 1] == s;
    RunKeepsInv(r);
  }

  // ---------------------------------------------------------------- pages that take no delayed frees

  /** A page marked Never has been abandoned, belongs to a heap that its thread is leaving, or
      is just being reclaimed. */
  ghost predicate NeverOk(s: State, p: nat) {
    p in s.pages && s.pages[p].flag == Never && s.pages[p].heap.Some? ==>
      || (p in s.reclaiming && s.reclaiming[p] == HeapSet)
      || Leaving(s, s.pages[p].heap.value)
  }

  predicate Leaving(s: State, h: nat) {
    h in s.heaps && s.heaps[h].mode in {Marking, AbandonDraining, Abandoning}
  }

  ghost predicate AllNeverOk(s: State) {
    forall p :: NeverOk(s, p)
  }

  lemma FreerKeepsNever(s: State, t: nat, step: FreerStep, p: nat)
    requires NeverOk(s, p) && FreerEnabled(s, t, step)
    ensures NeverOk(FreerApply(s, t, step), p)
  {
    SameHeapsFreer(s, t, step);
  }

  lemma PageKeepsNever(s: State, q: nat, step: PageStep, p: nat)
    requires NeverOk(s, p) && PageEnabled(s, q, step)
    ensures NeverOk(PageApply(s, q, step), p)
  {
    SameHeapsPage(s, q, step);
  }

  lemma PassKeepsNever(s: State, h: nat, step: PassStep, p: nat)
    requires NeverOk(s, p) && PassEnabled(s, h, step) && !s.fault && PageOk(s, p)
    ensures NeverOk(PassApply(s, h, step), p)
  {
  }

  lemma HeapKeepsNever(s: State, h: nat, step: HeapStep, p: nat)
    requires NeverOk(s, p) && HeapEnabled(s, h, step) && PageOk(s, p) && ReclaimOk(s, p)
    ensures NeverOk(HeapApply(s, h, step), p)
  {
  }

  lemma ReclaimKeepsNever(s: State, q: nat, step: ReclaimStep, p: nat)
    requires NeverOk(s, p) && ReclaimEnabled(s, q, step) && PageOk(s, p) && ReclaimOk(s, p)
    ensures NeverOk(ReclaimApply(s, q, step), p)
  {
  }

  lemma StepKeepsNever(s: State, a: Action)
    requires Inv(s) && AllNeverOk(s) && Enabled(s, a)
    ensures AllNeverOk(Apply(s, a))
  {
    forall p ensures NeverOk(Apply(s, a), p) {
      assert NeverOk(s, p) && PageOk(s, p) && ReclaimOk(s, p);
      match a
      case ByFreer(t, step) => FreerKeepsNever(s, t, step, p);
      case OnPage(q, step) => PageKeepsNever(s, q, step, p);
      case InHeapPass(h, step) => PassKeepsNever(s, h, step, p);
      case OnHeap(h, step) => HeapKeepsNever(s, h, step, p);
      case OnReclaim(q, step) => ReclaimKeepsNever(s, q, step, p);
    }
  }

  lemma {:induction false} RunKeepsNever(r: seq<State>)
    requires Run(r)
    ensures AllNeverOk(r[|r| - 1])
  {
    var last := |r| - 1;
    if last > 0 {
      assert Run(r[..last]);
      RunKeepsNever(r[..last]);
      RunKeepsInv(r[..last]);
      assert Next(r[last - 1], r[last]);
      var a :| Step(r[last - 1], a, r[last]);
      StepKeepsNever(r[last - 1], a);
    }
  }

  // ---------------------------------------------------------------- what follows

  /** No interleaving touches a page or heap that is gone, abandons a page that still takes
      delayed frees, or resets a flag that is not Freeing. */
  lemma NeverFaults(s: State)
    requires Reachable(s)
    ensures !s.fault
  {
    ReachableInv(s);
  }

  /** Every block below its page's capacity is in exactly one place, at one position, and
      that place is never `Lost`; nothing else is anywhere. */
  lemma OneHome(s: State, b: Block) returns (a: Anchor, i: nat)
    requires Reachable(s) && b.page in s.pages && b.index < s.pages[b.page].capacity
    ensures a != Lost && i < |L(s, a)| && L(s, a)[i] == b
    ensures forall a', i' :: 0 <= i' < |L(s, a')| && L(s, a')[i'] == b ==> a' == a && i' == i
    ensures (a.Free? || a.LocalFree? || a.ThreadFree?) ==> a.page == b.page
  {
    ReachableInv(s);
    a, i := PlaceOf(s, b);
    Home(s, a, b);
  }

  lemma PlaceOf(s: State, b: Block) returns (a: Anchor, i: nat)
    requires Placed(s) && b.page in s.pages && b.index < s.pages[b.page].capacity
    ensures i < |L(s, a)| && L(s, a)[i] == b && b in L(s, a)
    ensures forall a', i' :: 0 <= i' < |L(s, a')| && L(s, a')[i'] == b ==> a' == a && i' == i
  {
    a, i := OnePlace(s.at, Blocks(s), b);
  }

  lemma Home(s: State, a: Anchor, b: Block)
    requires Placed(s) && b in L(s, a)
    ensures a != Lost && ((a.Free? || a.LocalFree? || a.ThreadFree?) ==> a.page == b.page)
  {
  }

  lemma NothingElse(s: State, a: Anchor, b: Block)
    requires Reachable(s) && b in L(s, a)
    ensures b.page in s.pages && b.index < s.pages[b.page].capacity && a != Lost
  {
    ReachableInv(s);
    ElementIn(s, a, b);
  }

  /** The counting law; a page with `used == 0` has every block on its own free lists, so no
      freer can have it Freeing and it is safe to give it back. */
  lemma UnusedPageIsWhole(s: State, p: nat)
    requires Reachable(s) && p in s.pages
    ensures s.pages[p].used + |L(s, Free(p))| + |L(s, LocalFree(p))| == s.pages[p].capacity
    ensures s.pages[p].used >= 0
    ensures s.pages[p].used == 0 ==>
      && (forall a, b :: b in L(s, a) && b.page == p ==> a == Free(p) || a == LocalFree(p))
      && s.pages[p].flag != Freeing && s.pages[p].flag != NoDelayed
      && L(s, ThreadFree(p)) == []
      && (forall t :: t in s.freers ==> s.freers[t].page != p)
  {
    ReachableInv(s);
    assert PageOk(s, p);
    HomeFits(s, p);
    if s.pages[p].used == 0 {
      AllHome(s, p);
      NoneAway(s, p);
    }
  }

  lemma HomeFits(s: State, p: nat)
    requires Placed(s) && p in s.pages
    ensures |L(s, Free(p))| + |L(s, LocalFree(p))| <= s.pages[p].capacity
  {
    var home := L(s, Free(p)) + L(s, LocalFree(p));
    JoinDistinct(s.at, Blocks(s), Free(p), LocalFree(p));
    forall b | b in home ensures b in Blocks(s) && b.page == p {
      assert b in L(s, Free(p)) || b in L(s, LocalFree(p));
      HomeOf(s, p, b);
    }
    ListFits(s, p, home);
  }

  lemma HomeOf(s: State, p: nat, b: Block)
    requires Placed(s) && (b in L(s, Free(p)) || b in L(s, LocalFree(p)))
    ensures b in Blocks(s) && b.page == p
  {
    var a := if b in L(s, Free(p)) then Free(p) else LocalFree(p);
    Home(s, a, b);
    ElementIn(s, a, b);
  }

  lemma NoneAway(s: State, p: nat)
    requires Placed(s) && Protocol(s) && p in s.pages
    requires forall a, b :: b in L(s, a) && b.page == p ==> a == Free(p) || a == LocalFree(p)
    ensures s.pages[p].flag != Freeing && s.pages[p].flag != NoDelayed && L(s, ThreadFree(p)) == []
    ensures forall t :: t in s.freers ==> s.freers[t].page != p
  {
    forall b ensures b !in L(s, ThreadFree(p)) {
      if b in L(s, ThreadFree(p)) { Home(s, ThreadFree(p), b); }
    }
    NoBlocks(L(s, ThreadFree(p)));
    forall t | t in s.freers
      ensures s.freers[t].page != p
    {
      var a, b := FreerHoldsBlock(s, t);
    }
    assert PageOk(s, p);
    assert Busy(s, p) ==> exists t :: Critical(s, t, p);
    assert Waits(s, p) ==> exists a, b: Block :: Waiting(s, a) && b in L(s, a) && b.page == p;
  }

  /** A remote free in progress has a block of its page somewhere off the free lists. */
  lemma FreerHoldsBlock(s: State, t: nat) returns (a: Anchor, b: Block)
    requires Inv(s) && t in s.freers
    ensures b in L(s, a) && b.page == s.freers[t].page && !a.Free? && !a.LocalFree?
  {
    assert FreerOk(s, t);
    if s.freers[t].Pushed? {
      a, b :| Waiting(s, a) && b in L(s, a) && b.page == s.freers[t].page;
    } else {
      a, b := Freer(t), L(s, Freer(t))[0];
    }
  }

  /** The heap that owns the page, or one that has been absorbed and will be drained. */
  predicate Reaches(s: State, h: nat, p: nat) {
    && h in s.heaps && p in s.pages
    && (s.pages[p].heap == Some(h) || s.heaps[h].mode.Absorbed? || s.heaps[h].mode.Draining?)
  }

  /** A block of the page is on the delayed list of a heap that reaches the page, in the chain
      that a pass of such a heap has taken, or about to go back on the list. */
  ghost predicate OnItsWay(s: State, p: nat) {
    exists a, b: Block :: Waiting(s, a) && b in L(s, a) && b.page == p && Reaches(s, a.heap, p)
  }

  /** A freer carries a block of the page to its heap: the one it has read reaches the page, and
      the one it is about to read exists. */
  ghost predicate Approaching(s: State, p: nat) {
    exists t :: t in s.freers && s.freers[t].page == p &&
      match s.freers[t]
      case Claimed(_) => p in s.pages && s.pages[p].heap.Some? && Reaches(s, s.pages[p].heap.value, p)
      case HasHeap(_, h) => Reaches(s, h, p)
      case _ => false
  }

  lemma WaitsOnItsWay(s: State, p: nat)
    requires Inv(s) && Waits(s, p)
    ensures OnItsWay(s, p)
  {
    var a, b: Block :| Waiting(s, a) && b in L(s, a) && b.page == p;
    assert HeapOk(s, a.heap);
    ElementIn(s, a, b);
    assert Reaches(s, a.heap, p);
  }

  lemma CarriedApproaches(s: State, p: nat)
    requires Inv(s) && Carried(s, p)
    ensures Approaching(s, p)
  {
    var t :| Critical(s, t, p) && !s.freers[t].Pushed?;
    assert FreerOk(s, t) && PageOk(s, p);
  }

  /** No freed block is stranded.  A page that is Freeing or NoDelayed has a block on its way
      to the owner: on the delayed list of the heap that owns the page or of one that will be
      drained, in a chain a pass has taken from there, being reinserted, or in the hands of the
      freer that claimed the page.  A page with remote frees pending (and not Never) has such a
      block, or its owner is about to collect.  A page is marked Never only when it is
      abandoned, is about to be, or is just being reclaimed. */
  lemma NoneStranded(s: State, p: nat)
    requires Reachable(s) && p in s.pages
    ensures s.pages[p].flag in {Freeing, NoDelayed} ==> OnItsWay(s, p) || Approaching(s, p)
    ensures s.pages[p].flag != Never && L(s, ThreadFree(p)) != [] ==>
      OnItsWay(s, p) || Approaching(s, p) || Collecting(s, p)
    ensures s.pages[p].flag == Never ==>
      s.pages[p].heap == None || Leaving(s, s.pages[p].heap.value) || (p in s.reclaiming && s.reclaiming[p] == HeapSet)
  {
    var r :| Run(r) && r[|r| - 1] == s;
    RunKeepsNever(r);
    assert NeverOk(s, p);
    ReachableInv(s);
    assert PageOk(s, p);
    if s.pages[p].flag == Freeing {
      var t :| Critical(s, t, p);
      assert FreerOk(s, t);
    }
    if Waits(s, p) { WaitsOnItsWay(s, p); }
    if Carried(s, p) { CarriedApproaches(s, p); }
  }

  /** While one freer is between its two flag updates, every other freer of the page takes the
      ordinary path, and the heap it read cannot be deleted or reused. */
  lemma FreeingPushesOnLiveHeap(s: State, t: nat)
    requires Reachable(s) && t in s.freers && s.freers[t].HasHeap?
    ensures forall u :: u in s.freers && u != t && !s.freers[u].Entered? ==> s.freers[u].page != s.freers[t].page
    ensures OnLiveHeap(s, s.freers[t].page, s.freers[t].heap)
  {
    ReachableInv(s);
    var p := s.freers[t].page;
    assert Critical(s, t, p);
    forall u | u in s.freers && u != t && !s.freers[u].Entered?
      ensures s.freers[u].page != p
    {
      assert s.freers[u].page == p ==> Critical(s, u, p);
    }
    LiveHeap(s, t, p, s.freers[t].heap);
  }

  predicate OnLiveHeap(s: State, p: nat, h: nat) {
    && p in s.pages && s.pages[p].flag == Freeing
    && h in s.heaps
    && (s.heaps[h].mode.Running? || s.heaps[h].mode.Absorbed? || s.heaps[h].mode.Marking?)
  }

  lemma LiveHeap(s: State, t: nat, p: nat, h: nat)
    requires FreerOk(s, t) && PageOk(s, p)
    requires t in s.freers && s.freers[t] == HasHeap(p, h)
    ensures OnLiveHeap(s, p, h)
  {
    assert Critical(s, t, p);
  }

  /** A heap that has been absorbed, or abandoned, and drained. */
  predicate Retired(s: State, h: nat) {
    h in s.heaps && s.heaps[h].mode in {Drained, Abandoning}
  }

  /** No push can reach a retired heap: its list is empty, no freer has read it, no freer in
      the Freeing state can read it, and no page that takes delayed frees points to it. */
  lemma RetiredUnreachable(s: State, h: nat)
    requires Reachable(s) && Retired(s, h)
    ensures L(s, DelayedList(h)) == [] && L(s, Taken(h)) == [] && L(s, Current(h)) == []
    ensures forall t :: t in s.freers && s.freers[t].HasHeap? ==> s.freers[t].heap != h
    ensures forall t :: t in s.freers && s.freers[t].Claimed? ==>
      s.freers[t].page in s.pages && s.pages[s.freers[t].page].heap != Some(h)
    ensures forall p :: p in s.pages && s.pages[p].heap == Some(h) ==> s.pages[p].flag == Never
  {
    ReachableInv(s);
    assert HeapOk(s, h);
    forall t | t in s.freers && s.freers[t].HasHeap?
      ensures s.freers[t].heap != h
    {
      var p := s.freers[t].page;
      assert FreerOk(s, t) && Critical(s, t, p);
      assert PageOk(s, p);
    }
    forall t | t in s.freers && s.freers[t].Claimed?
      ensures s.freers[t].page in s.pages && s.pages[s.freers[t].page].heap != Some(h)
    {
      var p := s.freers[t].page;
      assert FreerOk(s, t) && Critical(s, t, p);
      assert PageOk(s, p);
    }
    forall p | p in s.pages && s.pages[p].heap == Some(h)
      ensures s.pages[p].flag == Never
    {
      assert PageOk(s, p);
    }
  }

  lemma ReachableNext(s: State, s': State)
    requires Reachable(s) && Next(s, s')
    ensures Reachable(s')
  {
    var r :| Run(r) && r[|r| - 1] == s;
    var r', n := r + [s'], |r|;
    assert r'[0] == r[0] && r'[n] == s';
    forall k | 0 < k < |r'|
      ensures Next(r'[k - 1], r'[k])
    {
      assert r'[k - 1] == r[k - 1];
      if k < n {
        assert r'[k] == r[k];
      }
    }
    assert Run(r');
  }

  /** Retirement is final: however the run goes on, the heap stays retired, with an empty
      list, until it is dropped, and once dropped its list stays empty until the memory is
      reused for a new heap. */
  lemma RetiredForGood(s: State, s': State, h: nat)
    requires Reachable(s) && Next(s, s') && Retired(s, h)
    ensures Retired(s', h) || h !in s'.heaps
    ensures L(s', DelayedList(h)) == []
  {
    var a :| Step(s, a, s');
    ReachableInv(s);
    assert HeapOk(s, h);
    StaysRetired(s, a, h);
    ReachableNext(s, s');
    ReachableInv(s');
    assert HeapOk(s', h);
  }

  lemma StaysRetired(s: State, a: Action, h: nat)
    requires HeapOk(s, h) && Enabled(s, a) && Retired(s, h)
    ensures Retired(Apply(s, a), h) || h !in Apply(s, a).heaps
  {
    match a
    case ByFreer(t, step) => SameHeapsFreer(s, t, step);
    case OnPage(p, step) => SameHeapsPage(s, p, step);
    case InHeapPass(g, step) => RetiredThroughPass(s, g, step, h);
    case OnHeap(g, step) => RetiredThroughHeap(s, g, step, h);
    case OnReclaim(p, step) => SameHeapsReclaim(s, p, step);
  }

  lemma SameHeapsFreer(s: State, t: nat, step: FreerStep)
    requires FreerEnabled(s, t, step)
    ensures FreerApply(s, t, step).heaps == s.heaps
  {
  }

  lemma SameHeapsPage(s: State, p: nat, step: PageStep)
    requires PageEnabled(s, p, step)
    ensures PageApply(s, p, step).heaps == s.heaps
  {
  }

  lemma SameHeapsReclaim(s: State, p: nat, step: ReclaimStep)
    requires ReclaimEnabled(s, p, step)
    ensures ReclaimApply(s, p, step).heaps == s.heaps
  {
  }

  lemma RetiredThroughPass(s: State, g: nat, step: PassStep, h: nat)
    requires HeapOk(s, h) && PassEnabled(s, g, step) && Retired(s, h)
    ensures Retired(PassApply(s, g, step), h)
  {
    assert g != h;
  }

  lemma RetiredThroughHeap(s: State, g: nat, step: HeapStep, h: nat)
    requires HeapOk(s, h) && HeapEnabled(s, g, step) && Retired(s, h)
    ensures Retired(HeapApply(s, g, step), h) || h !in HeapApply(s, g, step).heaps
  {
  }

  /** A heap without pages that is dropped without being absorbed has nothing on its lists. */
  lemma DropLosesNothing(s: State, h: nat)
    requires Reachable(s) && HeapEnabled(s, h, DropHeap)
    ensures L(s, DelayedList(h)) == [] && L(s, Taken(h)) == [] && L(s, Current(h)) == []
    ensures forall a :: L(HeapApply(s, h, DropHeap), a) == L(s, a)
  {
    ReachableInv(s);
    DroppedEmpty(s, h);
    MoveAllExact(s.at, DelayedList(h), Lost, Blocks(s));
    var mid := MoveAll(s.at, DelayedList(h), Lost);
    MoveAllExact(mid, Taken(h), Lost, Blocks(s));
  }
}
