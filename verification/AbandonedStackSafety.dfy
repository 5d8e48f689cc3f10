/** What holds of the stack of abandoned segments in every reachable state. */
module AbandonedStackSafety {
  import opened Options
  import opened Placement
  import opened AbandonedStack

  lemma {:induction false} RunKeepsInv(r: seq<State>, segs: set<nat>)
    requires Run(r, segs)
    ensures Inv(r[|r| - 1], segs)
  {
    var last := |r| - 1;
    if last > 0 {
      assert Run(r[..last], segs);
      RunKeepsInv(r[..last], segs);
      assert Next(r[last - 1], r[last]);
      var a :| Enabled(r[last - 1], a) && r[last] == Apply(r[last - 1], a);
      StepKeepsInv(r[last - 1], segs, a);
    }
  }

  ghost predicate Reachable(s: State, segs: set<nat>) {
    exists r :: Run(r, segs) && r[|r| - 1] == s
  }

  lemma ReachableInv(s: State, segs: set<nat>)
    requires Reachable(s, segs)
    ensures Inv(s, segs)
  {
    var r :| Run(r, segs) && r[|r| - 1] == s;
    RunKeepsInv(r, segs);
  }

  lemma ReachablePc(s: State, segs: set<nat>, t: nat)
    requires Reachable(s, segs)
    ensures PcOk(s, t) && StacksOk(s) && !s.fault
  {
    ReachableInv(s, segs);
  }

  /** No pop ever reads the link of a segment that is back in the arena. */
  lemma NoStaleRead(s: State, segs: set<nat>, t: nat)
    requires Reachable(s, segs)
    ensures !s.fault
    ensures t in s.pcs && s.pcs[t].PopLoaded? && s.pcs[t].ptr.Some? ==> s.pcs[t].ptr.value !in L(s, Arena)
  {
    ReachablePc(s, segs, t);
  }

  lemma ReachablePlaced(s: State, segs: set<nat>)
    requires Reachable(s, segs)
    ensures Exact(s.at, segs)
  {
    ReachableInv(s, segs);
  }

  /** Segments are conserved: each is in exactly one place, once; so the stacks never run in a
      circle, and their links are what the heads lead to. */
  lemma Conserved(s: State, segs: set<nat>, x: nat) returns (a: Anchor, i: nat)
    requires Reachable(s, segs) && x in segs
    ensures i < |L(s, a)| && L(s, a)[i] == x
    ensures forall b, j :: 0 <= j < |L(s, b)| && L(s, b)[j] == x ==> b == a && j == i
    ensures a == Abandoned || a == Visited ==> NextOf(s, x) == if i + 1 < |L(s, a)| then Some(L(s, a)[i + 1]) else None
  {
    ReachablePlaced(s, segs);
    a, i := PlaceOf(s, segs, x);
    LinkedThere(s, segs, a, i);
  }

  lemma PlaceOf(s: State, segs: set<nat>, x: nat) returns (a: Anchor, i: nat)
    requires Exact(s.at, segs) && x in segs
    ensures i < |L(s, a)| && L(s, a)[i] == x
    ensures forall b, j :: 0 <= j < |L(s, b)| && L(s, b)[j] == x ==> b == a && j == i
  {
    a, i := OnePlace(s.at, segs, x);
  }

  lemma LinkedThere(s: State, segs: set<nat>, a: Anchor, i: nat)
    requires Reachable(s, segs) && i < |L(s, a)|
    ensures a == Abandoned || a == Visited ==>
      NextOf(s, L(s, a)[i]) == if i + 1 < |L(s, a)| then Some(L(s, a)[i + 1]) else None
  {
    ReachablePc(s, segs, 0);
    assert a == Abandoned || a == Visited ==> LinkOk(s, L(s, a), None, i);
  }

  lemma HeadsLead(s: State, segs: set<nat>)
    requires Reachable(s, segs)
    ensures s.head == First(L(s, Abandoned)) && s.visited == First(L(s, Visited))
  {
    ReachablePc(s, segs, 0);
  }

  /** A pop whose swap succeeds takes the segment on top and leaves exactly the rest of the
      stack, however often the segment was popped and pushed again since its link was read. */
  lemma PopTakesTop(s: State, segs: set<nat>, t: nat)
    requires Reachable(s, segs) && PopEnabled(s, t, SwapTop)
    requires s.head == Some(s.pcs[t].top) && s.tag == s.pcs[t].tag
    ensures var s' := PopApply(s, t, SwapTop);
      && L(s, Abandoned) != [] && s.pcs[t].top == L(s, Abandoned)[0]
      && L(s', Abandoned) == L(s, Abandoned)[1..] && L(s', Held(t)) == [s.pcs[t].top] + L(s, Held(t))
      && s'.head == First(L(s', Abandoned))
  {
    ReachablePc(s, segs, t);
    var q := L(s, Abandoned);
    assert q[..0] + q[0 + 1..] == q[1..];
  }

  /** A segment is returned to the arena only when no pop in progress can still read its link. */
  lemma ReturnIsSafe(s: State, segs: set<nat>, t: nat, i: nat)
    requires Reachable(s, segs) && MemoryEnabled(s, t, Return(i))
    ensures NotLoaded(s, s.pcs[t].seg)
  {
    ReachablePc(s, segs, t);
  }
}
