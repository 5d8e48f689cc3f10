/** What the trace gets: the consequences of the buffer protocol's invariant for whole runs of
    any number of writers and the drainer. */
module TraceBufferSafety {
  import opened Placement
  import opened TraceBuffers

  lemma {:induction false} RunKeepsInv(r: seq<State>)
    requires Run(r)
    ensures Inv(r[|r| - 1])
  {
    var last := |r| - 1;
    if last == 0 {
      InitInv(r[0]);
    } else {
      assert Run(r[..last]);
      RunKeepsInv(r[..last]);
      assert Next(r[last - 1], r[last]);
      var a :| Enabled(r[last - 1], a) && r[last] == Apply(r[last - 1], a);
      StepKeepsInv(r[last - 1], a);
    }
  }

  lemma InitInv(s: State)
    requires Init(s)
    ensures Inv(s)
  {
    assert forall a :: L(s, a) == [];
    var home: map<nat, Anchor>, pos: map<nat, nat> := map[], map[];
    assert Directory(s.at, home, pos);
  }

  ghost predicate Reachable(s: State) {
    exists r :: Run(r) && r[|r| - 1] == s
  }

  lemma ReachableInv(s: State)
    requires Reachable(s)
    ensures Inv(s)
  {
    var r :| Run(r) && r[|r| - 1] == s;
    RunKeepsInv(r);
  }

  // ---------------------------------------------------------------- only the oldest buffer is read

  /** The drainer has taken nothing yet from the buffers of a chain but the oldest. */
  ghost predicate NewerUnread(bufs: map<nat, Buffer>, chain: seq<nat>) {
    forall i :: 0 <= i < |chain| - 1 ==> chain[i] in bufs && bufs[chain[i]].reaped == 0
  }

  ghost predicate AllUnread(s: State) {
    forall t :: NewerUnread(s.bufs, L(s, Chain(t)))
  }

  /** A buffer that is not among the newer ones of the chain can change. */
  lemma UnreadBut(bufs: map<nat, Buffer>, bufs': map<nat, Buffer>, chain: seq<nat>, b: nat)
    requires NewerUnread(bufs, chain)
    requires forall c :: c in bufs && c != b ==> c in bufs' && bufs'[c] == bufs[c]
    requires forall i :: 0 <= i < |chain| - 1 ==> chain[i] != b
    ensures NewerUnread(bufs', chain)
  {
  }

  lemma UnreadAttached(bufs: map<nat, Buffer>, bufs': map<nat, Buffer>, chain: seq<nat>, b: nat)
    requires NewerUnread(bufs, chain) && b !in chain
    requires b in bufs' && bufs'[b].reaped == 0 && bufs' == bufs[b := bufs'[b]]
    requires forall i :: 0 <= i < |chain| ==> chain[i] in bufs
    ensures NewerUnread(bufs', chain)
    ensures NewerUnread(bufs', [b] + chain)
  {
    forall i | 0 <= i < |chain|
      ensures ([b] + chain)[i] in bufs' && bufs'[([b] + chain)[i]].reaped == 0
    {
      assert i > 0 ==> ([b] + chain)[i] == chain[i - 1];
    }
  }

  lemma AttachKeepsUnread(s: State, t: nat, step: WriterStep, x: nat)
    requires Inv(s) && WriterEnabled(s, t, step) && (step.Publish? || step.Link?)
    requires NewerUnread(s.bufs, L(s, Chain(x)))
    ensures NewerUnread(WriterApply(s, t, step).bufs, L(WriterApply(s, t, step), Chain(x)))
  {
    var s', b := WriterApply(s, t, step), L(s, Taken(t))[0];
    assert ChainOk(s, x) && L(s, Taken(t)) == [b] by { assert ThreadOk(s, t) && ThreadOk(s, x); }
    Elsewhere(s, Taken(t), b);
    AttachLists(s, s', t, b);
    UnreadAttached(s.bufs, s'.bufs, L(s, Chain(x)), b);
  }

  lemma WriterKeepsUnread(s: State, t: nat, step: WriterStep, x: nat)
    requires Inv(s) && WriterEnabled(s, t, step) && NewerUnread(s.bufs, L(s, Chain(x)))
    ensures NewerUnread(WriterApply(s, t, step).bufs, L(WriterApply(s, t, step), Chain(x)))
  {
    if step.Publish? || step.Link? {
      AttachKeepsUnread(s, t, step, x);
    } else {
      var s' := WriterApply(s, t, step);
      assert L(s', Chain(x)) == L(s, Chain(x));
      assert forall c :: c in s.bufs ==> c in s'.bufs && s'.bufs[c].reaped == s.bufs[c].reaped;
    }
  }

  lemma LoadKeepsUnread(s: State, x: nat)
    requires Inv(s) && DrainEnabled(s, LoadCommitted) && NewerUnread(s.bufs, L(s, Chain(x)))
    ensures NewerUnread(DrainApply(s, LoadCommitted).bufs, L(DrainApply(s, LoadCommitted), Chain(x)))
  {
    var s', t, b, chain := DrainApply(s, LoadCommitted), s.todo[0], Oldest(s, s.todo[0]), L(s, Chain(x));
    Elsewhere(s, Chain(t), b);
    NoRepeats(s, Chain(t));
    if x == t { assert forall i :: 0 <= i < |chain| - 1 ==> chain[i] != chain[|chain| - 1]; }
    UnreadBut(s.bufs, s'.bufs, chain, b);
  }

  /** The drainer's other steps change no buffer and only cut chains from the old end. */
  lemma EtxCutsChain(s: State, x: nat)
    requires DrainEnabled(s, LoadEtx)
    ensures DrainApply(s, LoadEtx).bufs == s.bufs
    ensures L(DrainApply(s, LoadEtx), Chain(x)) <= L(s, Chain(x))
  {
    var t := s.todo[0];
    var chain := L(s, Chain(t));
    CutLast(chain);
  }

  lemma CutLast(chain: seq<nat>)
    requires chain != []
    ensures chain[..|chain| - 1] + chain[|chain|..] == chain[..|chain| - 1]
  {
  }

  lemma DrainCutsChain(s: State, step: DrainStep, x: nat)
    requires DrainEnabled(s, step) && step != LoadCommitted
    ensures DrainApply(s, step).bufs == s.bufs && L(DrainApply(s, step), Chain(x)) <= L(s, Chain(x))
  {
    if step == LoadEtx {
      EtxCutsChain(s, x);
    } else {
      assert L(DrainApply(s, step), Chain(x)) == L(s, Chain(x));
    }
  }

  lemma UnreadCut(bufs: map<nat, Buffer>, chain: seq<nat>, chain': seq<nat>)
    requires NewerUnread(bufs, chain) && chain' <= chain
    ensures NewerUnread(bufs, chain')
  {
  }

  lemma DrainKeepsUnread(s: State, step: DrainStep, x: nat)
    requires Inv(s) && DrainEnabled(s, step) && NewerUnread(s.bufs, L(s, Chain(x)))
    ensures NewerUnread(DrainApply(s, step).bufs, L(DrainApply(s, step), Chain(x)))
  {
    if step == LoadCommitted {
      LoadKeepsUnread(s, x);
    } else {
      DrainCutsChain(s, step, x);
      UnreadCut(s.bufs, L(s, Chain(x)), L(DrainApply(s, step), Chain(x)));
    }
  }

  lemma {:induction false} RunKeepsUnread(r: seq<State>)
    requires Run(r)
    ensures AllUnread(r[|r| - 1])
  {
    var last := |r| - 1;
    if last > 0 {
      assert Run(r[..last]);
      RunKeepsUnread(r[..last]);
      RunKeepsInv(r[..last]);
      assert Next(r[last - 1], r[last]);
      var a :| Enabled(r[last - 1], a) && r[last] == Apply(r[last - 1], a);
      forall t
        ensures NewerUnread(r[last].bufs, L(r[last], Chain(t)))
      {
        match a
        case ByWriter(w, step) => WriterKeepsUnread(r[last - 1], w, step, t);
        case ByDrainer(step) => DrainKeepsUnread(r[last - 1], step, t);
      }
    }
  }

  // ---------------------------------------------------------------- what has been sent

  /** How many bytes of a chain come at or after the first that is not committed, in the order
      they were written: what was committed behind that byte does not count. */
  ghost function Behind(bufs: map<nat, Buffer>, chain: seq<nat>): nat {
    if chain == [] then 0
    else if chain[0] !in bufs then Behind(bufs, chain[1..])
    else
      var older, u := Behind(bufs, chain[1..]), bufs[chain[0]];
      if older > 0 then older + |u.data| else if u.committed <= |u.data| then |u.data| - u.committed else 0
  }

  /** What a thread has written up to the first byte that is not committed. */
  ghost function Committed(s: State, t: nat): seq<int> {
    var n := Behind(s.bufs, L(s, Chain(t)));
    if n <= |Written(s, t)| then Written(s, t)[..|Written(s, t)| - n] else []
  }

  predicate Fits(u: Buffer) {
    u.reaped <= u.committed <= |u.data|
  }

  ghost predicate AllFit(bufs: map<nat, Buffer>, chain: seq<nat>) {
    forall i :: 0 <= i < |chain| ==> chain[i] in bufs && Fits(bufs[chain[i]])
  }

  lemma ChainFits(s: State, t: nat)
    requires Protocol(s)
    ensures AllFit(s.bufs, L(s, Chain(t)))
  {
    var chain := L(s, Chain(t));
    assert ThreadOk(s, t);
    forall i | 0 <= i < |chain|
      ensures BufferOk(s, chain[i]) && chain[i] in s.bufs
    {
    }
  }

  lemma {:induction false} BehindIsLeft(bufs: map<nat, Buffer>, chain: seq<nat>)
    requires NewerUnread(bufs, chain)
    requires AllFit(bufs, chain)
    ensures Behind(bufs, chain) <= |Rest(bufs, chain)|
  {
    if chain != [] {
      BehindIsLeft(bufs, chain[1..]);
      if |chain| == 1 {
        assert Rest(bufs, chain[1..]) == [];
      }
    }
  }

  lemma PrefixOfBoth(sent: seq<int>, rest: seq<int>, written: seq<int>, n: nat)
    requires sent + rest == written && n <= |rest|
    ensures sent <= written[..|written| - n] <= written
  {
  }

  lemma SentFrom(s: State, t: nat)
    requires Protocol(s) && NewerUnread(s.bufs, L(s, Chain(t)))
    ensures Sent(s, t) <= Committed(s, t) <= Written(s, t)
    ensures Sent(s, t) + Rest(s.bufs, L(s, Chain(t))) == Written(s, t)
  {
    assert StreamOk(s, t) by { assert ThreadOk(s, t); }
    ChainFits(s, t);
    BehindIsLeft(s.bufs, L(s, Chain(t)));
    PrefixOfBoth(Sent(s, t), Rest(s.bufs, L(s, Chain(t))), Written(s, t), Behind(s.bufs, L(s, Chain(t))));
  }

  /** However writers and the drainer interleave, the bytes sent for a thread are a prefix of
      what it has committed, which is a prefix of what it has written, in order and each once;
      the rest is still in its chain. */
  lemma SentIsPrefix(s: State, t: nat)
    requires Reachable(s)
    ensures Sent(s, t) <= Committed(s, t) <= Written(s, t)
    ensures Sent(s, t) + Rest(s.bufs, L(s, Chain(t))) == Written(s, t)
  {
    var r :| Run(r) && r[|r| - 1] == s;
    RunKeepsInv(r);
    RunKeepsUnread(r);
    SentFrom(s, t);
  }

  /** Nothing is sent before it is committed. */
  lemma SentIsCommitted(s: State, b: nat)
    requires Reachable(s) && b in s.bufs
    ensures s.bufs[b].reaped <= s.bufs[b].committed <= |s.bufs[b].data|
  {
    ReachableInv(s);
    assert BufferOk(s, b);
  }

  /** A buffer goes back to the pool only when all that was written to it has been sent. */
  lemma ReturnedWhenDrained(s: State, b: nat)
    requires Reachable(s) && b in L(s, Retired)
    ensures b in s.bufs && s.bufs[b].reaped == s.bufs[b].committed == |s.bufs[b].data|
  {
    ReachableInv(s);
    assert RetiredOk(s, b) && BufferOk(s, b);
  }

  /** Every buffer is in exactly one place: the pool, the hands of a thread that has just taken
      it, one thread's chain, or the drainer's list of retired ones. */
  lemma OneHome(s: State, b: nat) returns (a: Anchor, i: nat)
    requires Reachable(s) && b in s.bufs
    ensures i < |L(s, a)| && L(s, a)[i] == b
    ensures forall a', i' :: 0 <= i' < |L(s, a')| && L(s, a')[i'] == b ==> a' == a && i' == i
  {
    ReachableInv(s);
    a, i := OnePlace(s.at, s.bufs.Keys, b);
  }

  /** When a thread that has ended has no chain left, everything it wrote has been sent. */
  lemma EndedIsComplete(s: State, t: nat)
    requires Reachable(s) && L(s, Chain(t)) == []
    ensures Sent(s, t) == Written(s, t)
    ensures t in s.writers ==> s.writers[t] == Ended
  {
    ReachableInv(s);
    assert ThreadOk(s, t);
  }

  /** No thread is lost: as long as it has a chain, it is on one of the lists, once. */
  lemma NoThreadLost(s: State, t: nat)
    requires Reachable(s) && L(s, Chain(t)) != []
    ensures t in s.started + s.todo + s.active
    ensures multiset(s.started + s.todo + s.active)[t] == 1
  {
    ReachableInv(s);
    assert ListedOk(s, t);
  }
}
