/** The stack of abandoned segments.

    Segments of threads that have ended wait on a lock-free stack; a segment that was looked at
    in vain waits on a second stack that is moved back as a whole.  The head of the first stack
    carries a tag that changes with every update, so that a pop that read an outdated successor
    fails; a count of pops in progress keeps a segment from being returned to the arena while
    its link may still be read.  Every step below is one atomic operation, or work on what only
    the stepping thread can reach.  Tags are unbounded. */
module AbandonedStack {
  import opened Options
  import opened Placement

  datatype Anchor = Abandoned | Visited | Grabbed(thread: nat) | Held(thread: nat) | Arena

  /** Where a thread stands in an operation on the stacks. */
  datatype Pc =
    // mi_abandoned_push, mi_abandoned_visited_push: has loaded the head, then stored the link
    | PushLoaded(seg: nat, to: Anchor, ptr: Option<nat>, tag: nat)
    | PushStored(seg: nat, to: Anchor, ptr: Option<nat>, tag: nat)
    // mi_abandoned_visited_revisit: has grabbed the visited stack; the abandoned one looked
    // empty; walks to the last segment; has loaded the head; has stored the link
    | Grabbing(first: nat)
    | Swapping(first: nat, tag: nat)
    | Walking(first: nat, last: nat)
    | JoinLoaded(first: nat, last: nat, ptr: Option<nat>, tag: nat)
    | JoinStored(first: nat, last: nat, ptr: Option<nat>, tag: nat)
    // mi_abandoned_pop: has counted itself; has loaded the head; has read the successor; is done
    | PopEntered
    | PopLoaded(ptr: Option<nat>, tag: nat)
    | PopRead(top: nat, tag: nat, succ: Option<nat>)
    | PopDone(got: Option<nat>)
    | PopLeft(popped: nat)
    // mi_segment_os_free: has seen no reader
    | FreeReady(seg: nat)

  datatype State = State(
    at: Lists<Anchor, nat>,
    next: map<nat, Option<nat>>,
    head: Option<nat>,
    tag: nat,
    visited: Option<nat>,
    readers: int,
    pcs: map<nat, Pc>,
    fault: bool)

  datatype PushStep = BeginPush(i: nat, to: Anchor) | StoreLink | SwapIn(i: nat)
  datatype JoinStep = Grab | LookEmpty | SwapAll | Walk | LoadHead | StoreTail | JoinHead
  datatype PopStep = Enter | LoadTop | ReadSuccessor | SwapTop | Leave | ClearLink
  datatype MemoryStep = SeeNoReaders(i: nat) | Return(i: nat) | Allocate(i: nat)

  datatype Action =
    | Push(t: nat, push: PushStep)
    | Join(t: nat, join: JoinStep)
    | Pop(t: nat, pop: PopStep)
    | Memory(t: nat, memory: MemoryStep)

  function L(s: State, a: Anchor): seq<nat> {
    At(s.at, a)
  }

  function NextOf(s: State, x: nat): Option<nat> {
    if x in s.next then s.next[x] else None
  }

  /** The head of the stack that a push goes to. */
  function HeadOf(s: State, to: Anchor): Option<nat> {
    if to == Abandoned then s.head else s.visited
  }

  function WithPc(s: State, t: nat, pc: Pc): State {
    s.(pcs := s.pcs[t := pc])
  }

  function Finished(s: State, t: nat): State {
    s.(pcs := s.pcs - {t})
  }

  predicate PushEnabled(s: State, t: nat, step: PushStep) {
    match step
    case BeginPush(i, to) => t !in s.pcs && i < |L(s, Held(t))| && (to == Abandoned || to == Visited)
    case StoreLink => t in s.pcs && s.pcs[t].PushLoaded?
    case SwapIn(i) =>
      && t in s.pcs && s.pcs[t].PushStored? && i < |L(s, Held(t))| && L(s, Held(t))[i] == s.pcs[t].seg
      && s.pcs[t].to != Held(t)
  }

  /** A swap that fails goes on with the head it has found instead. */
  function PushApply(s: State, t: nat, step: PushStep): State
    requires PushEnabled(s, t, step)
  {
    match step
    case BeginPush(i, to) => WithPc(s, t, PushLoaded(L(s, Held(t))[i], to, HeadOf(s, to), s.tag))
    case StoreLink =>
      var pc := s.pcs[t];
      WithPc(s, t, PushStored(pc.seg, pc.to, pc.ptr, pc.tag)).(next := s.next[pc.seg := pc.ptr])
    case SwapIn(i) =>
      var pc := s.pcs[t];
      if HeadOf(s, pc.to) != pc.ptr || (pc.to == Abandoned && s.tag != pc.tag) then
        WithPc(s, t, PushLoaded(pc.seg, pc.to, HeadOf(s, pc.to), s.tag))
      else if pc.to == Abandoned then
        Finished(s, t).(head := Some(pc.seg), tag := s.tag + 1, at := MoveAt(s.at, Held(t), i, Abandoned))
      else
        Finished(s, t).(visited := Some(pc.seg), at := MoveAt(s.at, Held(t), i, pc.to))
  }

  predicate JoinEnabled(s: State, t: nat, step: JoinStep) {
    match step
    case Grab => t !in s.pcs && s.visited.Some?
    case LookEmpty => t in s.pcs && s.pcs[t].Grabbing?
    case SwapAll => t in s.pcs && s.pcs[t].Swapping?
    case Walk => t in s.pcs && s.pcs[t].Walking?
    case LoadHead => t in s.pcs && s.pcs[t].Walking? && NextOf(s, s.pcs[t].last) == None
    case StoreTail => t in s.pcs && s.pcs[t].JoinLoaded?
    case JoinHead => t in s.pcs && s.pcs[t].JoinStored?
  }

  function JoinApply(s: State, t: nat, step: JoinStep): State
    requires JoinEnabled(s, t, step)
  {
    match step
    case Grab =>
      WithPc(s, t, Grabbing(s.visited.value)).(visited := None, at := MoveAll(s.at, Visited, Grabbed(t)))
    case LookEmpty =>
      var first := s.pcs[t].first;
      WithPc(s, t, if s.head == None then Swapping(first, s.tag) else Walking(first, first))
    case SwapAll =>
      var pc := s.pcs[t];
      if s.head != None || s.tag != pc.tag then WithPc(s, t, Walking(pc.first, pc.first))
      else Finished(s, t).(head := Some(pc.first), tag := s.tag + 1, at := MoveAll(s.at, Grabbed(t), Abandoned))
    case Walk =>
      var pc := s.pcs[t];
      (match NextOf(s, pc.last)
       case None => s
       case Some(x) => WithPc(s, t, Walking(pc.first, x)))
    case LoadHead =>
      WithPc(s, t, JoinLoaded(s.pcs[t].first, s.pcs[t].last, s.head, s.tag))
    case StoreTail =>
      var pc := s.pcs[t];
      WithPc(s, t, JoinStored(pc.first, pc.last, pc.ptr, pc.tag)).(next := s.next[pc.last := pc.ptr])
    case JoinHead =>
      var pc := s.pcs[t];
      if s.head != pc.ptr || s.tag != pc.tag then WithPc(s, t, JoinLoaded(pc.first, pc.last, s.head, s.tag))
      else Finished(s, t).(head := Some(pc.first), tag := s.tag + 1, at := MoveAll(s.at, Grabbed(t), Abandoned))
  }

  predicate PopEnabled(s: State, t: nat, step: PopStep) {
    match step
    case Enter => t !in s.pcs
    case LoadTop => t in s.pcs && s.pcs[t].PopEntered?
    case ReadSuccessor => t in s.pcs && s.pcs[t].PopLoaded?
    case SwapTop => t in s.pcs && s.pcs[t].PopRead?
    case Leave => t in s.pcs && s.pcs[t].PopDone?
    case ClearLink => t in s.pcs && s.pcs[t].PopLeft?
  }

  /** `ReadSuccessor` touches the memory of the segment, which must not be back in the arena. */
  function PopApply(s: State, t: nat, step: PopStep): State
    requires PopEnabled(s, t, step)
  {
    match step
    case Enter => WithPc(s, t, PopEntered).(readers := s.readers + 1)
    case LoadTop => WithPc(s, t, PopLoaded(s.head, s.tag))
    case ReadSuccessor =>
      (match s.pcs[t].ptr
       case None => WithPc(s, t, PopDone(None))
       case Some(x) =>
         WithPc(s, t, PopRead(x, s.pcs[t].tag, NextOf(s, x))).(fault := s.fault || x in L(s, Arena)))
    case SwapTop =>
      var pc := s.pcs[t];
      if s.head != Some(pc.top) || s.tag != pc.tag then WithPc(s, t, PopLoaded(s.head, s.tag))
      else WithPc(s, t, PopDone(Some(pc.top))).(head := pc.succ, tag := s.tag + 1,
                                                at := if L(s, Abandoned) == [] then s.at
                                                      else MoveAt(s.at, Abandoned, 0, Held(t)))
    case Leave =>
      (match s.pcs[t].got
       case None => Finished(s, t).(readers := s.readers - 1)
       case Some(x) => WithPc(s, t, PopLeft(x)).(readers := s.readers - 1))
    case ClearLink => Finished(s, t).(next := s.next[s.pcs[t].popped := None])
  }

  predicate MemoryEnabled(s: State, t: nat, step: MemoryStep) {
    match step
    case SeeNoReaders(i) => t !in s.pcs && i < |L(s, Held(t))| && s.readers == 0
    case Return(i) => t in s.pcs && s.pcs[t].FreeReady? && i < |L(s, Held(t))| && L(s, Held(t))[i] == s.pcs[t].seg
    case Allocate(i) => t !in s.pcs && i < |L(s, Arena)|
  }

  function MemoryApply(s: State, t: nat, step: MemoryStep): State
    requires MemoryEnabled(s, t, step)
  {
    match step
    case SeeNoReaders(i) => WithPc(s, t, FreeReady(L(s, Held(t))[i]))
    case Return(i) => Finished(s, t).(at := MoveAt(s.at, Held(t), i, Arena))
    case Allocate(i) => s.(at := MoveAt(s.at, Arena, i, Held(t)), next := s.next[L(s, Arena)[i] := None])
  }

  predicate Enabled(s: State, a: Action) {
    match a
    case Push(t, step) => PushEnabled(s, t, step)
    case Join(t, step) => JoinEnabled(s, t, step)
    case Pop(t, step) => PopEnabled(s, t, step)
    case Memory(t, step) => MemoryEnabled(s, t, step)
  }

  function Apply(s: State, a: Action): State
    requires Enabled(s, a)
  {
    match a
    case Push(t, step) => PushApply(s, t, step)
    case Join(t, step) => JoinApply(s, t, step)
    case Pop(t, step) => PopApply(s, t, step)
    case Memory(t, step) => MemoryApply(s, t, step)
  }

  ghost predicate Next(s: State, s': State) {
    exists a :: Enabled(s, a) && s' == Apply(s, a)
  }

  /** At first all segments are in the arena. */
  ghost predicate Init(s: State, segs: set<nat>) {
    && Exact(s.at, segs) && (forall a :: a != Arena ==> L(s, a) == [])
    && s.head == None && s.visited == None && s.readers == 0 && s.pcs == map[] && !s.fault
  }

  ghost predicate Run(r: seq<State>, segs: set<nat>) {
    && r != [] && Init(r[0], segs)
    && (forall k :: 0 < k < |r| ==> Next(r[k - 1], r[k]))
  }

  // ---------------------------------------------------------------- the invariant

  function First(q: seq<nat>): Option<nat> {
    if q == [] then None else Some(q[0])
  }

  ghost predicate LinkOk(s: State, q: seq<nat>, tail: Option<nat>, k: nat) {
    k < |q| ==> NextOf(s, q[k]) == if k + 1 < |q| then Some(q[k + 1]) else tail
  }

  /** The links run through `q` and then to `tail`. */
  ghost predicate Linked(s: State, q: seq<nat>, tail: Option<nat>) {
    forall k: nat :: LinkOk(s, q, tail, k)
  }

  ghost predicate StacksOk(s: State) {
    && s.head == First(L(s, Abandoned)) && Linked(s, L(s, Abandoned), None)
    && s.visited == First(L(s, Visited)) && Linked(s, L(s, Visited), None)
  }

  predicate Critical(pc: Pc) {
    pc.PopEntered? || pc.PopLoaded? || pc.PopRead? || pc.PopDone?
  }

  ghost predicate PcOk(s: State, t: nat) {
    if t !in s.pcs then L(s, Grabbed(t)) == [] else
    var q := L(s, Grabbed(t));
    match s.pcs[t]
    case PushLoaded(x, to, _, _) => q == [] && x in L(s, Held(t)) && (to == Abandoned || to == Visited)
    case PushStored(x, to, ptr, _) =>
      && q == [] && x in L(s, Held(t)) && (to == Abandoned || to == Visited) && NextOf(s, x) == ptr
    case Grabbing(first) => First(q) == Some(first) && Linked(s, q, None)
    case Swapping(first, _) => First(q) == Some(first) && Linked(s, q, None)
    case Walking(first, last) => First(q) == Some(first) && Linked(s, q, None) && last in q
    case JoinLoaded(first, last, ptr, _) =>
      && First(q) == Some(first) && last == q[|q| - 1] && Linked(s, q, NextOf(s, last))
    case JoinStored(first, last, ptr, _) => First(q) == Some(first) && last == q[|q| - 1] && Linked(s, q, ptr)
    case PopEntered => q == []
    case PopLoaded(ptr, tag) =>
      && q == [] && tag <= s.tag && (tag == s.tag ==> s.head == ptr)
      && (ptr.Some? ==> ptr.value !in L(s, Arena))
    case PopRead(ptr, tag, succ) =>
      q == [] && tag <= s.tag &&
        (tag == s.tag ==> L(s, Abandoned) != [] && L(s, Abandoned)[0] == ptr && succ == First(L(s, Abandoned)[1..]))
    case PopDone(got) => q == [] && (got.Some? ==> got.value in L(s, Held(t)))
    case PopLeft(got) => q == [] && got in L(s, Held(t))
    case FreeReady(x) =>
      && q == [] && x in L(s, Held(t))
      && (forall u :: u in s.pcs && s.pcs[u].PopLoaded? ==> s.pcs[u].ptr != Some(x))
  }

  ghost function Readers(pcs: map<nat, Pc>): set<nat> {
    set t | t in pcs && Critical(pcs[t])
  }

  ghost predicate Protocol(s: State) {
    && !s.fault && StacksOk(s)
    && s.readers == |Readers(s.pcs)|
    && (forall t :: PcOk(s, t))
  }

  ghost predicate Inv(s: State, segs: set<nat>) {
    Exact(s.at, segs) && Protocol(s)
  }

  // ---------------------------------------------------------------- frames

  /** Lists whose links did not change stay linked. */
  lemma StillLinked(s: State, s': State, q: seq<nat>, tail: Option<nat>)
    requires Linked(s, q, tail) && forall x :: x in q ==> NextOf(s', x) == NextOf(s, x)
    ensures Linked(s', q, tail)
  {
    forall k: nat
      ensures LinkOk(s', q, tail, k)
    {
      assert LinkOk(s, q, tail, k);
      assert k < |q| ==> q[k] in q;
    }
  }

  /** A thread whose lists and links did not change keeps its invariant. */
  lemma PcKept(s: State, s': State, t: nat)
    requires PcOk(s, t)
    requires t in s'.pcs <==> t in s.pcs
    requires t in s.pcs ==> s'.pcs[t] == s.pcs[t]
    requires L(s', Grabbed(t)) == L(s, Grabbed(t))
    requires forall x :: x in L(s, Held(t)) ==> x in L(s', Held(t))
    requires forall x :: x in L(s, Grabbed(t)) || x in L(s, Held(t)) ==> NextOf(s', x) == NextOf(s, x)
    requires TopKept(s, s')
    requires forall x :: x in L(s', Arena) && x !in L(s, Arena) ==> NotLoaded(s, x)
    requires forall u :: u in s'.pcs && s'.pcs[u].PopLoaded? ==>
      (u in s.pcs && s'.pcs[u] == s.pcs[u]) || OnStack(s, s'.pcs[u].ptr)
    requires Off(s, t)
    ensures PcOk(s', t)
  {
    if t in s.pcs {
      var q := L(s, Grabbed(t));
      match s.pcs[t] {
        case Grabbing(_) => StillLinked(s, s', q, None);
        case Swapping(_, _) => StillLinked(s, s', q, None);
        case Walking(_, _) => StillLinked(s, s', q, None);
        case JoinLoaded(_, last, _, _) => assert last in q; StillLinked(s, s', q, NextOf(s, last));
        case JoinStored(_, _, ptr, _) => StillLinked(s, s', q, ptr);
        case _ =>
      }
    }
  }

  /** The abandoned stack is as it was, or its tag has changed. */
  ghost predicate TopKept(s: State, s': State) {
    s.tag <= s'.tag && (s'.tag == s.tag ==> s'.head == s.head && L(s', Abandoned) == L(s, Abandoned))
  }

  /** No pop has loaded `x` and is still to read its link. */
  ghost predicate NotLoaded(s: State, x: nat) {
    forall u :: u in s.pcs && s.pcs[u].PopLoaded? ==> s.pcs[u].ptr != Some(x)
  }

  predicate OnStack(s: State, ptr: Option<nat>) {
    ptr.Some? ==> ptr.value in L(s, Abandoned)
  }

  /** What a thread holds is not on the abandoned stack. */
  ghost predicate Off(s: State, t: nat) {
    forall x :: x in L(s, Held(t)) ==> x !in L(s, Abandoned)
  }

  ghost predicate AllOff(s: State) {
    forall t :: Off(s, t)
  }

  lemma HeldIsOff(s: State, segs: set<nat>)
    requires Exact(s.at, segs)
    ensures AllOff(s)
  {
    forall t, x | x in L(s, Held(t))
      ensures x !in L(s, Abandoned)
    {
      if x in L(s, Abandoned) { SamePlace(s.at, segs, Held(t), Abandoned, x); }
    }
  }

  lemma ReadersSame(pcs: map<nat, Pc>, pcs': map<nat, Pc>, t: nat)
    requires forall u :: u != t ==> (u in pcs' <==> u in pcs) && (u in pcs ==> pcs'[u] == pcs[u])
    requires (t in pcs' && Critical(pcs'[t])) <==> (t in pcs && Critical(pcs[t]))
    ensures Readers(pcs') == Readers(pcs)
  {
  }

  // ---------------------------------------------------------------- steps that change only a pc

  lemma KeepPc(s: State, s': State, t: nat, pc: Pc)
    requires Protocol(s) && AllOff(s) && s' == WithPc(s, t, pc)
    requires Critical(pc) <==> t in s.pcs && Critical(s.pcs[t])
    requires pc.PopLoaded? ==> OnStack(s, pc.ptr)
    requires PcOk(s', t)
    ensures Protocol(s')
  {
    assert forall a :: L(s', a) == L(s, a);
    assert forall x :: NextOf(s', x) == NextOf(s, x);
    ReadersSame(s.pcs, s'.pcs, t);
    StillLinked(s, s', L(s, Abandoned), None);
    StillLinked(s, s', L(s, Visited), None);
    forall u
      ensures PcOk(s', u)
    {
      assert PcOk(s, u) && Off(s, u);
      if u != t { PcKept(s, s', u); }
    }
  }

  // ---------------------------------------------------------------- steps that store a link

  /** A thread stores a link of a segment that only it can reach. */
  lemma KeepLink(s: State, s': State, t: nat, x: nat, ptr: Option<nat>)
    requires Protocol(s) && AllOff(s)
    requires s' == s.(next := s.next[x := ptr], pcs := s'.pcs)
    requires forall u :: u != t ==> (u in s'.pcs <==> u in s.pcs) && (u in s.pcs ==> s'.pcs[u] == s.pcs[u])
    requires t in s.pcs && !Critical(s.pcs[t]) && (t in s'.pcs ==> !Critical(s'.pcs[t]))
    requires x !in L(s, Abandoned) && x !in L(s, Visited)
    requires forall u :: u != t ==> x !in L(s, Held(u)) && x !in L(s, Grabbed(u))
    requires PcOk(s', t)
    ensures Protocol(s')
  {
    assert forall a :: L(s', a) == L(s, a);
    assert forall y :: y != x ==> NextOf(s', y) == NextOf(s, y);
    ReadersSame(s.pcs, s'.pcs, t);
    StillLinked(s, s', L(s, Abandoned), None);
    StillLinked(s, s', L(s, Visited), None);
    forall u
      ensures PcOk(s', u)
    {
      assert PcOk(s, u) && Off(s, u);
      if u != t { PcKept(s, s', u); }
    }
  }

  // ---------------------------------------------------------------- steps that move segments

  /** All threads but the one that acts keep their invariants when segments are moved. */
  lemma OthersKept(s: State, s': State, t: nat)
    requires Protocol(s) && AllOff(s)
    requires forall u :: u != t ==> (u in s'.pcs <==> u in s.pcs) && (u in s.pcs ==> s'.pcs[u] == s.pcs[u])
    requires forall u :: u != t ==> L(s', Grabbed(u)) == L(s, Grabbed(u)) && L(s', Held(u)) == L(s, Held(u))
    requires forall u, x :: u != t && (x in L(s, Grabbed(u)) || x in L(s, Held(u))) ==> NextOf(s', x) == NextOf(s, x)
    requires TopKept(s, s')
    requires forall x :: x in L(s', Arena) && x !in L(s, Arena) ==> NotLoaded(s, x)
    requires t in s'.pcs ==> !s'.pcs[t].PopLoaded?
    ensures forall u :: u != t ==> PcOk(s', u)
  {
    forall u | u != t
      ensures PcOk(s', u)
    {
      assert PcOk(s, u) && Off(s, u);
      PcKept(s, s', u);
    }
  }

  lemma LinkedJoin(s: State, p: seq<nat>, q: seq<nat>)
    requires Linked(s, p, First(q)) && Linked(s, q, None)
    ensures Linked(s, p + q, None)
  {
    forall k: nat
      ensures LinkOk(s, p + q, None, k)
    {
      assert LinkOk(s, p, First(q), k);
      if k >= |p| { assert LinkOk(s, q, None, k - |p|); }
    }
  }

  lemma LinkedRest(s: State, q: seq<nat>)
    requires Linked(s, q, None) && q != []
    ensures Linked(s, q[1..], None) && NextOf(s, q[0]) == First(q[1..])
  {
    assert LinkOk(s, q, None, 0);
    forall k: nat
      ensures LinkOk(s, q[1..], None, k)
    {
      assert LinkOk(s, q, None, k + 1);
    }
  }

  lemma LinkedOne(s: State, x: nat, tail: Option<nat>)
    requires NextOf(s, x) == tail
    ensures Linked(s, [x], tail)
  {
  }

  /** A push puts its segment on top of the stack whose head it has stored as the link. */
  lemma KeepPush(s: State, s': State, t: nat, i: nat, x: nat, to: Anchor)
    requires Protocol(s) && AllOff(s) && t in s.pcs && s.pcs[t].PushStored? && s.pcs[t].seg == x && s.pcs[t].to == to
    requires Moved(s.at, Held(t), i, to, s'.at) && L(s, Held(t))[i] == x
    requires HeadOf(s, to) == s.pcs[t].ptr
    requires s' == Finished(s, t).(at := s'.at, head := s'.head, tag := s'.tag, visited := s'.visited)
    requires to == Abandoned ==> s'.head == Some(x) && s'.tag == s.tag + 1 && s'.visited == s.visited
    requires to == Visited ==> s'.visited == Some(x) && s'.tag == s.tag && s'.head == s.head
    ensures Protocol(s')
  {
    assert PcOk(s, t);
    assert forall y :: NextOf(s', y) == NextOf(s, y);
    StillLinked(s, s', L(s, Abandoned), None);
    StillLinked(s, s', L(s, Visited), None);
    LinkedOne(s', x, First(L(s, to)));
    LinkedJoin(s', [x], L(s, to));
    ReadersSame(s.pcs, s'.pcs, t);
    OthersKept(s, s', t);
  }

  /** The whole visited stack is taken. */
  lemma KeepGrab(s: State, s': State, t: nat)
    requires Protocol(s) && AllOff(s) && t !in s.pcs && s.visited.Some?
    requires Spliced(s.at, Visited, Grabbed(t), s'.at)
    requires s' == WithPc(s, t, Grabbing(s.visited.value)).(visited := None, at := s'.at)
    ensures Protocol(s')
  {
    assert PcOk(s, t);
    assert forall y :: NextOf(s', y) == NextOf(s, y);
    assert L(s, Visited) + [] == L(s, Visited);
    StillLinked(s, s', L(s, Abandoned), None);
    StillLinked(s, s', L(s, Visited), None);
    ReadersSame(s.pcs, s'.pcs, t);
    OthersKept(s, s', t);
  }

  /** The grabbed chain becomes the front of the abandoned stack. */
  lemma KeepJoin(s: State, s': State, t: nat)
    requires Protocol(s) && AllOff(s) && t in s.pcs
    requires (s.pcs[t].Swapping? && s.head == None) || (s.pcs[t].JoinStored? && s.head == s.pcs[t].ptr)
    requires Spliced(s.at, Grabbed(t), Abandoned, s'.at)
    requires s' == Finished(s, t).(head := Some(s.pcs[t].first), tag := s.tag + 1, at := s'.at)
    ensures Protocol(s')
  {
    assert PcOk(s, t);
    assert forall y :: NextOf(s', y) == NextOf(s, y);
    StillLinked(s, s', L(s, Abandoned), None);
    StillLinked(s, s', L(s, Visited), None);
    StillLinked(s, s', L(s, Grabbed(t)), s.head);
    LinkedJoin(s', L(s, Grabbed(t)), L(s, Abandoned));
    ReadersSame(s.pcs, s'.pcs, t);
    OthersKept(s, s', t);
  }

  /** A pop that succeeds installs the true successor: the tag has not changed since the head
      was loaded, so the stack has not either. */
  lemma KeepPop(s: State, s': State, t: nat)
    requires Protocol(s) && AllOff(s) && t in s.pcs && s.pcs[t].PopRead?
    requires s.head == Some(s.pcs[t].top) && s.tag == s.pcs[t].tag && L(s, Abandoned) != []
    requires Moved(s.at, Abandoned, 0, Held(t), s'.at)
    requires s' == WithPc(s, t, PopDone(Some(s.pcs[t].top))).(head := s.pcs[t].succ, tag := s.tag + 1, at := s'.at)
    ensures Protocol(s')
  {
    assert PcOk(s, t);
    assert forall y :: NextOf(s', y) == NextOf(s, y);
    var q := L(s, Abandoned);
    LinkedRest(s, q);
    assert q[..0] + q[0 + 1..] == q[1..];
    StillLinked(s, s', q[1..], None);
    StillLinked(s, s', L(s, Visited), None);
    ReadersSame(s.pcs, s'.pcs, t);
    OthersKept(s, s', t);
  }

  /** A segment nobody is reading goes back to the arena. */
  lemma KeepReturn(s: State, s': State, t: nat, i: nat)
    requires Protocol(s) && AllOff(s) && t in s.pcs && s.pcs[t].FreeReady?
    requires Moved(s.at, Held(t), i, Arena, s'.at) && L(s, Held(t))[i] == s.pcs[t].seg
    requires s' == Finished(s, t).(at := s'.at)
    ensures Protocol(s')
  {
    assert PcOk(s, t);
    assert forall y :: NextOf(s', y) == NextOf(s, y);
    StillLinked(s, s', L(s, Abandoned), None);
    StillLinked(s, s', L(s, Visited), None);
    ReadersSame(s.pcs, s'.pcs, t);
    OthersKept(s, s', t);
  }

  lemma KeepAllocate(s: State, s': State, t: nat, i: nat, x: nat)
    requires Protocol(s) && AllOff(s) && t !in s.pcs
    requires Moved(s.at, Arena, i, Held(t), s'.at) && L(s, Arena)[i] == x
    requires x !in L(s, Abandoned) && x !in L(s, Visited)
    requires forall u :: x !in L(s, Held(u)) && x !in L(s, Grabbed(u))
    requires s' == s.(at := s'.at, next := s.next[x := None])
    ensures Protocol(s')
  {
    assert PcOk(s, t);
    assert forall y :: y != x ==> NextOf(s', y) == NextOf(s, y);
    StillLinked(s, s', L(s, Abandoned), None);
    StillLinked(s, s', L(s, Visited), None);
    FewerInArena(s, s', i);
    forall u
      ensures PcOk(s', u)
    {
      assert PcOk(s, u) && Off(s, u);
      if u != t { PcKept(s, s', u); }
    }
  }

  lemma FewerInArena(s: State, s': State, i: nat)
    requires i < |L(s, Arena)| && L(s', Arena) == L(s, Arena)[..i] + L(s, Arena)[i + 1..]
    ensures forall x :: x in L(s', Arena) ==> x in L(s, Arena)
  {
  }

  /** Beginning or ending a pop changes the number of readers. */
  lemma KeepEnter(s: State, s': State, t: nat)
    requires Protocol(s) && AllOff(s) && t !in s.pcs
    requires s' == WithPc(s, t, PopEntered).(readers := s.readers + 1)
    ensures Protocol(s')
  {
    assert forall a :: L(s', a) == L(s, a);
    assert forall x :: NextOf(s', x) == NextOf(s, x);
    assert Readers(s'.pcs) == Readers(s.pcs) + {t};
    StillLinked(s, s', L(s, Abandoned), None);
    StillLinked(s, s', L(s, Visited), None);
    assert PcOk(s, t);
    OthersKept(s, s', t);
  }

  lemma KeepLeave(s: State, s': State, t: nat)
    requires Protocol(s) && AllOff(s) && t in s.pcs && s.pcs[t].PopDone?
    requires s' == s.(pcs := s'.pcs, readers := s.readers - 1)
    requires s'.pcs == if s.pcs[t].got == None then s.pcs - {t} else s.pcs[t := PopLeft(s.pcs[t].got.value)]
    ensures Protocol(s')
  {
    assert forall a :: L(s', a) == L(s, a);
    assert forall x :: NextOf(s', x) == NextOf(s, x);
    assert Readers(s'.pcs) == Readers(s.pcs) - {t} && t in Readers(s.pcs);
    StillLinked(s, s', L(s, Abandoned), None);
    StillLinked(s, s', L(s, Visited), None);
    assert PcOk(s, t);
    OthersKept(s, s', t);
  }

  // ---------------------------------------------------------------- every step, every run

  /** A segment in one place is in no other. */
  lemma OnlyThere(s: State, segs: set<nat>, a: Anchor, x: nat)
    requires Exact(s.at, segs) && x in L(s, a)
    ensures forall b :: b != a ==> x !in L(s, b)
  {
    forall b | b != a
      ensures x !in L(s, b)
    {
      if x in L(s, b) { SamePlace(s.at, segs, a, b, x); }
    }
  }

  lemma PushKeepsInv(s: State, segs: set<nat>, t: nat, step: PushStep)
    requires Inv(s, segs) && PushEnabled(s, t, step)
    ensures Inv(PushApply(s, t, step), segs)
  {
    var s' := PushApply(s, t, step);
    HeldIsOff(s, segs);
    assert PcOk(s, t);
    match step
    case BeginPush(i, to) =>
      KeepPc(s, s', t, s'.pcs[t]);
    case StoreLink =>
      OnlyThere(s, segs, Held(t), s.pcs[t].seg);
      KeepLink(s, s', t, s.pcs[t].seg, s.pcs[t].ptr);
    case SwapIn(i) =>
      var pc := s.pcs[t];
      if HeadOf(s, pc.to) != pc.ptr || (pc.to == Abandoned && s.tag != pc.tag) {
        KeepPc(s, s', t, s'.pcs[t]);
      } else {
        MoveAtExact(s.at, Held(t), i, pc.to, segs);
        KeepPush(s, s', t, i, pc.seg, pc.to);
      }
  }

  lemma JoinKeepsInv(s: State, segs: set<nat>, t: nat, step: JoinStep)
    requires Inv(s, segs) && JoinEnabled(s, t, step)
    ensures Inv(JoinApply(s, t, step), segs)
  {
    var s' := JoinApply(s, t, step);
    HeldIsOff(s, segs);
    assert PcOk(s, t);
    match step
    case Grab =>
      MoveAllExact(s.at, Visited, Grabbed(t), segs);
      KeepGrab(s, s', t);
    case LookEmpty =>
      StillLinked(s, s', L(s, Grabbed(t)), None);
      KeepPc(s, s', t, s'.pcs[t]);
    case SwapAll => SwapAllKeepsInv(s, segs, t);
    case Walk => WalkKeepsInv(s, segs, t);
    case LoadHead => LoadHeadKeepsInv(s, segs, t);
    case StoreTail => StoreTailKeepsInv(s, segs, t);
    case JoinHead => JoinHeadKeepsInv(s, segs, t);
  }

  lemma SwapAllKeepsInv(s: State, segs: set<nat>, t: nat)
    requires Inv(s, segs) && AllOff(s) && JoinEnabled(s, t, SwapAll)
    ensures Inv(JoinApply(s, t, SwapAll), segs)
  {
    var s' := JoinApply(s, t, SwapAll);
    assert PcOk(s, t);
    if s.head != None || s.tag != s.pcs[t].tag {
      StillLinked(s, s', L(s, Grabbed(t)), None);
      KeepPc(s, s', t, s'.pcs[t]);
    } else {
      MoveAllExact(s.at, Grabbed(t), Abandoned, segs);
      KeepJoin(s, s', t);
    }
  }

  lemma WalkKeepsInv(s: State, segs: set<nat>, t: nat)
    requires Inv(s, segs) && AllOff(s) && JoinEnabled(s, t, Walk)
    ensures Inv(JoinApply(s, t, Walk), segs)
  {
    var s', q := JoinApply(s, t, Walk), L(s, Grabbed(t));
    assert PcOk(s, t);
    var k: nat :| k < |q| && q[k] == s.pcs[t].last;
    assert LinkOk(s, q, None, k);
    if NextOf(s, s.pcs[t].last).Some? {
      assert q[k + 1] in q;
      StillLinked(s, s', q, None);
      KeepPc(s, s', t, s'.pcs[t]);
    }
  }

  lemma LoadHeadKeepsInv(s: State, segs: set<nat>, t: nat)
    requires Inv(s, segs) && AllOff(s) && JoinEnabled(s, t, LoadHead)
    ensures Inv(JoinApply(s, t, LoadHead), segs)
  {
    var s' := JoinApply(s, t, LoadHead);
    LoadHeadPc(s, s', t);
    KeepPc(s, s', t, s'.pcs[t]);
  }

  lemma LoadHeadPc(s: State, s': State, t: nat)
    requires PcOk(s, t) && JoinEnabled(s, t, LoadHead) && s' == JoinApply(s, t, LoadHead)
    ensures PcOk(s', t)
  {
    var q := L(s, Grabbed(t));
    assert L(s', Grabbed(t)) == q && forall x :: NextOf(s', x) == NextOf(s, x);
    AtEnd(s, q, s.pcs[t].last);
    StillLinked(s, s', q, None);
  }

  /** A segment without a successor is the last of its chain. */
  lemma AtEnd(s: State, q: seq<nat>, last: nat)
    requires Linked(s, q, None) && last in q && NextOf(s, last) == None
    ensures q[|q| - 1] == last
  {
    var k: nat :| k < |q| && q[k] == last;
    assert LinkOk(s, q, None, k);
  }

  lemma StoreTailKeepsInv(s: State, segs: set<nat>, t: nat)
    requires Inv(s, segs) && AllOff(s) && JoinEnabled(s, t, StoreTail)
    ensures Inv(JoinApply(s, t, StoreTail), segs)
  {
    var s', q, last := JoinApply(s, t, StoreTail), L(s, Grabbed(t)), s.pcs[t].last;
    assert PcOk(s, t);
    assert last in q;
    OnlyThere(s, segs, Grabbed(t), last);
    JoinDistinct(s.at, segs, Grabbed(t), Arena);
    forall k: nat
      ensures LinkOk(s', q, s.pcs[t].ptr, k)
    {
      assert LinkOk(s, q, NextOf(s, last), k);
    }
    KeepLink(s, s', t, last, s.pcs[t].ptr);
  }

  lemma JoinHeadKeepsInv(s: State, segs: set<nat>, t: nat)
    requires Inv(s, segs) && AllOff(s) && JoinEnabled(s, t, JoinHead)
    ensures Inv(JoinApply(s, t, JoinHead), segs)
  {
    var s', q, pc := JoinApply(s, t, JoinHead), L(s, Grabbed(t)), s.pcs[t];
    assert PcOk(s, t);
    if s.head != pc.ptr || s.tag != pc.tag {
      assert LinkOk(s, q, pc.ptr, |q| - 1);
      StillLinked(s, s', q, pc.ptr);
      KeepPc(s, s', t, s'.pcs[t]);
    } else {
      MoveAllExact(s.at, Grabbed(t), Abandoned, segs);
      KeepJoin(s, s', t);
    }
  }

  lemma PopKeepsInv(s: State, segs: set<nat>, t: nat, step: PopStep)
    requires Inv(s, segs) && PopEnabled(s, t, step)
    ensures Inv(PopApply(s, t, step), segs)
  {
    var s' := PopApply(s, t, step);
    HeldIsOff(s, segs);
    assert PcOk(s, t);
    match step
    case Enter => KeepEnter(s, s', t);
    case LoadTop => LoadTopKeepsInv(s, segs, t);
    case ReadSuccessor => ReadKeepsInv(s, segs, t);
    case SwapTop => SwapTopKeepsInv(s, segs, t);
    case Leave => KeepLeave(s, s', t);
    case ClearLink =>
      OnlyThere(s, segs, Held(t), s.pcs[t].popped);
      KeepLink(s, s', t, s.pcs[t].popped, None);
  }

  /** The head of the abandoned stack is not in the arena. */
  lemma HeadOnStack(s: State, segs: set<nat>)
    requires Inv(s, segs)
    ensures OnStack(s, s.head) && (s.head.Some? ==> s.head.value !in L(s, Arena))
  {
    if s.head.Some? {
      OnlyThere(s, segs, Abandoned, s.head.value);
    }
  }

  lemma LoadTopKeepsInv(s: State, segs: set<nat>, t: nat)
    requires Inv(s, segs) && AllOff(s) && PopEnabled(s, t, LoadTop)
    ensures Inv(PopApply(s, t, LoadTop), segs)
  {
    assert PcOk(s, t);
    HeadOnStack(s, segs);
    KeepPc(s, PopApply(s, t, LoadTop), t, PopLoaded(s.head, s.tag));
  }

  lemma ReadKeepsInv(s: State, segs: set<nat>, t: nat)
    requires Inv(s, segs) && AllOff(s) && PopEnabled(s, t, ReadSuccessor)
    ensures Inv(PopApply(s, t, ReadSuccessor), segs)
  {
    var s' := PopApply(s, t, ReadSuccessor);
    assert PcOk(s, t);
    if s.pcs[t].ptr.Some? && s.pcs[t].tag == s.tag {
      LinkedRest(s, L(s, Abandoned));
    }
    assert !s'.fault;
    KeepPc(s, s', t, s'.pcs[t]);
  }

  lemma SwapTopKeepsInv(s: State, segs: set<nat>, t: nat)
    requires Inv(s, segs) && AllOff(s) && PopEnabled(s, t, SwapTop)
    ensures Inv(PopApply(s, t, SwapTop), segs)
  {
    var s', pc := PopApply(s, t, SwapTop), s.pcs[t];
    assert PcOk(s, t);
    if s.head != Some(pc.top) || s.tag != pc.tag {
      HeadOnStack(s, segs);
      KeepPc(s, s', t, s'.pcs[t]);
    } else {
      MoveAtExact(s.at, Abandoned, 0, Held(t), segs);
      KeepPop(s, s', t);
    }
  }

  lemma MemoryKeepsInv(s: State, segs: set<nat>, t: nat, step: MemoryStep)
    requires Inv(s, segs) && MemoryEnabled(s, t, step)
    ensures Inv(MemoryApply(s, t, step), segs)
  {
    var s' := MemoryApply(s, t, step);
    HeldIsOff(s, segs);
    assert PcOk(s, t);
    match step
    case SeeNoReaders(i) =>
      assert Readers(s.pcs) == {};
      assert forall u :: u in s.pcs && Critical(s.pcs[u]) ==> u in Readers(s.pcs);
      KeepPc(s, s', t, s'.pcs[t]);
    case Return(i) =>
      MoveAtExact(s.at, Held(t), i, Arena, segs);
      KeepReturn(s, s', t, i);
    case Allocate(i) =>
      var x := L(s, Arena)[i];
      OnlyThere(s, segs, Arena, x);
      MoveAtExact(s.at, Arena, i, Held(t), segs);
      KeepAllocate(s, s', t, i, x);
  }

  lemma StepKeepsInv(s: State, segs: set<nat>, a: Action)
    requires Inv(s, segs) && Enabled(s, a)
    ensures Inv(Apply(s, a), segs)
  {
    match a
    case Push(t, step) => PushKeepsInv(s, segs, t, step);
    case Join(t, step) => JoinKeepsInv(s, segs, t, step);
    case Pop(t, step) => PopKeepsInv(s, segs, t, step);
    case Memory(t, step) => MemoryKeepsInv(s, segs, t, step);
  }
}
