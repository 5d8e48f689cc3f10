/** The cross-thread free protocol of the allocator.

    A block freed by the thread that owns its page goes on the page's `local_free` list.
    A block freed by any other thread goes on the page's atomic `xthread_free` list, or,
    when the page's flag says so, on the atomic delayed list of the heap that owns the
    page, so that the owner will notice a full page.  Freers, owners, heap deletion and
    thread exit interleave freely; every step below is one atomic operation (or work on
    lists only the stepping thread can reach).  A compare-and-swap that fails changes
    nothing and is not a step. */
module CrossThreadFree {
  import opened Options
  import opened Placement

  datatype Block = Block(page: nat, index: nat)

  /** The two low bits of `xthread_free`. */
  datatype Flag = UseDelayed | Freeing | NoDelayed | Never

  /** The variables from which blocks are reachable. */
  datatype Anchor =
    | Client                       // held by the program
    | Free(page: nat)              // page->free
    | LocalFree(page: nat)         // page->local_free
    | ThreadFree(page: nat)        // the list packed in page->xthread_free
    | Freer(thread: nat)           // the argument of a remote free in progress
    | DelayedList(heap: nat)       // heap->thread_delayed_free
    | Taken(heap: nat)             // the chain a pass over the delayed list has taken
    | Current(heap: nat)           // the block that pass is working on
    | Lost                         // dropped without being freed

  datatype Page = Page(capacity: nat, reserved: nat, used: int, flag: Flag, heap: Option<nat>)

  /** Where a remote free stands. */
  datatype FreerPc =
    | Entered(page: nat)             // about to swap `xthread_free`
    | Claimed(page: nat)             // has set the flag to Freeing
    | HasHeap(page: nat, heap: nat)  // has read `xheap`
    | Pushed(page: nat)              // has pushed on the heap's list, flag not reset yet

  /** Where `_mi_heap_delayed_free_partial` stands with its current block. */
  datatype Stage = Idle | Collect | FreeBlock | Reinsert
  datatype Pass = NoPass | Pass(allFreed: bool, stage: Stage)

  /** What the owning thread is doing with a heap. */
  datatype Mode =
    | Running
    | Absorbed(into: nat, moving: Option<nat>)  // mi_heap_absorb: moving pages into another heap
    | Draining                                  // mi_heap_absorb: the final drain of the old heap
    | Drained
    | Marking                                   // collect_ex: marking pages Never
    | AbandonDraining                           // collect_ex: delayed_free_all
    | Abandoning                                // collect_ex: abandoning pages

  datatype Heap = Heap(mode: Mode, pass: Pass)

  /** Where the reclaim of an abandoned page stands. */
  datatype Reclaim = HeapSet | FlagSet

  /** `fault` is set by a step that touches a page or heap that no longer exists, or finds
      an assertion of the source violated. */
  datatype State = State(
    pages: map<nat, Page>,
    heaps: map<nat, Heap>,
    freers: map<nat, FreerPc>,
    reclaiming: map<nat, Reclaim>,
    at: Lists<Anchor, Block>,
    fault: bool)

  /** A thread frees a block of a page it does not own. */
  datatype FreerStep = EnterFree(i: nat) | PushThreadFree | ClaimPage | ReadHeap | PushDelayed | ReleasePage

  /** The owner of a page. */
  datatype PageStep =
    | NewPage(h: nat, reserved: nat)
    | Extend(order: seq<Block>)
    | Malloc
    | FreeLocal(i: nat)
    | CollectThreadFree
    | CollectLocalFree
    | FreePage

  /** One pass over a heap's delayed list. */
  datatype PassStep = TakeDelayed | TryDelayed | CollectDelayed | FreeDelayed | ReinsertDelayed | EndPass

  /** The life of a heap: creation, deletion by absorption, thread exit. */
  datatype HeapStep =
    | NewHeap
    | BeginAbsorb(into: nat)
    | MovePage(p: nat)
    | UseMoved
    | EndAbsorb
    | BeginAbandon
    | MarkNever(p: nat)
    | EndMarking
    | AbandonPage(p: nat)
    | DropHeap

  /** Another thread takes over an abandoned page. */
  datatype ReclaimStep = ReclaimPage(h: nat) | ReclaimUse | ReclaimCollect

  datatype Action =
    | ByFreer(t: nat, freer: FreerStep)
    | OnPage(p: nat, page: PageStep)
    | InHeapPass(h: nat, pass: PassStep)
    | OnHeap(h: nat, heap: HeapStep)
    | OnReclaim(p: nat, reclaim: ReclaimStep)

  function L(s: State, a: Anchor): seq<Block> {
    At(s.at, a)
  }

  predicate InPass(s: State, h: nat, stage: Stage) {
    h in s.heaps && s.heaps[h].pass.Pass? && s.heaps[h].pass.stage == stage
  }

  /** The owner of `h` is not in the middle of something else with it. */
  ghost predicate Quiet(s: State, h: nat) {
    && h in s.heaps && s.heaps[h].mode == Running && s.heaps[h].pass == NoPass
    && (forall p :: p in s.reclaiming && p in s.pages ==> s.pages[p].heap != Some(h))
    && (forall g :: g in s.heaps && s.heaps[g].mode.Absorbed? ==> s.heaps[g].mode.into != h)
  }

  ghost predicate Moving(s: State, p: nat) {
    exists h :: h in s.heaps && s.heaps[h].mode.Absorbed? && s.heaps[h].mode.moving == Some(p)
  }

  ghost predicate NewBlocks(s: State, p: nat, order: seq<Block>)
    requires p in s.pages
  {
    && Distinct(order)
    && (forall b :: b in order <==> b.page == p && s.pages[p].capacity <= b.index < s.pages[p].capacity + |order|)
  }

  // When a step can be taken: the control flow of the thread that takes it.

  ghost predicate FreerEnabled(s: State, t: nat, step: FreerStep) {
    match step
    case EnterFree(i) => t !in s.freers && i < |L(s, Client)|
    case PushThreadFree =>
      && t in s.freers && s.freers[t].Entered? && L(s, Freer(t)) != []
      && FlagOf(s, s.freers[t].page) != UseDelayed
    case ClaimPage => t in s.freers && s.freers[t].Entered? && FlagOf(s, s.freers[t].page) == UseDelayed
    case ReadHeap => t in s.freers && s.freers[t].Claimed? && L(s, Freer(t)) != []
    case PushDelayed => t in s.freers && s.freers[t].HasHeap? && L(s, Freer(t)) != []
    case ReleasePage => t in s.freers && s.freers[t].Pushed?
  }

  ghost predicate PageEnabled(s: State, p: nat, step: PageStep) {
    match step
    case NewPage(h, reserved) => p !in s.pages && h in s.heaps && s.heaps[h].mode == Running
    case Extend(order) =>
      p in s.pages && s.pages[p].capacity + |order| <= s.pages[p].reserved && NewBlocks(s, p, order)
    case Malloc => p in s.pages && L(s, Free(p)) != []
    case FreeLocal(i) => i < |L(s, Client)| && L(s, Client)[i].page == p
    case CollectThreadFree => p in s.pages
    case CollectLocalFree => p in s.pages
    case FreePage => p in s.pages && s.pages[p].used == 0 && p !in s.reclaiming && !Moving(s, p)
  }

  ghost predicate PassEnabled(s: State, h: nat, step: PassStep) {
    match step
    case TakeDelayed =>
      h in s.heaps && s.heaps[h].pass == NoPass && s.heaps[h].mode in {Running, Draining, AbandonDraining}
    case TryDelayed => InPass(s, h, Idle) && L(s, Taken(h)) != []
    case CollectDelayed => InPass(s, h, Collect) && L(s, Current(h)) != []
    case FreeDelayed => InPass(s, h, FreeBlock) && L(s, Current(h)) != []
    case ReinsertDelayed => InPass(s, h, Reinsert) && L(s, Current(h)) != []
    case EndPass => InPass(s, h, Idle) && L(s, Taken(h)) == []
  }

  ghost predicate HeapEnabled(s: State, h: nat, step: HeapStep) {
    match step
    case NewHeap => h !in s.heaps
    case BeginAbsorb(into) => Quiet(s, h) && into != h && into in s.heaps && s.heaps[into].mode == Running
    case MovePage(p) =>
      && h in s.heaps && s.heaps[h].mode.Absorbed? && s.heaps[h].mode.moving == None
      && p in s.pages && s.pages[p].heap == Some(h)
    case UseMoved =>
      && h in s.heaps && s.heaps[h].mode.Absorbed? && s.heaps[h].mode.moving.Some?
      && FlagOf(s, s.heaps[h].mode.moving.value) != Freeing
    case EndAbsorb =>
      && h in s.heaps && s.heaps[h].mode.Absorbed? && s.heaps[h].mode.moving == None
      && (forall p :: p in s.pages ==> s.pages[p].heap != Some(h))
    case BeginAbandon => Quiet(s, h)
    case MarkNever(p) =>
      && h in s.heaps && s.heaps[h].mode == Marking
      && p in s.pages && s.pages[p].heap == Some(h) && s.pages[p].flag != Freeing
    case EndMarking =>
      && h in s.heaps && s.heaps[h].mode == Marking
      && (forall p :: p in s.pages && s.pages[p].heap == Some(h) ==> s.pages[p].flag == Never)
    case AbandonPage(p) =>
      && h in s.heaps && s.heaps[h].mode == Abandoning
      && p in s.pages && s.pages[p].heap == Some(h)
    case DropHeap =>
      && h in s.heaps && (s.heaps[h].mode in {Drained, Abandoning} || Quiet(s, h))
      && (forall p :: p in s.pages ==> s.pages[p].heap != Some(h))
  }

  ghost predicate ReclaimEnabled(s: State, p: nat, step: ReclaimStep) {
    match step
    case ReclaimPage(h) =>
      && p in s.pages && s.pages[p].heap == None && p !in s.reclaiming
      && h in s.heaps && s.heaps[h].mode == Running
    case ReclaimUse => p in s.reclaiming && s.reclaiming[p] == HeapSet && FlagOf(s, p) != Freeing
    case ReclaimCollect => p in s.reclaiming && s.reclaiming[p] == FlagSet
  }

  ghost predicate Enabled(s: State, a: Action) {
    match a
    case ByFreer(t, step) => FreerEnabled(s, t, step)
    case OnPage(p, step) => PageEnabled(s, p, step)
    case InHeapPass(h, step) => PassEnabled(s, h, step)
    case OnHeap(h, step) => HeapEnabled(s, h, step)
    case OnReclaim(p, step) => ReclaimEnabled(s, p, step)
  }

  /** The flag a thread reads; of a page that no longer exists, anything. */
  function FlagOf(s: State, p: nat): Flag {
    if p in s.pages then s.pages[p].flag else UseDelayed
  }

  function Fault(s: State): State {
    s.(fault := true)
  }

  function WithPage(s: State, p: nat, page: Page): State {
    s.(pages := s.pages[p := page])
  }

  function WithHeap(s: State, h: nat, heap: Heap): State {
    s.(heaps := s.heaps[h := heap])
  }

  /** `_mi_page_thread_free_collect`: splice the thread-free list before the local one.
      A list longer than the capacity counts as corrupted and is dropped. */
  function Collected(s: State, p: nat): State
    requires p in s.pages
  {
    var n := |L(s, ThreadFree(p))|;
    if n <= s.pages[p].capacity then
      WithPage(s, p, s.pages[p].(used := s.pages[p].used - n)).(at := MoveAll(s.at, ThreadFree(p), LocalFree(p)))
    else
      s.(at := MoveAll(s.at, ThreadFree(p), Lost))
  }

  /** The owner frees a block of its own page. */
  function FreedLocally(s: State, src: Anchor, i: nat): State
    requires i < |L(s, src)| && !src.LocalFree?
  {
    var p := L(s, src)[i].page;
    if p !in s.pages then Fault(s) else
    WithPage(s, p, s.pages[p].(used := s.pages[p].used - 1)).(at := MoveAt(s.at, src, i, LocalFree(p)))
  }

  function FreerApply(s: State, t: nat, step: FreerStep): State
    requires FreerEnabled(s, t, step)
  {
    match step
    case EnterFree(i) =>
      s.(freers := s.freers[t := Entered(L(s, Client)[i].page)], at := MoveAt(s.at, Client, i, Freer(t)))
    case PushThreadFree =>
      var p := s.freers[t].page;
      if p !in s.pages then Fault(s) else
      s.(freers := s.freers - {t}, at := MoveAt(s.at, Freer(t), 0, ThreadFree(p)))
    case ClaimPage =>
      var p := s.freers[t].page;
      if p !in s.pages then Fault(s) else
      WithPage(s, p, s.pages[p].(flag := Freeing)).(freers := s.freers[t := Claimed(p)])
    case ReadHeap =>
      var p := s.freers[t].page;
      if p !in s.pages then Fault(s) else
      (match s.pages[p].heap
       case None => s.(freers := s.freers[t := Pushed(p)], at := MoveAt(s.at, Freer(t), 0, Lost))
       case Some(h) => s.(freers := s.freers[t := HasHeap(p, h)]))
    case PushDelayed =>
      var h := s.freers[t].heap;
      if h !in s.heaps then Fault(s) else
      s.(freers := s.freers[t := Pushed(s.freers[t].page)], at := MoveAt(s.at, Freer(t), 0, DelayedList(h)))
    case ReleasePage =>
      var p := s.freers[t].page;
      if p !in s.pages || s.pages[p].flag != Freeing then Fault(s) else
      WithPage(s, p, s.pages[p].(flag := NoDelayed)).(freers := s.freers - {t})
  }

  function PageApply(s: State, p: nat, step: PageStep): State
    requires PageEnabled(s, p, step)
  {
    match step
    case NewPage(h, reserved) =>
      WithPage(s, p, Page(0, reserved, 0, UseDelayed, Some(h)))
    case Extend(order) =>
      WithPage(s, p, s.pages[p].(capacity := s.pages[p].capacity + |order|)).(at := AddAll(s.at, order, Free(p)))
    case Malloc =>
      WithPage(s, p, s.pages[p].(used := s.pages[p].used + 1)).(at := MoveAt(s.at, Free(p), 0, Client))
    case FreeLocal(i) =>
      FreedLocally(s, Client, i)
    case CollectThreadFree =>
      Collected(s, p)
    case CollectLocalFree =>
      s.(at := MoveAll(s.at, LocalFree(p), Free(p)))
    case FreePage =>
      s.(pages := s.pages - {p}, at := DropLists(s.at, {Free(p), LocalFree(p), ThreadFree(p)}))
  }

  function PassApply(s: State, h: nat, step: PassStep): State
    requires PassEnabled(s, h, step)
  {
    match step
    case TakeDelayed =>
      WithHeap(s, h, s.heaps[h].(pass := Pass(true, Idle))).(at := MoveAll(s.at, DelayedList(h), Taken(h)))
    case TryDelayed =>
      // the loop retries a page that is Freeing a few times before it gives up
      var p := L(s, Taken(h))[0].page;
      if p !in s.pages then Fault(s) else
      var page := s.pages[p];
      var s1 := s.(at := MoveAt(s.at, Taken(h), 0, Current(h)));
      if page.flag == Freeing then
        WithHeap(s1, h, s.heaps[h].(pass := Pass(false, Reinsert)))
      else
        WithHeap(WithPage(s1, p, page.(flag := if page.flag == Never then Never else UseDelayed)),
                 h, s.heaps[h].(pass := s.heaps[h].pass.(stage := Collect)))
    case CollectDelayed =>
      var p := L(s, Current(h))[0].page;
      if p !in s.pages then Fault(s) else
      WithHeap(Collected(s, p), h, s.heaps[h].(pass := s.heaps[h].pass.(stage := FreeBlock)))
    case FreeDelayed =>
      WithHeap(FreedLocally(s, Current(h), 0), h, s.heaps[h].(pass := s.heaps[h].pass.(stage := Idle)))
    case ReinsertDelayed =>
      WithHeap(s, h, s.heaps[h].(pass := s.heaps[h].pass.(stage := Idle)))
        .(at := MoveAt(s.at, Current(h), 0, DelayedList(h)))
    case EndPass =>
      var heap := s.heaps[h].(pass := NoPass);
      if !s.heaps[h].pass.allFreed then WithHeap(s, h, heap)
      else if heap.mode == Draining then WithHeap(s, h, heap.(mode := Drained))
      else if heap.mode == AbandonDraining then WithHeap(s, h, heap.(mode := Abandoning))
      else WithHeap(s, h, heap)
  }

  function HeapApply(s: State, h: nat, step: HeapStep): State
    requires HeapEnabled(s, h, step)
  {
    match step
    case NewHeap =>
      WithHeap(s, h, Heap(Running, NoPass))
    case BeginAbsorb(into) =>
      WithHeap(s, h, s.heaps[h].(mode := Absorbed(into, None)))
    case MovePage(p) =>
      var into := s.heaps[h].mode.into;
      WithHeap(WithPage(s, p, s.pages[p].(heap := Some(into))), h, s.heaps[h].(mode := Absorbed(into, Some(p))))
    case UseMoved =>
      var p := s.heaps[h].mode.moving.value;
      if p !in s.pages then Fault(s) else
      var page := s.pages[p];
      WithHeap(WithPage(s, p, page.(flag := if page.flag == Never then Never else UseDelayed)),
               h, s.heaps[h].(mode := Absorbed(s.heaps[h].mode.into, None)))
    case EndAbsorb =>
      WithHeap(s, h, s.heaps[h].(mode := Draining))
    case BeginAbandon =>
      WithHeap(s, h, s.heaps[h].(mode := Marking))
    case MarkNever(p) =>
      WithPage(s, p, s.pages[p].(flag := Never))
    case EndMarking =>
      WithHeap(s, h, s.heaps[h].(mode := AbandonDraining))
    case AbandonPage(p) =>
      if s.pages[p].flag != Never then Fault(s) else
      WithPage(s, p, s.pages[p].(heap := None))
    case DropHeap =>
      // mi_heap_reset_pages clears the list head: anything still on it is gone
      s.(heaps := s.heaps - {h}, at := MoveAll(MoveAll(s.at, DelayedList(h), Lost), Taken(h), Lost))
  }

  function ReclaimApply(s: State, p: nat, step: ReclaimStep): State
    requires ReclaimEnabled(s, p, step)
  {
    match step
    case ReclaimPage(h) =>
      if s.pages[p].flag != Never then Fault(s) else
      WithPage(s, p, s.pages[p].(heap := Some(h))).(reclaiming := s.reclaiming[p := HeapSet])
    case ReclaimUse =>
      if p !in s.pages then Fault(s) else
      WithPage(s, p, s.pages[p].(flag := UseDelayed)).(reclaiming := s.reclaiming[p := FlagSet])
    case ReclaimCollect =>
      if p !in s.pages then Fault(s) else
      Collected(s, p).(reclaiming := s.reclaiming - {p})
  }

  function Apply(s: State, a: Action): State
    requires Enabled(s, a)
  {
    match a
    case ByFreer(t, step) => FreerApply(s, t, step)
    case OnPage(p, step) => PageApply(s, p, step)
    case InHeapPass(h, step) => PassApply(s, h, step)
    case OnHeap(h, step) => HeapApply(s, h, step)
    case OnReclaim(p, step) => ReclaimApply(s, p, step)
  }

  ghost predicate Step(s: State, a: Action, s': State) {
    Enabled(s, a) && s' == Apply(s, a)
  }

  ghost predicate Next(s: State, s': State) {
    exists a :: Step(s, a, s')
  }

  ghost predicate Init(s: State) {
    s == State(map[], map[], map[], map[], map[], false)
  }

  /** A run: any interleaving of enabled steps from the empty allocator. */
  ghost predicate Run(r: seq<State>) {
    && r != [] && Init(r[0])
    && (forall k :: 0 < k < |r| ==> Next(r[k - 1], r[k]))
  }

  // ---------------------------------------------------------------- the invariant

  /** The blocks that exist: those below the capacity of a page. */
  ghost function Blocks(s: State): set<Block> {
    set p, i | p in s.pages && 0 <= i < s.pages[p].capacity :: Block(p, i)
  }

  /** The page lists hold the page's own blocks, and nothing is lost. */
  ghost predicate OnOwnPage(s: State) {
    && (forall p, b :: b in L(s, Free(p)) || b in L(s, LocalFree(p)) || b in L(s, ThreadFree(p)) ==> b.page == p)
    && L(s, Lost) == []
  }

  /** Every block is in exactly one place. */
  ghost predicate Placed(s: State) {
    Exact(s.at, Blocks(s)) && OnOwnPage(s)
  }

  /** Between setting the flag to Freeing and resetting it. */
  predicate Critical(s: State, t: nat, p: nat) {
    t in s.freers && !s.freers[t].Entered? && s.freers[t].page == p
  }

  ghost predicate Busy(s: State, p: nat) {
    exists t :: Critical(s, t, p)
  }

  /** Blocks here will reach `_mi_free_delayed_block` on the owner's side. */
  predicate Waiting(s: State, a: Anchor) {
    a.DelayedList? || a.Taken? || (a.Current? && InPass(s, a.heap, Reinsert))
  }

  ghost predicate Waits(s: State, p: nat) {
    exists a, b: Block :: Waiting(s, a) && b in L(s, a) && b.page == p
  }

  /** A freer is carrying a block of the page to a heap's delayed list. */
  ghost predicate Carried(s: State, p: nat) {
    exists t :: Critical(s, t, p) && !s.freers[t].Pushed?
  }

  predicate CollectsFor(s: State, h: nat, p: nat) {
    InPass(s, h, Collect) && L(s, Current(h)) != [] && L(s, Current(h))[0].page == p
  }

  /** The owner's next step with the page is to collect its thread-free list. */
  ghost predicate Collecting(s: State, p: nat) {
    || (exists h :: CollectsFor(s, h, p))
    || (p in s.reclaiming && s.reclaiming[p] == FlagSet)
  }

  /** A freer holds its block until it has pushed it, the page it has claimed stays Freeing,
      and the heap it has read is alive: moving a page away from a heap waits for the freer. */
  ghost predicate FreerOk(s: State, t: nat) {
    if t !in s.freers then L(s, Freer(t)) == [] else
    var p := s.freers[t].page;
    && (if s.freers[t].Pushed? then L(s, Freer(t)) == []
        else |L(s, Freer(t))| == 1 && L(s, Freer(t))[0].page == p)
    && (Critical(s, t, p) ==> p in s.pages && s.pages[p].flag == Freeing)
    && (s.freers[t].Pushed? ==> Waits(s, p))
    && (s.freers[t].HasHeap? ==>
          var h := s.freers[t].heap;
          && h in s.heaps
          && (s.pages[p].heap == Some(h) || (s.heaps[h].mode.Absorbed? && s.heaps[h].mode.moving == Some(p))))
  }

  /** A page is Freeing for one freer at a time. */
  ghost predicate OneClaim(s: State) {
    forall p, t, u :: Critical(s, t, p) && Critical(s, u, p) ==> t == u
  }

  /** The counting law; a page is only Freeing for a freer; no page that takes delayed frees
      is stranded; the page's heap can take them. */
  ghost predicate PageOk(s: State, p: nat) {
    p in s.pages ==>
      var page := s.pages[p];
      && page.used + |L(s, Free(p))| + |L(s, LocalFree(p))| == page.capacity
      && (page.flag == Freeing ==> Busy(s, p))
      && (page.flag == NoDelayed ==> Waits(s, p))
      && (page.flag != Never && L(s, ThreadFree(p)) != [] ==> Waits(s, p) || Carried(s, p) || Collecting(s, p))
      && (page.heap == None ==> page.flag == Never)
      && (page.heap.Some? ==>
            && page.heap.value in s.heaps
            && !s.heaps[page.heap.value].mode.Draining? && !s.heaps[page.heap.value].mode.Drained?
            && (s.heaps[page.heap.value].mode in {AbandonDraining, Abandoning} ==> page.flag == Never))
  }

  ghost predicate ReclaimOk(s: State, p: nat) {
    p in s.reclaiming ==>
      && p in s.pages && s.pages[p].heap.Some?
      && s.pages[p].heap.value in s.heaps && s.heaps[s.pages[p].heap.value].mode == Running
  }

  /** A pass owns the blocks it took; a drain that freed everything left its list empty; while
      a heap keeps its pages, its delayed blocks are of those pages. */
  ghost predicate HeapOk(s: State, h: nat) {
    if h !in s.heaps then L(s, DelayedList(h)) == [] && L(s, Taken(h)) == [] && L(s, Current(h)) == [] else
    var m, pass := s.heaps[h].mode, s.heaps[h].pass;
    && (pass == NoPass ==> L(s, Taken(h)) == [] && L(s, Current(h)) == [])
    && (pass.Pass? ==> |L(s, Current(h))| == if pass.stage == Idle then 0 else 1)
    && (pass.Pass? && pass.stage == Reinsert ==> !pass.allFreed)
    && (m in {Draining, AbandonDraining} && pass.Pass? && pass.allFreed ==> L(s, DelayedList(h)) == [])
    && (m in {Drained, Abandoning} ==> pass == NoPass && L(s, DelayedList(h)) == [])
    && (m.Absorbed? || m == Marking ==> pass == NoPass)
    && (m.Absorbed? ==> m.into in s.heaps && s.heaps[m.into].mode == Running)
    && (m.Absorbed? && m.moving.Some? ==> m.moving.value in s.pages)
    && (!m.Absorbed? && m != Draining ==>
          forall b :: b in L(s, DelayedList(h)) || b in L(s, Taken(h)) || b in L(s, Current(h)) ==>
            b.page in s.pages && s.pages[b.page].heap == Some(h))
  }

  ghost predicate Protocol(s: State) {
    && !s.fault
    && OneClaim(s)
    && (forall t :: FreerOk(s, t))
    && (forall p :: PageOk(s, p))
    && (forall p :: ReclaimOk(s, p))
    && (forall h :: HeapOk(s, h))
  }

  ghost predicate Inv(s: State) {
    Placed(s) && Protocol(s)
  }

  // ---------------------------------------------------------------- counting

  ghost function PageBlocks(p: nat, capacity: nat): (r: set<Block>)
    ensures |r| == capacity
    ensures forall b :: b in r <==> b.page == p && b.index < capacity
  {
    if capacity == 0 then {} else PageBlocks(p, capacity - 1) + {Block(p, capacity - 1)}
  }

  /** A list of one page's blocks is no longer than the page's capacity. */
  lemma ListFits(s: State, p: nat, list: seq<Block>)
    requires p in s.pages && Distinct(list)
    requires forall b :: b in list ==> b in Blocks(s) && b.page == p
    ensures |list| <= s.pages[p].capacity
    ensures |list| == s.pages[p].capacity ==> forall b :: b in Blocks(s) && b.page == p ==> b in list
  {
    DistinctSize(list, PageBlocks(p, s.pages[p].capacity));
  }

  lemma ElementIn(s: State, a: Anchor, b: Block)
    requires Placed(s) && b in L(s, a)
    ensures b in Blocks(s) && b.page in s.pages
  {
  }

  /** When `used` is 0 the free lists hold the whole page, so no block of it is anywhere else. */
  lemma AllHome(s: State, p: nat)
    requires Placed(s) && p in s.pages
    requires |L(s, Free(p))| + |L(s, LocalFree(p))| == s.pages[p].capacity
    ensures forall a, b :: b in L(s, a) && b.page == p ==> a == Free(p) || a == LocalFree(p)
  {
    var home := L(s, Free(p)) + L(s, LocalFree(p));
    JoinDistinct(s.at, Blocks(s), Free(p), LocalFree(p));
    ListFits(s, p, home);
    forall a, b | b in L(s, a) && b.page == p
      ensures a == Free(p) || a == LocalFree(p)
    {
      ElementIn(s, a, b);
      assert b in home;
      SamePlace(s.at, Blocks(s), a, if b in L(s, Free(p)) then Free(p) else LocalFree(p), b);
    }
  }

  /** The thread-free list never looks corrupted. */
  lemma ThreadFreeFits(s: State, p: nat)
    requires Placed(s) && p in s.pages
    ensures |L(s, ThreadFree(p))| <= s.pages[p].capacity
  {
    JoinDistinct(s.at, Blocks(s), ThreadFree(p), Client);
    ListFits(s, p, L(s, ThreadFree(p)));
  }

  // ---------------------------------------------------------------- frames

  lemma WaitsKept(s: State, s': State)
    requires forall a :: Waiting(s, a) ==> Waiting(s', a) && (forall b :: b in L(s, a) ==> b in L(s', a))
    ensures forall p :: Waits(s, p) ==> Waits(s', p)
  {
    forall p | Waits(s, p)
      ensures Waits(s', p)
    {
      var a, b: Block :| Waiting(s, a) && b in L(s, a) && b.page == p;
      assert Waiting(s', a) && b in L(s', a);
    }
  }

  /** The waiting blocks of `src` went to `dst`. */
  lemma WaitsRetargeted(s: State, s': State, src: Anchor, dst: Anchor)
    requires Waiting(s', dst)
    requires forall a :: Waiting(s, a) && a != src ==> Waiting(s', a) && (forall b :: b in L(s, a) ==> b in L(s', a))
    requires forall b :: b in L(s, src) ==> b in L(s', dst) || (Waiting(s', src) && b in L(s', src))
    ensures forall p :: Waits(s, p) ==> Waits(s', p)
  {
    forall p | Waits(s, p)
      ensures Waits(s', p)
    {
      var a, b: Block :| Waiting(s, a) && b in L(s, a) && b.page == p;
      if a == src && b in L(s', dst) {
        assert Waiting(s', dst) && b in L(s', dst);
      } else {
        assert Waiting(s', a) && b in L(s', a);
      }
    }
  }

  /** Thread `t` moved on while it keeps its claim on page `p`. */
  lemma ClaimAdvanced(s: State, s': State, t: nat, p: nat)
    requires Critical(s, t, p) && Critical(s', t, p)
    requires s'.freers.Keys == s.freers.Keys
    requires forall u :: u != t && u in s.freers ==> s'.freers[u] == s.freers[u]
    ensures forall u, q :: Critical(s', u, q) <==> Critical(s, u, q)
    ensures forall q :: Busy(s', q) <==> Busy(s, q)
    ensures forall q :: q != p ==> (Carried(s', q) <==> Carried(s, q))
    ensures OneClaim(s) ==> OneClaim(s')
  {
    assert forall u, q :: Critical(s', u, q) <==> Critical(s, u, q);
    assert Busy(s, p) && Busy(s', p);
    OtherClaims(s, s', t, p);
  }

  lemma WaitsMoved(s: State, s': State, p: nat)
    requires forall a, b :: Waiting(s, a) && b in L(s, a) && b.page == p ==>
      exists a' :: Waiting(s', a') && b in L(s', a')
    ensures Waits(s, p) ==> Waits(s', p)
  {
    if Waits(s, p) {
      var a, b: Block :| Waiting(s, a) && b in L(s, a) && b.page == p;
      var a' :| Waiting(s', a') && b in L(s', a');
    }
  }

  /** Only thread `t` moved, and only with page `p`. */
  lemma OtherClaims(s: State, s': State, t: nat, p: nat)
    requires forall u :: u != t && u in s.freers ==> u in s'.freers && s'.freers[u] == s.freers[u]
    requires forall u :: u != t && u in s'.freers ==> u in s.freers
    requires (t in s.freers ==> s.freers[t].page == p) && (t in s'.freers ==> s'.freers[t].page == p)
    ensures forall q :: q != p ==> (Busy(s', q) <==> Busy(s, q)) && (Carried(s', q) <==> Carried(s, q))
  {
    forall q | q != p
      ensures (Busy(s', q) <==> Busy(s, q)) && (Carried(s', q) <==> Carried(s, q))
    {
      assert forall u :: Critical(s', u, q) <==> Critical(s, u, q);
      if Busy(s, q) { var u :| Critical(s, u, q); assert Critical(s', u, q); }
      if Busy(s', q) { var u :| Critical(s', u, q); assert Critical(s, u, q); }
      if Carried(s, q) { var u :| Critical(s, u, q) && !s.freers[u].Pushed?; assert Critical(s', u, q); }
      if Carried(s', q) { var u :| Critical(s', u, q) && !s'.freers[u].Pushed?; assert Critical(s, u, q); }
    }
  }

  lemma ClaimsKept(s: State, s': State)
    requires forall t :: t in s.freers && !s.freers[t].Entered? ==> t in s'.freers && s'.freers[t] == s.freers[t]
    requires forall t :: t in s'.freers && !s'.freers[t].Entered? ==> t in s.freers && s'.freers[t] == s.freers[t]
    ensures forall t, p :: Critical(s', t, p) <==> Critical(s, t, p)
    ensures forall p :: Busy(s', p) <==> Busy(s, p)
    ensures forall p :: Carried(s', p) <==> Carried(s, p)
    ensures OneClaim(s) ==> OneClaim(s')
  {
    assert forall t, p :: Critical(s', t, p) <==> Critical(s, t, p);
    forall p ensures Busy(s', p) <==> Busy(s, p) {
      if Busy(s, p) { var t :| Critical(s, t, p); assert Critical(s', t, p); }
      if Busy(s', p) { var t :| Critical(s', t, p); assert Critical(s, t, p); }
    }
    forall p ensures Carried(s', p) <==> Carried(s, p) {
      if Carried(s, p) { var t :| Critical(s, t, p) && !s.freers[t].Pushed?; assert Critical(s', t, p); }
      if Carried(s', p) { var t :| Critical(s', t, p) && !s'.freers[t].Pushed?; assert Critical(s, t, p); }
    }
  }

  lemma CollectingKept(s: State, s': State, p: nat)
    requires forall h :: CollectsFor(s, h, p) ==> CollectsFor(s', h, p)
    requires p in s.reclaiming ==> p in s'.reclaiming && s'.reclaiming[p] == s.reclaiming[p]
    ensures Collecting(s, p) ==> Collecting(s', p)
  {
    if exists h :: CollectsFor(s, h, p) {
      var h :| CollectsFor(s, h, p);
      assert CollectsFor(s', h, p);
    }
  }

  // ---------------------------------------------------------------- remote frees

  lemma KeepEnterFree(s: State, s': State, t: nat, i: nat)
    requires Protocol(s) && t !in s.freers && Moved(s.at, Client, i, Freer(t), s'.at)
    requires s' == s.(freers := s.freers[t := Entered(L(s, Client)[i].page)], at := s'.at)
    ensures Protocol(s')
  {
    assert forall a :: a != Client && a != Freer(t) ==> L(s', a) == L(s, a);
    WaitsKept(s, s');
    ClaimsKept(s, s');
    forall u ensures FreerOk(s', u) { assert FreerOk(s, u); }
    forall p ensures PageOk(s', p) {
      assert PageOk(s, p);
      if Collecting(s, p) { CollectingKept(s, s', p); }
    }
    forall p ensures ReclaimOk(s', p) { assert ReclaimOk(s, p); }
    forall h ensures HeapOk(s', h) { assert HeapOk(s, h); }
  }

  lemma KeepPushThreadFree(s: State, s': State, t: nat, p: nat)
    requires Protocol(s) && t in s.freers && s.freers[t] == Entered(p)
    requires p in s.pages && s.pages[p].flag != UseDelayed
    requires Moved(s.at, Freer(t), 0, ThreadFree(p), s'.at)
    requires s' == s.(freers := s.freers - {t}, at := s'.at)
    ensures Protocol(s')
  {
    assert forall a :: a != Freer(t) && a != ThreadFree(p) ==> L(s', a) == L(s, a);
    assert FreerOk(s, t);
    WaitsKept(s, s');
    ClaimsKept(s, s');
    forall u ensures FreerOk(s', u) { assert FreerOk(s, u); }
    forall q ensures PageOk(s', q) {
      assert PageOk(s, q);
      CollectingKept(s, s', q);
      if q == p && s.pages[p].flag == Freeing { ClaimOrWait(s, p); }
    }
    forall q ensures ReclaimOk(s', q) { assert ReclaimOk(s, q); }
    forall h ensures HeapOk(s', h) { assert HeapOk(s, h); }
  }

  /** While a page is Freeing, its freer carries a block or has pushed one. */
  lemma ClaimOrWait(s: State, p: nat)
    requires Protocol(s) && p in s.pages && s.pages[p].flag == Freeing
    ensures Waits(s, p) || Carried(s, p)
  {
    assert PageOk(s, p);
    var t :| Critical(s, t, p);
    assert FreerOk(s, t);
  }

  lemma KeepClaimPage(s: State, s': State, t: nat, p: nat)
    requires Protocol(s)
    requires t in s.freers && s.freers[t] == Entered(p)
    requires p in s.pages && s.pages[p].flag == UseDelayed
    requires s' == s.(pages := s.pages[p := s.pages[p].(flag := Freeing)], freers := s.freers[t := Claimed(p)])
    ensures Protocol(s')
  {
    assert PageOk(s, p) && FreerOk(s, t);
    forall u ensures !Critical(s, u, p) { assert FreerOk(s, u); }
    assert Critical(s', t, p);
    assert OneClaim(s') by {
      forall q, u, v | Critical(s', u, q) && Critical(s', v, q) ensures u == v {
        assert (u == t && q == p) || Critical(s, u, q);
        assert (v == t && q == p) || Critical(s, v, q);
      }
    }
    WaitsKept(s, s');
    OtherClaims(s, s', t, p);
    forall u ensures FreerOk(s', u) { assert FreerOk(s, u); }
    forall q ensures PageOk(s', q) { assert PageOk(s, q); CollectingKept(s, s', q); }
    forall q ensures ReclaimOk(s', q) { assert ReclaimOk(s, q); }
    forall g ensures HeapOk(s', g) { assert HeapOk(s, g); }
  }

  lemma KeepReadHeap(s: State, s': State, t: nat, p: nat, h: nat)
    requires Protocol(s)
    requires t in s.freers && s.freers[t] == Claimed(p)
    requires p in s.pages && s.pages[p].heap == Some(h)
    requires s' == s.(freers := s.freers[t := HasHeap(p, h)])
    ensures Protocol(s')
  {
    assert PageOk(s, p) && FreerOk(s, t);
    ClaimAdvanced(s, s', t, p);
    WaitsKept(s, s');
    forall u ensures FreerOk(s', u) { assert FreerOk(s, u); }
    forall q ensures PageOk(s', q) { assert PageOk(s, q); CollectingKept(s, s', q); }
    forall q ensures ReclaimOk(s', q) { assert ReclaimOk(s, q); }
    forall g ensures HeapOk(s', g) { assert HeapOk(s, g); }
  }

  lemma PushDelayedHeaps(s: State, s': State, t: nat, p: nat, h: nat)
    requires Protocol(s)
    requires t in s.freers && s.freers[t] == HasHeap(p, h)
    requires Moved(s.at, Freer(t), 0, DelayedList(h), s'.at)
    requires s' == s.(freers := s.freers[t := Pushed(p)], at := s'.at)
    ensures forall q :: ReclaimOk(s', q)
    ensures forall g :: HeapOk(s', g)
  {
    assert forall a :: a != Freer(t) && a != DelayedList(h) ==> L(s', a) == L(s, a);
    assert Critical(s, t, p) && FreerOk(s, t) && PageOk(s, p);
    forall q ensures ReclaimOk(s', q) { assert ReclaimOk(s, q); }
    forall g ensures HeapOk(s', g) { assert HeapOk(s, g); }
  }

  lemma PushedWaits(s: State, s': State, t: nat, p: nat, h: nat)
    requires Protocol(s)
    requires t in s.freers && s.freers[t] == HasHeap(p, h)
    requires Moved(s.at, Freer(t), 0, DelayedList(h), s'.at)
    requires s' == s.(freers := s.freers[t := Pushed(p)], at := s'.at)
    ensures Waits(s', p) && forall q :: Waits(s, q) ==> Waits(s', q)
  {
    assert forall a :: a != Freer(t) && a != DelayedList(h) ==> L(s', a) == L(s, a);
    assert FreerOk(s, t);
    var b := L(s, Freer(t))[0];
    assert L(s', DelayedList(h))[0] == b;
    assert Waiting(s', DelayedList(h)) && b in L(s', DelayedList(h)) && b.page == p;
    WaitsKept(s, s');
  }

  lemma PushDelayedFreers(s: State, s': State, t: nat, p: nat, h: nat)
    requires Protocol(s)
    requires t in s.freers && s.freers[t] == HasHeap(p, h)
    requires Moved(s.at, Freer(t), 0, DelayedList(h), s'.at)
    requires s' == s.(freers := s.freers[t := Pushed(p)], at := s'.at)
    requires Waits(s', p) && forall q :: Waits(s, q) ==> Waits(s', q)
    ensures forall u :: FreerOk(s', u)
  {
    assert FreerOk(s, t) && L(s', Freer(t)) == [];
    forall u ensures FreerOk(s', u) {
      if u != t {
        assert FreerOk(s, u);
        assert L(s', Freer(u)) == L(s, Freer(u));
      }
    }
  }

  lemma PushDelayedPage(s: State, s': State, t: nat, p: nat, h: nat, q: nat)
    requires Protocol(s)
    requires t in s.freers && s.freers[t] == HasHeap(p, h)
    requires Moved(s.at, Freer(t), 0, DelayedList(h), s'.at)
    requires s' == s.(freers := s.freers[t := Pushed(p)], at := s'.at)
    requires Waits(s', p) && (Waits(s, q) ==> Waits(s', q))
    requires (Busy(s', q) <==> Busy(s, q)) && (q != p ==> (Carried(s', q) <==> Carried(s, q)))
    ensures PageOk(s', q)
  {
    assert forall a :: a != Freer(t) && a != DelayedList(h) ==> L(s', a) == L(s, a);
    assert PageOk(s, q);
    CollectingKept(s, s', q);
  }

  lemma KeepPushDelayed(s: State, s': State, t: nat, p: nat, h: nat)
    requires Protocol(s)
    requires t in s.freers && s.freers[t] == HasHeap(p, h)
    requires Moved(s.at, Freer(t), 0, DelayedList(h), s'.at)
    requires s' == s.(freers := s.freers[t := Pushed(p)], at := s'.at)
    ensures Protocol(s')
  {
    assert FreerOk(s, t);
    ClaimAdvanced(s, s', t, p);
    PushedWaits(s, s', t, p, h);
    PushDelayedFreers(s, s', t, p, h);
    forall q ensures PageOk(s', q) { PushDelayedPage(s, s', t, p, h, q); }
    PushDelayedHeaps(s, s', t, p, h);
  }

  lemma KeepReleasePage(s: State, s': State, t: nat, p: nat)
    requires Protocol(s)
    requires t in s.freers && s.freers[t] == Pushed(p)
    requires p in s.pages
    requires s' == s.(pages := s.pages[p := s.pages[p].(flag := NoDelayed)], freers := s.freers - {t})
    ensures Protocol(s')
  {
    assert Critical(s, t, p);
    assert FreerOk(s, t) && PageOk(s, p);
    forall u, q | Critical(s', u, q) ensures Critical(s, u, q) && q != p { assert Critical(s, u, q); }
    WaitsKept(s, s');
    OtherClaims(s, s', t, p);
    forall u ensures FreerOk(s', u) { assert FreerOk(s, u); }
    forall q ensures PageOk(s', q) { assert PageOk(s, q); CollectingKept(s, s', q); }
    forall q ensures ReclaimOk(s', q) { assert ReclaimOk(s, q); }
    forall g ensures HeapOk(s', g) { assert HeapOk(s, g); }
  }

  // ---------------------------------------------------------------- the owner

  lemma KeepNewHeap(s: State, s': State, h: nat)
    requires Protocol(s)
    requires h !in s.heaps
    requires s' == s.(heaps := s.heaps[h := Heap(Running, NoPass)])
    ensures Protocol(s')
  {
    assert HeapOk(s, h);
    WaitsKept(s, s');
    ClaimsKept(s, s');
    forall u ensures FreerOk(s', u) { assert FreerOk(s, u); }
    forall q ensures PageOk(s', q) { assert PageOk(s, q); CollectingKept(s, s', q); }
    forall q ensures ReclaimOk(s', q) { assert ReclaimOk(s, q); }
    forall g ensures HeapOk(s', g) { assert HeapOk(s, g); }
  }

  lemma KeepNewPage(s: State, s': State, p: nat, h: nat, reserved: nat)
    requires Protocol(s)
    requires p !in s.pages && h in s.heaps && s.heaps[h].mode == Running
    requires L(s, Free(p)) == [] && L(s, LocalFree(p)) == [] && L(s, ThreadFree(p)) == []
    requires s' == s.(pages := s.pages[p := Page(0, reserved, 0, UseDelayed, Some(h))])
    ensures Protocol(s')
  {
    WaitsKept(s, s');
    ClaimsKept(s, s');
    forall u ensures FreerOk(s', u) { assert FreerOk(s, u); }
    forall q ensures PageOk(s', q) { assert PageOk(s, q); CollectingKept(s, s', q); }
    forall q ensures ReclaimOk(s', q) { assert ReclaimOk(s, q); }
    forall g ensures HeapOk(s', g) { assert HeapOk(s, g); }
  }

  lemma ExtendedPage(s: State, s': State, p: nat, order: seq<Block>, q: nat)
    requires PageOk(s, q)
    requires p in s.pages
    requires At(s'.at, Free(p)) == order + L(s, Free(p)) && (forall a :: a != Free(p) ==> At(s'.at, a) == L(s, a))
    requires s' == s.(pages := s.pages[p := s.pages[p].(capacity := s.pages[p].capacity + |order|)], at := s'.at)
    requires Waits(s, q) ==> Waits(s', q)
    requires (Busy(s', q) <==> Busy(s, q)) && (Carried(s', q) <==> Carried(s, q))
    ensures PageOk(s', q)
  {
    CollectingKept(s, s', q);
  }

  lemma KeepExtend(s: State, s': State, p: nat, order: seq<Block>)
    requires Protocol(s)
    requires p in s.pages
    requires At(s'.at, Free(p)) == order + L(s, Free(p)) && (forall a :: a != Free(p) ==> At(s'.at, a) == L(s, a))
    requires s' == s.(pages := s.pages[p := s.pages[p].(capacity := s.pages[p].capacity + |order|)], at := s'.at)
    ensures Protocol(s')
  {
    WaitsKept(s, s');
    ClaimsKept(s, s');
    forall u ensures FreerOk(s', u) { assert FreerOk(s, u); }
    forall q ensures PageOk(s', q) { assert PageOk(s, q); ExtendedPage(s, s', p, order, q); }
    forall q ensures ReclaimOk(s', q) { assert ReclaimOk(s, q); }
    forall g ensures HeapOk(s', g) { assert HeapOk(s, g); }
  }

  lemma KeepMalloc(s: State, s': State, p: nat)
    requires Protocol(s)
    requires p in s.pages && Moved(s.at, Free(p), 0, Client, s'.at)
    requires s' == s.(pages := s.pages[p := s.pages[p].(used := s.pages[p].used + 1)], at := s'.at)
    ensures Protocol(s')
  {
    assert forall a :: a != Free(p) && a != Client ==> L(s', a) == L(s, a);
    WaitsKept(s, s');
    ClaimsKept(s, s');
    forall u ensures FreerOk(s', u) { assert FreerOk(s, u); }
    forall q ensures PageOk(s', q) { assert PageOk(s, q); CollectingKept(s, s', q); }
    forall q ensures ReclaimOk(s', q) { assert ReclaimOk(s, q); }
    forall g ensures HeapOk(s', g) { assert HeapOk(s, g); }
  }

  lemma KeepFreeLocal(s: State, s': State, p: nat, i: nat)
    requires Protocol(s)
    requires p in s.pages && Moved(s.at, Client, i, LocalFree(p), s'.at)
    requires s' == s.(pages := s.pages[p := s.pages[p].(used := s.pages[p].used - 1)], at := s'.at)
    ensures Protocol(s')
  {
    assert forall a :: a != Client && a != LocalFree(p) ==> L(s', a) == L(s, a);
    WaitsKept(s, s');
    ClaimsKept(s, s');
    forall u ensures FreerOk(s', u) { assert FreerOk(s, u); }
    forall q ensures PageOk(s', q) { assert PageOk(s, q); CollectingKept(s, s', q); }
    forall q ensures ReclaimOk(s', q) { assert ReclaimOk(s, q); }
    forall g ensures HeapOk(s', g) { assert HeapOk(s, g); }
  }

  lemma CollectedPage(s: State, s': State, p: nat, q: nat)
    requires PageOk(s, q)
    requires p in s.pages && Spliced(s.at, ThreadFree(p), LocalFree(p), s'.at)
    requires s' == s.(pages := s.pages[p := s.pages[p].(used := s.pages[p].used - |L(s, ThreadFree(p))|)], at := s'.at)
    requires Waits(s, q) ==> Waits(s', q)
    requires (Busy(s', q) <==> Busy(s, q)) && (Carried(s', q) <==> Carried(s, q))
    ensures PageOk(s', q)
  {
    assert forall a :: a != ThreadFree(p) && a != LocalFree(p) ==> L(s', a) == L(s, a);
    CollectingKept(s, s', q);
  }

  lemma KeepCollectThreadFree(s: State, s': State, p: nat)
    requires Protocol(s)
    requires p in s.pages && Spliced(s.at, ThreadFree(p), LocalFree(p), s'.at)
    requires s' == s.(pages := s.pages[p := s.pages[p].(used := s.pages[p].used - |L(s, ThreadFree(p))|)], at := s'.at)
    ensures Protocol(s')
  {
    assert forall a :: a != ThreadFree(p) && a != LocalFree(p) ==> L(s', a) == L(s, a);
    WaitsKept(s, s');
    ClaimsKept(s, s');
    forall u ensures FreerOk(s', u) { assert FreerOk(s, u); }
    forall q ensures PageOk(s', q) { assert PageOk(s, q); CollectedPage(s, s', p, q); }
    forall q ensures ReclaimOk(s', q) { assert ReclaimOk(s, q); }
    forall g ensures HeapOk(s', g) { assert HeapOk(s, g); }
  }

  lemma KeepCollectLocalFree(s: State, s': State, p: nat)
    requires Protocol(s)
    requires p in s.pages && Spliced(s.at, LocalFree(p), Free(p), s'.at)
    requires s' == s.(at := s'.at)
    ensures Protocol(s')
  {
    assert forall a :: a != LocalFree(p) && a != Free(p) ==> L(s', a) == L(s, a);
    WaitsKept(s, s');
    ClaimsKept(s, s');
    forall u ensures FreerOk(s', u) { assert FreerOk(s, u); }
    forall q ensures PageOk(s', q) { assert PageOk(s, q); CollectingKept(s, s', q); }
    forall q ensures ReclaimOk(s', q) { assert ReclaimOk(s, q); }
    forall g ensures HeapOk(s', g) { assert HeapOk(s, g); }
  }

  lemma FreePageHeaps(s: State, s': State, p: nat)
    requires Protocol(s)
    requires p in s.pages && p !in s.reclaiming && !Moving(s, p)
    requires forall a, b :: b in L(s, a) && b.page == p ==> a == Free(p) || a == LocalFree(p)
    requires L(s, ThreadFree(p)) == []
    requires forall a :: At(s'.at, a) == if a in {Free(p), LocalFree(p), ThreadFree(p)} then [] else L(s, a)
    requires s' == s.(pages := s.pages - {p}, at := s'.at)
    ensures forall q :: ReclaimOk(s', q)
    ensures forall g :: HeapOk(s', g)
  {
    assert forall a :: a != Free(p) && a != LocalFree(p) && a != ThreadFree(p) ==> L(s', a) == L(s, a);
    forall q ensures ReclaimOk(s', q) { assert ReclaimOk(s, q); }
    forall g ensures HeapOk(s', g) { assert HeapOk(s, g); }
  }

  lemma KeepFreePage(s: State, s': State, p: nat)
    requires Protocol(s)
    requires p in s.pages && p !in s.reclaiming && !Moving(s, p)
    requires forall a, b :: b in L(s, a) && b.page == p ==> a == Free(p) || a == LocalFree(p)
    requires L(s, ThreadFree(p)) == []
    requires forall a :: At(s'.at, a) == if a in {Free(p), LocalFree(p), ThreadFree(p)} then [] else L(s, a)
    requires s' == s.(pages := s.pages - {p}, at := s'.at)
    ensures Protocol(s')
  {
    assert !Waits(s, p);
    forall u ensures !Critical(s, u, p) {
      assert FreerOk(s, u);
      assert forall b :: b in L(s, Freer(u)) ==> b.page != p;
    }
    WaitsKept(s, s');
    ClaimsKept(s, s');
    forall u ensures FreerOk(s', u) { assert FreerOk(s, u); }
    forall q ensures PageOk(s', q) { assert PageOk(s, q); CollectingKept(s, s', q); }
    FreePageHeaps(s, s', p);
  }

  // ---------------------------------------------------------------- passes over the delayed list

  lemma TookHeap(s: State, s': State, h: nat)
    requires Protocol(s)
    requires h in s.heaps && s.heaps[h].pass == NoPass && s.heaps[h].mode in {Running, Draining, AbandonDraining}
    requires Spliced(s.at, DelayedList(h), Taken(h), s'.at)
    requires s' == s.(heaps := s.heaps[h := s.heaps[h].(pass := Pass(true, Idle))], at := s'.at)
    ensures HeapOk(s', h)
  {
    assert HeapOk(s, h) && L(s', Current(h)) == L(s, Current(h));
    assert L(s', Taken(h)) == L(s, DelayedList(h));
  }

  lemma TakeDelayedHeaps(s: State, s': State, h: nat)
    requires Protocol(s)
    requires h in s.heaps && s.heaps[h].pass == NoPass && s.heaps[h].mode in {Running, Draining, AbandonDraining}
    requires Spliced(s.at, DelayedList(h), Taken(h), s'.at)
    requires s' == s.(heaps := s.heaps[h := s.heaps[h].(pass := Pass(true, Idle))], at := s'.at)
    ensures forall q :: ReclaimOk(s', q)
    ensures forall g :: HeapOk(s', g)
  {
    assert forall a :: a != DelayedList(h) && a != Taken(h) ==> L(s', a) == L(s, a);
    TookHeap(s, s', h);
    forall q ensures ReclaimOk(s', q) { assert ReclaimOk(s, q); }
    forall g ensures HeapOk(s', g) { if g != h { assert HeapOk(s, g); } }
  }

  lemma TakeDelayedFreers(s: State, s': State, h: nat)
    requires Protocol(s)
    requires h in s.heaps && s.heaps[h].pass == NoPass
    requires Spliced(s.at, DelayedList(h), Taken(h), s'.at)
    requires s' == s.(heaps := s.heaps[h := s.heaps[h].(pass := Pass(true, Idle))], at := s'.at)
    requires forall q :: Waits(s, q) ==> Waits(s', q)
    ensures forall u :: FreerOk(s', u)
  {
    forall u ensures FreerOk(s', u) {
      assert FreerOk(s, u);
      assert L(s', Freer(u)) == L(s, Freer(u));
    }
  }

  lemma TakeDelayedPages(s: State, s': State, h: nat)
    requires Protocol(s)
    requires h in s.heaps && s.heaps[h].pass == NoPass && s.heaps[h].mode in {Running, Draining, AbandonDraining}
    requires Spliced(s.at, DelayedList(h), Taken(h), s'.at)
    requires s' == s.(heaps := s.heaps[h := s.heaps[h].(pass := Pass(true, Idle))], at := s'.at)
    requires forall q :: Waits(s, q) ==> Waits(s', q)
    ensures forall q :: PageOk(s', q)
  {
    assert forall a :: a != DelayedList(h) && a != Taken(h) ==> L(s', a) == L(s, a);
    ClaimsKept(s, s');
    forall q ensures PageOk(s', q) {
      assert PageOk(s, q);
      CollectingKept(s, s', q);
    }
  }

  lemma KeepTakeDelayed(s: State, s': State, h: nat)
    requires Protocol(s)
    requires h in s.heaps && s.heaps[h].pass == NoPass && s.heaps[h].mode in {Running, Draining, AbandonDraining}
    requires Spliced(s.at, DelayedList(h), Taken(h), s'.at)
    requires s' == s.(heaps := s.heaps[h := s.heaps[h].(pass := Pass(true, Idle))], at := s'.at)
    ensures Protocol(s')
  {
    assert forall a :: a != DelayedList(h) && a != Taken(h) ==> L(s', a) == L(s, a);
    assert HeapOk(s, h);
    assert L(s', Taken(h)) == L(s, DelayedList(h));
    WaitsRetargeted(s, s', DelayedList(h), Taken(h));
    TakeDelayedFreers(s, s', h);
    ClaimsKept(s, s');
    TakeDelayedPages(s, s', h);
    TakeDelayedHeaps(s, s', h);
  }

  lemma GiveUpHeaps(s: State, s': State, h: nat)
    requires Protocol(s)
    requires InPass(s, h, Idle)
    requires Moved(s.at, Taken(h), 0, Current(h), s'.at)
    requires s' == s.(heaps := s.heaps[h := s.heaps[h].(pass := Pass(false, Reinsert))], at := s'.at)
    ensures forall q :: ReclaimOk(s', q)
    ensures forall g :: HeapOk(s', g)
  {
    assert forall a :: a != Taken(h) && a != Current(h) ==> L(s', a) == L(s, a);
    assert HeapOk(s, h);
    forall q ensures ReclaimOk(s', q) { assert ReclaimOk(s, q); }
    forall g ensures HeapOk(s', g) { assert HeapOk(s, g); }
  }

  lemma KeepGiveUp(s: State, s': State, h: nat)
    requires Protocol(s)
    requires InPass(s, h, Idle)
    requires Moved(s.at, Taken(h), 0, Current(h), s'.at)
    requires s' == s.(heaps := s.heaps[h := s.heaps[h].(pass := Pass(false, Reinsert))], at := s'.at)
    ensures Protocol(s')
  {
    assert forall a :: a != Taken(h) && a != Current(h) ==> L(s', a) == L(s, a);
    assert HeapOk(s, h);
    WaitsRetargeted(s, s', Taken(h), Current(h));
    ClaimsKept(s, s');
    forall u ensures FreerOk(s', u) { assert FreerOk(s, u); }
    forall q ensures PageOk(s', q) {
      assert PageOk(s, q);
      CollectingKept(s, s', q);
    }
    GiveUpHeaps(s, s', h);
  }

  lemma TryDelayedHeaps(s: State, s': State, h: nat, p: nat, flag: Flag)
    requires Protocol(s)
    requires InPass(s, h, Idle)
    requires Moved(s.at, Taken(h), 0, Current(h), s'.at)
    requires p == L(s, Taken(h))[0].page && p in s.pages && s.pages[p].flag != Freeing
    requires flag == if s.pages[p].flag == Never then Never else UseDelayed
    requires s' == s.(pages := s.pages[p := s.pages[p].(flag := flag)],
                      heaps := s.heaps[h := s.heaps[h].(pass := s.heaps[h].pass.(stage := Collect))], at := s'.at)
    ensures forall q :: ReclaimOk(s', q)
    ensures forall g :: HeapOk(s', g)
  {
    assert forall a :: a != Taken(h) && a != Current(h) ==> L(s', a) == L(s, a);
    assert HeapOk(s, h);
    assert L(s', Current(h)) == [L(s, Taken(h))[0]];
    forall q ensures ReclaimOk(s', q) { assert ReclaimOk(s, q); }
    forall g ensures HeapOk(s', g) { assert HeapOk(s, g); }
  }

  lemma TryDelayedFreers(s: State, s': State, h: nat, p: nat, flag: Flag)
    requires Protocol(s)
    requires InPass(s, h, Idle)
    requires Moved(s.at, Taken(h), 0, Current(h), s'.at)
    requires p == L(s, Taken(h))[0].page && p in s.pages && s.pages[p].flag != Freeing
    requires s' == s.(pages := s.pages[p := s.pages[p].(flag := flag)],
                      heaps := s.heaps[h := s.heaps[h].(pass := s.heaps[h].pass.(stage := Collect))], at := s'.at)
    requires forall q :: q != p && Waits(s, q) ==> Waits(s', q)
    ensures forall u :: !Critical(s, u, p) && FreerOk(s', u)
  {
    forall u ensures !Critical(s, u, p) && FreerOk(s', u) {
      assert FreerOk(s, u);
      assert L(s', Freer(u)) == L(s, Freer(u));
    }
  }

  lemma TryDelayedWaits(s: State, s': State, h: nat, p: nat, flag: Flag)
    requires Protocol(s)
    requires InPass(s, h, Idle)
    requires Moved(s.at, Taken(h), 0, Current(h), s'.at)
    requires p == L(s, Taken(h))[0].page && p in s.pages && s.pages[p].flag != Freeing
    requires flag == if s.pages[p].flag == Never then Never else UseDelayed
    requires s' == s.(pages := s.pages[p := s.pages[p].(flag := flag)],
                      heaps := s.heaps[h := s.heaps[h].(pass := s.heaps[h].pass.(stage := Collect))], at := s'.at)
    ensures CollectsFor(s', h, p) && forall q :: q != p && Waits(s, q) ==> Waits(s', q)
  {
    assert forall a :: a != Taken(h) && a != Current(h) ==> L(s', a) == L(s, a);
    assert HeapOk(s, h);
    assert L(s', Current(h)) == [L(s, Taken(h))[0]];
    forall q | q != p ensures Waits(s, q) ==> Waits(s', q) {
      forall a, b | Waiting(s, a) && b in L(s, a) && b.page == q
        ensures exists a' :: Waiting(s', a') && b in L(s', a')
      {
        assert Waiting(s', a) && b in L(s', a);
      }
      WaitsMoved(s, s', q);
    }
  }

  lemma RetriedPage(s: State, s': State, h: nat, p: nat, flag: Flag)
    requires PageOk(s, p)
    requires InPass(s, h, Idle)
    requires forall a :: a != Taken(h) && a != Current(h) ==> L(s', a) == L(s, a)
    requires p in s.pages && s.pages[p].flag != Freeing
    requires flag == if s.pages[p].flag == Never then Never else UseDelayed
    requires s' == s.(pages := s.pages[p := s.pages[p].(flag := flag)],
                      heaps := s.heaps[h := s.heaps[h].(pass := s.heaps[h].pass.(stage := Collect))], at := s'.at)
    requires CollectsFor(s', h, p)
    ensures PageOk(s', p)
  {
  }

  lemma TryDelayedPage(s: State, s': State, h: nat, p: nat, flag: Flag, q: nat)
    requires PageOk(s, q)
    requires InPass(s, h, Idle)
    requires forall a :: a != Taken(h) && a != Current(h) ==> L(s', a) == L(s, a)
    requires p in s.pages && s.pages[p].flag != Freeing
    requires flag == if s.pages[p].flag == Never then Never else UseDelayed
    requires s' == s.(pages := s.pages[p := s.pages[p].(flag := flag)],
                      heaps := s.heaps[h := s.heaps[h].(pass := s.heaps[h].pass.(stage := Collect))], at := s'.at)
    requires q != p && (Waits(s, q) ==> Waits(s', q))
    requires (Busy(s', q) <==> Busy(s, q)) && (Carried(s', q) <==> Carried(s, q))
    ensures PageOk(s', q)
  {
    CollectingKept(s, s', q);
  }

  lemma KeepTryDelayed(s: State, s': State, h: nat, p: nat, flag: Flag)
    requires Protocol(s)
    requires InPass(s, h, Idle)
    requires Moved(s.at, Taken(h), 0, Current(h), s'.at)
    requires p == L(s, Taken(h))[0].page && p in s.pages && s.pages[p].flag != Freeing
    requires flag == if s.pages[p].flag == Never then Never else UseDelayed
    requires s' == s.(pages := s.pages[p := s.pages[p].(flag := flag)],
                      heaps := s.heaps[h := s.heaps[h].(pass := s.heaps[h].pass.(stage := Collect))], at := s'.at)
    ensures Protocol(s')
  {
    assert forall a :: a != Taken(h) && a != Current(h) ==> L(s', a) == L(s, a);
    assert HeapOk(s, h);
    TryDelayedWaits(s, s', h, p, flag);
    TryDelayedFreers(s, s', h, p, flag);
    ClaimsKept(s, s');
    forall q ensures PageOk(s', q) {
      assert PageOk(s, q);
      if q == p { RetriedPage(s, s', h, p, flag); } else { TryDelayedPage(s, s', h, p, flag, q); }
    }
    TryDelayedHeaps(s, s', h, p, flag);
  }

  /** The collect before a delayed free is done. */
  lemma KeepCollectDone(s: State, s': State, h: nat, p: nat)
    requires Protocol(s)
    requires CollectsFor(s, h, p) && L(s, ThreadFree(p)) == []
    requires s' == s.(heaps := s.heaps[h := s.heaps[h].(pass := s.heaps[h].pass.(stage := FreeBlock))])
    ensures Protocol(s')
  {
    assert HeapOk(s, h);
    WaitsKept(s, s');
    ClaimsKept(s, s');
    forall u ensures FreerOk(s', u) { assert FreerOk(s, u); }
    forall q ensures PageOk(s', q) { assert PageOk(s, q); if q != p { CollectingKept(s, s', q); } }
    forall q ensures ReclaimOk(s', q) { assert ReclaimOk(s, q); }
    forall g ensures HeapOk(s', g) { assert HeapOk(s, g); }
  }

  lemma FreeDelayedHeaps(s: State, s': State, h: nat, p: nat)
    requires Protocol(s)
    requires InPass(s, h, FreeBlock)
    requires p in s.pages && Moved(s.at, Current(h), 0, LocalFree(p), s'.at)
    requires s' == s.(pages := s.pages[p := s.pages[p].(used := s.pages[p].used - 1)],
                      heaps := s.heaps[h := s.heaps[h].(pass := s.heaps[h].pass.(stage := Idle))], at := s'.at)
    ensures forall q :: ReclaimOk(s', q)
    ensures forall g :: HeapOk(s', g)
  {
    assert forall a :: a != Current(h) && a != LocalFree(p) ==> L(s', a) == L(s, a);
    assert HeapOk(s, h);
    forall q ensures ReclaimOk(s', q) { assert ReclaimOk(s, q); }
    forall g ensures HeapOk(s', g) { assert HeapOk(s, g); }
  }

  lemma KeepFreeDelayed(s: State, s': State, h: nat, p: nat)
    requires Protocol(s)
    requires InPass(s, h, FreeBlock)
    requires p in s.pages && Moved(s.at, Current(h), 0, LocalFree(p), s'.at)
    requires s' == s.(pages := s.pages[p := s.pages[p].(used := s.pages[p].used - 1)],
                      heaps := s.heaps[h := s.heaps[h].(pass := s.heaps[h].pass.(stage := Idle))], at := s'.at)
    ensures Protocol(s')
  {
    assert forall a :: a != Current(h) && a != LocalFree(p) ==> L(s', a) == L(s, a);
    assert HeapOk(s, h);
    WaitsKept(s, s');
    ClaimsKept(s, s');
    forall u ensures FreerOk(s', u) { assert FreerOk(s, u); }
    forall q ensures PageOk(s', q) {
      assert PageOk(s, q);
      CollectingKept(s, s', q);
    }
    FreeDelayedHeaps(s, s', h, p);
  }

  lemma ReinsertDelayedHeaps(s: State, s': State, h: nat)
    requires Protocol(s)
    requires InPass(s, h, Reinsert)
    requires Moved(s.at, Current(h), 0, DelayedList(h), s'.at)
    requires s' == s.(heaps := s.heaps[h := s.heaps[h].(pass := s.heaps[h].pass.(stage := Idle))], at := s'.at)
    ensures forall q :: ReclaimOk(s', q)
    ensures forall g :: HeapOk(s', g)
  {
    assert forall a :: a != Current(h) && a != DelayedList(h) ==> L(s', a) == L(s, a);
    assert HeapOk(s, h);
    forall q ensures ReclaimOk(s', q) { assert ReclaimOk(s, q); }
    forall g ensures HeapOk(s', g) { assert HeapOk(s, g); }
  }

  lemma KeepReinsertDelayed(s: State, s': State, h: nat)
    requires Protocol(s)
    requires InPass(s, h, Reinsert)
    requires Moved(s.at, Current(h), 0, DelayedList(h), s'.at)
    requires s' == s.(heaps := s.heaps[h := s.heaps[h].(pass := s.heaps[h].pass.(stage := Idle))], at := s'.at)
    ensures Protocol(s')
  {
    assert forall a :: a != Current(h) && a != DelayedList(h) ==> L(s', a) == L(s, a);
    assert HeapOk(s, h);
    WaitsRetargeted(s, s', Current(h), DelayedList(h));
    ClaimsKept(s, s');
    forall u ensures FreerOk(s', u) { assert FreerOk(s, u); }
    forall q ensures PageOk(s', q) {
      assert PageOk(s, q);
      CollectingKept(s, s', q);
    }
    ReinsertDelayedHeaps(s, s', h);
  }

  lemma EndPassHeaps(s: State, s': State, h: nat, mode: Mode)
    requires Protocol(s)
    requires InPass(s, h, Idle) && L(s, Taken(h)) == []
    requires mode == if !s.heaps[h].pass.allFreed then s.heaps[h].mode
                     else if s.heaps[h].mode == Draining then Drained
                     else if s.heaps[h].mode == AbandonDraining then Abandoning
                     else s.heaps[h].mode
    requires s' == s.(heaps := s.heaps[h := Heap(mode, NoPass)])
    ensures forall q :: ReclaimOk(s', q)
    ensures forall g :: HeapOk(s', g)
  {
    assert HeapOk(s, h);
    forall q ensures ReclaimOk(s', q) { assert ReclaimOk(s, q); }
    forall g ensures HeapOk(s', g) { assert HeapOk(s, g); }
  }

  lemma KeepEndPass(s: State, s': State, h: nat, mode: Mode)
    requires Protocol(s)
    requires InPass(s, h, Idle) && L(s, Taken(h)) == []
    requires mode == if !s.heaps[h].pass.allFreed then s.heaps[h].mode
                     else if s.heaps[h].mode == Draining then Drained
                     else if s.heaps[h].mode == AbandonDraining then Abandoning
                     else s.heaps[h].mode
    requires s' == s.(heaps := s.heaps[h := Heap(mode, NoPass)])
    ensures Protocol(s')
  {
    assert HeapOk(s, h);
    WaitsKept(s, s');
    ClaimsKept(s, s');
    forall u ensures FreerOk(s', u) { assert FreerOk(s, u); }
    forall q ensures PageOk(s', q) { assert PageOk(s, q); CollectingKept(s, s', q); }
    EndPassHeaps(s, s', h, mode);
  }

  // ---------------------------------------------------------------- heap deletion and thread exit

  lemma KeepBeginAbsorb(s: State, s': State, h: nat, into: nat)
    requires Protocol(s)
    requires Quiet(s, h) && into != h && into in s.heaps && s.heaps[into].mode == Running
    requires s' == s.(heaps := s.heaps[h := s.heaps[h].(mode := Absorbed(into, None))])
    ensures Protocol(s')
  {
    assert HeapOk(s, h);
    WaitsKept(s, s');
    ClaimsKept(s, s');
    forall u ensures FreerOk(s', u) { assert FreerOk(s, u); }
    forall q ensures PageOk(s', q) { assert PageOk(s, q); CollectingKept(s, s', q); }
    forall q ensures ReclaimOk(s', q) { assert ReclaimOk(s, q); }
    forall g ensures HeapOk(s', g) { assert HeapOk(s, g); }
  }

  lemma KeepMovePage(s: State, s': State, h: nat, p: nat, into: nat)
    requires Protocol(s)
    requires h in s.heaps && s.heaps[h].mode == Absorbed(into, None)
    requires p in s.pages && s.pages[p].heap == Some(h)
    requires s' == s.(pages := s.pages[p := s.pages[p].(heap := Some(into))],
                      heaps := s.heaps[h := s.heaps[h].(mode := Absorbed(into, Some(p)))])
    ensures Protocol(s')
  {
    assert HeapOk(s, h);
    WaitsKept(s, s');
    ClaimsKept(s, s');
    forall u ensures FreerOk(s', u) { assert FreerOk(s, u); }
    forall q ensures PageOk(s', q) { assert PageOk(s, q); CollectingKept(s, s', q); }
    forall q ensures ReclaimOk(s', q) { assert ReclaimOk(s, q); }
    forall g ensures HeapOk(s', g) { assert HeapOk(s, g); }
  }

  lemma KeepUseMoved(s: State, s': State, h: nat, p: nat, flag: Flag)
    requires Protocol(s)
    requires h in s.heaps && s.heaps[h].mode.Absorbed? && s.heaps[h].mode.moving == Some(p)
    requires p in s.pages && s.pages[p].flag != Freeing
    requires flag == if s.pages[p].flag == Never then Never else UseDelayed
    requires s' == s.(pages := s.pages[p := s.pages[p].(flag := flag)],
                      heaps := s.heaps[h := s.heaps[h].(mode := Absorbed(s.heaps[h].mode.into, None))])
    ensures Protocol(s')
  {
    assert HeapOk(s, h);
    forall u ensures !Critical(s, u, p) { assert FreerOk(s, u); }
    WaitsKept(s, s');
    ClaimsKept(s, s');
    forall u ensures FreerOk(s', u) { assert FreerOk(s, u); }
    forall q ensures PageOk(s', q) { assert PageOk(s, q); CollectingKept(s, s', q); }
    forall q ensures ReclaimOk(s', q) { assert ReclaimOk(s, q); }
    forall g ensures HeapOk(s', g) { assert HeapOk(s, g); }
  }

  lemma KeepEndAbsorb(s: State, s': State, h: nat)
    requires Protocol(s)
    requires h in s.heaps && s.heaps[h].mode.Absorbed? && s.heaps[h].mode.moving == None
    requires forall p :: p in s.pages ==> s.pages[p].heap != Some(h)
    requires s' == s.(heaps := s.heaps[h := s.heaps[h].(mode := Draining)])
    ensures Protocol(s')
  {
    assert HeapOk(s, h);
    WaitsKept(s, s');
    ClaimsKept(s, s');
    forall u ensures FreerOk(s', u) { assert FreerOk(s, u); }
    forall q ensures PageOk(s', q) { assert PageOk(s, q); CollectingKept(s, s', q); }
    forall q ensures ReclaimOk(s', q) { assert ReclaimOk(s, q); }
    forall g ensures HeapOk(s', g) { assert HeapOk(s, g); }
  }

  lemma KeepBeginAbandon(s: State, s': State, h: nat)
    requires Protocol(s)
    requires Quiet(s, h)
    requires s' == s.(heaps := s.heaps[h := s.heaps[h].(mode := Marking)])
    ensures Protocol(s')
  {
    assert HeapOk(s, h);
    WaitsKept(s, s');
    ClaimsKept(s, s');
    forall u ensures FreerOk(s', u) { assert FreerOk(s, u); }
    forall q ensures PageOk(s', q) { assert PageOk(s, q); CollectingKept(s, s', q); }
    forall q ensures ReclaimOk(s', q) { assert ReclaimOk(s, q); }
    forall g ensures HeapOk(s', g) { assert HeapOk(s, g); }
  }

  lemma KeepMarkNever(s: State, s': State, h: nat, p: nat)
    requires Protocol(s)
    requires p in s.pages && s.pages[p].flag != Freeing && s.pages[p].heap == Some(h)
    requires h in s.heaps && s.heaps[h].mode == Marking
    requires s' == s.(pages := s.pages[p := s.pages[p].(flag := Never)])
    ensures Protocol(s')
  {
    forall u ensures !Critical(s, u, p) { assert FreerOk(s, u); }
    WaitsKept(s, s');
    ClaimsKept(s, s');
    forall u ensures FreerOk(s', u) { assert FreerOk(s, u); }
    forall q ensures PageOk(s', q) { assert PageOk(s, q); CollectingKept(s, s', q); }
    forall q ensures ReclaimOk(s', q) { assert ReclaimOk(s, q); }
    forall g ensures HeapOk(s', g) { assert HeapOk(s, g); }
  }

  lemma KeepEndMarking(s: State, s': State, h: nat)
    requires Protocol(s)
    requires h in s.heaps && s.heaps[h].mode == Marking
    requires forall p :: p in s.pages && s.pages[p].heap == Some(h) ==> s.pages[p].flag == Never
    requires s' == s.(heaps := s.heaps[h := s.heaps[h].(mode := AbandonDraining)])
    ensures Protocol(s')
  {
    assert HeapOk(s, h);
    WaitsKept(s, s');
    ClaimsKept(s, s');
    forall u ensures FreerOk(s', u) { assert FreerOk(s, u); }
    forall q ensures PageOk(s', q) { assert PageOk(s, q); CollectingKept(s, s', q); }
    forall q ensures ReclaimOk(s', q) { assert ReclaimOk(s, q); }
    forall g ensures HeapOk(s', g) { assert HeapOk(s, g); }
  }

  lemma KeepAbandonPage(s: State, s': State, h: nat, p: nat)
    requires Protocol(s)
    requires h in s.heaps && s.heaps[h].mode == Abandoning
    requires p in s.pages && s.pages[p].heap == Some(h)
    requires s' == s.(pages := s.pages[p := s.pages[p].(heap := None)])
    ensures Protocol(s')
  {
    assert HeapOk(s, h) && PageOk(s, p);
    forall u ensures !Critical(s, u, p) { assert FreerOk(s, u); }
    WaitsKept(s, s');
    ClaimsKept(s, s');
    forall u ensures FreerOk(s', u) { assert FreerOk(s, u); }
    forall q ensures PageOk(s', q) { assert PageOk(s, q); CollectingKept(s, s', q); }
    forall q ensures ReclaimOk(s', q) { assert ReclaimOk(s, q); }
    forall g ensures HeapOk(s', g) { assert HeapOk(s, g); }
  }

  lemma DropHeapHeaps(s: State, s': State, h: nat)
    requires Protocol(s)
    requires h in s.heaps && (s.heaps[h].mode in {Drained, Abandoning} || Quiet(s, h))
    requires forall p :: p in s.pages ==> s.pages[p].heap != Some(h)
    requires forall a :: At(s'.at, a) == L(s, a)
    requires L(s, DelayedList(h)) == [] && L(s, Taken(h)) == [] && L(s, Current(h)) == []
    requires s' == s.(heaps := s.heaps - {h}, at := s'.at)
    ensures forall q :: ReclaimOk(s', q)
    ensures forall g :: HeapOk(s', g)
  {
    forall q ensures ReclaimOk(s', q) { assert ReclaimOk(s, q); }
    forall g ensures HeapOk(s', g) { assert HeapOk(s, g); }
  }

  lemma KeepDropHeap(s: State, s': State, h: nat)
    requires Protocol(s)
    requires h in s.heaps && (s.heaps[h].mode in {Drained, Abandoning} || Quiet(s, h))
    requires forall p :: p in s.pages ==> s.pages[p].heap != Some(h)
    requires forall a :: At(s'.at, a) == L(s, a)
    requires L(s, DelayedList(h)) == [] && L(s, Taken(h)) == [] && L(s, Current(h)) == []
    requires s' == s.(heaps := s.heaps - {h}, at := s'.at)
    ensures Protocol(s')
  {
    assert HeapOk(s, h);
    WaitsKept(s, s');
    ClaimsKept(s, s');
    forall u ensures FreerOk(s', u) { assert FreerOk(s, u); }
    forall q ensures PageOk(s', q) { assert PageOk(s, q); CollectingKept(s, s', q); }
    DropHeapHeaps(s, s', h);
  }

  lemma KeepReclaimPage(s: State, s': State, p: nat, h: nat)
    requires Protocol(s)
    requires p in s.pages && s.pages[p].heap == None
    requires h in s.heaps && s.heaps[h].mode == Running
    requires s' == s.(pages := s.pages[p := s.pages[p].(heap := Some(h))], reclaiming := s.reclaiming[p := HeapSet])
    ensures Protocol(s')
  {
    assert PageOk(s, p);
    forall u ensures !Critical(s, u, p) { assert FreerOk(s, u); }
    WaitsKept(s, s');
    ClaimsKept(s, s');
    forall u ensures FreerOk(s', u) { assert FreerOk(s, u); }
    forall q ensures PageOk(s', q) { assert PageOk(s, q); if q != p { CollectingKept(s, s', q); } }
    forall q ensures ReclaimOk(s', q) { assert ReclaimOk(s, q); }
    forall g ensures HeapOk(s', g) { assert HeapOk(s, g); }
  }

  lemma KeepReclaimUse(s: State, s': State, p: nat)
    requires Protocol(s)
    requires p in s.reclaiming && p in s.pages && s.pages[p].flag != Freeing
    requires s' == s.(pages := s.pages[p := s.pages[p].(flag := UseDelayed)], reclaiming := s.reclaiming[p := FlagSet])
    ensures Protocol(s')
  {
    assert PageOk(s, p) && ReclaimOk(s, p);
    forall u ensures !Critical(s, u, p) { assert FreerOk(s, u); }
    WaitsKept(s, s');
    ClaimsKept(s, s');
    forall u ensures FreerOk(s', u) { assert FreerOk(s, u); }
    forall q ensures PageOk(s', q) { assert PageOk(s, q); if q != p { CollectingKept(s, s', q); } }
    forall q ensures ReclaimOk(s', q) { assert ReclaimOk(s, q); }
    forall g ensures HeapOk(s', g) { assert HeapOk(s, g); }
  }

  lemma KeepReclaimDone(s: State, s': State, p: nat)
    requires Protocol(s)
    requires p in s.reclaiming && L(s, ThreadFree(p)) == []
    requires s' == s.(reclaiming := s.reclaiming - {p})
    ensures Protocol(s')
  {
    WaitsKept(s, s');
    ClaimsKept(s, s');
    forall u ensures FreerOk(s', u) { assert FreerOk(s, u); }
    forall q ensures PageOk(s', q) { assert PageOk(s, q); if q != p { CollectingKept(s, s', q); } }
    forall q ensures ReclaimOk(s', q) { assert ReclaimOk(s, q); }
    forall g ensures HeapOk(s', g) { assert HeapOk(s, g); }
  }

  // ---------------------------------------------------------------- placement

  lemma SameBlocks(s: State, s': State)
    requires s'.pages.Keys == s.pages.Keys
    requires forall p :: p in s.pages ==> s'.pages[p].capacity == s.pages[p].capacity
    ensures Blocks(s') == Blocks(s)
  {
  }

  /** A list with no element of any kind is empty. */
  lemma NoBlocks(list: seq<Block>)
    requires forall b :: b !in list
    ensures list == []
  {
    HeadIn(list);
  }

  lemma HeadIn(list: seq<Block>)
    ensures list != [] ==> list[0] in list
  {
  }

  /** May a block of page `p` be put there? */
  predicate Fits(a: Anchor, p: nat) {
    (a.Free? || a.LocalFree? || a.ThreadFree? ==> a.page == p) && !a.Lost?
  }

  lemma MovePlaced(s: State, s': State, src: Anchor, i: nat, dst: Anchor)
    requires Placed(s) && src != dst && i < |L(s, src)| && Fits(dst, L(s, src)[i].page)
    requires s'.at == MoveAt(s.at, src, i, dst) && Blocks(s') == Blocks(s)
    ensures Moved(s.at, src, i, dst, s'.at) && Placed(s')
    ensures L(s, src)[i].page in s.pages
  {
    MoveAtExact(s.at, src, i, dst, Blocks(s));
    ElementIn(s, src, L(s, src)[i]);
    MoveOnOwnPage(s, s', src, i, dst);
  }

  lemma MoveOnOwnPage(s: State, s': State, src: Anchor, i: nat, dst: Anchor)
    requires OnOwnPage(s) && Moved(s.at, src, i, dst, s'.at) && Fits(dst, L(s, src)[i].page)
    ensures OnOwnPage(s')
  {
    assert L(s, src)[i] in L(s, src);
    forall a, b | b in L(s', a) ensures b in L(s, a) || (a == dst && b == L(s, src)[i]) {
    }
  }

  lemma SplicePlaced(s: State, s': State, src: Anchor, dst: Anchor)
    requires Placed(s) && src != dst && dst != Lost && (forall b :: b in L(s, src) ==> Fits(dst, b.page))
    requires s'.at == MoveAll(s.at, src, dst) && Blocks(s') == Blocks(s)
    ensures Spliced(s.at, src, dst, s'.at) && Placed(s')
  {
    MoveAllExact(s.at, src, dst, Blocks(s));
    forall a, b | b in L(s', a) ensures b in L(s, a) || (a == dst && b in L(s, src)) {
    }
  }

  // ---------------------------------------------------------------- every step

  lemma FreerKeepsInv(s: State, t: nat, step: FreerStep)
    requires Inv(s) && FreerEnabled(s, t, step)
    ensures Inv(FreerApply(s, t, step))
  {
    if step.EnterFree? || step.PushThreadFree? || step.PushDelayed? {
      FreerMovesKeepInv(s, t, step);
    } else {
      var s' := FreerApply(s, t, step);
      FreerStaysKeep(s, s', t, step);
      SamePlaced(s, s');
    }
  }

  /** The steps of a freer that move the block. */
  lemma FreerMovesKeepInv(s: State, t: nat, step: FreerStep)
    requires Inv(s) && FreerEnabled(s, t, step) && (step.EnterFree? || step.PushThreadFree? || step.PushDelayed?)
    ensures Inv(FreerApply(s, t, step))
  {
    var s' := FreerApply(s, t, step);
    assert FreerOk(s, t);
    match step
    case EnterFree(i) =>
      MovePlaced(s, s', Client, i, Freer(t));
      KeepEnterFree(s, s', t, i);
    case PushThreadFree =>
      var p := s.freers[t].page;
      ElementIn(s, Freer(t), L(s, Freer(t))[0]);
      MovePlaced(s, s', Freer(t), 0, ThreadFree(p));
      KeepPushThreadFree(s, s', t, p);
    case PushDelayed =>
      var p, h := s.freers[t].page, s.freers[t].heap;
      MovePlaced(s, s', Freer(t), 0, DelayedList(h));
      KeepPushDelayed(s, s', t, p, h);
  }

  /** The other steps of a freer: the page it has a block of exists, and its heap too. */
  lemma FreerStaysKeep(s: State, s': State, t: nat, step: FreerStep)
    requires Inv(s) && FreerEnabled(s, t, step) && (step.ClaimPage? || step.ReadHeap? || step.ReleasePage?)
    requires s' == FreerApply(s, t, step)
    ensures Protocol(s') && s'.at == s.at && Blocks(s') == Blocks(s)
  {
    assert FreerOk(s, t);
    var p := s.freers[t].page;
    match step
    case ClaimPage =>
      ElementIn(s, Freer(t), L(s, Freer(t))[0]);
      KeepClaimPage(s, s', t, p);
      SameBlocks(s, s');
    case ReadHeap =>
      assert Critical(s, t, p) && PageOk(s, p);
      KeepReadHeap(s, s', t, p, s.pages[p].heap.value);
      SameBlocks(s, s');
    case ReleasePage =>
      assert Critical(s, t, p);
      KeepReleasePage(s, s', t, p);
      SameBlocks(s, s');
  }

  lemma CollectKeepsInv(s: State, p: nat)
    requires Inv(s) && p in s.pages
    ensures Inv(Collected(s, p)) && L(Collected(s, p), ThreadFree(p)) == []
    ensures forall h :: L(Collected(s, p), Current(h)) == L(s, Current(h))
  {
    var s' := Collected(s, p);
    ThreadFreeFits(s, p);
    SameBlocks(s, s');
    SplicePlaced(s, s', ThreadFree(p), LocalFree(p));
    KeepCollectThreadFree(s, s', p);
  }

  lemma NewPageKeepsInv(s: State, s': State, p: nat, h: nat, reserved: nat)
    requires Inv(s) && PageEnabled(s, p, NewPage(h, reserved))
    requires s' == s.(pages := s.pages[p := Page(0, reserved, 0, UseDelayed, Some(h))])
    ensures Inv(s')
  {
    forall a, b | b in L(s, a) ensures b.page != p { ElementIn(s, a, b); }
    NoBlocks(L(s, Free(p)));
    NoBlocks(L(s, LocalFree(p)));
    NoBlocks(L(s, ThreadFree(p)));
    KeepNewPage(s, s', p, h, reserved);
    assert Blocks(s') == Blocks(s);
    SamePlaced(s, s');
  }

  lemma FreeLocalKeepsInv(s: State, s': State, p: nat, i: nat)
    requires Inv(s) && i < |L(s, Client)| && L(s, Client)[i].page == p && s' == FreedLocally(s, Client, i)
    ensures Inv(s')
  {
    ElementIn(s, Client, L(s, Client)[i]);
    assert s' == s.(pages := s.pages[p := s.pages[p].(used := s.pages[p].used - 1)], at := s'.at);
    SameBlocks(s, s');
    MovePlaced(s, s', Client, i, LocalFree(p));
    KeepFreeLocal(s, s', p, i);
  }

  lemma MallocKeepsInv(s: State, s': State, p: nat)
    requires Inv(s) && PageEnabled(s, p, Malloc) && s' == PageApply(s, p, Malloc)
    ensures Inv(s')
  {
    assert s' == s.(pages := s.pages[p := s.pages[p].(used := s.pages[p].used + 1)], at := s'.at);
    SameBlocks(s, s');
    MovePlaced(s, s', Free(p), 0, Client);
    KeepMalloc(s, s', p);
  }

  lemma FreePageKeepsInv(s: State, s': State, p: nat)
    requires Inv(s) && PageEnabled(s, p, FreePage) && s' == PageApply(s, p, FreePage)
    ensures Inv(s')
  {
    assert PageOk(s, p);
    AllHome(s, p);
    FreePlaced(s, s', p);
    KeepFreePage(s, s', p);
  }

  lemma PageKeepsInv(s: State, p: nat, step: PageStep)
    requires Inv(s) && PageEnabled(s, p, step)
    ensures Inv(PageApply(s, p, step))
  {
    var s' := PageApply(s, p, step);
    assert PageOk(s, p);
    match step
    case NewPage(h, reserved) =>
      NewPageKeepsInv(s, s', p, h, reserved);
    case Extend(order) =>
      ExtendPlaced(s, s', p, order);
      KeepExtend(s, s', p, order);
    case Malloc =>
      MallocKeepsInv(s, s', p);
    case FreeLocal(i) =>
      FreeLocalKeepsInv(s, s', p, i);
    case CollectThreadFree =>
      CollectKeepsInv(s, p);
    case CollectLocalFree =>
      SplicePlaced(s, s', LocalFree(p), Free(p));
      KeepCollectLocalFree(s, s', p);
    case FreePage =>
      FreePageKeepsInv(s, s', p);
  }

  lemma ExtendPlaced(s: State, s': State, p: nat, order: seq<Block>)
    requires Placed(s) && p in s.pages && NewBlocks(s, p, order)
    requires s' == s.(pages := s.pages[p := s.pages[p].(capacity := s.pages[p].capacity + |order|)],
                      at := AddAll(s.at, order, Free(p)))
    ensures Placed(s')
  {
    AddAllExact(s.at, order, Free(p), Blocks(s), Blocks(s'));
    forall a, b | b in L(s', a) ensures b in L(s, a) || (a == Free(p) && b in order) {
    }
  }

  lemma FreePlaced(s: State, s': State, p: nat)
    requires Placed(s) && p in s.pages
    requires forall a, b :: b in L(s, a) && b.page == p ==> a == Free(p) || a == LocalFree(p)
    requires s' == s.(pages := s.pages - {p}, at := DropLists(s.at, {Free(p), LocalFree(p), ThreadFree(p)}))
    ensures Placed(s') && L(s, ThreadFree(p)) == []
    ensures forall a :: L(s', a) == if a in {Free(p), LocalFree(p), ThreadFree(p)} then [] else L(s, a)
  {
    assert forall b :: b in L(s, ThreadFree(p)) ==> b.page == p;
    NoBlocks(L(s, ThreadFree(p)));
    forall a, b | b in At(s.at, a)
      ensures a in {Free(p), LocalFree(p), ThreadFree(p)} <==> b !in Blocks(s')
    {
      ElementIn(s, a, b);
    }
    DropListsExact(s.at, {Free(p), LocalFree(p), ThreadFree(p)}, Blocks(s), Blocks(s'));
  }

  lemma CollectDelayedKeepsInv(s: State, h: nat)
    requires Inv(s) && PassEnabled(s, h, CollectDelayed)
    ensures Inv(PassApply(s, h, CollectDelayed))
  {
    var p := L(s, Current(h))[0].page;
    ElementIn(s, Current(h), L(s, Current(h))[0]);
    CollectKeepsInv(s, p);
    var mid, s' := Collected(s, p), PassApply(s, h, CollectDelayed);
    KeepCollectDone(mid, s', h, p);
    assert Blocks(s') == Blocks(mid) && s'.at == mid.at;
    SamePlaced(mid, s');
  }

  lemma ReclaimCollectKeepsInv(s: State, p: nat)
    requires Inv(s) && ReclaimEnabled(s, p, ReclaimCollect)
    ensures Inv(ReclaimApply(s, p, ReclaimCollect))
  {
    assert ReclaimOk(s, p);
    CollectKeepsInv(s, p);
    var mid, s' := Collected(s, p), ReclaimApply(s, p, ReclaimCollect);
    KeepReclaimDone(mid, s', p);
    assert Blocks(s') == Blocks(mid) && s'.at == mid.at;
    SamePlaced(mid, s');
  }

  lemma SamePlaced(s: State, s': State)
    requires Placed(s) && s'.at == s.at && Blocks(s') == Blocks(s)
    ensures Placed(s')
  {
  }

  lemma TryDelayedKeepsInv(s: State, h: nat)
    requires Inv(s) && PassEnabled(s, h, TryDelayed)
    ensures Inv(PassApply(s, h, TryDelayed))
  {
    var s' := PassApply(s, h, TryDelayed);
    var p := L(s, Taken(h))[0].page;
    ElementIn(s, Taken(h), L(s, Taken(h))[0]);
    SameBlocks(s, s');
    MovePlaced(s, s', Taken(h), 0, Current(h));
    if s.pages[p].flag == Freeing {
      KeepGiveUp(s, s', h);
    } else {
      KeepTryDelayed(s, s', h, p, if s.pages[p].flag == Never then Never else UseDelayed);
    }
  }

  lemma FreeDelayedKeepsInv(s: State, h: nat)
    requires Inv(s) && PassEnabled(s, h, FreeDelayed)
    ensures Inv(PassApply(s, h, FreeDelayed))
  {
    var s' := PassApply(s, h, FreeDelayed);
    var p := L(s, Current(h))[0].page;
    ElementIn(s, Current(h), L(s, Current(h))[0]);
    assert s' == s.(pages := s.pages[p := s.pages[p].(used := s.pages[p].used - 1)],
                    heaps := s.heaps[h := s.heaps[h].(pass := s.heaps[h].pass.(stage := Idle))], at := s'.at);
    SameBlocks(s, s');
    MovePlaced(s, s', Current(h), 0, LocalFree(p));
    KeepFreeDelayed(s, s', h, p);
  }

  lemma PassKeepsInv(s: State, h: nat, step: PassStep)
    requires Inv(s) && PassEnabled(s, h, step)
    ensures Inv(PassApply(s, h, step))
  {
    var s' := PassApply(s, h, step);
    assert HeapOk(s, h);
    match step
    case TakeDelayed =>
      SameBlocks(s, s');
      SplicePlaced(s, s', DelayedList(h), Taken(h));
      KeepTakeDelayed(s, s', h);
    case TryDelayed =>
      TryDelayedKeepsInv(s, h);
    case CollectDelayed =>
      CollectDelayedKeepsInv(s, h);
    case FreeDelayed =>
      FreeDelayedKeepsInv(s, h);
    case ReinsertDelayed =>
      SameBlocks(s, s');
      MovePlaced(s, s', Current(h), 0, DelayedList(h));
      KeepReinsertDelayed(s, s', h);
    case EndPass =>
      SameBlocks(s, s');
      KeepEndPass(s, s', h, s'.heaps[h].mode);
  }

  lemma HeapKeepsInv(s: State, h: nat, step: HeapStep)
    requires Inv(s) && HeapEnabled(s, h, step)
    ensures Inv(HeapApply(s, h, step))
  {
    if step.DropHeap? {
      DropKeepsInv(s, h);
    } else {
      var s' := HeapApply(s, h, step);
      HeapKeeps(s, s', h, step);
      SamePlaced(s, s');
    }
  }

  /** The steps that leave all blocks where they are. */
  lemma HeapKeeps(s: State, s': State, h: nat, step: HeapStep)
    requires Protocol(s) && HeapEnabled(s, h, step) && !step.DropHeap? && s' == HeapApply(s, h, step)
    ensures Protocol(s') && s'.at == s.at && Blocks(s') == Blocks(s)
  {
    assert HeapOk(s, h);
    match step
    case NewHeap =>
      KeepNewHeap(s, s', h);
    case BeginAbsorb(into) =>
      KeepBeginAbsorb(s, s', h, into);
    case MovePage(p) =>
      SameBlocks(s, s');
      KeepMovePage(s, s', h, p, s.heaps[h].mode.into);
    case UseMoved =>
      var p := s.heaps[h].mode.moving.value;
      SameBlocks(s, s');
      KeepUseMoved(s, s', h, p, if s.pages[p].flag == Never then Never else UseDelayed);
    case EndAbsorb =>
      KeepEndAbsorb(s, s', h);
    case BeginAbandon =>
      KeepBeginAbandon(s, s', h);
    case MarkNever(p) =>
      SameBlocks(s, s');
      KeepMarkNever(s, s', h, p);
    case EndMarking =>
      KeepEndMarking(s, s', h);
    case AbandonPage(p) =>
      assert PageOk(s, p);
      SameBlocks(s, s');
      KeepAbandonPage(s, s', h, p);
  }

  /** A heap that can be dropped has nothing left to free. */
  lemma DroppedEmpty(s: State, h: nat)
    requires Protocol(s) && HeapEnabled(s, h, DropHeap)
    ensures L(s, DelayedList(h)) == [] && L(s, Taken(h)) == [] && L(s, Current(h)) == []
  {
    assert HeapOk(s, h);
    if s.heaps[h].mode == Running {
      NoBlocks(L(s, DelayedList(h)));
    }
  }

  lemma DropKeepsInv(s: State, h: nat)
    requires Inv(s) && HeapEnabled(s, h, DropHeap)
    ensures Inv(HeapApply(s, h, DropHeap))
  {
    var s' := HeapApply(s, h, DropHeap);
    DroppedEmpty(s, h);
    var mid := s.(at := MoveAll(s.at, DelayedList(h), Lost));
    SplicePlaced0(s, mid, DelayedList(h));
    SplicePlaced0(mid, s', Taken(h));
    KeepDropHeap(s, s', h);
  }

  /** Losing an empty list loses nothing. */
  lemma SplicePlaced0(s: State, s': State, src: Anchor)
    requires Placed(s) && src != Lost && L(s, src) == []
    requires s'.at == MoveAll(s.at, src, Lost) && Blocks(s') == Blocks(s)
    ensures Placed(s') && forall a :: L(s', a) == L(s, a)
  {
    MoveAllExact(s.at, src, Lost, Blocks(s));
    assert forall a :: L(s', a) == L(s, a);
  }

  lemma ReclaimKeepsInv(s: State, p: nat, step: ReclaimStep)
    requires Inv(s) && ReclaimEnabled(s, p, step)
    ensures Inv(ReclaimApply(s, p, step))
  {
    var s' := ReclaimApply(s, p, step);
    assert ReclaimOk(s, p) && PageOk(s, p);
    match step
    case ReclaimPage(h) =>
      SameBlocks(s, s');
      KeepReclaimPage(s, s', p, h);
    case ReclaimUse =>
      SameBlocks(s, s');
      KeepReclaimUse(s, s', p);
    case ReclaimCollect =>
      ReclaimCollectKeepsInv(s, p);
  }

  lemma StepKeepsInv(s: State, a: Action)
    requires Inv(s) && Enabled(s, a)
    ensures Inv(Apply(s, a))
  {
    match a
    case ByFreer(t, step) => FreerKeepsInv(s, t, step);
    case OnPage(p, step) => PageKeepsInv(s, p, step);
    case InHeapPass(h, step) => PassKeepsInv(s, h, step);
    case OnHeap(h, step) => HeapKeepsInv(s, h, step);
    case OnReclaim(p, step) => ReclaimKeepsInv(s, p, step);
  }
}
