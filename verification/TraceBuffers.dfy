/** Per-thread trace buffers and the one thread that drains them.

    A traced thread writes into a chain of buffers; when a buffer is full it links a new one
    behind it and retires the full one by storing where its data ends.  The drainer goes through
    the chains: it sends what has been committed to the oldest buffer and, when the buffer is
    retired and everything in it has been sent, goes on to the next one and gives the buffer
    back to the pool.  Every step below is one atomic operation, or work on what only the
    stepping thread can reach. */
module TraceBuffers {
  import opened Options
  import opened Placement

  /** `data` is what has been written so far; the first `committed` bytes may be sent, the first
      `reaped` have been.  `etx` is where the data ends once the buffer is retired. */
  datatype Buffer = Buffer(data: seq<int>, committed: nat, reaped: nat, etx: Option<nat>)

  /** Where a buffer is linked in.  A chain is listed from the newest buffer to the oldest. */
  datatype Anchor = Pool | Taken(thread: nat) | Chain(thread: nat) | Retired

  /** A thread that writes: has no buffer yet; writes into the newest buffer of its chain; has
      linked a next buffer but not retired the one before; has ended. */
  datatype Writer = Writing | Linked | Ended

  /** What the drainer is doing: whether it drains all threads or one only, and the value of
      `Committed` it has just loaded. */
  datatype Drain = Idle | Draining(only: Option<nat>, loaded: Option<nat>)

  datatype State = State(
    bufs: map<nat, Buffer>,
    at: Lists<Anchor, nat>,
    writers: map<nat, Writer>,
    written: map<nat, seq<int>>,
    sent: map<nat, seq<int>>,
    started: seq<nat>,
    todo: seq<nat>,
    active: seq<nat>,
    drain: Drain)

  datatype WriterStep =
    | MapPage(blocks: seq<nat>)
    | Take
    | Publish(bytes: seq<int>)
    | Link(bytes: seq<int>)
    | RetireOld
    | Write(bytes: seq<int>)
    | Commit(b: nat, upTo: nat)
    | End

  datatype DrainStep = BeginAll | BeginLocal(t: nat) | Skip | LoadCommitted | LoadEtx | Finish

  datatype Action = ByWriter(t: nat, w: WriterStep) | ByDrainer(d: DrainStep)

  function L(s: State, a: Anchor): seq<nat> {
    At(s.at, a)
  }

  function Sent(s: State, t: nat): seq<int> {
    if t in s.sent then s.sent[t] else []
  }

  function Written(s: State, t: nat): seq<int> {
    if t in s.written then s.written[t] else []
  }

  predicate Is(s: State, t: nat, w: Writer) {
    t in s.writers && s.writers[t] == w
  }

  function Blank(bytes: seq<int>): Buffer {
    Buffer(bytes, |bytes|, 0, None)
  }

  /** The oldest buffer of a chain. */
  function Oldest(s: State, t: nat): nat
    requires L(s, Chain(t)) != []
  {
    L(s, Chain(t))[|L(s, Chain(t))| - 1]
  }

  function Reversed(q: seq<nat>): (r: seq<nat>)
    ensures multiset(r) == multiset(q)
  {
    if q == [] then [] else
    assert q == [q[0]] + q[1..];
    Reversed(q[1..]) + [q[0]]
  }

  ghost predicate WriterEnabled(s: State, t: nat, step: WriterStep) {
    match step
    case MapPage(blocks) => blocks != [] && Distinct(blocks) && forall b :: b in blocks ==> b !in s.bufs
    case Take =>
      && L(s, Taken(t)) == [] && L(s, Pool) != [] && L(s, Pool)[0] in s.bufs && !Is(s, t, Linked)
      && !Is(s, t, Ended)
    case Publish(_) => t !in s.writers && L(s, Taken(t)) != [] && L(s, Taken(t))[0] in s.bufs
    case Link(_) => Is(s, t, Writing) && L(s, Taken(t)) != [] && L(s, Taken(t))[0] in s.bufs
    case RetireOld => Is(s, t, Linked) && |L(s, Chain(t))| >= 2 && L(s, Chain(t))[1] in s.bufs
    case Write(_) => Is(s, t, Writing) && L(s, Chain(t)) != [] && L(s, Chain(t))[0] in s.bufs
    case Commit(b, upTo) =>
      && b in L(s, Chain(t)) && b in s.bufs && s.bufs[b].committed < upTo <= |s.bufs[b].data|
    case End => Is(s, t, Writing) && L(s, Chain(t)) != [] && L(s, Chain(t))[0] in s.bufs
  }

  /** `Publish` and `Link` put a fresh buffer in place, with what was traced while it was being
      allocated already committed to it.  `Commit` may come late: an event that runs over into
      the next buffer is committed when it is complete. */
  ghost function WriterApply(s: State, t: nat, step: WriterStep): State
    requires WriterEnabled(s, t, step)
  {
    match step
    case MapPage(blocks) =>
      s.(bufs := map b | b in s.bufs.Keys + SetOf(blocks) :: if b in s.bufs then s.bufs[b] else Blank([]),
         at := AddAll(s.at, blocks, Pool))
    case Take =>
      s.(at := MoveAt(s.at, Pool, 0, Taken(t)))
    case Publish(bytes) =>
      s.(bufs := s.bufs[L(s, Taken(t))[0] := Blank(bytes)], at := MoveAt(s.at, Taken(t), 0, Chain(t)),
         writers := s.writers[t := Writing], written := s.written[t := Written(s, t) + bytes],
           started := [t] + s.started)
    case Link(bytes) =>
      s.(bufs := s.bufs[L(s, Taken(t))[0] := Blank(bytes)], at := MoveAt(s.at, Taken(t), 0, Chain(t)),
         writers := s.writers[t := Linked], written := s.written[t := Written(s, t) + bytes])
    case RetireOld =>
      var b := L(s, Chain(t))[1];
      s.(bufs := s.bufs[b := s.bufs[b].(etx := Some(|s.bufs[b].data|))], writers := s.writers[t := Writing])
    case Write(bytes) =>
      var b := L(s, Chain(t))[0];
      s.(bufs := s.bufs[b := s.bufs[b].(data := s.bufs[b].data + bytes)],
         written := s.written[t := Written(s, t) + bytes])
    case Commit(b, upTo) =>
      s.(bufs := s.bufs[b := s.bufs[b].(committed := upTo)])
    case End =>
      var b := L(s, Chain(t))[0];
      s.(bufs := s.bufs[b := s.bufs[b].(etx := Some(|s.bufs[b].data|))], writers := s.writers[t := Ended])
  }

  ghost function SetOf(blocks: seq<nat>): set<nat> {
    set b | b in blocks
  }

  predicate AtThread(s: State) {
    s.drain.Draining? && s.todo != [] && L(s, Chain(s.todo[0])) != [] && Oldest(s, s.todo[0]) in s.bufs
  }

  predicate DrainEnabled(s: State, step: DrainStep) {
    match step
    case BeginAll => s.drain == Idle
    case BeginLocal(t) => s.drain == Idle
    case Skip =>
      && s.drain.Draining? && s.todo != [] && s.drain.only.Some? && s.drain.only.value != s.todo[0]
      && s.drain.loaded == None
    case LoadCommitted =>
      && AtThread(s) && s.drain.loaded == None && (s.drain.only.Some? ==> s.drain.only.value == s.todo[0])
    case LoadEtx => AtThread(s) && s.drain.loaded.Some?
    case Finish => s.drain.Draining? && s.todo == []
  }

  function DrainApply(s: State, step: DrainStep): State
    requires DrainEnabled(s, step)
  {
    match step
    case BeginAll =>
      // the new threads are claimed with one exchange and put in order of age
      s.(todo := s.active + Reversed(s.started), active := [], started := [], drain := Draining(None, None))
    case BeginLocal(t) =>
      s.(todo := s.active, active := [], drain := Draining(Some(t), None))
    case Skip =>
      s.(todo := s.todo[1..], active := [s.todo[0]] + s.active)
    case LoadCommitted =>
      var t := s.todo[0];
      var b := Oldest(s, t);
      var c := s.bufs[b].committed;
      var from := s.bufs[b].reaped;
      s.(sent := s.sent[t := Sent(s, t) + if from <= c <= |s.bufs[b].data| then s.bufs[b].data[from..c] else []],
         bufs := s.bufs[b := s.bufs[b].(reaped := c)],
         drain := s.drain.(loaded := Some(c)))
    case LoadEtx =>
      var t := s.todo[0];
      var b := Oldest(s, t);
      var inUse := s.bufs[b].etx == None || s.bufs[b].etx.value > s.drain.loaded.value;
      if inUse then
        s.(todo := s.todo[1..], active := [t] + s.active, drain := s.drain.(loaded := None))
      else
        s.(at := MoveAt(s.at, Chain(t), |L(s, Chain(t))| - 1, Retired), drain := s.drain.(loaded := None),
           todo := if |L(s, Chain(t))| == 1 then s.todo[1..] else s.todo)
    case Finish =>
      s.(at := MoveAll(s.at, Retired, Pool), drain := Idle)
  }

  ghost predicate Enabled(s: State, a: Action) {
    match a
    case ByWriter(t, w) => WriterEnabled(s, t, w)
    case ByDrainer(d) => DrainEnabled(s, d)
  }

  ghost function Apply(s: State, a: Action): State
    requires Enabled(s, a)
  {
    match a
    case ByWriter(t, w) => WriterApply(s, t, w)
    case ByDrainer(d) => DrainApply(s, d)
  }

  ghost predicate Next(s: State, s': State) {
    exists a :: Enabled(s, a) && s' == Apply(s, a)
  }

  ghost predicate Init(s: State) {
    s == State(map[], map[], map[], map[], map[], [], [], [], Idle)
  }

  ghost predicate Run(r: seq<State>) {
    && r != [] && Init(r[0])
    && (forall k :: 0 < k < |r| ==> Next(r[k - 1], r[k]))
  }

  // ---------------------------------------------------------------- the invariant

  /** What is still to be sent of a buffer. */
  ghost function Part(bufs: map<nat, Buffer>, b: nat): seq<int> {
    if b in bufs && bufs[b].reaped <= |bufs[b].data| then bufs[b].data[bufs[b].reaped..] else []
  }

  /** What is still to be sent of a chain, oldest buffer first. */
  ghost function Rest(bufs: map<nat, Buffer>, chain: seq<nat>): seq<int> {
    if chain == [] then [] else Rest(bufs, chain[1..]) + Part(bufs, chain[0])
  }

  ghost predicate BufferOk(s: State, b: nat) {
    b in s.bufs ==>
      var u := s.bufs[b];
      u.reaped <= u.committed <= |u.data| && (u.etx.Some? ==> u.etx.value == |u.data|)
  }

  /** Whether the buffer at position `i` of the chain must be retired. */
  predicate Closed(s: State, t: nat, i: nat) {
    if i == 0 then Is(s, t, Ended) else !(i == 1 && Is(s, t, Linked))
  }

  /** All buffers of a chain but the newest are retired, save the second newest between linking
      and retiring; the newest is retired when the thread has ended. */
  ghost predicate ChainOk(s: State, t: nat) {
    var chain := L(s, Chain(t));
    && (forall i :: 0 <= i < |chain| ==> chain[i] in s.bufs && (s.bufs[chain[i]].etx.Some? <==> Closed(s, t, i)))
    && (chain == [] ==> t !in s.writers || s.writers[t] == Ended)
    && (chain != [] ==> t in s.writers)
    && (Is(s, t, Linked) ==> |chain| >= 2)
  }

  /** What has been sent and what is in the chain make up what has been written. */
  ghost predicate StreamOk(s: State, t: nat) {
    Sent(s, t) + Rest(s.bufs, L(s, Chain(t))) == Written(s, t)
  }

  /** A thread with a chain is on exactly one of the thread lists, once. */
  ghost predicate ListedOk(s: State, t: nat) {
    (multiset(s.started) + multiset(s.todo) + multiset(s.active))[t] == if L(s, Chain(t)) != [] then 1 else 0
  }

  ghost predicate TakenOk(s: State, t: nat) {
    |L(s, Taken(t))| <= 1
  }

  /** What the drainer has loaded has been sent. */
  ghost predicate DrainOk(s: State) {
    && (s.drain == Idle ==> s.todo == [] && L(s, Retired) == [])
    && (s.drain.Draining? && s.drain.loaded.Some? ==>
        AtThread(s) && s.bufs[Oldest(s, s.todo[0])].reaped == s.drain.loaded.value)
  }

  /** Buffers on their way back to the pool have been sent completely. */
  ghost predicate RetiredOk(s: State, b: nat) {
    b in L(s, Retired) ==> b in s.bufs && s.bufs[b].reaped == |s.bufs[b].data|
  }

  ghost predicate ThreadOk(s: State, t: nat) {
    ChainOk(s, t) && StreamOk(s, t) && TakenOk(s, t)
  }

  /** Every thread with a chain is listed once. */
  ghost predicate AllListed(s: State) {
    forall t :: ListedOk(s, t)
  }

  ghost predicate Protocol(s: State) {
    && DrainOk(s)
    && AllListed(s)
    && (forall b :: BufferOk(s, b) && RetiredOk(s, b))
    && (forall t :: ThreadOk(s, t))
  }

  /** Every buffer is in exactly one place. */
  ghost predicate Placed(s: State) {
    Exact(s.at, s.bufs.Keys)
  }

  ghost predicate Inv(s: State) {
    Placed(s) && Protocol(s)
  }

  // ---------------------------------------------------------------- chains

  lemma {:induction false} RestOldest(bufs: map<nat, Buffer>, chain: seq<nat>)
    requires chain != []
    ensures Rest(bufs, chain) == Part(bufs, chain[|chain| - 1]) + Rest(bufs, chain[..|chain| - 1])
  {
    var n := |chain| - 1;
    if n == 0 {
      assert chain[1..] == [] && chain[..0] == [];
    } else {
      RestOldest(bufs, chain[1..]);
      assert chain[1..][..n - 1] == chain[..n][1..];
      MoreWritten(Part(bufs, chain[n]), Rest(bufs, chain[..n][1..]), Part(bufs, chain[0]));
    }
  }

  lemma {:induction false} RestFrame(bufs: map<nat, Buffer>, bufs': map<nat, Buffer>, chain: seq<nat>)
    requires forall b :: b in chain ==> Part(bufs', b) == Part(bufs, b)
    ensures Rest(bufs', chain) == Rest(bufs, chain)
  {
    if chain != [] {
      assert chain[0] in chain;
      assert forall b :: b in chain[1..] ==> b in chain;
      RestFrame(bufs, bufs', chain[1..]);
    }
  }

  /** A thread none of whose buffers changed keeps its invariants. */
  lemma ThreadKept(s: State, s': State, t: nat)
    requires ThreadOk(s, t)
    requires L(s', Chain(t)) == L(s, Chain(t)) && |L(s', Taken(t))| <= 1
    requires forall b :: b in L(s, Chain(t)) ==> b in s.bufs && b in s'.bufs && s'.bufs[b] == s.bufs[b]
    requires t in s'.writers <==> t in s.writers
    requires t in s.writers ==> s'.writers[t] == s.writers[t]
    requires Sent(s', t) == Sent(s, t) && Written(s', t) == Written(s, t)
    ensures ThreadOk(s', t)
  {
    RestFrame(s.bufs, s'.bufs, L(s, Chain(t)));
    var chain := L(s, Chain(t));
    forall i | 0 <= i < |chain|
      ensures s'.bufs[chain[i]].etx.Some? <==> Closed(s', t, i)
    {
      assert chain[i] in chain;
    }
  }

  /** The buffer is in the list at `a` and in no other. */
  ghost predicate OnlyAt(s: State, a: Anchor, b: nat) {
    b in L(s, a) && b in s.bufs && forall a' :: a' != a ==> b !in L(s, a')
  }

  lemma Elsewhere(s: State, a: Anchor, b: nat)
    requires Placed(s) && b in L(s, a)
    ensures OnlyAt(s, a, b)
  {
    forall a' | a' != a
      ensures b !in L(s, a')
    {
      if b in L(s, a') { SamePlace(s.at, s.bufs.Keys, a, a', b); }
    }
    InUniverse(s.at, s.bufs.Keys, a, b);
  }

  lemma NoRepeats(s: State, a: Anchor)
    requires Placed(s)
    ensures Distinct(L(s, a))
  {
    JoinDistinct(s.at, s.bufs.Keys, a, if a == Pool then Retired else Pool);
  }

  // ---------------------------------------------------------------- steps of a writer

  /** A step that changes one buffer of a chain and none of the lists. */
  lemma KeepOneBuffer(s: State, s': State, t: nat, b: nat, u: Buffer, w: Writer, text: seq<int>)
    requires Protocol(s) && OnlyAt(s, Chain(t), b)
    requires s' == s.(bufs := s.bufs[b := u], writers := s.writers[t := w], written := s.written[t := text])
    requires u.reaped == s.bufs[b].reaped && s.bufs[b].committed <= u.committed
    requires BufferOk(s', b) && ChainOk(s', t) && StreamOk(s', t)
    ensures Protocol(s')
  {
    assert forall a :: L(s', a) == L(s, a);
    forall x
      ensures ThreadOk(s', x)
    {
      assert ThreadOk(s, x);
      if x != t {
        forall c | c in L(s, Chain(x))
          ensures c in s.bufs && s'.bufs[c] == s.bufs[c]
        {
          assert ChainOk(s, x) && c != b;
        }
        ThreadKept(s, s', x);
      }
    }
    forall x
      ensures BufferOk(s', x) && RetiredOk(s', x)
    {
      assert BufferOk(s, x) && RetiredOk(s, x);
    }
    forall x
      ensures ListedOk(s', x)
    {
      assert ListedOk(s, x);
    }
  }

  lemma MoreWritten(sent: seq<int>, rest: seq<int>, bytes: seq<int>)
    ensures sent + (rest + bytes) == sent + rest + bytes
  {
  }

  /** Bytes written to the newest buffer come last. */
  lemma RestWritten(bufs: map<nat, Buffer>, bufs': map<nat, Buffer>, chain: seq<nat>, bytes: seq<int>)
    requires chain != [] && Distinct(chain) && chain[0] in bufs && bufs[chain[0]].reaped <= |bufs[chain[0]].data|
    requires bufs' == bufs[chain[0] := bufs[chain[0]].(data := bufs[chain[0]].data + bytes)]
    ensures Rest(bufs', chain) == Rest(bufs, chain) + bytes
  {
    OthersInChain(chain);
    RestFrame(bufs, bufs', chain[1..]);
    PartWritten(bufs, bufs', chain[0], bytes);
    MoreWritten(Rest(bufs, chain[1..]), Part(bufs, chain[0]), bytes);
  }

  lemma OthersInChain(chain: seq<nat>)
    requires chain != [] && Distinct(chain)
    ensures chain[0] !in chain[1..]
  {
  }

  lemma PartWritten(bufs: map<nat, Buffer>, bufs': map<nat, Buffer>, b: nat, bytes: seq<int>)
    requires b in bufs && bufs[b].reaped <= |bufs[b].data|
    requires bufs' == bufs[b := bufs[b].(data := bufs[b].data + bytes)]
    ensures Part(bufs', b) == Part(bufs, b) + bytes
  {
    assert (bufs[b].data + bytes)[bufs[b].reaped..] == bufs[b].data[bufs[b].reaped..] + bytes;
  }

  lemma WriteKeeps(s: State, s': State, t: nat, b: nat, bytes: seq<int>)
    requires Protocol(s) && L(s, Chain(t)) != [] && b == L(s, Chain(t))[0] && OnlyAt(s, Chain(t), b)
    requires Distinct(L(s, Chain(t)))
    requires Is(s, t, Writing)
    requires s' == s.(bufs := s.bufs[b := s.bufs[b].(data := s.bufs[b].data + bytes)],
                      writers := s.writers[t := Writing],
                      written := s.written[t := Written(s, t) + bytes])
    ensures Protocol(s')
  {
    assert L(s', Chain(t)) == L(s, Chain(t));
    assert ThreadOk(s, t) && BufferOk(s, b);
    RestWritten(s.bufs, s'.bufs, L(s, Chain(t)), bytes);
    MoreWritten(Sent(s, t), Rest(s.bufs, L(s, Chain(t))), bytes);
    SameClosed(s, s', t, b, -1);
    KeepOneBuffer(s, s', t, b, s'.bufs[b], Writing, s'.written[t]);
  }

  /** Changing a buffer of the chain without closing it, or closing exactly the one at `k`. */
  lemma SameClosed(s: State, s': State, t: nat, b: nat, k: int)
    requires ChainOk(s, t) && L(s', Chain(t)) == L(s, Chain(t)) && Distinct(L(s, Chain(t)))
    requires t in s.writers && t in s'.writers
    requires b in s'.bufs && s'.bufs == s.bufs[b := s'.bufs[b]]
    requires k < 0 ==> b in s.bufs && s'.bufs[b].etx == s.bufs[b].etx && s'.writers[t] == s.writers[t]
    requires 0 <= k ==> k < |L(s, Chain(t))| && b == L(s, Chain(t))[k] && s'.bufs[b].etx.Some?
    requires 0 <= k ==> k <= 1 && s.writers[t] == (if k == 0 then Writing else Linked)
    requires 0 <= k ==> s'.writers[t] == if k == 0 then Ended else Writing
    ensures ChainOk(s', t)
  {
    var chain := L(s, Chain(t));
    forall i | 0 <= i < |chain|
      ensures chain[i] in s'.bufs && (s'.bufs[chain[i]].etx.Some? <==> Closed(s', t, i))
    {
      assert s.bufs[chain[i]].etx.Some? <==> Closed(s, t, i);
      assert 0 <= k && i != k ==> chain[i] != b;
    }
  }

  lemma CommitThread(s: State, s': State, t: nat, b: nat, upTo: nat)
    requires ThreadOk(s, t) && BufferOk(s, b) && b in s.bufs && Distinct(L(s, Chain(t))) && t in s.writers
    requires s.bufs[b].committed < upTo <= |s.bufs[b].data|
    requires s' == s.(bufs := s.bufs[b := s.bufs[b].(committed := upTo)], writers := s.writers[t := s.writers[t]],
                      written := s.written[t := Written(s, t)])
    ensures BufferOk(s', b) && ChainOk(s', t) && StreamOk(s', t)
  {
    assert L(s', Chain(t)) == L(s, Chain(t));
    RestFrame(s.bufs, s'.bufs, L(s, Chain(t)));
    SameClosed(s, s', t, b, -1);
  }

  lemma CommitKeeps(s: State, s': State, t: nat, b: nat, upTo: nat)
    requires Protocol(s) && OnlyAt(s, Chain(t), b) && Distinct(L(s, Chain(t)))
    requires s.bufs[b].committed < upTo <= |s.bufs[b].data| && t in s.writers
    requires s' == s.(bufs := s.bufs[b := s.bufs[b].(committed := upTo)], writers := s.writers[t := s.writers[t]],
                      written := s.written[t := Written(s, t)])
    ensures Protocol(s')
  {
    assert ThreadOk(s, t) && BufferOk(s, b);
    CommitThread(s, s', t, b, upTo);
    KeepOneBuffer(s, s', t, b, s'.bufs[b], s.writers[t], s'.written[t]);
  }

  lemma CloseThread(s: State, s': State, t: nat, k: nat, b: nat)
    requires ThreadOk(s, t) && BufferOk(s, b) && b in s.bufs && Distinct(L(s, Chain(t)))
    requires k < |L(s, Chain(t))| && b == L(s, Chain(t))[k]
    requires (k == 0 && Is(s, t, Writing)) || (k == 1 && Is(s, t, Linked))
    requires s' == s.(bufs := s.bufs[b := s.bufs[b].(etx := Some(|s.bufs[b].data|))],
                      writers := s.writers[t := if k == 0 then Ended else Writing],
                      written := s.written[t := Written(s, t)])
    ensures BufferOk(s', b) && ChainOk(s', t) && StreamOk(s', t)
  {
    assert L(s', Chain(t)) == L(s, Chain(t));
    RestFrame(s.bufs, s'.bufs, L(s, Chain(t)));
    SameClosed(s, s', t, b, k);
  }

  /** Setting `EtxOffset`: of the full buffer when the next one is linked, or of the last one. */
  lemma CloseKeeps(s: State, s': State, t: nat, k: nat, b: nat)
    requires Protocol(s) && k < |L(s, Chain(t))| && b == L(s, Chain(t))[k] && OnlyAt(s, Chain(t), b)
    requires Distinct(L(s, Chain(t)))
    requires (k == 0 && Is(s, t, Writing)) || (k == 1 && Is(s, t, Linked))
    requires s' == s.(bufs := s.bufs[b := s.bufs[b].(etx := Some(|s.bufs[b].data|))],
                      writers := s.writers[t := if k == 0 then Ended else Writing],
                      written := s.written[t := Written(s, t)])
    ensures Protocol(s')
  {
    assert ThreadOk(s, t) && BufferOk(s, b);
    CloseThread(s, s', t, k, b);
    KeepOneBuffer(s, s', t, b, s'.bufs[b], s'.writers[t], s'.written[t]);
  }

  /** Linking a fresh buffer in front of a chain: the first of a thread, or the next one. */
  ghost predicate Attached(s: State, s': State, t: nat, b: nat, bytes: seq<int>) {
    && L(s', Chain(t)) == [b] + L(s, Chain(t)) && L(s', Taken(t)) == []
    && (forall a :: a != Chain(t) && a != Taken(t) ==> L(s', a) == L(s, a))
    && s'.bufs == s.bufs[b := Blank(bytes)]
    && s'.written == s.written[t := Written(s, t) + bytes] && s'.sent == s.sent
    && s'.todo == s.todo && s'.active == s.active && s'.drain == s.drain
  }

  lemma AttachedThread(s: State, s': State, t: nat, b: nat, bytes: seq<int>)
    requires Protocol(s) && OnlyAt(s, Taken(t), b) && Attached(s, s', t, b, bytes)
    requires if t in s.writers then s.writers[t] == Writing && s'.writers == s.writers[t := Linked]
             else s'.writers == s.writers[t := Writing]
    ensures ThreadOk(s', t)
  {
    var chain := L(s, Chain(t));
    assert ThreadOk(s, t);
    assert b !in chain;
    RestFrame(s.bufs, s'.bufs, chain);
    assert ([b] + chain)[1..] == chain;
    assert Part(s'.bufs, b) == bytes;
    MoreWritten(Sent(s, t), Rest(s.bufs, chain), bytes);
    forall i | 0 <= i < |chain| + 1
      ensures L(s', Chain(t))[i] in s'.bufs && (s'.bufs[L(s', Chain(t))[i]].etx.Some? <==> Closed(s', t, i))
    {
      if i > 0 {
        assert chain[i - 1] in chain;
        assert s.bufs[chain[i - 1]].etx.Some? <==> Closed(s, t, i - 1);
      }
    }
  }

  lemma AttachKeeps(s: State, s': State, t: nat, b: nat, bytes: seq<int>)
    requires Protocol(s) && OnlyAt(s, Taken(t), b) && Attached(s, s', t, b, bytes)
    requires if t in s.writers then s.writers[t] == Writing && s'.writers == s.writers[t := Linked] &&
      s'.started == s.started
             else s'.writers == s.writers[t := Writing] && s'.started == [t] + s.started
    ensures Protocol(s')
  {
    AttachedThread(s, s', t, b, bytes);
    forall x
      ensures ThreadOk(s', x)
    {
      assert ThreadOk(s, x);
      if x != t {
        forall c | c in L(s, Chain(x))
          ensures c in s.bufs && s'.bufs[c] == s.bufs[c]
        {
          assert ChainOk(s, x) && c != b;
        }
        ThreadKept(s, s', x);
      }
    }
    forall x
      ensures BufferOk(s', x) && RetiredOk(s', x)
    {
      assert BufferOk(s, x) && RetiredOk(s, x);
    }
    assert ThreadOk(s, t);
    AttachedLists(s, s', t, b, bytes);
    AttachedDrain(s, s', t, b, bytes);
  }

  lemma AttachedLists(s: State, s': State, t: nat, b: nat, bytes: seq<int>)
    requires AllListed(s) && ChainOk(s, t) && Attached(s, s', t, b, bytes)
    requires if t in s.writers then s.writers[t] == Writing && s'.started == s.started
             else s'.started == [t] + s.started
    ensures AllListed(s')
  {
    forall x
      ensures ListedOk(s', x)
    {
      assert ListedOk(s, x);
      assert multiset([t] + s.started) == multiset{t} + multiset(s.started);
    }
  }

  lemma AttachedDrain(s: State, s': State, t: nat, b: nat, bytes: seq<int>)
    requires DrainOk(s) && OnlyAt(s, Taken(t), b) && Attached(s, s', t, b, bytes)
    ensures DrainOk(s')
  {
    if AtThread(s) {
      var x := s.todo[0];
      assert Oldest(s, x) in L(s, Chain(x));
      assert Oldest(s', x) == Oldest(s, x);
    }
  }

  /** New buffers in the pool, or one taken from it, concern no chain. */
  lemma PoolKeeps(s: State, s': State)
    requires Protocol(s)
    requires forall a: Anchor :: a.Chain? || a == Retired ==> L(s', a) == L(s, a)
    requires forall t :: |L(s', Taken(t))| <= 1
    requires forall b :: b in s.bufs ==> b in s'.bufs && s'.bufs[b] == s.bufs[b]
    requires forall b :: b in s'.bufs && b !in s.bufs ==> s'.bufs[b] == Blank([])
    requires s' == s.(bufs := s'.bufs, at := s'.at)
    ensures Protocol(s')
  {
    forall x
      ensures ThreadOk(s', x)
    {
      assert ThreadOk(s, x);
      forall c | c in L(s, Chain(x))
        ensures c in s.bufs
      {
        assert ChainOk(s, x);
      }
      ThreadKept(s, s', x);
    }
    forall x
      ensures BufferOk(s', x) && RetiredOk(s', x)
    {
      assert BufferOk(s, x) && RetiredOk(s, x);
    }
    forall x
      ensures ListedOk(s', x)
    {
      assert ListedOk(s, x);
    }
  }

  // ---------------------------------------------------------------- steps of the drainer

  /** A step that only moves threads between the thread lists. */
  lemma ListsKeep(s: State, s': State)
    requires Protocol(s)
    requires s' == s.(started := s'.started, todo := s'.todo, active := s'.active, drain := s'.drain)
    requires multiset(s'.started) + multiset(s'.todo) + multiset(s'.active) ==
      multiset(s.started) + multiset(s.todo) + multiset(s.active)
    requires s'.drain.Draining? && s'.drain.loaded == None
    ensures Protocol(s')
  {
    assert forall a :: L(s', a) == L(s, a);
    forall x
      ensures ThreadOk(s', x) && ListedOk(s', x)
    {
      assert ThreadOk(s, x) && ListedOk(s, x);
      forall c | c in L(s, Chain(x))
        ensures c in s.bufs
      {
        assert ChainOk(s, x);
      }
      ThreadKept(s, s', x);
    }
    forall x
      ensures BufferOk(s', x) && RetiredOk(s', x)
    {
      assert BufferOk(s, x) && RetiredOk(s, x);
    }
  }

  /** Sending what is committed moves bytes from the chain to what has been sent. */
  lemma RestSent(bufs: map<nat, Buffer>, bufs': map<nat, Buffer>, chain: seq<nat>, b: nat, c: nat)
    requires chain != [] && Distinct(chain) && b == chain[|chain| - 1] && b in bufs
    requires bufs[b].reaped <= c <= |bufs[b].data| && bufs' == bufs[b := bufs[b].(reaped := c)]
    ensures bufs[b].data[bufs[b].reaped..c] + Rest(bufs', chain) == Rest(bufs, chain)
  {
    var n := |chain| - 1;
    RestOldest(bufs, chain);
    RestOldest(bufs', chain);
    forall x | x in chain[..n]
      ensures x != b
    {
      assert forall i :: 0 <= i < n ==> chain[i] != chain[n];
    }
    RestFrame(bufs, bufs', chain[..n]);
    assert Part(bufs, b) == bufs[b].data[bufs[b].reaped..c] + Part(bufs', b);
    MoreWritten(bufs[b].data[bufs[b].reaped..c], Part(bufs', b), Rest(bufs, chain[..n]));
  }

  lemma LoadedOther(s: State, s': State, b: nat, x: nat)
    requires ThreadOk(s, x) && b !in L(s, Chain(x)) && s'.at == s.at && s'.writers == s.writers
    requires b in s'.bufs && s'.bufs == s.bufs[b := s'.bufs[b]] && Sent(s', x) == Sent(s, x)
    requires Written(s', x) == Written(s, x)
    ensures ThreadOk(s', x)
  {
    forall d | d in L(s, Chain(x))
      ensures d in s.bufs && s'.bufs[d] == s.bufs[d]
    {
      assert ChainOk(s, x) && d != b;
    }
    ThreadKept(s, s', x);
  }

  lemma LoadedStream(s: State, s': State, t: nat, b: nat, c: nat)
    requires StreamOk(s, t) && L(s, Chain(t)) != [] && b == Oldest(s, t) && Distinct(L(s, Chain(t))) && b in s.bufs
    requires s.bufs[b].reaped <= c <= |s.bufs[b].data| && L(s', Chain(t)) == L(s, Chain(t))
    requires s'.bufs == s.bufs[b := s.bufs[b].(reaped := c)] && s'.written == s.written
    requires Sent(s', t) == Sent(s, t) + s.bufs[b].data[s.bufs[b].reaped..c]
    ensures StreamOk(s', t)
  {
    RestSent(s.bufs, s'.bufs, L(s, Chain(t)), b, c);
    MoreWritten(Sent(s, t), s.bufs[b].data[s.bufs[b].reaped..c], Rest(s'.bufs, L(s, Chain(t))));
  }

  /** The step that loads `Committed` and sends up to there. */
  ghost predicate Loaded(s: State, s': State, t: nat, b: nat, c: nat) {
    && s.drain.Draining? && b in s.bufs && s.bufs[b].reaped <= c <= |s.bufs[b].data|
    && s' == s.(sent := s.sent[t := Sent(s, t) + s.bufs[b].data[s.bufs[b].reaped..c]],
                bufs := s.bufs[b := s.bufs[b].(reaped := c)], drain := s.drain.(loaded := Some(c)))
  }

  lemma LoadThreads(s: State, s': State, t: nat, b: nat, c: nat, x: nat)
    requires ThreadOk(s, x) && Loaded(s, s', t, b, c) && L(s, Chain(t)) != [] && b == Oldest(s, t)
    requires OnlyAt(s, Chain(t), b) && Distinct(L(s, Chain(t)))
    ensures ThreadOk(s', x)
  {
    if x == t {
      LoadedStream(s, s', t, b, c);
      LoadedChain(s, s', t, b);
    } else {
      LoadedOther(s, s', b, x);
    }
  }

  lemma LoadKeeps(s: State, s': State, t: nat, b: nat, c: nat)
    requires Protocol(s) && AtThread(s) && t == s.todo[0] && b == Oldest(s, t)
    requires Loaded(s, s', t, b, c) && c == s.bufs[b].committed
    requires OnlyAt(s, Chain(t), b) && Distinct(L(s, Chain(t)))
    ensures Protocol(s')
  {
    assert forall a :: L(s', a) == L(s, a);
    forall x
      ensures ThreadOk(s', x) && ListedOk(s', x)
    {
      assert ThreadOk(s, x) && ListedOk(s, x);
      LoadThreads(s, s', t, b, c, x);
    }
    forall x
      ensures BufferOk(s', x) && RetiredOk(s', x)
    {
      assert BufferOk(s, x) && RetiredOk(s, x);
    }
  }

  lemma LoadedChain(s: State, s': State, t: nat, b: nat)
    requires ChainOk(s, t) && L(s', Chain(t)) == L(s, Chain(t)) && s'.writers == s.writers
    requires b in s.bufs && b in s'.bufs && s'.bufs == s.bufs[b := s'.bufs[b]] && s'.bufs[b].etx == s.bufs[b].etx
    ensures ChainOk(s', t)
  {
    var chain := L(s, Chain(t));
    forall i | 0 <= i < |chain|
      ensures chain[i] in s'.bufs && (s'.bufs[chain[i]].etx.Some? <==> Closed(s', t, i))
    {
      assert s.bufs[chain[i]].etx.Some? <==> Closed(s, t, i);
    }
  }

  /** The oldest buffer leaves the chain once its end is known and has been reached. */
  ghost predicate Detached(s: State, s': State, t: nat, b: nat) {
    var n := |L(s, Chain(t))| - 1;
    && s.drain.Draining? && s.todo != []
    && n >= 0 && b == L(s, Chain(t))[n]
    && L(s', Chain(t)) == L(s, Chain(t))[..n] && L(s', Retired) == [b] + L(s, Retired)
    && (forall a :: a != Chain(t) && a != Retired ==> L(s', a) == L(s, a))
    && s' == s.(at := s'.at, drain := s.drain.(loaded := None), todo := if n == 0 then s.todo[1..] else s.todo)
  }

  lemma DetachedThread(s: State, s': State, t: nat, b: nat)
    requires ThreadOk(s, t) && Detached(s, s', t, b) && b in s.bufs
    requires s.bufs[b].etx.Some? && s.bufs[b].reaped == |s.bufs[b].data|
    ensures ThreadOk(s', t)
  {
    var chain, n := L(s, Chain(t)), |L(s, Chain(t))| - 1;
    NothingLeft(s.bufs, chain);
    assert s.bufs[chain[n]].etx.Some? <==> Closed(s, t, n);
    forall i | 0 <= i < n
      ensures L(s', Chain(t))[i] in s'.bufs && (s'.bufs[L(s', Chain(t))[i]].etx.Some? <==> Closed(s', t, i))
    {
      assert L(s', Chain(t))[i] == chain[i] && (Closed(s', t, i) <==> Closed(s, t, i));
    }
  }

  lemma NothingLeft(bufs: map<nat, Buffer>, chain: seq<nat>)
    requires chain != [] && chain[|chain| - 1] in bufs
    requires bufs[chain[|chain| - 1]].reaped == |bufs[chain[|chain| - 1]].data|
    ensures Rest(bufs, chain) == Rest(bufs, chain[..|chain| - 1])
  {
    RestOldest(bufs, chain);
    assert Part(bufs, chain[|chain| - 1]) == [];
  }

  lemma DetachKeeps(s: State, s': State, t: nat, b: nat)
    requires Protocol(s) && AtThread(s) && t == s.todo[0] && Detached(s, s', t, b) && b in s.bufs
    requires s.drain.loaded.Some? && s.bufs[b].etx.Some? && s.bufs[b].etx.value <= s.drain.loaded.value
    ensures Protocol(s')
  {
    assert BufferOk(s, b) && ThreadOk(s, t);
    DetachedThread(s, s', t, b);
    forall x
      ensures ThreadOk(s', x)
    {
      assert ThreadOk(s, x);
      if x != t { DetachedOther(s, s', t, b, x); }
    }
    forall x
      ensures BufferOk(s', x) && RetiredOk(s', x)
    {
      assert BufferOk(s, x) && RetiredOk(s, x);
    }
    DetachedLists(s, s', t, b);
  }

  lemma DetachedOther(s: State, s': State, t: nat, b: nat, x: nat)
    requires ThreadOk(s, x) && x != t && Detached(s, s', t, b)
    ensures ThreadOk(s', x)
  {
    forall d | d in L(s, Chain(x))
      ensures d in s.bufs
    {
      assert ChainOk(s, x);
    }
    ThreadKept(s, s', x);
  }

  lemma DetachedLists(s: State, s': State, t: nat, b: nat)
    requires AllListed(s) && s.todo != [] && t == s.todo[0] && Detached(s, s', t, b)
    ensures AllListed(s')
  {
    assert s.todo == [t] + s.todo[1..];
    forall x
      ensures ListedOk(s', x)
    {
      assert ListedOk(s, x);
    }
  }

  lemma FinishKeeps(s: State, s': State)
    requires Protocol(s) && s.drain.Draining? && s.todo == []
    requires forall a :: a != Retired && a != Pool ==> L(s', a) == L(s, a)
    requires L(s', Retired) == []
    requires s' == s.(at := s'.at, drain := Idle)
    ensures Protocol(s')
  {
    forall x
      ensures ThreadOk(s', x) && ListedOk(s', x)
    {
      assert ThreadOk(s, x) && ListedOk(s, x);
      forall d | d in L(s, Chain(x))
        ensures d in s.bufs
      {
        assert ChainOk(s, x);
      }
      ThreadKept(s, s', x);
    }
    forall x
      ensures BufferOk(s', x) && RetiredOk(s', x)
    {
      assert BufferOk(s, x) && RetiredOk(s, x);
    }
  }

  // ---------------------------------------------------------------- every step, every run

  lemma AttachKeepsInv(s: State, t: nat, step: WriterStep)
    requires Inv(s) && WriterEnabled(s, t, step) && (step.Publish? || step.Link?)
    ensures Inv(WriterApply(s, t, step))
  {
    var s', b := WriterApply(s, t, step), L(s, Taken(t))[0];
    assert L(s, Taken(t)) == [b] by { assert ThreadOk(s, t); }
    Elsewhere(s, Taken(t), b);
    AttachPlaced(s, s', t, b, step.bytes);
    AttachLists(s, s', t, b);
    AttachKeeps(s, s', t, b, step.bytes);
  }

  lemma AttachPlaced(s: State, s': State, t: nat, b: nat, bytes: seq<int>)
    requires Placed(s) && L(s, Taken(t)) == [b] && b in s.bufs
    requires s'.at == MoveAt(s.at, Taken(t), 0, Chain(t)) && s'.bufs == s.bufs[b := Blank(bytes)]
    ensures Placed(s')
  {
    SameBuffers(s, s', b, Blank(bytes));
    MoveExact(s.at, Taken(t), 0, Chain(t), s.bufs.Keys, s'.at, s'.bufs.Keys);
  }

  lemma SameBuffers(s: State, s': State, b: nat, u: Buffer)
    requires b in s.bufs && s'.bufs == s.bufs[b := u]
    ensures s'.bufs.Keys == s.bufs.Keys
  {
  }

  lemma AttachLists(s: State, s': State, t: nat, b: nat)
    requires L(s, Taken(t)) == [b] && s'.at == MoveAt(s.at, Taken(t), 0, Chain(t))
    ensures L(s', Taken(t)) == [] && L(s', Chain(t)) == [b] + L(s, Chain(t))
    ensures forall a :: a != Taken(t) && a != Chain(t) ==> L(s', a) == L(s, a)
  {
  }

  lemma BufferKeepsInv(s: State, t: nat, step: WriterStep)
    requires Inv(s) && WriterEnabled(s, t, step) && (step.RetireOld? || step.End? || step.Write? || step.Commit?)
    ensures Inv(WriterApply(s, t, step))
  {
    var s', chain := WriterApply(s, t, step), L(s, Chain(t));
    var b := if step.Commit? then step.b else if step.RetireOld? then chain[1] else chain[0];
    Elsewhere(s, Chain(t), b);
    NoRepeats(s, Chain(t));
    BufferKeeps(s, s', t, step, b);
    assert s'.bufs.Keys == s.bufs.Keys && s'.at == s.at;
  }

  lemma BufferKeeps(s: State, s': State, t: nat, step: WriterStep, b: nat)
    requires Protocol(s) && WriterEnabled(s, t, step) && (step.RetireOld? || step.End? || step.Write? || step.Commit?)
    requires OnlyAt(s, Chain(t), b) && Distinct(L(s, Chain(t)))
    requires b == if step.Commit? then step.b else if step.RetireOld? then L(s, Chain(t))[1] else L(s, Chain(t))[0]
    requires s' == WriterApply(s, t, step)
    ensures Protocol(s')
  {
    match step
    case Write(bytes) =>
      assert s.writers[t := Writing] == s.writers;
      WriteKeeps(s, s', t, b, bytes);
    case Commit(_, upTo) =>
      assert ChainOk(s, t) by { assert ThreadOk(s, t); }
      CommitTidy(s, s', t, b, upTo);
    case RetireOld => CloseTidy(s, s', t, 1, b);
    case End => CloseTidy(s, s', t, 0, b);
  }

  /** The steps that write no bytes leave `written` alone. */
  lemma CommitTidy(s: State, s': State, t: nat, b: nat, upTo: nat)
    requires Protocol(s) && OnlyAt(s, Chain(t), b) && Distinct(L(s, Chain(t))) && t in s.writers
    requires s.bufs[b].committed < upTo <= |s.bufs[b].data|
    requires s' == s.(bufs := s.bufs[b := s.bufs[b].(committed := upTo)])
    ensures Protocol(s')
  {
    CommitKeeps(s, s'.(writers := s.writers[t := s.writers[t]], written := s.written[t := Written(s, t)]), t, b, upTo);
    SameWritten(s'.(writers := s.writers[t := s.writers[t]], written := s.written[t := Written(s, t)]), s');
  }

  lemma CloseTidy(s: State, s': State, t: nat, k: nat, b: nat)
    requires Protocol(s) && k < |L(s, Chain(t))| && b == L(s, Chain(t))[k] && OnlyAt(s, Chain(t), b)
    requires Distinct(L(s, Chain(t)))
    requires (k == 0 && Is(s, t, Writing)) || (k == 1 && Is(s, t, Linked))
    requires s' == s.(bufs := s.bufs[b := s.bufs[b].(etx := Some(|s.bufs[b].data|))],
                      writers := s.writers[t := if k == 0 then Ended else Writing])
    ensures Protocol(s')
  {
    CloseKeeps(s, s'.(written := s.written[t := Written(s, t)]), t, k, b);
    SameWritten(s'.(written := s.written[t := Written(s, t)]), s');
  }

  lemma SameWritten(s: State, s': State)
    requires Protocol(s) && s' == s.(written := s'.written, writers := s'.writers)
    requires s'.writers == s.writers && forall t :: Written(s', t) == Written(s, t)
    ensures Protocol(s')
  {
    assert forall a :: L(s', a) == L(s, a);
    forall x
      ensures ThreadOk(s', x) && ListedOk(s', x)
    {
      assert ThreadOk(s, x) && ListedOk(s, x);
      forall d | d in L(s, Chain(x))
        ensures d in s.bufs
      {
        assert ChainOk(s, x);
      }
      ThreadKept(s, s', x);
    }
    forall x
      ensures BufferOk(s', x) && RetiredOk(s', x)
    {
      assert BufferOk(s, x) && RetiredOk(s, x);
    }
  }

  lemma PoolKeepsInv(s: State, t: nat, step: WriterStep)
    requires Inv(s) && WriterEnabled(s, t, step) && (step.MapPage? || step.Take?)
    ensures Inv(WriterApply(s, t, step))
  {
    var s' := WriterApply(s, t, step);
    if step.MapPage? {
      AddAllExact(s.at, step.blocks, Pool, s.bufs.Keys, s'.bufs.Keys);
    } else {
      MoveExact(s.at, Pool, 0, Taken(t), s.bufs.Keys, s'.at, s'.bufs.Keys);
    }
    PoolKeepsProtocol(s, s', t, step);
  }

  lemma PoolKeepsProtocol(s: State, s': State, t: nat, step: WriterStep)
    requires Protocol(s) && WriterEnabled(s, t, step) && (step.MapPage? || step.Take?) && s' == WriterApply(s, t, step)
    ensures Protocol(s')
  {
    forall x
      ensures |L(s, Taken(x))| <= 1
    {
      assert ThreadOk(s, x);
    }
    assert step.MapPage? ==> forall a :: a != Pool ==> L(s', a) == L(s, a);
    PoolKeeps(s, s');
  }

  lemma WriterKeepsInv(s: State, t: nat, step: WriterStep)
    requires Inv(s) && WriterEnabled(s, t, step)
    ensures Inv(WriterApply(s, t, step))
  {
    if step.Publish? || step.Link? {
      AttachKeepsInv(s, t, step);
    } else if step.MapPage? || step.Take? {
      PoolKeepsInv(s, t, step);
    } else {
      BufferKeepsInv(s, t, step);
    }
  }

  lemma BeginKeepsInv(s: State, step: DrainStep)
    requires Inv(s) && DrainEnabled(s, step) && (step.BeginAll? || step.BeginLocal? || step.Skip?)
    ensures Inv(DrainApply(s, step))
  {
    var s' := DrainApply(s, step);
    match step {
      case BeginAll => assert multiset(s'.todo) == multiset(s.active) + multiset(Reversed(s.started));
      case BeginLocal(_) =>
      case Skip => assert s.todo == [s.todo[0]] + s.todo[1..];
    }
    ListsKeep(s, s');
  }

  lemma StillInUseKeeps(s: State, s': State, t: nat)
    requires Protocol(s) && AtThread(s) && s.drain.loaded.Some? && t == s.todo[0]
    requires s' == s.(todo := s.todo[1..], active := [t] + s.active, drain := s.drain.(loaded := None))
    ensures Protocol(s')
  {
    assert s.todo == [t] + s.todo[1..];
    ListsKeep(s, s');
  }

  lemma DetachKeepsInv(s: State, s': State, t: nat, b: nat)
    requires Inv(s) && AtThread(s) && s.drain.loaded.Some? && t == s.todo[0] && b == Oldest(s, t)
    requires s.bufs[b].etx.Some? && s.bufs[b].etx.value <= s.drain.loaded.value
    requires s' == s.(at := MoveAt(s.at, Chain(t), |L(s, Chain(t))| - 1, Retired), drain := s.drain.(loaded := None),
                      todo := if |L(s, Chain(t))| == 1 then s.todo[1..] else s.todo)
    ensures Inv(s')
  {
    var n := |L(s, Chain(t))| - 1;
    MoveAtExact(s.at, Chain(t), n, Retired, s.bufs.Keys);
    assert L(s, Chain(t))[..n] + L(s, Chain(t))[n + 1..] == L(s, Chain(t))[..n];
    DetachKeeps(s, s', t, b);
  }

  lemma LoadEtxKeepsInv(s: State)
    requires Inv(s) && DrainEnabled(s, LoadEtx)
    ensures Inv(DrainApply(s, LoadEtx))
  {
    var t, s' := s.todo[0], DrainApply(s, LoadEtx);
    var b := Oldest(s, t);
    if s.bufs[b].etx == None || s.bufs[b].etx.value > s.drain.loaded.value {
      StillInUseKeeps(s, s', t);
    } else {
      DetachKeepsInv(s, s', t, b);
    }
  }

  lemma DrainKeepsInv(s: State, step: DrainStep)
    requires Inv(s) && DrainEnabled(s, step)
    ensures Inv(DrainApply(s, step))
  {
    var s' := DrainApply(s, step);
    match step
    case BeginAll => BeginKeepsInv(s, step);
    case BeginLocal(_) => BeginKeepsInv(s, step);
    case Skip => BeginKeepsInv(s, step);
    case LoadCommitted =>
      var t := s.todo[0];
      var b := Oldest(s, t);
      Elsewhere(s, Chain(t), b);
      NoRepeats(s, Chain(t));
      assert BufferOk(s, b) && s'.bufs.Keys == s.bufs.Keys;
      LoadKeeps(s, s', t, b, s.bufs[b].committed);
    case LoadEtx => LoadEtxKeepsInv(s);
    case Finish =>
      MoveAllExact(s.at, Retired, Pool, s.bufs.Keys);
      FinishKeeps(s, s');
  }

  lemma StepKeepsInv(s: State, a: Action)
    requires Inv(s) && Enabled(s, a)
    ensures Inv(Apply(s, a))
  {
    match a
    case ByWriter(t, w) => WriterKeepsInv(s, t, w);
    case ByDrainer(d) => DrainKeepsInv(s, d);
  }
}
