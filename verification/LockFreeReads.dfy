/** Readers of the grow-only hash map beside a writer.

    A reader loads the table pointer once and probes that table, one slot per step, while the
    writer fills slots of the current table or publishes a bigger one.  Old tables are kept, so
    a reader may go on in a table that has been replaced. */
module LockFreeReads {
  import opened Options
  import opened ProbedTable
  import opened LockFreeHash

  datatype Reader =
    /** Probing table `table`, `d` slots passed; `seen` is what the map held when the pointer was loaded. */
    | Probing(key: nat, table: nat, d: nat, seen: map<nat, nat>)
    | Done(key: nat, result: Option<nat>, seen: map<nat, nat>)

  /** All tables published so far, the current one last; what each holds; what the map holds. */
  datatype State = State(tables: seq<Slots>, held: seq<map<nat, nat>>, content: map<nat, nat>,
                         readers: map<nat, Reader>)

  datatype Action =
    | Load(r: nat, key: nat)
    | Probe(r: nat)
    | Publish(table: Slots)
    | Insert(key: nat, value: nat, d: nat)

  function Current(s: State): nat
    requires s.tables != []
  {
    |s.tables| - 1
  }

  /** A reader may act at any time.  The writer holds the lock and has found the key missing; it
      publishes a table twice the size when the current one is half full (or a first one), with the
      same entries, and otherwise writes the entry where its probe ends. */
  ghost predicate Enabled(s: State, hash: nat -> nat, a: Action) {
    match a
    case Load(r, _) => r !in s.readers || s.readers[r].Done?
    case Probe(r) =>
      && r in s.readers && s.readers[r].Probing?
      && s.readers[r].table < |s.tables| && s.readers[r].d < |s.tables[s.readers[r].table]|
    case Publish(table) =>
      && Holds(table, hash, s.content) && |Occupied(table)| == |s.content|
      && (s.tables != [] ==>
          |Occupied(s.tables[Current(s)])| >= |s.tables[Current(s)]| / 2 && |table| == 2 * |s.tables[Current(s)]|)
    case Insert(key, value, d) =>
      && s.tables != [] && key !in s.content
      && (var es := s.tables[Current(s)];
          && |Occupied(es)| < |es| / 2
          && d < |es| && Passed(es, hash(key), key, d) && es[Slot(hash(key), d, |es|)] == None)
  }

  function ProbeOnce(s: State, hash: nat -> nat, r: nat): Reader
    requires r in s.readers && s.readers[r].Probing?
    requires s.readers[r].table < |s.tables| && s.readers[r].d < |s.tables[s.readers[r].table]|
  {
    var reader := s.readers[r];
    var es := s.tables[reader.table];
    match es[Slot(hash(reader.key), reader.d, |es|)]
    case None => Done(reader.key, None, reader.seen)
    case Some(e) => if e.key == reader.key then Done(e.key, Some(e.value), reader.seen) else reader.(d := reader.d + 1)
  }

  ghost function Apply(s: State, hash: nat -> nat, a: Action): State
    requires Enabled(s, hash, a)
  {
    match a
    case Load(r, key) =>
      s.(readers := s.readers[r := if s.tables == [] then Done(key, None, s.content)
                                   else Probing(key, Current(s), 0, s.content)])
    case Probe(r) =>
      s.(readers := s.readers[r := ProbeOnce(s, hash, r)])
    case Publish(table) =>
      s.(tables := s.tables + [table], held := s.held + [s.content])
    case Insert(key, value, d) =>
      var t := Current(s);
      var es := s.tables[t];
      s.(tables := s.tables[t := es[Slot(hash(key), d, |es|) := Some(Entry(key, value))]],
         held := if t < |s.held| then s.held[t := s.content[key := value]] else s.held,
         content := s.content[key := value])
  }

  ghost predicate Next(s: State, hash: nat -> nat, s': State) {
    exists a :: Enabled(s, hash, a) && s' == Apply(s, hash, a)
  }

  ghost predicate Run(r: seq<State>, hash: nat -> nat) {
    && r != [] && r[0] == State([], [], map[], map[])
    && (forall k :: 0 < k < |r| ==> Next(r[k - 1], hash, r[k]))
  }

  // ---------------------------------------------------------------- the invariant

  predicate Within(m: map<nat, nat>, m': map<nat, nat>) {
    forall k :: k in m ==> k in m' && m'[k] == m[k]
  }

  /** A table holds part of the content, the current one all of it, and is at most half full. */
  ghost predicate TableOk(s: State, hash: nat -> nat, t: nat) {
    t < |s.tables| ==>
      && t < |s.held| && Holds(s.tables[t], hash, s.held[t]) && Within(s.held[t], s.content)
      && |Occupied(s.tables[t])| <= |s.tables[t]| / 2
      && (t == Current(s) ==> s.held[t] == s.content && |Occupied(s.tables[t])| == |s.content|)
  }

  ghost predicate ReaderOk(s: State, hash: nat -> nat, r: nat) {
    r in s.readers ==>
      match s.readers[r]
      case Probing(key, t, d, seen) =>
        && t < |s.tables| && t < |s.held| && d < |s.tables[t]|
        && Passed(s.tables[t], hash(key), key, d)
        && Within(seen, s.held[t])
      case Done(key, result, seen) =>
        && Within(seen, s.content)
        && (result.Some? ==> key in s.content && s.content[key] == result.value)
        && (key in seen ==> result == Some(seen[key]))
  }

  ghost predicate Inv(s: State, hash: nat -> nat) {
    && |s.held| == |s.tables| && (s.tables == [] ==> s.content == map[])
    && (forall t :: TableOk(s, hash, t))
    && (forall r :: ReaderOk(s, hash, r))
  }

  lemma LoadKeepsInv(s: State, hash: nat -> nat, r: nat, key: nat)
    requires Inv(s, hash) && Enabled(s, hash, Load(r, key))
    ensures Inv(Apply(s, hash, Load(r, key)), hash)
  {
    var s' := Apply(s, hash, Load(r, key));
    if s.tables != [] { assert TableOk(s, hash, Current(s)); }
    forall t ensures TableOk(s', hash, t) { assert TableOk(s, hash, t); }
    forall q ensures ReaderOk(s', hash, q) { assert ReaderOk(s, hash, q); }
  }

  /** A reader's probe: it finds the key, or a free slot, which it can only if the key was not
      there when it loaded the table, or goes on, which it can only finitely often. */
  lemma ProbeKeepsInv(s: State, hash: nat -> nat, r: nat)
    requires Inv(s, hash) && Enabled(s, hash, Probe(r))
    ensures Inv(Apply(s, hash, Probe(r)), hash)
  {
    var s' := Apply(s, hash, Probe(r));
    var reader := s.readers[r];
    var es := s.tables[reader.table];
    assert TableOk(s, hash, reader.table) && ReaderOk(s, hash, r);
    var i := Slot(hash(reader.key), reader.d, |es|);
    assert SlotOk(es, s.held[reader.table], i);
    match es[i] {
      case None => NotThere(es, hash, s.held[reader.table], reader.key, reader.d);
      case Some(e) => if e.key != reader.key { ProbeStep(es, hash(reader.key), reader.key, reader.d); }
    }
    forall t ensures TableOk(s', hash, t) { assert TableOk(s, hash, t); }
    forall q ensures ReaderOk(s', hash, q) { assert ReaderOk(s, hash, q); }
  }

  lemma PublishKeepsInv(s: State, hash: nat -> nat, table: Slots)
    requires Inv(s, hash) && Enabled(s, hash, Publish(table))
    ensures Inv(Apply(s, hash, Publish(table)), hash)
  {
    var s' := Apply(s, hash, Publish(table));
    if s.tables != [] { assert TableOk(s, hash, Current(s)); }
    forall t ensures TableOk(s', hash, t) { assert TableOk(s, hash, t); }
    forall q ensures ReaderOk(s', hash, q) { assert ReaderOk(s, hash, q); }
  }

  lemma InsertKeepsTable(s: State, hash: nat -> nat, s': State, key: nat, value: nat, d: nat, t: nat)
    requires Inv(s, hash) && Enabled(s, hash, Insert(key, value, d)) && s' == Apply(s, hash, Insert(key, value, d))
    ensures TableOk(s', hash, t)
  {
    var c := Current(s);
    assert TableOk(s, hash, c) && TableOk(s, hash, t);
    if t == c {
      InsertHolds(s.tables[c], hash, s.content, key, value, d);
      assert s'.held[c] == s'.content == s.content[key := value];
      assert |s'.content| == |s.content| + 1;
    } else if t < |s.tables| {
      assert s'.tables[t] == s.tables[t] && s'.held[t] == s.held[t] && t != Current(s');
    }
  }

  /** Filling a free slot disturbs no probe: what it has passed stays passed. */
  lemma StillPassed(es: Slots, h: nat, k: nat, d: nat, i: nat, e: Entry)
    requires es != [] && d <= |es| && Passed(es, h, k, d) && i < |es| && es[i] == None
    ensures Passed(es[i := Some(e)], h, k, d)
  {
  }

  lemma InsertKeepsReader(s: State, hash: nat -> nat, s': State, key: nat, value: nat, d: nat, r: nat)
    requires Inv(s, hash) && Enabled(s, hash, Insert(key, value, d)) && s' == Apply(s, hash, Insert(key, value, d))
    ensures ReaderOk(s', hash, r)
  {
    var c := Current(s);
    assert TableOk(s, hash, c) && ReaderOk(s, hash, r);
    if r in s.readers && s.readers[r].Probing? && s.readers[r].table == c {
      var reader, es := s.readers[r], s.tables[c];
      StillPassed(es, hash(reader.key), reader.key, reader.d, Slot(hash(key), d, |es|), Entry(key, value));
    }
  }

  lemma InsertKeepsInv(s: State, hash: nat -> nat, key: nat, value: nat, d: nat)
    requires Inv(s, hash) && Enabled(s, hash, Insert(key, value, d))
    ensures Inv(Apply(s, hash, Insert(key, value, d)), hash)
  {
    var s' := Apply(s, hash, Insert(key, value, d));
    forall t ensures TableOk(s', hash, t) { InsertKeepsTable(s, hash, s', key, value, d, t); }
    forall r ensures ReaderOk(s', hash, r) { InsertKeepsReader(s, hash, s', key, value, d, r); }
  }

  lemma StepKeepsInv(s: State, hash: nat -> nat, a: Action)
    requires Inv(s, hash) && Enabled(s, hash, a)
    ensures Inv(Apply(s, hash, a), hash)
  {
    match a
    case Load(r, key) => LoadKeepsInv(s, hash, r, key);
    case Probe(r) => ProbeKeepsInv(s, hash, r);
    case Publish(table) => PublishKeepsInv(s, hash, table);
    case Insert(key, value, d) => InsertKeepsInv(s, hash, key, value, d);
  }

  lemma {:induction false} RunKeepsInv(r: seq<State>, hash: nat -> nat)
    requires Run(r, hash)
    ensures Inv(r[|r| - 1], hash)
  {
    var last := |r| - 1;
    if last > 0 {
      assert Run(r[..last], hash);
      RunKeepsInv(r[..last], hash);
      assert Next(r[last - 1], hash, r[last]);
      var a :| Enabled(r[last - 1], hash, a) && r[last] == Apply(r[last - 1], hash, a);
      StepKeepsInv(r[last - 1], hash, a);
    }
  }

  // ---------------------------------------------------------------- what readers can rely on

  ghost predicate Reachable(s: State, hash: nat -> nat) {
    exists r :: Run(r, hash) && r[|r| - 1] == s
  }

  lemma ReachableInv(s: State, hash: nat -> nat)
    requires Reachable(s, hash)
    ensures Inv(s, hash)
  {
    var r :| Run(r, hash) && r[|r| - 1] == s;
    RunKeepsInv(r, hash);
  }

  /** The map is insert-only: a key keeps the value it was first given. */
  lemma InsertOnly(s: State, hash: nat -> nat, s': State)
    requires Next(s, hash, s')
    ensures Within(s.content, s'.content)
  {
    var a :| Enabled(s, hash, a) && s' == Apply(s, hash, a);
  }

  /** A reader that is done found every key that had been published before it loaded the table,
      and what it found is the value of the key, the one first inserted. */
  lemma FindIsRight(s: State, hash: nat -> nat, r: nat)
    requires Reachable(s, hash) && r in s.readers && s.readers[r].Done?
    ensures var Done(key, result, seen) := s.readers[r];
      && (key in seen ==> result == Some(seen[key]))
      && (result.Some? ==> key in s.content && s.content[key] == result.value)
  {
    ReachableInv(s, hash);
    assert ReaderOk(s, hash, r);
  }

  /** A reader always has a next step, and it takes at most one probe more than the table it
      loaded has entries, which fill at most half of it: growth and inserts do not make it run
      on for ever. */
  lemma FindStops(s: State, hash: nat -> nat, r: nat)
    requires Reachable(s, hash) && r in s.readers && s.readers[r].Probing?
    ensures Enabled(s, hash, Probe(r))
    ensures s.readers[r].d <= |Occupied(s.tables[s.readers[r].table])| <= |s.tables[s.readers[r].table]| / 2
    ensures var reader := Apply(s, hash, Probe(r)).readers[r];
      reader.Done? || (reader == s.readers[r].(d := s.readers[r].d + 1))
  {
    ReachableInv(s, hash);
    var reader := s.readers[r];
    assert ReaderOk(s, hash, r) && TableOk(s, hash, reader.table);
    ProbeStops(s.tables[reader.table], hash(reader.key), reader.key, reader.d);
  }

  /** Every published table is at most half full, the current one holds exactly the content. */
  lemma HalfFull(s: State, hash: nat -> nat, t: nat)
    requires Reachable(s, hash) && t < |s.tables|
    ensures |Occupied(s.tables[t])| <= |s.tables[t]| / 2
    ensures t == Current(s) ==> Holds(s.tables[t], hash, s.content)
  {
    ReachableInv(s, hash);
    assert TableOk(s, hash, t);
  }

  // ---------------------------------------------------------------- the writer's code takes these steps

  /** The writer's map is in this state: it has this content, and its table is the one published last. */
  predicate Shows(s: State, content: map<nat, nat>, es: Slots) {
    s.content == content && es == if s.tables == [] then [] else s.tables[Current(s)]
  }

  lemma ReachableNext(s: State, hash: nat -> nat, a: Action)
    requires Reachable(s, hash) && Enabled(s, hash, a)
    ensures Reachable(Apply(s, hash, a), hash)
  {
    var r :| Run(r, hash) && r[|r| - 1] == s;
    var s' := Apply(s, hash, a);
    var r' := r + [s'];
    assert Next(s, hash, s');
    forall k | 0 < k < |r'|
      ensures Next(r'[k - 1], hash, r'[k])
    {
      assert r'[k - 1] == r[k - 1] && (k < |r| ==> r'[k] == r[k]);
    }
    assert Run(r', hash) && r'[|r'| - 1] == s';
  }

  /** A table grown from a crowded one can be published. */
  lemma GrownIsPublished(s: State, hash: nat -> nat, es: Slots, grown: Slots) returns (s': State)
    requires Reachable(s, hash) && Shows(s, s.content, es) && Crowded(es) && GrownFrom(es, hash, s.content, grown)
    ensures Reachable(s', hash) && Shows(s', s.content, grown) && s'.tables != [] && s'.readers == s.readers
  {
    ReachableInv(s, hash);
    if s.tables != [] { assert TableOk(s, hash, Current(s)); }
    s' := Apply(s, hash, Publish(grown));
    ReachableNext(s, hash, Publish(grown));
  }

  /** Writing a new entry to a table that is not crowded is a step of the writer. */
  lemma WrittenIsInserted(s: State, hash: nat -> nat, es: Slots, key: nat, value: nat, es': Slots) returns (s': State)
    requires Reachable(s, hash) && Shows(s, s.content, es) && key !in s.content && !Crowded(es)
    requires Written(es, hash, key, value, es')
    ensures Reachable(s', hash) && Shows(s', s.content[key := value], es') && s'.readers == s.readers
  {
    var d :| EndsFree(es, hash(key), key, d) && es' == es[Slot(hash(key), d, |es|) := Some(Entry(key, value))];
    s' := Apply(s, hash, Insert(key, value, d));
    ReachableNext(s, hash, Insert(key, value, d));
  }

  /** What `Emplace` does to the table when it inserts a key is a run of the writer's steps from
      any state that shows the map as it was to one that shows it as it is then: all that holds
      in every reachable state holds beside the writer's code. */
  lemma EmplaceIsARun(s: State, hash: nat -> nat, es: Slots, key: nat, value: nat, es': Slots) returns (s': State)
    requires Reachable(s, hash) && Shows(s, s.content, es) && key !in s.content
    requires Inserted(es, hash, s.content, key, value, es')
    ensures Reachable(s', hash) && Shows(s', s.content[key := value], es') && s'.readers == s.readers
  {
    if Crowded(es) {
      var grown :| GrownFrom(es, hash, s.content, grown) && Written(grown, hash, key, value, es');
      var mid := GrownIsPublished(s, hash, es, grown);
      s' := WrittenIsInserted(mid, hash, grown, key, value, es');
    } else {
      s' := WrittenIsInserted(s, hash, es, key, value, es');
    }
  }
}
