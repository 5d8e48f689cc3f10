/** Open addressing with linear probing: what a table of entries holds and where a probe for a
    key gets. */
module ProbedTable {
  import opened Options

  datatype Entry = Entry(key: nat, value: nat)

  type Slots = seq<Option<Entry>>

  /** Where a probe starts: the hash masked by the size of the table, a power of two. */
  function Home(h: nat, n: nat): (i: nat)
    requires n > 0
    ensures i < n
  {
    h % n
  }

  /** The slot `d` places after the home of a key with hash `h`, wrapping round. */
  function Slot(h: nat, d: nat, n: nat): (i: nat)
    requires d < n
    ensures i < n
  {
    var i := Home(h, n) + d;
    if i >= n then i - n else i
  }

  /** The first `d` slots of a probe are taken by other keys. */
  ghost predicate Passed(es: Slots, h: nat, k: nat, d: nat)
    requires es != [] && d <= |es|
  {
    forall e: nat :: e < d ==> es[Slot(h, e, |es|)].Some? && es[Slot(h, e, |es|)].value.key != k
  }

  /** A probe for `k` ends at distance `d`, at the entry for `k`. */
  ghost predicate FoundAt(es: Slots, h: nat, k: nat, d: nat)
    requires es != []
  {
    d < |es| && Passed(es, h, k, d) && es[Slot(h, d, |es|)].Some? && es[Slot(h, d, |es|)].value.key == k
  }

  /** A probe for `k` ends at distance `d`, at a free slot. */
  ghost predicate EndsFree(es: Slots, h: nat, k: nat, d: nat)
    requires es != []
  {
    d < |es| && Passed(es, h, k, d) && es[Slot(h, d, |es|)] == None
  }

  /** `after` is `before` with an entry written where the probe for its key ends. */
  ghost predicate Written(before: Slots, hash: nat -> nat, k: nat, v: nat, after: Slots) {
    && before != []
    && (exists d :: EndsFree(before, hash(k), k, d) && after == before[Slot(hash(k), d, |before|) := Some(Entry(k, v))])
  }

  /** Every key of `m` can be probed, and the table holds nothing else. */
  ghost predicate KeyOk(es: Slots, hash: nat -> nat, m: map<nat, nat>, k: nat)
    requires es != []
  {
    k in m ==> exists d :: FoundAt(es, hash(k), k, d)
  }

  ghost predicate SlotOk(es: Slots, m: map<nat, nat>, i: nat) {
    i < |es| && es[i].Some? ==> es[i].value.key in m && m[es[i].value.key] == es[i].value.value
  }

  /** No key is in two slots. */
  predicate OtherKeys(es: Slots, i: nat, j: nat) {
    i < |es| && j < |es| && i != j && es[i].Some? && es[j].Some? ==> es[i].value.key != es[j].value.key
  }

  ghost predicate Single(es: Slots) {
    forall i, j :: OtherKeys(es, i, j)
  }

  /** The table holds exactly the map `m`. */
  ghost predicate Holds(es: Slots, hash: nat -> nat, m: map<nat, nat>) {
    && es != [] && Single(es)
    && (forall k :: KeyOk(es, hash, m, k))
    && (forall i :: SlotOk(es, m, i))
  }

  ghost function Occupied(es: Slots): set<nat> {
    set i | 0 <= i < |es| && es[i].Some?
  }

  /** A probe that has passed `d` slots has seen `d` occupied ones. */
  lemma {:induction false} PassedCount(es: Slots, h: nat, k: nat, d: nat, u: set<nat>)
    requires es != [] && d <= |es| && Passed(es, h, k, d)
    requires forall e: nat :: e < d ==> Slot(h, e, |es|) in u
    ensures d <= |u|
    decreases d
  {
    if d > 0 {
      var i := Slot(h, d - 1, |es|);
      PassedCount(es, h, k, d - 1, u - {i});
    }
  }

  /** With a slot free, a probe stops after at most as many steps as there are entries. */
  lemma ProbeStops(es: Slots, h: nat, k: nat, d: nat)
    requires es != [] && |Occupied(es)| < |es| && d <= |es| && Passed(es, h, k, d)
    ensures d <= |Occupied(es)| < |es|
  {
    PassedCount(es, h, k, d, Occupied(es));
  }

  /** A probe that meets another key goes on to the next slot. */
  lemma ProbeStep(es: Slots, h: nat, k: nat, d: nat)
    requires es != [] && |Occupied(es)| < |es| && d < |es| && Passed(es, h, k, d)
    requires es[Slot(h, d, |es|)].Some? && es[Slot(h, d, |es|)].value.key != k
    ensures d + 1 < |es| && Passed(es, h, k, d + 1) && Slot(h, d + 1, |es|) == (Slot(h, d, |es|) + 1) % |es|
  {
    ProbeStops(es, h, k, d + 1);
    var n, i := |es|, Slot(h, d, |es|);
    if i + 1 < n {
      assert (i + 1) % n == i + 1;
    } else {
      assert (i + 1) % n == n % n == 0;
    }
  }

  /** Where a probe that meets a free slot stops, the key is not in the table. */
  lemma NotThere(es: Slots, hash: nat -> nat, m: map<nat, nat>, k: nat, d: nat)
    requires Holds(es, hash, m) && d < |es| && Passed(es, hash(k), k, d) && es[Slot(hash(k), d, |es|)] == None
    ensures k !in m
  {
    assert KeyOk(es, hash, m, k);
    forall e: nat
      ensures !FoundAt(es, hash(k), k, e)
    {
    }
  }

  /** Writing a new key into the free slot its probe ends at adds it to the map. */
  lemma InsertHolds(es: Slots, hash: nat -> nat, m: map<nat, nat>, k: nat, v: nat, d: nat)
    requires Holds(es, hash, m) && k !in m
    requires d < |es| && Passed(es, hash(k), k, d) && es[Slot(hash(k), d, |es|)] == None
    ensures Holds(es[Slot(hash(k), d, |es|) := Some(Entry(k, v))], hash, m[k := v])
    ensures Occupied(es[Slot(hash(k), d, |es|) := Some(Entry(k, v))]) == Occupied(es) + {Slot(hash(k), d, |es|)}
    ensures |Occupied(es[Slot(hash(k), d, |es|) := Some(Entry(k, v))])| == |Occupied(es)| + 1
  {
    var n, i := |es|, Slot(hash(k), d, |es|);
    var es', m' := es[i := Some(Entry(k, v))], m[k := v];
    assert FoundAt(es', hash(k), k, d);
    forall x: nat
      ensures KeyOk(es', hash, m', x)
    {
      assert KeyOk(es, hash, m, x);
      if x in m {
        var e :| FoundAt(es, hash(x), x, e);
        assert FoundAt(es', hash(x), x, e);
      }
    }
    forall j: nat
      ensures SlotOk(es', m', j)
    {
      assert SlotOk(es, m, j);
    }
    forall a: nat, b: nat
      ensures OtherKeys(es', a, b)
    {
      assert OtherKeys(es, a, b) && SlotOk(es, m, a) && SlotOk(es, m, b);
    }
    assert i !in Occupied(es) && Occupied(es') == Occupied(es) + {i};
  }

  lemma EmptyHolds(n: nat, hash: nat -> nat)
    requires n > 0
    ensures var es: Slots := seq(n, _ => None); Holds(es, hash, map[]) && Occupied(es) == {}
  {
  }
}
