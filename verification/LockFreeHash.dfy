/** The grow-only hash map behind the string and call-stack caches: writers take a lock, readers
    do not.  This module is the code of one writer; `LockFreeReads` is about readers beside it. */
module LockFreeHash {
  import opened Options
  import opened ProbedTable

  const DEFAULT_INITIAL_SIZE: nat := 1024

  /** A table with its own size, so that a reader needs only the pointer. */
  class Header {
    const elements: array<Option<Entry>>
    var used: nat
    /** The table it replaced. */
    const next: Header?

    constructor (size: nat, next: Header?)
      requires size > 0
      ensures elements.Length == size && elements[..] == seq(size, _ => None) && used == 0
      ensures fresh(elements) && this.next == next
    {
      elements := new Option<Entry>[size](_ => None);
      used, this.next := 0, next;
    }

    ghost predicate Holding(hash: nat -> nat, m: map<nat, nat>)
      reads this, elements
    {
      Holds(elements[..], hash, m) && used == |Occupied(elements[..])| == |m|
    }
  }

  /** Probe for the free slot a new key goes to. */
  method FreeSlot(t: Header, hash: nat -> nat, key: nat, ghost m: map<nat, nat>) returns (i: nat, ghost d: nat)
    requires t.Holding(hash, m) && key !in m && t.used < t.elements.Length
    ensures d < t.elements.Length && i == Slot(hash(key), d, t.elements.Length)
    ensures Passed(t.elements[..], hash(key), key, d) && t.elements[i] == None
  {
    var n := t.elements.Length;
    ghost var es := t.elements[..];
    d := 0;
    i := hash(key) % n;
    while t.elements[i].Some?
      invariant t.elements[..] == es && d < n && i == Slot(hash(key), d, n)
      invariant Passed(es, hash(key), key, d)
      decreases n - d
    {
      assert SlotOk(es, m, i);
      ProbeStep(es, hash(key), key, d);
      d := d + 1;
      i := (i + 1) % n;
    }
  }

  /** `HashInsertInternal`: probe for a free slot and write the entry there, changing no other. */
  method HashInsert(t: Header, hash: nat -> nat, key: nat, value: nat, ghost m: map<nat, nat>)
    requires t.Holding(hash, m) && key !in m && t.used < t.elements.Length
    modifies t, t.elements
    ensures t.Holding(hash, m[key := value]) && t.used == old(t.used) + 1
    ensures Written(old(t.elements[..]), hash, key, value, t.elements[..])
  {
    ghost var es := t.elements[..];
    var i; ghost var d;
    i, d := FreeSlot(t, hash, key, m);
    InsertHolds(es, hash, m, key, value, d);
    t.elements[i] := Some(Entry(key, value));
    t.used := t.used + 1;
    assert t.elements[..] == es[i := Some(Entry(key, value))];
    assert EndsFree(es, hash(key), key, d);
  }

  /** Half full, or no table at all. */
  ghost predicate Crowded(es: Slots) {
    |Occupied(es)| >= |es| / 2
  }

  /** A table of twice the size with the same entries. */
  ghost predicate GrownFrom(es: Slots, hash: nat -> nat, m: map<nat, nat>, grown: Slots) {
    && Holds(grown, hash, m) && |Occupied(grown)| == |m| && !Crowded(grown)
    && (es != [] ==> |grown| == 2 * |es|)
  }

  /** What inserting a new key does to the table: it is written to the table, or, if that is
      crowded, to one grown from it. */
  ghost predicate Inserted(es: Slots, hash: nat -> nat, m: map<nat, nat>, key: nat, value: nat, es': Slots) {
    if Crowded(es) then exists grown :: GrownFrom(es, hash, m, grown) && Written(grown, hash, key, value, es')
    else Written(es, hash, key, value, es')
  }

  class Hash {
    const hash: nat -> nat
    var table: Header?
    ghost var content: map<nat, nat>

    ghost function Repr(): set<object>
      reads this, table
    {
      if table == null then {this} else {this, table, table.elements}
    }

    /** The table holds the content and is at most half full, so it always has a free slot. */
    ghost predicate Valid()
      reads this, table, if table == null then {} else {table.elements}
    {
      if table == null then content == map[]
      else table.Holding(hash, content) && table.used <= table.elements.Length / 2 && PowerOfTwo(table.elements.Length)
    }

    /** The slots a reader that loads the table now will probe. */
    ghost function Shown(): Slots
      reads this, table, if table == null then {} else {table.elements}
    {
      if table == null then [] else table.elements[..]
    }

    constructor (hash: nat -> nat)
      ensures Valid() && content == map[] && this.hash == hash && table == null
    {
      this.hash, table, content := hash, null, map[];
    }

    /** Make the first table, for a power of two of entries. */
    method Reserve(count: int)
      requires Valid() && table == null
      modifies this
      ensures Valid() && table != null && content == map[]
      ensures count <= 0 ==> table.elements.Length == DEFAULT_INITIAL_SIZE
      ensures count > 0 ==> count <= table.elements.Length < 2 * count
    {
      var size: nat := if count <= 0 then FirstSize() else RoundUp(count, 1);
      EmptyHolds(size, hash);
      table := new Header(size, null);
    }

    /** Probe until the key or a free slot is met. */
    method Find(key: nat) returns (r: Option<nat>)
      requires Valid()
      ensures r == if key in content then Some(content[key]) else None
    {
      if table == null { return None; }
      var n := table.elements.Length;
      ghost var es := table.elements[..];
      ghost var d := 0;
      var i := hash(key) % n;
      while table.elements[i].Some?
        invariant table.elements[..] == es && d < n && i == Slot(hash(key), d, n)
        invariant Passed(es, hash(key), key, d)
        decreases n - d
      {
        assert SlotOk(es, content, i);
        if table.elements[i].value.key == key {
          return Some(table.elements[i].value.value);
        }
        ProbeStep(es, hash(key), key, d);
        d := d + 1;
        i := (i + 1) % n;
      }
      NotThere(es, hash, content, key, d);
      return None;
    }

    /** Insert the key unless it is there already.  A table that is half full is replaced by one
        twice the size. */
    method Emplace(key: nat, value: nat) returns (already: bool)
      requires Valid()
      modifies Repr()
      ensures Valid() && already == (key in old(content))
      ensures content == if already then old(content) else old(content)[key := value]
      ensures if already then Shown() == old(Shown())
              else Inserted(old(Shown()), hash, old(content), key, value, Shown())
    {
      var r := Find(key);
      if r.Some? { return true; }
      if table == null || table.used >= table.elements.Length / 2 {
        var grown := Grow();
        table := grown;
        assert GrownFrom(old(Shown()), hash, content, Shown());
      }
      HashInsert(table, hash, key, value, content);
      content := content[key := value];
      return false;
    }

    /** A table of twice the size with the same entries. */
    method Grow() returns (grown: Header)
      requires Valid()
      ensures fresh(grown) && fresh(grown.elements) && Valid()
      ensures grown.Holding(hash, content) && grown.used < grown.elements.Length / 2
      ensures PowerOfTwo(grown.elements.Length)
      ensures grown.elements.Length == if table == null then DEFAULT_INITIAL_SIZE else 2 * table.elements.Length
    {
      var size := if table == null then FirstSize() else NextSize(table.elements.Length);
      grown := new Header(size, table);
      EmptyHolds(size, hash);
      if table == null { return; }
      CopyInto(table, grown, hash, content);
    }
  }

  /** Copy all entries of a table into a fresh one. */
  method CopyInto(from: Header, to: Header, hash: nat -> nat, ghost content: map<nat, nat>)
    requires from.Holding(hash, content) && to != from && to.elements != from.elements
    requires to.Holding(hash, map[]) && from.elements.Length <= to.elements.Length
    modifies to, to.elements
    ensures to.Holding(hash, content)
  {
    ghost var es: Slots, m: map<nat, nat> := from.elements[..], map[];
    for i := 0 to from.elements.Length
      invariant from.elements[..] == es && to.Holding(hash, m) && to.used <= i
      invariant CopiedBelow(es, m, i)
    {
      assert SlotOk(es, content, i);
      if from.elements[i].Some? {
        m := CopyEntry(from.elements[i].value, to, hash, es, m, i);
      } else {
        SkipSlot(es, m, i);
      }
    }
    AllCopied(es, hash, content, m);
  }

  method CopyEntry(e: Entry, to: Header, hash: nat -> nat, ghost es: Slots, ghost m: map<nat, nat>, ghost i: nat)
    returns (ghost m': map<nat, nat>)
    requires Single(es) && CopiedBelow(es, m, i) && i < |es| && es[i] == Some(e)
    requires to.Holding(hash, m) && to.used < to.elements.Length
    modifies to, to.elements
    ensures to.Holding(hash, m') && to.used == old(to.used) + 1 && CopiedBelow(es, m', i + 1)
  {
    NotCopiedYet(es, m, i);
    HashInsert(to, hash, e.key, e.value, m);
    m' := m[e.key := e.value];
    MoreCopied(es, m, i);
  }

  /** The code masks hashes with the size minus one, which for a power of two is the remainder. */
  predicate PowerOfTwo(n: nat) {
    n == 1 || (n > 0 && n % 2 == 0 && PowerOfTwo(n / 2))
  }

  function FirstSize(): (n: nat)
    ensures PowerOfTwo(n) && n == DEFAULT_INITIAL_SIZE
  {
    assert PowerOfTwo(16) && PowerOfTwo(128);
    DEFAULT_INITIAL_SIZE
  }

  function NextSize(n: nat): (r: nat)
    requires PowerOfTwo(n)
    ensures PowerOfTwo(r) && r == 2 * n
  {
    2 * n
  }

  function RoundUp(count: nat, p: nat): (r: nat)
    requires PowerOfTwo(p)
    ensures r >= count && r >= p && PowerOfTwo(r) && (r == p || r < 2 * count)
    decreases if p >= count then 0 else count - p
  {
    if p >= count then p else RoundUp(count, 2 * p)
  }

  ghost predicate CopiedSlot(es: Slots, m: map<nat, nat>, j: nat) {
    j < |es| && es[j].Some? ==> es[j].value.key in m && m[es[j].value.key] == es[j].value.value
  }

  ghost predicate CameFrom(es: Slots, k: nat, j: nat) {
    j < |es| && es[j].Some? && es[j].value.key == k
  }

  /** `m` has the entries of the slots before `i`. */
  ghost predicate CopiedBelow(es: Slots, m: map<nat, nat>, i: nat) {
    && (forall j: nat :: j < i ==> CopiedSlot(es, m, j))
    && (forall k :: k in m ==> exists j: nat :: j < i && CameFrom(es, k, j))
  }

  lemma SkipSlot(es: Slots, m: map<nat, nat>, i: nat)
    requires CopiedBelow(es, m, i) && i < |es| && es[i] == None
    ensures CopiedBelow(es, m, i + 1)
  {
    forall k | k in m
      ensures exists j: nat :: j < i + 1 && CameFrom(es, k, j)
    {
      var j: nat :| j < i && CameFrom(es, k, j);
    }
  }

  lemma MoreCopied(es: Slots, m: map<nat, nat>, i: nat)
    requires CopiedBelow(es, m, i) && i < |es| && es[i].Some? && es[i].value.key !in m
    ensures CopiedBelow(es, m[es[i].value.key := es[i].value.value], i + 1)
  {
    var m' := m[es[i].value.key := es[i].value.value];
    forall j: nat | j < i + 1
      ensures CopiedSlot(es, m', j)
    {
      assert j < i ==> CopiedSlot(es, m, j);
    }
    forall k | k in m'
      ensures exists j: nat :: j < i + 1 && CameFrom(es, k, j)
    {
      if k in m {
        var j: nat :| j < i && CameFrom(es, k, j);
      } else {
        assert CameFrom(es, k, i);
      }
    }
  }

  lemma NotCopiedYet(es: Slots, m: map<nat, nat>, i: nat)
    requires Single(es) && CopiedBelow(es, m, i) && i < |es| && es[i].Some?
    ensures es[i].value.key !in m
  {
    forall j: nat | j < i
      ensures !CameFrom(es, es[i].value.key, j)
    {
      assert OtherKeys(es, j, i);
    }
  }

  lemma AllCopied(es: Slots, hash: nat -> nat, content: map<nat, nat>, m: map<nat, nat>)
    requires Holds(es, hash, content) && CopiedBelow(es, m, |es|)
    ensures m == content
  {
    forall k | k in content
      ensures k in m
    {
      assert KeyOk(es, hash, content, k);
      var d :| FoundAt(es, hash(k), k, d);
      assert CopiedSlot(es, m, Slot(hash(k), d, |es|));
    }
    forall k | k in m
      ensures k in content && m[k] == content[k]
    {
      var j: nat :| j < |es| && CameFrom(es, k, j);
      assert SlotOk(es, content, j) && CopiedSlot(es, m, j);
    }
  }
}
