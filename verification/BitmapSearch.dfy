/** Searching the arena bitmap for a run of clear bits and claiming it, as one thread does it
    when no other interferes (then every compare-and-swap succeeds and nothing is rolled back). */
module BitmapSearch {
  import opened BitmapClaims
  import opened Options

  /** The `count` bits from `at` exist and are clear. */
  ghost predicate Free(bits: seq<bool>, at: nat, count: nat) {
    at + count <= |bits| && forall b :: at <= b < at + count ==> !bits[b]
  }

  /** From `bits` to `bits'` exactly the run of `count` bits from `at` was claimed. */
  ghost predicate Claimed(bits: seq<bool>, bits': seq<bool>, at: nat, count: nat) {
    Free(bits, at, count) && bits' == SetRange(bits, at, at + count, true)
  }

  /** The lowest clear bit of `lo..hi`, or `hi`: a bit scan forward of the complement. */
  function FirstClear(bits: seq<bool>, lo: nat, hi: nat): (r: nat)
    requires lo <= hi <= |bits|
    ensures lo <= r <= hi && (forall b :: lo <= b < r ==> bits[b]) && (r < hi ==> !bits[r])
    decreases hi - lo
  {
    if lo == hi || !bits[lo] then lo else FirstClear(bits, lo + 1, hi)
  }

  /** One above the highest set bit of `lo..hi`, or `lo`: what a count of leading zeros tells. */
  function AfterLastSet(bits: seq<bool>, lo: nat, hi: nat): (r: nat)
    requires lo <= hi <= |bits|
    ensures lo <= r <= hi && (forall b :: r <= b < hi ==> !bits[b]) && (r > lo ==> bits[r - 1])
  {
    if lo == hi || bits[hi - 1] then hi else AfterLastSet(bits, lo, hi - 1)
  }

  method ClaimRun(a: array<bool>, at: nat, count: nat)
    requires at + count <= a.Length
    modifies a
    ensures a[..] == SetRange(old(a[..]), at, at + count, true)
  {
    forall b | at <= b < at + count {
      a[b] := true;
    }
  }

  /** Claim `count` bits inside field `idx`.  The scan starts at the first clear bit and, when
      the window holds set bits, goes on behind the highest one; the result is the lowest
      position that fits, so no fitting position is ever skipped. */
  method FindInField(a: array<bool>, idx: nat, count: nat) returns (r: Option<nat>)
    requires 0 < count <= FIELD_BITS && (idx + 1) * FIELD_BITS <= a.Length
    modifies a
    ensures match r
      case Some(at) =>
        && idx * FIELD_BITS <= at && at + count <= (idx + 1) * FIELD_BITS
        && Claimed(old(a[..]), a[..], at, count)
        && (forall b :: idx * FIELD_BITS <= b < at ==> !Free(old(a[..]), b, count))
      case None =>
        && a[..] == old(a[..])
        && (forall b :: idx * FIELD_BITS <= b && b + count <= (idx + 1) * FIELD_BITS ==> !Free(a[..], b, count))
  {
    var lo, end := idx * FIELD_BITS, (idx + 1) * FIELD_BITS;
    var at := FirstClear(a[..], lo, end);
    forall b | lo <= b < at
      ensures !Free(a[..], b, count)
    {
      assert a[..][b];
    }
    if at == end { return None; }
    while at + count <= end
      invariant lo <= at && a[..] == old(a[..])
      invariant forall b :: lo <= b < at ==> !Free(a[..], b, count)
      decreases end - at
    {
      var past := AfterLastSet(a[..], at, at + count);
      if past == at {
        ClaimRun(a, at, count);
        return Some(at);
      }
      assert forall b :: at <= b < past ==> !Free(a[..], b, count) by {
        assert a[..][past - 1];
      }
      at := if count == 1 then at + 1 else past;
    }
    return None;
  }

  function DivideUp(n: nat, d: nat): nat
    requires d > 0
  {
    if n == 0 then 0 else (n - 1) / d + 1
  }

  /** Claim `count` bits that start in field `idx` and reach into the next ones: from the first
      of the clear bits at the end of the field, if enough bits after it are clear. */
  method FindAcross(a: array<bool>, fields: nat, idx: nat, count: nat) returns (r: Option<nat>)
    requires a.Length == fields * FIELD_BITS && idx < fields && count > 0
    modifies a
    ensures match r
      case Some(at) => Claimed(old(a[..]), a[..], at, count)
      case None =>
        && a[..] == old(a[..])
        && (forall b :: InField(b, idx) && b + count > (idx + 1) * FIELD_BITS ==> !Free(a[..], b, count))
  {
    var end := (idx + 1) * FIELD_BITS;
    var start := AfterLastSet(a[..], idx * FIELD_BITS, end);
    var initial := end - start;
    if initial == 0 { return None; }
    if initial >= count {
      r := FindInField(a, idx, count);
      assert Free(old(a[..]), end - count, count);
      return;
    }
    if DivideUp(count - initial, FIELD_BITS) >= fields - idx {
      NotEnough(fields, idx, count, initial);
      return None;
    }
    Enough(fields, idx, count, initial);
    var found, field := initial, idx;
    while found < count
      invariant initial <= found <= count && a[..] == old(a[..]) && idx <= field
      invariant found < count ==> start + found == (field + 1) * FIELD_BITS
      invariant found > initial ==> field * FIELD_BITS < start + found <= (field + 1) * FIELD_BITS
      invariant found == initial || idx < field
      invariant forall b :: start <= b < start + found ==> !a[b]
    {
      field := field + 1;
      var bits := if found + FIELD_BITS <= count then FIELD_BITS else count - found;
      if exists b :: start + found <= b < start + found + bits && a[b] {
        forall b | InField(b, idx) && b + count > end
          ensures !Free(a[..], b, count)
        {
          assert b < start ==> a[..][start - 1];
          LaterRun(a[..], b, start, end, count);
        }
        return None;
      }
      found := found + bits;
    }
    ClaimFields(a, idx, field, start, count);
    return Some(start);
  }

  predicate InField(b: int, idx: nat) {
    idx * FIELD_BITS <= b < (idx + 1) * FIELD_BITS
  }

  /** The fields of a run that has been found clear, claimed one after the other. */
  method ClaimFields(a: array<bool>, idx: nat, last: nat, start: nat, count: nat)
    requires Free(a[..], start, count) && InField(start, idx) && InField(start + count - 1, last) && idx < last
    modifies a
    ensures a[..] == SetRange(old(a[..]), start, start + count, true)
  {
    ClaimRun(a, start, (idx + 1) * FIELD_BITS - start);
    var field := idx + 1;
    while field < last
      invariant idx < field <= last
      invariant a[..] == SetRange(old(a[..]), start, field * FIELD_BITS, true)
    {
      ClaimRun(a, field * FIELD_BITS, FIELD_BITS);
      field := field + 1;
    }
    ClaimRun(a, last * FIELD_BITS, start + count - last * FIELD_BITS);
  }

  lemma NotEnough(fields: nat, idx: nat, count: nat, initial: nat)
    requires idx < fields && initial < count && DivideUp(count - initial, FIELD_BITS) >= fields - idx
    ensures (idx + 1) * FIELD_BITS - initial + count > fields * FIELD_BITS
  {
  }

  lemma Enough(fields: nat, idx: nat, count: nat, initial: nat)
    requires idx < fields && initial < count && DivideUp(count - initial, FIELD_BITS) < fields - idx
    ensures (idx + 1) * FIELD_BITS - initial + count <= fields * FIELD_BITS
  {
  }

  /** A run that crosses the end of a field and starts later than the first of the clear bits
      there needs bits that the run from that first bit needs too. */
  lemma LaterRun(bits: seq<bool>, b: nat, start: nat, end: nat, count: nat)
    requires start <= end <= |bits| && b < end && b + count > end && start + count > end
    requires (forall i :: start <= i < end ==> !bits[i])
    requires !Free(bits, start, count)
    requires b < start ==> exists i :: b <= i < start && bits[i]
    ensures !Free(bits, b, count)
  {
  }

  /** The `count` bits from `at` lie in one field. */
  ghost predicate WithinField(fields: nat, at: int, count: nat) {
    exists f: nat :: f < fields && InField(at, f) && at + count <= (f + 1) * FIELD_BITS
  }

  /** Some field has a run of `count` clear bits. */
  ghost predicate FieldHasRun(bits: seq<bool>, fields: nat, count: nat) {
    exists at: nat :: Free(bits, at, count) && WithinField(fields, at, count)
  }

  /** Claim a run that lies in one field, searching all fields from `start` and wrapping: found
      exactly when some field has such a run. */
  method FindFrom(a: array<bool>, fields: nat, start: nat, count: nat) returns (r: Option<nat>)
    requires a.Length == fields * FIELD_BITS && 0 < count <= FIELD_BITS
    modifies a
    ensures r.Some? <==> FieldHasRun(old(a[..]), fields, count)
    ensures match r
      case Some(at) => Claimed(old(a[..]), a[..], at, count) && WithinField(fields, at, count)
      case None => a[..] == old(a[..])
  {
    var idx, first := start, if start >= fields then 0 else start;
    for visited := 0 to fields
      invariant a[..] == old(a[..])
      invariant idx == first + visited || idx == first + visited - fields || visited == 0
      invariant visited == 0 ==> idx == start
      invariant visited > 0 ==> 0 < idx <= fields
      invariant forall f, b :: Seen(f, first, visited, fields) && InField(b, f) && b + count <= (f + 1) * FIELD_BITS ==>
        !Free(a[..], b, count)
    {
      if idx >= fields { idx := 0; }
      r := FindInField(a, idx, count);
      if r.Some? {
        assert InField(r.value, idx);
        return;
      }
      idx := idx + 1;
    }
    r := None;
    forall f: nat | f < fields
      ensures Seen(f, first, fields, fields)
    {
    }
  }

  /** After `visited` fields from `first` on, wrapping, field `f` has been looked at. */
  predicate Seen(f: int, first: nat, visited: nat, fields: nat) {
    0 <= f < fields && (first <= f < first + visited || f + fields < first + visited)
  }

  /** Claim `count` bits.  Runs of one or two bits are looked for inside the fields only, and found
      exactly when a field has one.  Three or more bits are found exactly when the bitmap has a run
      of that many clear bits. */
  method FindAndClaim(a: array<bool>, fields: nat, start: nat, count: nat) returns (r: Option<nat>)
    requires a.Length == fields * FIELD_BITS && count > 0
    modifies a
    ensures count <= 2 ==> (r.Some? <==> FieldHasRun(old(a[..]), fields, count))
    ensures count >= 3 ==> (r.Some? <==> exists at: nat :: Free(old(a[..]), at, count))
    ensures match r
      case Some(at) => Claimed(old(a[..]), a[..], at, count) && (count <= 2 ==> WithinField(fields, at, count))
      case None => a[..] == old(a[..])
  {
    if count <= 2 {
      r := FindFrom(a, fields, start, count);
      return;
    }
    var idx, first := start, if start >= fields then 0 else start;
    for visited := 0 to fields
      invariant a[..] == old(a[..])
      invariant idx == first + visited || idx == first + visited - fields || visited == 0
      invariant visited == 0 ==> idx == start
      invariant visited > 0 ==> 0 < idx <= fields
      invariant forall f, b :: Seen(f, first, visited, fields) && InField(b, f) ==> !Free(a[..], b, count)
    {
      if idx >= fields { idx := 0; }
      if count <= FIELD_BITS {
        r := FindInField(a, idx, count);
        if r.Some? { return; }
      }
      r := FindAcross(a, fields, idx, count);
      if r.Some? { return; }
      idx := idx + 1;
    }
    r := None;
    forall b: nat
      ensures !Free(a[..], b, count)
    {
      if b + count <= a.Length {
        assert InField(b, b / FIELD_BITS) && Seen(b / FIELD_BITS, first, fields, fields);
      }
    }
  }

  /** A bitmap of two fields whose only clear bits are the last of one and the first of the other. */
  ghost predicate CrossingPair(bits: seq<bool>) {
    |bits| == 2 * FIELD_BITS && forall b :: 0 <= b < |bits| ==> bits[b] == (b != 63 && b != 64)
  }

  /** It has a run of two clear bits, and no field has one. */
  lemma CrossingPairMissed(bits: seq<bool>)
    requires CrossingPair(bits)
    ensures Free(bits, 63, 2) && !FieldHasRun(bits, 2, 2)
  {
    forall at: nat | WithinField(2, at, 2)
      ensures !Free(bits, at, 2)
    {
      assert at + 2 <= |bits| && at != 63;
      assert bits[at] || bits[at + 1];
    }
  }

  /** The search for two bits does not find the pair, wherever it starts. */
  method MissPair(a: array<bool>, start: nat) returns (r: Option<nat>)
    requires a.Length == 2 * FIELD_BITS && CrossingPair(a[..])
    modifies a
    ensures r == None && a[..] == old(a[..]) && Free(a[..], 63, 2)
  {
    CrossingPairMissed(a[..]);
    r := FindAndClaim(a, 2, start, 2);
  }

  /** For one or two bits the search misses a run exactly when every run crosses fields; a single
      bit never does. */
  lemma MissedRuns(bits: seq<bool>, fields: nat, count: nat)
    requires |bits| == fields * FIELD_BITS && 0 < count <= 2
    ensures FieldHasRun(bits, fields, count) <==>
      exists at: nat :: Free(bits, at, count) && !(count == 2 && (at + 1) % FIELD_BITS == 0)
  {
    forall at: nat | Free(bits, at, count)
      ensures WithinField(fields, at, count) <==> !(count == 2 && (at + 1) % FIELD_BITS == 0)
    {
      FieldOnly(fields, at, count);
    }
  }

  lemma FieldOnly(fields: nat, at: nat, count: nat)
    requires 0 < count <= 2 && at + count <= fields * FIELD_BITS
    ensures WithinField(fields, at, count) <==> !(count == 2 && (at + 1) % FIELD_BITS == 0)
  {
    var f := at / FIELD_BITS;
    assert InField(at, f) && f < fields;
    assert at + count <= (f + 1) * FIELD_BITS <==> !(count == 2 && (at + 1) % FIELD_BITS == 0);
  }

  // ---------------------------------------------------------------- giving memory back

  /** Purge, within the claimed blocks `start..end`, the runs that are scheduled.  `touched` are
      the blocks whose memory is given back. */
  method PurgeRange(purge: array<bool>, start: nat, end: nat) returns (all: bool, ghost touched: set<nat>)
    requires start <= end <= purge.Length
    modifies purge
    ensures forall b: nat :: b in touched <==> start <= b < end && old(purge[..])[b]
    ensures forall b :: 0 <= b < purge.Length ==> purge[b] == (old(purge[b]) && !(start <= b < end))
    ensures all <==> start < end && forall b :: start <= b < end ==> old(purge[b])
  {
    var at := start;
    all, touched := false, {};
    while at < end
      invariant start <= at <= end + 1
      invariant forall b :: 0 <= b < purge.Length ==> purge[b] == (old(purge[b]) && !(start <= b < at && b < end))
      invariant forall b: nat :: b in touched <==> start <= b < at && b < end && old(purge[..])[b]
      invariant all ==> at > end && start < end && forall b :: start <= b < end ==> old(purge[b])
      invariant !all && start < at ==> exists b :: start <= b < end && !old(purge[b])
    {
      var count := 0;
      while at + count < end && purge[at + count]
        invariant at + count <= end && forall b :: at <= b < at + count ==> purge[b]
      {
        count := count + 1;
      }
      if count > 0 {
        forall b | at <= b < at + count {
          purge[b] := false;
        }
        touched := touched + Range(at, at + count);
        if count == end - start { all := true; }
      }
      at := at + count + 1;
    }
  }

  ghost function Range(lo: nat, hi: nat): (r: set<nat>)
    requires lo <= hi
    ensures forall b :: b in r <==> lo <= b < hi
    decreases hi - lo
  {
    if lo == hi then {} else Range(lo, hi - 1) + {hi - 1}
  }

  /** Purge blocks that are not in use: claim them, purge what is scheduled, release them. */
  method PurgeFree(inuse: array<bool>, purge: array<bool>, at: nat, len: nat)
    returns (all: bool, ghost touched: set<nat>)
    requires inuse != purge && inuse.Length == purge.Length && at + len <= purge.Length && Free(inuse[..], at, len)
    modifies inuse, purge
    ensures inuse[..] == old(inuse[..])
    ensures forall b :: 0 <= b < purge.Length ==> purge[b] == (old(purge[b]) && !(at <= b < at + len))
    ensures forall b: nat :: b in touched <==> at <= b < at + len && old(purge[..])[b]
    ensures all <==> len > 0 && forall b :: at <= b < at + len ==> old(purge[b])
  {
    ClaimRun(inuse, at, len);
    all, touched := PurgeRange(purge, at, at + len);
    forall b | at <= b < at + len {
      inuse[b] := false;
    }
    assert inuse[..] == old(inuse[..]);
  }

  /** One field of a purge pass: of each scheduled run the longest part that is not in use is
      claimed, purged and released again.  Exactly the scheduled blocks that are not in use are
      purged, `inuse` ends as it was, and every claimed part is purged in full. */
  method PurgeField(inuse: array<bool>, purge: array<bool>, i: nat)
    returns (any: bool, full: bool, ghost touched: set<nat>)
    requires inuse != purge && inuse.Length == purge.Length && (i + 1) * FIELD_BITS <= purge.Length
    modifies inuse, purge
    ensures inuse[..] == old(inuse[..])
    ensures forall b :: 0 <= b < purge.Length ==> purge[b] == (old(purge[b]) && (InField(b, i) ==> inuse[b]))
    ensures forall b: nat :: b in touched <==> InField(b, i) && old(purge[..])[b] && !inuse[b]
    ensures full && (any <==> touched != {})
  {
    any, full, touched := false, true, {};
    var at, end := i * FIELD_BITS, (i + 1) * FIELD_BITS;
    while at < end
      invariant i * FIELD_BITS <= at <= end + 1
      invariant inuse[..] == old(inuse[..])
      invariant forall b :: 0 <= b < purge.Length ==>
        purge[b] == (old(purge[b]) && (InField(b, i) && b < at ==> inuse[b]))
      invariant forall b: nat :: b in touched <==> InField(b, i) && b < at && old(purge[..])[b] && !inuse[b]
      invariant full && (any <==> touched != {})
    {
      var len := 0;
      while at + len < end && purge[at + len]
        invariant at + len <= end && forall b :: at <= b < at + len ==> purge[b]
      {
        len := len + 1;
      }
      ghost var longest := len;
      while len > 0 && exists b :: at <= b < at + len && inuse[b]
        invariant 0 <= len <= longest
        invariant len < longest ==> exists b :: at <= b < at + len + 1 && inuse[b]
      {
        len := len - 1;
      }
      if len > 0 {
        assert purge[at];
        var all;
        ghost var gone;
        all, gone := PurgeFree(inuse, purge, at, len);
        assert at in gone;
        if !all { full := false; }
        any := true;
        touched := touched + gone;
      }
      at := at + len + 1;
    }
  }

  /** A purge pass over the arena, when it is due: exactly the scheduled blocks that are not in use
      are purged, the others stay scheduled, and the schedule is cleared all the same.  `any` tells
      whether something was purged, `next` when the next pass is due. */
  method PurgeArena(inuse: array<bool>, purge: array<bool>, fields: nat, pinned: bool, expire: nat, now: nat,
                    force: bool, delay: nat)
    returns (any: bool, next: nat, ghost touched: set<nat>)
    requires inuse != purge && inuse.Length == purge.Length == fields * FIELD_BITS
    modifies inuse, purge
    ensures inuse[..] == old(inuse[..])
    ensures var due := !pinned && expire != 0 && (force || expire <= now);
      && next == (if due then 0 else expire)
      && (forall b: nat :: b in touched <==> due && b < purge.Length && old(purge[..])[b] && !inuse[b])
      && (forall b :: 0 <= b < purge.Length ==> purge[b] == (old(purge[b]) && (due ==> inuse[b])))
    ensures any <==> touched != {}
  {
    any, next, touched := false, expire, {};
    if pinned { return; }
    if expire == 0 { return; }
    if !force && expire > now { return; }
    var later: nat := now + delay;
    next := 0;
    var full := true;
    var i := 0;
    while i < fields
      invariant i <= fields && inuse[..] == old(inuse[..]) && full && (any <==> touched != {})
      invariant forall b :: 0 <= b < purge.Length ==> purge[b] == (old(purge[b]) && (b < i * FIELD_BITS ==> inuse[b]))
      invariant forall b: nat :: b in touched <==> b < i * FIELD_BITS && old(purge[..])[b] && !inuse[b]
    {
      if exists b :: i * FIELD_BITS <= b < (i + 1) * FIELD_BITS && purge[b] {
        var some, whole;
        ghost var gone;
        some, whole, gone := PurgeField(inuse, purge, i);
        if some { any := true; }
        if !whole { full := false; }
        touched := touched + gone;
      }
      i := i + 1;
    }
    if !full { next := later; }
  }
}
