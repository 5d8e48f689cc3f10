/** Which slices of a segment are backed by memory, and which of those are scheduled to be
    given back.  Both are bit masks with one bit per slice, stored as eight 64-bit words. */
module CommitMasks {

  const FIELD_BITS: nat := 64
  const FIELD_COUNT: nat := 8
  const BITS: nat := 512

  predicate InRun(idx: nat, count: nat, b: nat) {
    idx <= b < idx + count
  }

  /** `idx..idx+count` is a run of set bits that ends at a clear bit or at the end. */
  ghost predicate RunAt(mask: seq<bool>, idx: nat, count: nat) {
    && count > 0 && idx + count <= |mask|
    && (forall b :: idx <= b < idx + count ==> mask[b])
    && (idx + count < |mask| ==> !mask[idx + count])
  }

  lemma WordOf(i: nat, ofs: nat)
    requires ofs < FIELD_BITS
    ensures (i * FIELD_BITS + ofs) / FIELD_BITS == i
  {
  }

  /** Some bit of `lo..hi` is set: a shifted word is not zero. */
  predicate AnySet(mask: array<bool>, lo: nat, hi: nat)
    requires hi <= mask.Length
    reads mask
  {
    exists b :: lo <= b < hi && mask[b]
  }

  /** Find the next set bit at or after `from`: skip clear words, then the clear bits of the word
      found. */
  method NextSet(mask: array<bool>, from: nat) returns (i: nat, ofs: nat)
    requires mask.Length == BITS && from <= BITS
    ensures i <= FIELD_COUNT && ofs < FIELD_BITS && (i == FIELD_COUNT ==> ofs == 0)
    ensures from <= i * FIELD_BITS + ofs
    ensures forall b :: from <= b < i * FIELD_BITS + ofs ==> !mask[b]
    ensures i < FIELD_COUNT ==> mask[i * FIELD_BITS + ofs]
  {
    i, ofs := from / FIELD_BITS, from % FIELD_BITS;
    while i < FIELD_COUNT
      invariant i <= FIELD_COUNT && ofs < FIELD_BITS && from <= i * FIELD_BITS + ofs
      invariant i == FIELD_COUNT ==> ofs == 0
      invariant forall b :: from <= b < i * FIELD_BITS + ofs ==> !mask[b]
    {
      if AnySet(mask, i * FIELD_BITS + ofs, (i + 1) * FIELD_BITS) {
        while !mask[i * FIELD_BITS + ofs]
          invariant ofs < FIELD_BITS && from <= i * FIELD_BITS + ofs
          invariant AnySet(mask, i * FIELD_BITS + ofs, (i + 1) * FIELD_BITS)
          invariant forall b :: from <= b < i * FIELD_BITS + ofs ==> !mask[b]
          decreases FIELD_BITS - ofs
        {
          ofs := ofs + 1;
        }
        break;
      }
      i := i + 1;
      ofs := 0;
    }
  }

  /** Find the next run of set bits at or after `from`: find the first one, then count
      across word boundaries. */
  method NextRun(mask: array<bool>, from: nat) returns (idx: nat, count: nat)
    requires mask.Length == BITS && from <= BITS
    ensures from <= idx <= BITS
    ensures forall b :: from <= b < idx ==> !mask[b]
    ensures if count == 0 then idx == BITS else RunAt(mask[..], idx, count)
  {
    var i, ofs := NextSet(mask, from);
    if i >= FIELD_COUNT {
      return BITS, 0;
    }
    idx, count := i * FIELD_BITS + ofs, 0;
    WordOf(i, ofs);
    // the outer loop goes round once per word the run reaches into
    var more := true;
    while more
      invariant i < FIELD_COUNT || !more
      invariant idx + count <= BITS && idx < BITS
      invariant forall b :: idx <= b < idx + count ==> mask[b]
      invariant more ==> idx + count < BITS && mask[idx + count] && (idx + count) / FIELD_BITS == i
      invariant !more ==> RunAt(mask[..], idx, count)
      decreases BITS - (idx + count), more
    {
      // within the word: count while the next bit of the shifted word is set
      count := count + 1;
      while (idx + count) % FIELD_BITS != 0 && mask[idx + count]
        invariant idx + count <= BITS && count > 0
        invariant (idx + count - 1) / FIELD_BITS == i
        invariant forall b :: idx <= b < idx + count ==> mask[b]
        decreases BITS - (idx + count)
      {
        count := count + 1;
      }
      if (idx + count) % FIELD_BITS == 0 {
        i := i + 1;
        if i >= FIELD_COUNT {
          more := false;
        } else {
          more := mask[idx + count];
        }
      } else {
        more := false;
      }
    }
  }

  /** Build the mask of the run `idx..idx+count`, one word at a time. */
  method CreateMask(idx: nat, count: nat) returns (cm: array<bool>)
    requires idx < BITS && idx + count <= BITS
    ensures fresh(cm) && cm.Length == BITS
    ensures forall b :: 0 <= b < BITS ==> cm[b] == InRun(idx, count, b)
  {
    cm := new bool[BITS](_ => false);
    var i, ofs, rest := idx / FIELD_BITS, idx % FIELD_BITS, count;
    while rest > 0
      invariant 0 <= ofs < FIELD_BITS && 0 <= rest <= count
      invariant i * FIELD_BITS + ofs + rest == idx + count || rest == 0
      invariant forall b :: 0 <= b < BITS ==> cm[b] == InRun(idx, count - rest, b)
    {
      var avail := FIELD_BITS - ofs;
      var n := if rest > avail then avail else rest;
      forall b | i * FIELD_BITS + ofs <= b < i * FIELD_BITS + ofs + n {
        cm[b] := true;
      }
      rest := rest - n;
      ofs := 0;
      i := i + 1;
    }
  }

  class CommitState {
    const commit: array<bool>
    const purge: array<bool>
    /** When the scheduled slices may be given back; 0 when nothing is scheduled. */
    var expire: nat
    const allowPurge: bool
    const delay: nat
    const extend: nat

    ghost predicate Valid()
      reads this, commit, purge
    {
      && commit.Length == BITS && purge.Length == BITS && commit != purge
      && (forall b :: 0 <= b < BITS && purge[b] ==> commit[b])
      && (forall b :: 0 <= b < BITS && purge[b] ==> allowPurge && delay > 0 && expire > 0)
    }

    constructor (initial: nat, allow: bool, delay: nat, extend: nat)
      requires initial <= BITS
      ensures Valid() && fresh(commit) && fresh(purge)
      ensures forall b :: 0 <= b < BITS ==> commit[b] == (b < initial) && !purge[b]
      ensures expire == 0 && allowPurge == allow && this.delay == delay && this.extend == extend
    {
      commit := new bool[BITS](b => b < initial);
      purge := new bool[BITS](_ => false);
      expire, allowPurge, this.delay, this.extend := 0, allow, delay, extend;
    }

    /** Back the run with memory before it is used.  `osCommits` is what the operating system
        answers; it is asked only when some slice of the run is not committed yet. */
    method EnsureCommitted(idx: nat, count: nat, now: nat, osCommits: bool) returns (ok: bool)
      requires Valid() && idx < BITS && idx + count <= BITS && now > 0
      modifies this, commit, purge
      ensures Valid()
      ensures ok <==> osCommits || (forall b: nat :: InRun(idx, count, b) ==> old(commit[b]))
      ensures forall b :: 0 <= b < BITS ==> commit[b] == (old(commit[b]) || (ok && InRun(idx, count, b)))
      ensures forall b :: 0 <= b < BITS ==> purge[b] == (old(purge[b]) && !(ok && InRun(idx, count, b)))
      ensures expire == if ok && (exists b: nat :: InRun(idx, count, b) && old(purge[b])) then now + delay
                        else old(expire)
    {
      if (forall b :: 0 <= b < BITS ==> commit[b]) && (forall b :: 0 <= b < BITS ==> !purge[b]) {
        return true;
      }
      var mask := CreateMask(idx, count);
      if !(forall b :: 0 <= b < BITS && mask[b] ==> commit[b]) {
        if !osCommits {
          return false;
        }
        forall b | 0 <= b < BITS {
          commit[b] := commit[b] || mask[b];
        }
      }
      if exists b :: 0 <= b < BITS && purge[b] && mask[b] {
        expire := now + delay;
      }
      forall b | 0 <= b < BITS {
        purge[b] := purge[b] && !mask[b];
      }
      return true;
    }

    /** Give the run back at once.  `decommits` tells whether the operating system takes the
        memory away or only resets its contents. */
    method Purge(idx: nat, count: nat, decommits: bool)
      requires Valid() && idx < BITS && idx + count <= BITS
      modifies this, commit, purge
      ensures Valid() && expire == old(expire)
      ensures forall b :: 0 <= b < BITS ==>
        commit[b] == (old(commit[b]) && !(allowPurge && decommits && InRun(idx, count, b)))
      ensures forall b :: 0 <= b < BITS ==> purge[b] == (old(purge[b]) && !InRun(idx, count, b))
    {
      if !allowPurge { return; }
      var mask := CreateMask(idx, count);
      if exists b :: 0 <= b < BITS && commit[b] && mask[b] {
        if decommits {
          forall b | 0 <= b < BITS {
            commit[b] := commit[b] && !mask[b];
          }
        }
      }
      forall b | 0 <= b < BITS {
        purge[b] := purge[b] && !mask[b];
      }
    }

    /** Give back what is scheduled, if it is time.  `runs` lists the calls made to `Purge`. */
    method TryPurge(force: bool, now: nat, decommits: nat -> bool) returns (runs: seq<(nat, nat)>)
      requires Valid()
      modifies this, commit, purge
      ensures Valid()
      ensures runs == [] ==> forall b :: 0 <= b < BITS ==> commit[b] == old(commit[b]) && purge[b] == old(purge[b])
      ensures runs == [] <==> (forall b: nat :: b < BITS ==> !old(purge[b])) || (!force && now < old(expire))
      ensures runs != [] ==>
        && MaximalRuns(old(purge[..]), runs, BITS)
        && (forall b :: 0 <= b < BITS ==> !purge[b])
        && (forall b :: 0 <= b < BITS ==> commit[b] == (old(commit[b]) && !GivenBack(runs, decommits, b)))
      ensures expire == if runs == [] then old(expire) else 0
    {
      runs := [];
      if !allowPurge || (forall b :: 0 <= b < BITS ==> !purge[b]) { return; }
      if !force && now < expire { return; }
      var mask := new bool[BITS](b requires 0 <= b < BITS && purge.Length == BITS reads this, purge => purge[b]);
      ghost var scheduled := old(purge[..]);
      assert mask[..] == scheduled;
      expire := 0;
      forall b | 0 <= b < BITS {
        purge[b] := false;
      }
      runs := PurgeRuns(mask, scheduled, decommits);
      ghost var b: nat :| b < BITS && scheduled[b];
      assert Visited(runs, b);
    }

    /** The loop over the scheduled runs. */
    method PurgeRuns(mask: array<bool>, ghost scheduled: seq<bool>, decommits: nat -> bool)
      returns (runs: seq<(nat, nat)>)
      requires Valid() && mask.Length == BITS && mask != commit && mask != purge
      requires mask[..] == scheduled && expire == 0 && allowPurge
      modifies this, commit, purge
      ensures Valid() && expire == 0
      ensures MaximalRuns(scheduled, runs, BITS)
      ensures forall b :: 0 <= b < BITS ==> !purge[b]
      ensures forall b :: 0 <= b < BITS ==> commit[b] == (old(commit[b]) && !GivenBack(runs, decommits, b))
    {
      runs := [];
      var idx, count := NextRun(mask, 0);
      RunsSkip(scheduled, runs, 0, idx);
      while count > 0
        invariant Valid() && expire == 0
        invariant mask[..] == scheduled && idx <= BITS && (count == 0 ==> idx == BITS)
        invariant count > 0 ==> RunAt(scheduled, idx, count)
        invariant MaximalRuns(scheduled, runs, idx)
        invariant count > 0 && runs != [] ==> runs[|runs| - 1].0 + runs[|runs| - 1].1 < idx
        invariant forall b :: 0 <= b < BITS ==> commit[b] == (old(commit[b]) && !GivenBack(runs, decommits, b))
        decreases BITS - idx, count
      {
        Purge(idx, count, decommits(idx));
        RunsGrow(scheduled, runs, idx, count, decommits);
        runs := runs + [(idx, count)];
        ghost var from := idx + count;
        idx, count := NextRun(mask, idx + count);
        RunsSkip(scheduled, runs, from, idx);
      }
    }

    /** Schedule the run to be given back later (or give it back at once when there is no
        delay).  Only slices that are committed are scheduled.  When the schedule has expired
        some time ago all of it is given back; `runs` lists the calls made to `Purge`. */
    method SchedulePurge(idx: nat, count: nat, now: nat, decommits: nat -> bool) returns (runs: seq<(nat, nat)>)
      requires Valid() && idx < BITS && idx + count <= BITS && now > 0
      modifies this, commit, purge
      ensures Valid()
      ensures runs == [] ==> forall b :: 0 <= b < BITS ==>
        commit[b] == old(commit[b]) &&
          purge[b] == (allowPurge && Scheduled(old(commit[..]), old(purge[..]), idx, count, b))
      ensures runs != [] ==> allowPurge && forall b :: 0 <= b < BITS ==>
        !purge[b] && commit[b] == (old(commit[b]) && !GivenBack(runs, decommits, b))
      ensures delay == 0 ==> runs == if allowPurge then [(idx, count)] else []
      ensures delay > 0 && runs != [] ==> MaximalRuns(WithRun(old(commit[..]), old(purge[..]), idx, count), runs, BITS)
      ensures delay > 0 ==> (runs != [] <==>
        && allowPurge && count > 0 && 0 < old(expire) && old(expire) + extend <= now
        && exists b: nat :: b < BITS && Scheduled(old(commit[..]), old(purge[..]), idx, count, b))
      ensures expire ==
        if !allowPurge || delay == 0 || count == 0 then old(expire)
        else if old(expire) == 0 then now + delay
        else if now < old(expire) then old(expire) + extend
        else if now < old(expire) + extend then now + extend
        else if runs == [] then old(expire) else 0
    {
      runs := [];
      if !allowPurge { return; }
      if delay == 0 {
        Purge(idx, count, decommits(idx));
        OneMoreRun([], idx, count, decommits, idx);
        runs := [(idx, count)];
        forall b: nat ensures GivenBack(runs, decommits, b) <==> InRun(idx, count, b) && decommits(idx) {
          OneMoreRun([], idx, count, decommits, b);
        }
        return;
      }
      var mask := CreateMask(idx, count);
      assert mask[idx] == (count > 0);
      if forall b :: 0 <= b < BITS ==> !mask[b] { return; }
      forall b | 0 <= b < BITS {
        purge[b] := purge[b] || (commit[b] && mask[b]);
      }
      ghost var scheduled := purge[..];
      assert scheduled == WithRun(old(commit[..]), old(purge[..]), idx, count);
      if expire == 0 {
        expire := now + delay;
      } else if expire <= now {
        if expire + extend <= now {
          runs := TryPurge(true, now, decommits);
        } else {
          expire := now + extend;
        }
      } else {
        expire := expire + extend;
      }
    }
  }

  /** What is scheduled once the committed slices of a run have been added. */
  predicate Scheduled(commit: seq<bool>, purge: seq<bool>, idx: nat, count: nat, b: nat)
    requires b < |commit| == |purge|
  {
    purge[b] || (commit[b] && InRun(idx, count, b))
  }

  function WithRun(commit: seq<bool>, purge: seq<bool>, idx: nat, count: nat): seq<bool>
    requires |commit| == |purge|
  {
    seq(|commit|, b requires 0 <= b < |commit| => Scheduled(commit, purge, idx, count, b))
  }

  /** What scheduling a run takes away was scheduled before or is in the run. */
  lemma OnlyWithRun(commit: seq<bool>, purge: seq<bool>, idx: nat, count: nat, runs: seq<(nat, nat)>,
                    decommits: nat -> bool, b: nat)
    requires |commit| == |purge| == BITS
    requires runs == [(idx, count)] || MaximalRuns(WithRun(commit, purge, idx, count), runs, BITS)
    requires GivenBack(runs, decommits, b)
    ensures InRun(idx, count, b) || (b < BITS && purge[b])
  {
    if runs == [(idx, count)] {
      OneMoreRun([], idx, count, decommits, b);
      assert [] + runs == runs;
    } else {
      OnlyScheduled(WithRun(commit, purge, idx, count), runs, decommits);
    }
  }

  /** Only scheduled slices are ever taken away. */
  lemma OnlyScheduled(mask: seq<bool>, runs: seq<(nat, nat)>, decommits: nat -> bool)
    requires MaximalRuns(mask, runs, BITS)
    ensures forall b: nat :: GivenBack(runs, decommits, b) ==> b < |mask| && mask[b]
  {
    forall b: nat | GivenBack(runs, decommits, b)
      ensures b < |mask| && mask[b]
    {
      var k :| 0 <= k < |runs| && InRun(runs[k].0, runs[k].1, b) && decommits(runs[k].0);
    }
  }

  /** Some run that the operating system took away holds the slice. */
  ghost predicate GivenBack(runs: seq<(nat, nat)>, decommits: nat -> bool, b: nat) {
    exists k :: 0 <= k < |runs| && InRun(runs[k].0, runs[k].1, b) && decommits(runs[k].0)
  }

  ghost predicate Visited(runs: seq<(nat, nat)>, b: nat) {
    exists k :: 0 <= k < |runs| && InRun(runs[k].0, runs[k].1, b)
  }

  /** `runs` are the runs of set bits below `end`, from left to right, with a gap between each
      and the next: every set bit is in exactly one of them and none can be made longer. */
  ghost predicate MaximalRuns(mask: seq<bool>, runs: seq<(nat, nat)>, end: nat) {
    && (forall k :: 0 <= k < |runs| ==> RunAt(mask, runs[k].0, runs[k].1) && runs[k].0 + runs[k].1 <= end)
    && (forall j, k :: 0 <= j < k < |runs| ==> runs[j].0 + runs[j].1 < runs[k].0)
    && (forall b: nat :: b < |mask| && b < end ==> (mask[b] <==> Visited(runs, b)))
  }

  lemma RunsGrow(mask: seq<bool>, runs: seq<(nat, nat)>, idx: nat, count: nat, decommits: nat -> bool)
    requires MaximalRuns(mask, runs, idx) && RunAt(mask, idx, count)
    requires runs == [] || runs[|runs| - 1].0 + runs[|runs| - 1].1 < idx
    ensures MaximalRuns(mask, runs + [(idx, count)], idx + count)
    ensures forall b: nat :: GivenBack(runs + [(idx, count)], decommits, b) <==>
      GivenBack(runs, decommits, b) || (InRun(idx, count, b) && decommits(idx))
  {
    var r, n := runs + [(idx, count)], |runs|;
    assert r[n] == (idx, count) && forall k :: 0 <= k < n ==> r[k] == runs[k];
    forall b: nat
      ensures Visited(r, b) <==> Visited(runs, b) || InRun(idx, count, b)
      ensures GivenBack(r, decommits, b) <==> GivenBack(runs, decommits, b) || (InRun(idx, count, b) && decommits(idx))
    {
      OneMoreRun(runs, idx, count, decommits, b);
    }
    forall b: nat | b < |mask| && b < idx + count
      ensures mask[b] <==> Visited(r, b)
    {
      if Visited(runs, b) {
        var k :| 0 <= k < n && InRun(runs[k].0, runs[k].1, b);
      }
    }
  }

  lemma OneMoreRun(runs: seq<(nat, nat)>, idx: nat, count: nat, decommits: nat -> bool, b: nat)
    ensures Visited(runs + [(idx, count)], b) <==> Visited(runs, b) || InRun(idx, count, b)
    ensures GivenBack(runs + [(idx, count)], decommits, b) <==>
      GivenBack(runs, decommits, b) || (InRun(idx, count, b) && decommits(idx))
  {
    var r, n := runs + [(idx, count)], |runs|;
    assert r[n] == (idx, count) && forall k :: 0 <= k < n ==> r[k] == runs[k];
    if Visited(runs, b) {
      var k :| 0 <= k < n && InRun(runs[k].0, runs[k].1, b);
      assert InRun(r[k].0, r[k].1, b);
    }
    if GivenBack(runs, decommits, b) {
      var k :| 0 <= k < n && InRun(runs[k].0, runs[k].1, b) && decommits(runs[k].0);
      assert InRun(r[k].0, r[k].1, b) && decommits(r[k].0);
    }
    assert InRun(r[n].0, r[n].1, b) <==> InRun(idx, count, b);
  }

  lemma RunsSkip(mask: seq<bool>, runs: seq<(nat, nat)>, from: nat, to: nat)
    requires MaximalRuns(mask, runs, from) && from <= to <= |mask|
    requires forall b :: from <= b < to ==> !mask[b]
    ensures MaximalRuns(mask, runs, to)
  {
    assert forall b: nat :: Visited(runs, b) ==> b < from;
  }
}
