/** Handing out arena blocks with a shared bitmap.

    A claim of several blocks may reach across 64-bit fields.  It takes the fields one after
    the other, each with one compare-and-swap; when a field turns out to be taken it gives
    back the fields it has, from the last to the first.  Any number of claims, releases and
    purges interleave.  Every step below is one atomic operation on one field, or
    discards memory of blocks that the operation holds; a compare-and-swap that fails because
    the field changed meanwhile is retried by the code and is not a step. */
module BitmapClaims {

  const FIELD_BITS: nat := 64

  datatype Phase =
    | Claiming(got: nat)     // has taken the first `got` blocks of its range
    | RollingBack(got: nat)  // a field was taken; still has the first `got` blocks
    | Holding                // has the whole range: a client, or a purge at work
    | Releasing(done: nat)   // has given back the first `done` blocks

  /** An operation on the blocks `start..start+count`. */
  datatype Op = Op(start: nat, count: nat, phase: Phase)

  /** `inuse` and `purge` are the two bitmaps, `blocks` the number of blocks of the arena; the
      bits above belong to no block.  `fault` is set when an assertion of the source fails, a
      release finds a block that was not in use, or a purge touches a block that its operation
      does not hold. */
  datatype State = State(inuse: seq<bool>, purge: seq<bool>, blocks: nat, ops: map<nat, Op>, fault: bool)

  datatype Action =
    | Begin(o: nat, start: nat, count: nat)
    | ClaimField(o: nat)
    | RollbackField(o: nat)
    | BeginRelease(o: nat)
    | ReleaseField(o: nat)
    | SchedulePurge(o: nat, lo: nat, hi: nat)
    | UnschedulePurge(o: nat, lo: nat, hi: nat)
    | PurgeRun(o: nat, lo: nat, hi: nat)

  function Min(a: nat, b: nat): nat {
    if a <= b then a else b
  }

  function FieldOf(b: nat): nat {
    b / FIELD_BITS
  }

  /** Where the field of block `b` ends. */
  function FieldEnd(b: nat): nat {
    (FieldOf(b) + 1) * FIELD_BITS
  }

  function SetRange(bits: seq<bool>, lo: nat, hi: nat, v: bool): (r: seq<bool>)
    ensures |r| == |bits|
    ensures forall b :: 0 <= b < |bits| ==> r[b] == if lo <= b < hi then v else bits[b]
  {
    seq(|bits|, b requires 0 <= b < |bits| => if lo <= b < hi then v else bits[b])
  }

  predicate AllAre(bits: seq<bool>, lo: nat, hi: nat, v: bool) {
    hi <= |bits| && forall b :: lo <= b < hi ==> bits[b] == v
  }

  /** The blocks `lo..hi` are held by `o`. */
  predicate HoldsPart(s: State, o: nat, lo: nat, hi: nat) {
    && o in s.ops && s.ops[o].phase.Holding?
    && s.ops[o].start <= lo < hi <= s.ops[o].start + s.ops[o].count
  }

  predicate Enabled(s: State, a: Action) {
    match a
    case Begin(o, start, count) => o !in s.ops && count > 0 && start + count <= |s.inuse|
    case ClaimField(o) => o in s.ops && s.ops[o].phase.Claiming?
    case RollbackField(o) => o in s.ops && s.ops[o].phase.RollingBack?
    case BeginRelease(o) => o in s.ops && s.ops[o].phase.Holding?
    case ReleaseField(o) => o in s.ops && s.ops[o].phase.Releasing?
    case SchedulePurge(o, lo, hi) => HoldsPart(s, o, lo, hi) && hi <= FieldEnd(lo)
    case UnschedulePurge(o, lo, hi) => HoldsPart(s, o, lo, hi) && hi <= FieldEnd(lo)
    case PurgeRun(o, lo, hi) => HoldsPart(s, o, lo, hi)
  }

  /** The next field of a claim: swap its bits in if they are all clear. */
  function ClaimNext(s: State, o: nat): State
    requires o in s.ops && s.ops[o].phase.Claiming?
  {
    var op := s.ops[o];
    var lo := op.start + op.phase.got;
    var hi := Min(op.start + op.count, FieldEnd(lo));
    if AllAre(s.inuse, lo, hi, false) then
      var got := hi - op.start;
      s.(inuse := SetRange(s.inuse, lo, hi, true),
         ops := s.ops[o := op.(phase := if got >= op.count then Holding else Claiming(got))])
    else if op.phase.got == 0 then
      s.(ops := s.ops - {o})
    else
      s.(ops := s.ops[o := op.(phase := RollingBack(op.phase.got))])
  }

  /** Give back the last field taken: a field after the first was taken as a whole, so it is
      simply overwritten with 0; of the first field only the bits taken are cleared. */
  function RollbackNext(s: State, o: nat): State
    requires o in s.ops && s.ops[o].phase.RollingBack?
  {
    var op := s.ops[o];
    var end := op.start + op.phase.got;
    var field := if end > 0 then FieldOf(end - 1) else 0;
    if field > FieldOf(op.start) then
      var lo, hi := field * FIELD_BITS, (field + 1) * FIELD_BITS;
      s.(inuse := SetRange(s.inuse, lo, hi, false),
         ops := s.ops[o := op.(phase := RollingBack(lo - op.start))],
         fault := s.fault || !AllAre(s.inuse, lo, hi, true))
    else
      s.(inuse := SetRange(s.inuse, op.start, end, false), ops := s.ops - {o},
         fault := s.fault || !AllAre(s.inuse, op.start, end, true))
  }

  /** Clear the next field of a range that is given back. */
  function ReleaseNext(s: State, o: nat): State
    requires o in s.ops && s.ops[o].phase.Releasing?
  {
    var op := s.ops[o];
    var lo := op.start + op.phase.done;
    var hi := Min(op.start + op.count, FieldEnd(lo));
    s.(inuse := SetRange(s.inuse, lo, hi, false),
       ops := if hi >= op.start + op.count then s.ops - {o}
              else s.ops[o := op.(phase := Releasing(hi - op.start))],
       fault := s.fault || !AllAre(s.inuse, lo, hi, true))
  }

  /** Block `b` is in the hands of `o`. */
  predicate Has(s: State, o: nat, b: nat) {
    o in s.ops && Lo(s.ops[o]) <= b < Hi(s.ops[o])
  }

  function Lo(op: Op): nat {
    if op.phase.Releasing? then op.start + op.phase.done else op.start
  }

  function Hi(op: Op): nat {
    match op.phase
    case Claiming(got) => op.start + got
    case RollingBack(got) => op.start + got
    case Holding => op.start + op.count
    case Releasing(_) => op.start + op.count
  }

  function Apply(s: State, a: Action): State
    requires Enabled(s, a)
  {
    match a
    case Begin(o, start, count) => s.(ops := s.ops[o := Op(start, count, Claiming(0))])
    case ClaimField(o) => ClaimNext(s, o)
    case RollbackField(o) => RollbackNext(s, o)
    case BeginRelease(o) => s.(ops := s.ops[o := s.ops[o].(phase := Releasing(0))])
    case ReleaseField(o) => ReleaseNext(s, o)
    case SchedulePurge(o, lo, hi) => s.(purge := SetRange(s.purge, lo, hi, true))
    case UnschedulePurge(o, lo, hi) => s.(purge := SetRange(s.purge, lo, hi, false))
    case PurgeRun(o, lo, hi) =>
      // the memory of the run is discarded; its purge bits are cleared after that, field by field
      s.(fault := s.fault || !SafeToPurge(s, o, lo, hi))
  }

  /** The blocks exist and are in nobody else's hands. */
  predicate SafeToPurge(s: State, o: nat, lo: nat, hi: nat) {
    hi <= s.blocks && hi <= |s.inuse| && AllAre(s.inuse, lo, hi, true)
    && forall p | p in s.ops && p != o :: Hi(s.ops[p]) <= lo || hi <= Lo(s.ops[p]) || Hi(s.ops[p]) <= Lo(s.ops[p])
  }

  ghost predicate Next(s: State, s': State) {
    exists a :: Enabled(s, a) && s' == Apply(s, a)
  }

  /** A fresh arena: the bits above the last block are set, so they can never be claimed. */
  ghost predicate Init(s: State) {
    && s.ops == map[] && !s.fault
    && |s.inuse| == |s.purge| && |s.inuse| % FIELD_BITS == 0 && s.blocks <= |s.inuse|
    && (forall b :: 0 <= b < |s.inuse| ==> s.inuse[b] == (b >= s.blocks))
  }

  ghost predicate Run(r: seq<State>) {
    && r != [] && Init(r[0])
    && (forall k :: 0 < k < |r| ==> Next(r[k - 1], r[k]))
  }

  // ---------------------------------------------------------------- the invariant

  /** A claim stops only at the end of a field. */
  ghost predicate OpOk(s: State, o: nat) {
    o in s.ops ==>
      var op := s.ops[o];
      && op.count > 0 && op.start + op.count <= |s.inuse|
      && Lo(op) <= Hi(op) <= op.start + op.count
      && (Hi(op) > op.start ==> Hi(op) <= s.blocks)
      && match op.phase
         case Claiming(got) => got < op.count && (got > 0 ==> (op.start + got) % FIELD_BITS == 0)
         case RollingBack(got) => 0 < got < op.count && (op.start + got) % FIELD_BITS == 0
         case Holding => true
         case Releasing(done) => done < op.count
  }

  /** No block is in two hands. */
  ghost predicate Apart(s: State, o: nat, p: nat) {
    o in s.ops && p in s.ops && o != p ==> forall b :: !(Has(s, o, b) && Has(s, p, b))
  }

  /** A bit is set exactly when its block is in somebody's hands, or there is no such block. */
  ghost predicate BitOk(s: State, b: nat) {
    b < |s.inuse| ==> (s.inuse[b] <==> b >= s.blocks || exists o :: Has(s, o, b))
  }

  ghost predicate Inv(s: State) {
    && !s.fault && |s.inuse| == |s.purge| && s.blocks <= |s.inuse| && |s.inuse| % FIELD_BITS == 0
    && (forall o :: OpOk(s, o))
    && (forall o, p :: Apart(s, o, p))
    && (forall b :: BitOk(s, b))
  }

  /** `o` went from holding what it holds in `s` to holding what it holds in `s'`; the bits
      followed, and what it gained was free. */
  ghost predicate Follows(s: State, s': State, o: nat) {
    && |s'.inuse| == |s.inuse| == |s'.purge| && s'.blocks == s.blocks
    && (forall p :: p != o ==> (p in s.ops <==> p in s'.ops) && (p in s.ops ==> s'.ops[p] == s.ops[p]))
    && (forall b: nat :: b < |s.inuse| ==>
          s'.inuse[b] == if Has(s', o, b) then true else if Has(s, o, b) then false else s.inuse[b])
    && (forall b: nat :: Has(s', o, b) && !Has(s, o, b) ==> b < |s.inuse| && !s.inuse[b])
  }

  lemma FollowsKeepsInv(s: State, s': State, o: nat)
    requires Inv(s) && Follows(s, s', o) && OpOk(s', o) && !s'.fault
    ensures Inv(s')
  {
    forall p ensures OpOk(s', p) {
      assert OpOk(s, p);
    }
    forall p, b: nat | p != o
      ensures Has(s', p, b) <==> Has(s, p, b)
    {
    }
    forall p, q
      ensures Apart(s', p, q)
    {
      assert Apart(s, p, q);
      forall b
        ensures !(p != q && Has(s', p, b) && Has(s', q, b))
      {
        assert BitOk(s, b);
      }
    }
    forall b
      ensures BitOk(s', b)
    {
      BitFollows(s, s', o, b);
    }
  }

  lemma BitFollows(s: State, s': State, o: nat, b: nat)
    requires Inv(s) && Follows(s, s', o)
    ensures BitOk(s', b)
  {
    assert BitOk(s, b) && OpOk(s, o);
    if b < |s.inuse| && !Has(s', o, b) {
      if Has(s, o, b) {
        assert !s'.inuse[b];
        forall p
          ensures !Has(s', p, b)
        {
          assert Apart(s, p, o) && (p == o || !Has(s, p, b));
        }
      } else {
        forall p
          ensures Has(s', p, b) <==> Has(s, p, b)
        {
        }
      }
    }
  }

  lemma FieldEndBounds(b: nat)
    ensures b < FieldEnd(b) <= b + FIELD_BITS && FieldEnd(b) % FIELD_BITS == 0
  {
  }

  lemma BeginKeepsInv(s: State, o: nat, start: nat, count: nat)
    requires Inv(s) && Enabled(s, Begin(o, start, count))
    ensures Inv(Apply(s, Begin(o, start, count)))
  {
    FollowsKeepsInv(s, Apply(s, Begin(o, start, count)), o);
  }

  /** The chunk of bits the next step of a claim is about. */
  function Chunk(op: Op): (nat, nat)
    requires op.phase.Claiming?
  {
    var lo := op.start + op.phase.got;
    (lo, Min(op.start + op.count, FieldEnd(lo)))
  }

  lemma ClaimKeepsInv(s: State, o: nat)
    requires Inv(s) && Enabled(s, ClaimField(o))
    ensures Inv(ClaimNext(s, o))
  {
    var (lo, hi) := Chunk(s.ops[o]);
    if AllAre(s.inuse, lo, hi, false) {
      ChunkTaken(s, o, lo, hi);
    } else {
      ChunkLost(s, o, lo, hi);
    }
  }

  lemma ChunkTaken(s: State, o: nat, lo: nat, hi: nat)
    requires Inv(s) && Enabled(s, ClaimField(o)) && (lo, hi) == Chunk(s.ops[o]) && AllAre(s.inuse, lo, hi, false)
    ensures Inv(ClaimNext(s, o))
  {
    var s' := ClaimNext(s, o);
    assert OpOk(s, o);
    FieldEndBounds(lo);
    ClearBelow(s, lo, hi);
    HeldAreSet(s, o);
    ChunkFollows(s, s', o, lo, hi);
    FollowsKeepsInv(s, s', o);
  }

  lemma ChunkFollows(s: State, s': State, o: nat, lo: nat, hi: nat)
    requires Enabled(s, ClaimField(o)) && (lo, hi) == Chunk(s.ops[o]) && AllAre(s.inuse, lo, hi, false)
    requires s' == ClaimNext(s, o)
    requires lo < hi && hi <= s.blocks <= |s.inuse| == |s.purge| && AllAre(s.inuse, Lo(s.ops[o]), Hi(s.ops[o]), true)
    ensures Follows(s, s', o)
  {
    var op := s.ops[o];
    assert Lo(op) == op.start && Hi(op) == lo && Lo(s'.ops[o]) == op.start && Hi(s'.ops[o]) == hi;
  }

  lemma ChunkLost(s: State, o: nat, lo: nat, hi: nat)
    requires Inv(s) && Enabled(s, ClaimField(o)) && (lo, hi) == Chunk(s.ops[o]) && !AllAre(s.inuse, lo, hi, false)
    ensures Inv(ClaimNext(s, o))
  {
    assert OpOk(s, o);
    HeldAreSet(s, o);
    LostFollows(s, ClaimNext(s, o), o, lo, hi);
    FollowsKeepsInv(s, ClaimNext(s, o), o);
  }

  /** A claim that loses a field keeps what it has, or has nothing and is over. */
  lemma LostFollows(s: State, s': State, o: nat, lo: nat, hi: nat)
    requires Enabled(s, ClaimField(o)) && s' == ClaimNext(s, o) && OpOk(s, o) && |s.inuse| == |s.purge|
    requires (lo, hi) == Chunk(s.ops[o]) && !AllAre(s.inuse, lo, hi, false)
    requires AllAre(s.inuse, Lo(s.ops[o]), Hi(s.ops[o]), true)
    ensures Follows(s, s', o) && OpOk(s', o)
  {
    if s.ops[o].phase.got == 0 {
      LostAtOnce(s, s', o);
    } else {
      assert s'.ops[o] == s.ops[o].(phase := RollingBack(s.ops[o].phase.got));
    }
  }

  lemma LostAtOnce(s: State, s': State, o: nat)
    requires o in s.ops && s.ops[o].phase == Claiming(0) && s' == s.(ops := s.ops - {o}) && |s.inuse| == |s.purge|
    ensures Follows(s, s', o) && OpOk(s', o)
  {
  }

  /** Clear bits stand for blocks of the arena. */
  lemma ClearBelow(s: State, lo: nat, hi: nat)
    requires Inv(s) && lo < hi && AllAre(s.inuse, lo, hi, false)
    ensures hi <= s.blocks
  {
    assert BitOk(s, hi - 1);
  }

  lemma RollbackKeepsInv(s: State, o: nat)
    requires Inv(s) && Enabled(s, RollbackField(o))
    ensures Inv(RollbackNext(s, o))
  {
    assert OpOk(s, o);
    HeldAreSet(s, o);
    var op := s.ops[o];
    if FieldOf(op.start + op.phase.got - 1) > FieldOf(op.start) {
      WholeField(op.start, op.start + op.phase.got);
      FieldGivenBack(s, RollbackNext(s, o), o);
    } else {
      LastGivenBack(s, RollbackNext(s, o), o);
    }
    FollowsKeepsInv(s, RollbackNext(s, o), o);
  }

  lemma FieldGivenBack(s: State, s': State, o: nat)
    requires Enabled(s, RollbackField(o)) && s' == RollbackNext(s, o) && OpOk(s, o) && !s.fault
    requires |s.inuse| == |s.purge| && AllAre(s.inuse, Lo(s.ops[o]), Hi(s.ops[o]), true)
    requires var start, end := s.ops[o].start, Hi(s.ops[o]);
      && FieldOf(end - 1) > FieldOf(start)
      && start < FieldOf(end - 1) * FIELD_BITS && (FieldOf(end - 1) + 1) * FIELD_BITS == end
    ensures Follows(s, s', o) && OpOk(s', o) && !s'.fault
  {
    var op := s.ops[o];
    var lo := FieldOf(Hi(op) - 1) * FIELD_BITS;
    assert s'.ops[o] == op.(phase := RollingBack(lo - op.start)) && lo % FIELD_BITS == 0;
  }

  lemma LastGivenBack(s: State, s': State, o: nat)
    requires Enabled(s, RollbackField(o)) && s' == RollbackNext(s, o) && OpOk(s, o) && !s.fault
    requires |s.inuse| == |s.purge| && AllAre(s.inuse, Lo(s.ops[o]), Hi(s.ops[o]), true)
    requires FieldOf(Hi(s.ops[o]) - 1) <= FieldOf(s.ops[o].start)
    ensures Follows(s, s', o) && OpOk(s', o) && !s'.fault
  {
    assert o !in s'.ops;
  }

  /** A range that ends at the end of a field and starts in an earlier one covers the last field. */
  lemma WholeField(start: nat, end: nat)
    requires end > 0 && end % FIELD_BITS == 0 && FieldOf(end - 1) > FieldOf(start)
    ensures start < FieldOf(end - 1) * FIELD_BITS && (FieldOf(end - 1) + 1) * FIELD_BITS == end
  {
  }

  lemma ReleaseKeepsInv(s: State, o: nat)
    requires Inv(s) && Enabled(s, ReleaseField(o))
    ensures Inv(ReleaseNext(s, o))
  {
    assert OpOk(s, o);
    var op := s.ops[o];
    HeldAreSet(s, o);
    FieldEndBounds(op.start + op.phase.done);
    FollowsKeepsInv(s, ReleaseNext(s, o), o);
  }

  lemma HeldAreSet(s: State, o: nat)
    requires Inv(s) && o in s.ops
    ensures AllAre(s.inuse, Lo(s.ops[o]), Hi(s.ops[o]), true)
  {
    assert OpOk(s, o);
    forall b: nat | Lo(s.ops[o]) <= b < Hi(s.ops[o])
      ensures s.inuse[b]
    {
      assert Has(s, o, b) && BitOk(s, b);
    }
  }

  lemma PurgeKeepsInv(s: State, o: nat, lo: nat, hi: nat)
    requires Inv(s) && Enabled(s, PurgeRun(o, lo, hi))
    ensures SafeToPurge(s, o, lo, hi)
    ensures Inv(Apply(s, PurgeRun(o, lo, hi)))
  {
    assert OpOk(s, o);
    HeldAreSet(s, o);
    forall p | p in s.ops && p != o
      ensures Hi(s.ops[p]) <= lo || hi <= Lo(s.ops[p]) || Hi(s.ops[p]) <= Lo(s.ops[p])
    {
      assert Apart(s, o, p) && OpOk(s, p);
      var b := if lo <= Lo(s.ops[p]) then Lo(s.ops[p]) else lo;
      assert !(Has(s, o, b) && Has(s, p, b));
    }
    SameClaims(s, Apply(s, PurgeRun(o, lo, hi)));
  }

  lemma SameClaims(s: State, s': State)
    requires Inv(s) && !s'.fault && s'.inuse == s.inuse && s'.ops == s.ops && s'.blocks == s.blocks
    requires |s'.purge| == |s.purge|
    ensures Inv(s')
  {
    forall o ensures OpOk(s', o) { assert OpOk(s, o); }
    forall o, b: nat ensures Has(s', o, b) <==> Has(s, o, b) {}
    forall o, p ensures Apart(s', o, p) { assert Apart(s, o, p); }
    forall b ensures BitOk(s', b) {
      assert BitOk(s, b);
      if o :| Has(s, o, b) { assert Has(s', o, b); }
    }
  }

  lemma StepKeepsInv(s: State, a: Action)
    requires Inv(s) && Enabled(s, a)
    ensures Inv(Apply(s, a))
  {
    match a
    case Begin(o, start, count) => BeginKeepsInv(s, o, start, count);
    case ClaimField(o) => ClaimKeepsInv(s, o);
    case RollbackField(o) => RollbackKeepsInv(s, o);
    case BeginRelease(o) => assert OpOk(s, o); HeldAreSet(s, o); FollowsKeepsInv(s, Apply(s, a), o);
    case ReleaseField(o) => ReleaseKeepsInv(s, o);
    case SchedulePurge(_, _, _) => SameClaims(s, Apply(s, a));
    case UnschedulePurge(_, _, _) => SameClaims(s, Apply(s, a));
    case PurgeRun(o, lo, hi) => PurgeKeepsInv(s, o, lo, hi);
  }

  lemma {:induction false} RunKeepsInv(r: seq<State>)
    requires Run(r)
    ensures Inv(r[|r| - 1])
  {
    var last := |r| - 1;
    if last > 0 {
      assert Run(r[..last]);
      RunKeepsInv(r[..last]);
      assert Next(r[last - 1], r[last]);
      var a :| Enabled(r[last - 1], a) && r[last] == Apply(r[last - 1], a);
      StepKeepsInv(r[last - 1], a);
    }
  }

  // ---------------------------------------------------------------- what holds in every reachable state

  ghost predicate Reachable(s: State) {
    exists r :: Run(r) && r[|r| - 1] == s
  }

  /** No assertion of the claim and rollback code fails, no release finds a block that is not
      in use, and no purge touches a block of somebody else. */
  lemma NeverFaults(s: State)
    requires Reachable(s)
    ensures !s.fault
  {
    var r :| Run(r) && r[|r| - 1] == s;
    RunKeepsInv(r);
  }

  /** The set bits are the disjoint union of what the operations hold and the bits that belong
      to no block; so blocks are handed out to one operation at a time, and only blocks of the
      arena. */
  lemma Exclusive(s: State, b: nat)
    requires Reachable(s) && b < |s.inuse|
    ensures b >= s.blocks ==> s.inuse[b] && forall o :: !Has(s, o, b)
    ensures b < s.blocks ==> (s.inuse[b] <==> exists o :: Has(s, o, b))
    ensures forall o, p :: Has(s, o, b) && Has(s, p, b) ==> o == p
  {
    var r :| Run(r) && r[|r| - 1] == s;
    RunKeepsInv(r);
    assert BitOk(s, b);
    forall o, p | Has(s, o, b) && Has(s, p, b)
      ensures o == p && b < s.blocks
    {
      assert Apart(s, o, p) && OpOk(s, o);
    }
    forall o
      ensures Has(s, o, b) ==> b < s.blocks
    {
      assert OpOk(s, o);
    }
  }

  /** A step by one operation changes no bit that another one holds; in particular a rollback,
      which overwrites whole fields, gives back exactly what its claim took. */
  lemma OnlyOwnBits(s: State, a: Action, o: nat, b: nat)
    requires Reachable(s) && Enabled(s, a) && Has(s, o, b) && !ActsFor(a, o)
    ensures Has(Apply(s, a), o, b) && b < |s.inuse| && Apply(s, a).inuse[b] && s.inuse[b]
    ensures |Apply(s, a).purge| == |s.inuse| == |s.purge| && Apply(s, a).purge[b] == s.purge[b]
  {
    var r :| Run(r) && r[|r| - 1] == s;
    RunKeepsInv(r);
    StepKeepsInv(s, a);
    var s' := Apply(s, a);
    assert BitOk(s, b) && BitOk(s', b) && OpOk(s, o);
    assert Has(s', o, b);
    assert Apart(s, o, a.o);
  }

  predicate ActsFor(a: Action, o: nat) {
    a.o == o
  }

  /** When a rolled-back claim is over, the bits are as if it had never been: a bit is set exactly
      when it is beyond the blocks or another operation holds it, and that step has cleared only
      what the claim still had. */
  lemma RolledBack(s: State, o: nat, b: nat)
    requires Reachable(s) && Enabled(s, RollbackField(o)) && b < |s.inuse|
    requires o !in Apply(s, RollbackField(o)).ops
    ensures var s' := Apply(s, RollbackField(o));
      && (s'.inuse[b] <==> b >= s.blocks || exists p :: p != o && Has(s', p, b))
      && (s'.inuse[b] <==> s.inuse[b] && !Has(s, o, b))
      && (forall p :: p != o ==> (Has(s', p, b) <==> Has(s, p, b)))
  {
    var r :| Run(r) && r[|r| - 1] == s;
    RunKeepsInv(r);
    StepKeepsInv(s, RollbackField(o));
    var s' := Apply(s, RollbackField(o));
    assert OpOk(s, o) && BitOk(s, b) && BitOk(s', b);
    forall p | p != o
      ensures Has(s', p, b) <==> Has(s, p, b)
    {
    }
    assert forall p :: Has(s', p, b) ==> p != o;
  }
}
