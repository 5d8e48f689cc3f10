/** Size classes.  Sizes are counted in words of eight bytes with a minimal alignment of two
    words.  A page serves the requests of one bin: exact classes for the first words, then
    four classes per doubling. */
module SizeBins {
  import opened Bits

  const HUGE: nat := 73
  const FULL: nat := 74
  const MEDIUM_WORDS: nat := 16384
  const LAST_MEDIUM: nat := 52
  const SMALL_WORDS: nat := 128

  /** The bin that serves a request of `w` words. */
  function BinOf(w: nat): nat {
    if w <= 1 then 1
    else if w <= 8 then (w + 1) / 2 * 2
    else if w > MEDIUM_WORDS then HUGE
    else
      HighBitMonotone(8, w - 1);
      assert HighBit(8) == 3;
      var b := HighBit(w - 1);
      4 * b + ((w - 1) / Pow2(b - 2)) % 4 - 3
  }

  /** The block size of a bin's pages, in words, as the table of empty queues lists it. */
  function QueueSize(bin: nat): (r: nat)
    requires bin <= FULL
    ensures r > 0
  {
    if bin == 0 then 1
    else if bin <= 8 then bin
    else if bin < HUGE then (5 + (bin + 3) % 4) * Pow2((bin + 3) / 4 - 2)
    else if bin == HUGE then MEDIUM_WORDS + 1
    else MEDIUM_WORDS + 2
  }

  /** The bins that pages are put on: with an alignment of two words, bins 3, 5 and 7 serve no
      size, and neither do the bins beyond medium sizes. */
  predicate Used(bin: nat) {
    (bin in {1, 2, 4, 6}) || 8 <= bin <= LAST_MEDIUM || bin == HUGE || bin == FULL
  }

  lemma {:induction false} HighBitIs(n: nat, s: nat)
    requires n > 0 && Pow2(s) <= n < 2 * Pow2(s)
    ensures HighBit(n) == s
  {
    if s > 0 { HighBitIs(n / 2, s - 1); }
  }

  /** The quotient is the only one that leaves a remainder below `p`. */
  lemma DivIs(q: nat, r: nat, p: nat)
    requires r < p
    ensures (q * p + r) / p == q
  {
    DivBound(q * p + r, p, q);
    if q > 0 { DivBound(q * p + r, p, q - 1); }
  }

  /** `n` has its highest bit at `s` and its three top bits are `q`. */
  ghost predicate Parts(n: nat, s: nat, q: nat) {
    && 8 <= n < MEDIUM_WORDS && 3 <= s <= 13 && 4 <= q < 8
    && var p := Pow2(s - 2); Times(q, p) <= n < Times(q, p) + p
  }

  /** Multiplication by a small factor, written as additions. */
  function Times(q: nat, p: nat): (r: nat)
    requires q <= 8
    ensures r == q * p
  {
    if q == 0 then 0 else Times(q - 1, p) + p
  }

  lemma Quotient(n: nat, q: nat, p: nat)
    requires q < 8 && Times(q, p) <= n < Times(q, p) + p
    ensures n / p == q && n % p == n - Times(q, p)
  {
    DivIs(q, n - q * p, p);
    assert n == n / p * p + n % p;
  }

  /** A bin above the exact ones, taken apart: its sizes share their three top bits. */
  lemma BinParts(n: nat, s: nat, q: nat)
    requires Parts(n, s, q)
    ensures BinOf(n + 1) == 4 * s + q - 7
  {
    var p := Pow2(s - 2);
    assert Pow2(s) == 2 * Pow2(s - 1) == 4 * p;
    TimesBound(q, p);
    HighBitIs(n, s);
    Quotient(n, q, p);
    BinFrom(n, s, q);
  }

  lemma BinFrom(n: nat, s: nat, q: nat)
    requires 8 <= n < MEDIUM_WORDS && HighBit(n) == s >= 2 && n / Pow2(s - 2) == q && 4 <= q < 8
    ensures BinOf(n + 1) == 4 * s + q - 7
  {
  }

  lemma TimesBound(q: nat, p: nat)
    requires 4 <= q < 8
    ensures 4 * p <= Times(q, p) <= Times(q, p) + p <= 8 * p
    ensures Times(q + 1, p) == Times(q, p) + p
  {
    assert q == 4 || q == 5 || q == 6 || q == 7;
  }

  /** Every size above the exact ones has parts. */
  lemma SizeParts(n: nat) returns (s: nat, q: nat)
    requires 8 <= n < MEDIUM_WORDS
    ensures s == HighBit(n) && Parts(n, s, q) && BinOf(n + 1) == 4 * s + q - 7
  {
    s := HighBit(n);
    HighBitMonotone(8, n);
    HighBitMonotone(n, MEDIUM_WORDS - 1);
    TopHighBit();
    TopBits(n);
    var p := Pow2(s - 2);
    q := n / p;
    DivBound(n, p, q);
    DivBound(n, p, q - 1);
    TimesBound(q, p);
    assert (q + 1) * p == q * p + p;
    BinParts(n, s, q);
  }

  lemma TopHighBit()
    ensures HighBit(8) == 3 && HighBit(MEDIUM_WORDS - 1) == 13
  {
    assert Pow2(8) == 256;
    assert Pow2(13) == 8192;
    HighBitIs(16383, 13);
  }

  /** The block size of a bin above the exact ones. */
  lemma OwnBlock(s: nat, q: nat)
    requires 3 <= s <= 13 && 4 <= q < 8
    ensures 9 <= 4 * s + q - 7 <= LAST_MEDIUM
    ensures QueueSize(4 * s + q - 7) == Times(q + 1, Pow2(s - 2))
  {
    var bin := 4 * s + q - 7;
    assert (bin + 3) / 4 == s && (bin + 3) % 4 == q - 4;
  }

  /** That of the bin before it: the last class of the doubling before comes before the first. */
  lemma BlockBefore(s: nat, q: nat)
    requires 3 <= s <= 13 && 4 <= q < 8
    ensures QueueSize(4 * s + q - 8) == Times(q, Pow2(s - 2))
  {
    if q > 4 {
      OwnBlock(s, q - 1);
    } else if s > 3 {
      OwnBlock(s - 1, 7);
      DoubleStep(s);
    } else {
      assert Pow2(1) == 2;
    }
  }

  lemma DoubleStep(s: nat)
    requires s >= 3
    ensures Times(8, Pow2(s - 3)) == Times(4, Pow2(s - 2))
  {
    assert Pow2(s - 2) == 2 * Pow2(s - 3);
  }

  lemma BlockBounds(s: nat, q: nat)
    requires 3 <= s <= 13 && 4 <= q < 8
    ensures 8 < Times(q + 1, Pow2(s - 2)) <= MEDIUM_WORDS
  {
    TimesBound(q, Pow2(s - 2));
    Pow2Monotone(1, s - 2);
    Pow2Monotone(s - 2, 11);
    assert Pow2(1) == 2;
    assert Pow2(11) == 2048 by { assert Pow2(6) == 64; }
  }

  /** The block sizes of the bin of a size and of the bin before it. */
  lemma BlockOf(s: nat, q: nat)
    requires 3 <= s <= 13 && 4 <= q < 8
    ensures 9 <= 4 * s + q - 7 <= LAST_MEDIUM
    ensures QueueSize(4 * s + q - 7) == Times(q + 1, Pow2(s - 2))
    ensures QueueSize(4 * s + q - 8) == Times(q, Pow2(s - 2))
    ensures 8 < Times(q + 1, Pow2(s - 2)) <= MEDIUM_WORDS
  {
    OwnBlock(s, q);
    BlockBefore(s, q);
    BlockBounds(s, q);
  }

  /** The block size itself is the last size of its bin. */
  lemma LastSize(s: nat, q: nat)
    requires 3 <= s <= 13 && 4 <= q < 8
    ensures 0 < Times(q + 1, Pow2(s - 2)) && BinOf(Times(q + 1, Pow2(s - 2))) == 4 * s + q - 7
  {
    BlockBounds(s, q);
    TimesBound(q, Pow2(s - 2));
    BinParts(Times(q + 1, Pow2(s - 2)) - 1, s, q);
  }

  /** The sizes a bin serves are exactly those above the block size of the bin before it, up
      to its own block size. */
  lemma BinServes(w: nat)
    requires 0 < w <= MEDIUM_WORDS
    ensures 1 <= BinOf(w) <= LAST_MEDIUM && Used(BinOf(w))
    ensures w <= QueueSize(BinOf(w)) <= MEDIUM_WORDS
    ensures w > 8 ==> QueueSize(BinOf(w) - 1) < w
    ensures BinOf(QueueSize(BinOf(w))) == BinOf(w)
  {
    if w > 8 { BigServes(w); }
  }

  lemma BigServes(w: nat)
    requires 8 < w <= MEDIUM_WORDS
    ensures 9 <= BinOf(w) <= LAST_MEDIUM
    ensures QueueSize(BinOf(w) - 1) < w <= QueueSize(BinOf(w)) <= MEDIUM_WORDS
    ensures BinOf(QueueSize(BinOf(w))) == BinOf(w)
  {
    var s, q := SizeParts(w - 1);
    BlockOf(s, q);
    TimesBound(q, Pow2(s - 2));
    LastSize(s, q);
  }

  lemma {:induction false} Pow2Monotone(a: nat, b: nat)
    requires a <= b
    ensures Pow2(a) <= Pow2(b)
  {
    if a < b { Pow2Monotone(a, b - 1); }
  }

  /** A larger request never goes to an earlier bin. */
  lemma BinMonotone(v: nat, w: nat)
    requires v <= w
    ensures BinOf(v) <= BinOf(w)
  {
    if 8 < v {
      if w <= MEDIUM_WORDS {
        MediumMonotone(v, w);
      } else if v <= MEDIUM_WORDS {
        BinServes(v);
      }
    } else if 8 < w <= MEDIUM_WORDS {
      MediumBin(w);
    }
  }

  lemma MediumBin(w: nat)
    requires 8 < w <= MEDIUM_WORDS
    ensures BinOf(w) >= 9
  {
    var s, q := SizeParts(w - 1);
  }

  lemma MediumMonotone(v: nat, w: nat)
    requires 8 < v <= w <= MEDIUM_WORDS
    ensures BinOf(v) <= BinOf(w)
  {
    var b, b' := BinsInOrder(v - 1, w - 1);
  }

  lemma BinsInOrder(n: nat, n': nat) returns (b: int, b': int)
    requires 8 <= n <= n' < MEDIUM_WORDS
    ensures BinOf(n + 1) == b <= b' == BinOf(n' + 1)
  {
    var s, q := SizeParts(n);
    var s', q' := SizeParts(n');
    b, b' := 4 * s + q - 7, 4 * s' + q' - 7;
    PartsInOrder(n, s, q, n', s', q');
  }

  lemma PartsInOrder(n: nat, s: nat, q: nat, n': nat, s': nat, q': nat)
    requires n <= n' && Parts(n, s, q) && Parts(n', s', q') && s == HighBit(n) && s' == HighBit(n')
    ensures 4 * s + q <= 4 * s' + q'
  {
    HighBitMonotone(n, n');
    PartsMonotone(n, s, q, n', s', q');
  }

  lemma PartsMonotone(n: nat, s: nat, q: nat, n': nat, s': nat, q': nat)
    requires n <= n' && Parts(n, s, q) && Parts(n', s', q') && s <= s'
    ensures 4 * s + q <= 4 * s' + q'
  {
    if s == s' && q > q' { TimesMonotone(q' + 1, q, Pow2(s - 2)); }
  }

  lemma {:induction false} TimesMonotone(q: nat, r: nat, p: nat)
    requires q <= r <= 8
    ensures Times(q, p) <= Times(r, p)
  {
    if q < r { TimesMonotone(q, r - 1, p); }
  }

  /** A size beyond the blocks of a bin goes to a later one. */
  lemma BinAfter(w: nat, bin: nat)
    requires bin <= LAST_MEDIUM && w > QueueSize(bin)
    ensures BinOf(w) > bin
  {
    if w <= MEDIUM_WORDS {
      BinServes(w);
      if BinOf(w) <= bin { SizesRise(BinOf(w), bin); }
    }
  }

  /** The table of block sizes is sorted. */
  lemma {:induction false} SizesRise(a: nat, b: nat)
    requires 1 <= a <= b <= LAST_MEDIUM
    ensures QueueSize(a) <= QueueSize(b)
    decreases b
  {
    if a < b {
      SizesRise(a, b - 1);
      if b > 8 {
        var s, q := (b + 3) / 4, (b + 3) % 4 + 4;
        BlockOf(s, q);
        TimesMonotone(q, q + 1, Pow2(s - 2));
      }
    }
  }

  /** A page's own block size falls in the bin the page is on. */
  lemma UsedServes(bin: nat)
    requires Used(bin) && bin <= LAST_MEDIUM
    ensures BinOf(QueueSize(bin)) == bin && QueueSize(bin) <= MEDIUM_WORDS
  {
    if bin > 8 {
      var s, q := (bin + 3) / 4, (bin + 3) % 4 + 4;
      BlockOf(s, q);
      LastSize(s, q);
    }
  }

  /** The bin a size falls in, told by comparing sizes only: `prev` is the last bin before it
      whose block size does not fall in the same bin. */
  lemma BinRange(bin: nat, prev: nat, w: nat)
    requires Used(bin) && prev < bin <= LAST_MEDIUM
    requires BinOf(QueueSize(prev)) != bin
    requires forall p :: prev < p < bin ==> BinOf(QueueSize(p)) == bin
    ensures QueueSize(prev) < QueueSize(bin)
    ensures BinOf(w) == bin <==> QueueSize(prev) < w <= QueueSize(bin)
  {
    UsedServes(bin);
    assert BinOf(QueueSize(0)) == 1 && BinOf(QueueSize(1)) == 1;
    assert prev > 0;
    SizesRise(prev, bin);
    if w <= QueueSize(prev) {
      BinMonotone(w, QueueSize(prev));
      BinMonotone(QueueSize(prev), QueueSize(bin));
    } else if w > QueueSize(bin) {
      BinAfter(w, bin);
    } else {
      BinAfter(w, prev);
      BinMonotone(w, QueueSize(bin));
      BinServes(w);
    }
  }

  // ---------------------------------------------------------------- waste

  /** The size classes near `w` are this far apart. */
  function Step(w: nat): (r: nat)
    requires 8 < w <= MEDIUM_WORDS
    ensures r > 0
  {
    HighBitMonotone(8, w - 1);
    assert HighBit(8) == 3;
    Pow2(HighBit(w - 1) - 2)
  }

  /** The waste of a request is what is missing to the next size class. */
  lemma WasteIs(w: nat)
    requires 8 < w <= MEDIUM_WORDS
    ensures BinOf(w) <= FULL && 4 <= (w - 1) / Step(w) < 8
    ensures QueueSize(BinOf(w)) == Times((w - 1) / Step(w) + 1, Step(w))
    ensures QueueSize(BinOf(w)) - w == Step(w) - 1 - (w - 1) % Step(w)
  {
    var s, q := SizeParts(w - 1);
    BlockOf(s, q);
    TimesBound(q, Pow2(s - 2));
    Quotient(w - 1, q, Pow2(s - 2));
  }

  /** The bound of an eighth of the block that the comment on the bins gives is met exactly by the
      sizes far enough into their class: how far depends on the two bits after the highest. */
  lemma WasteEighth(w: nat)
    requires 8 < w <= MEDIUM_WORDS
    ensures BinOf(w) <= FULL
    ensures var p, q := Step(w), (w - 1) / Step(w);
      4 <= q < 8 && (8 * (QueueSize(BinOf(w)) - w) <= QueueSize(BinOf(w)) <==> Times(7 - q, p) <= 8 * ((w - 1) % p + 1))
    ensures (w - 1) / Step(w) == 7 ==> 8 * (QueueSize(BinOf(w)) - w) <= QueueSize(BinOf(w))
  {
    WasteIs(w);
    var p, q := Step(w), (w - 1) / Step(w);
    assert q == 4 || q == 5 || q == 6 || q == 7;
  }

  /** What holds of every size above eight words is less than a fifth, and no smaller bound does: the
      first size of every fourth class comes as close as whole words allow. */
  lemma WasteFifth(w: nat)
    requires 8 < w <= MEDIUM_WORDS
    ensures BinOf(w) <= FULL && 5 * (QueueSize(BinOf(w)) - w + 1) <= QueueSize(BinOf(w))
    ensures (w - 1) / Step(w) == 4 && (w - 1) % Step(w) == 0 ==>
      5 * (QueueSize(BinOf(w)) - w + 1) == QueueSize(BinOf(w))
  {
    WasteIs(w);
    var p, q := Step(w), (w - 1) / Step(w);
    TimesMonotone(5, q + 1, p);
  }

  /** Of the sizes up to eight words, whose classes are exact or two words apart, all but 3 and 5 keep
      to the eighth, and all but 3 to the fifth. */
  lemma WasteSmall(w: nat)
    requires 0 < w <= 8
    ensures BinOf(w) <= FULL
    ensures 8 * (QueueSize(BinOf(w)) - w) <= QueueSize(BinOf(w)) <==> w != 3 && w != 5
    ensures 5 * (QueueSize(BinOf(w)) - w) <= QueueSize(BinOf(w)) <==> w != 3
    ensures 4 * (QueueSize(BinOf(w)) - w) <= QueueSize(BinOf(w))
  {
  }

  /** A request of 17 words gets 20: more than an eighth of the block is wasted. */
  lemma SeventeenWords()
    ensures BinOf(17) == 13 && QueueSize(13) == 20 && 8 * (20 - 17) > 20
  {
    assert Pow2(2) == 4;
    BinParts(16, 4, 4);
    BlockOf(4, 4);
  }
}
