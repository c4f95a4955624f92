/** The bucket arithmetic of the log-linear histogram (include/itch/histogram.hpp:21-24, 69-91). */
module Buckets {
  import opened Machine
  import opened Arith

  const SUB_BITS := 8
  const LINEAR := 256
  const HALF := 128
  const BUCKETS := LINEAR + (64 - SUB_BITS) * HALF

  // ---------- as the code computes them ----------

  function BitWidth(v: nat): nat {
    if v == 0 then 0 else 1 + BitWidth(v / 2)
  }

  /** 256 single values and 56 octaves of 128 buckets. */
  lemma HowManyBuckets()
    ensures BUCKETS == 7424 && HALF == LINEAR / 2
  {
  }

  /** `x << n` */
  function Shl(x: nat, n: nat): nat {
    if n == 0 then x else 2 * Shl(x, n - 1)
  }

  lemma {:induction false} Wide(v: nat, n: nat)
    requires v >= Pow2(n)
    ensures BitWidth(v) > n
  {
    if n > 0 { Wide(v / 2, n - 1); }
  }

  function Index(v: u64): int {
    if v < LINEAR then v else
      assert BitWidth(v) > SUB_BITS by { Wide(v, SUB_BITS); }
      var e := BitWidth(v) - 1;
      var shift := e - (SUB_BITS - 1);
      var top := Shr(v, shift);
      LINEAR + (shift - 1) * HALF + (top - HALF)
  }

  function LowerBound(i: nat): nat {
    if i < LINEAR then i else
      var j := i - LINEAR;
      Shl(HALF + j % HALF, j / HALF + 1)
  }

  /** The shift may push the last bucket's bound out of 64 bits; the subtraction then wraps it back. */
  function UpperBound(i: nat): int {
    if i < LINEAR then i else
      var j := i - LINEAR;
      (Shl(HALF + j % HALF + 1, j / HALF + 1) % TWO_64 - 1) % TWO_64
  }

  // ---------- one octave at a time ----------

  /** Halving a value above the linear region moves it down by one octave of buckets. */
  function Bucket(v: nat): nat {
    if v < LINEAR then v else HALF + Bucket(v / 2)
  }

  function Low(i: nat): nat {
    if i < LINEAR then i else 2 * Low(i - HALF)
  }

  function High(i: nat): nat {
    if i < LINEAR then i else 2 * High(i - HALF) + 1
  }

  lemma IndexStep(v: u64)
    requires v >= 2 * LINEAR
    ensures Index(v) == HALF + Index(v / 2)
  {
    Wide(v / 2, SUB_BITS);
    assert Shr(v, BitWidth(v) - SUB_BITS) == Shr(v / 2, BitWidth(v / 2) - SUB_BITS);
  }

  lemma {:induction false} IndexIsBucket(v: u64)
    ensures Index(v) == Bucket(v)
  {
    hide Index;
    if v >= 2 * LINEAR {
      IndexStep(v);
      IndexIsBucket(v / 2);
    } else if v >= LINEAR {
      FirstOctave(v);
    } else {
      assert Index(v) == v by { LinearIndex(v); }
    }
  }

  lemma LinearIndex(v: u64)
    requires v < LINEAR
    ensures Index(v) == v
  {
  }

  lemma FirstOctave(v: u64)
    requires LINEAR <= v < 2 * LINEAR
    ensures Index(v) == HALF + v / 2
  {
    assert Pow2(8) == 256;
    WidthOf(v, 8);
    assert Shr(v, 1) == v / 2;
  }

  lemma {:induction false} WidthOf(v: nat, n: nat)
    requires Pow2(n) <= v < 2 * Pow2(n)
    ensures BitWidth(v) == n + 1
  {
    if n > 0 { WidthOf(v / 2, n - 1); }
  }

  lemma {:induction false} LowerIsLow(i: nat)
    ensures LowerBound(i) == Low(i)
  {
    if i >= LINEAR + HALF {
      LowerIsLow(i - HALF);
    } else if i >= LINEAR {
      assert Shl(i - HALF, 1) == 2 * (i - HALF);
    }
  }

  lemma {:induction false} ShiftedIsHigh(i: nat)
    requires i >= LINEAR
    ensures var j := i - LINEAR; Shl(HALF + j % HALF + 1, j / HALF + 1) == High(i) + 1
  {
    if i >= LINEAR + HALF {
      ShiftedIsHigh(i - HALF);
    } else {
      assert Shl(i - HALF + 1, 1) == 2 * (i - HALF + 1);
    }
  }

  lemma UpperIsHigh(i: nat)
    requires i < BUCKETS
    ensures UpperBound(i) == High(i)
  {
    hide Shl, High, Pow2, UpperBound;
    HighBelow(i, 64 - SUB_BITS);
    UpperIs(i);
    if i < LINEAR {
      LinearHigh(i);
    } else {
      ShiftedIsHigh(i);
      WrapDown(High(i) + 1);
    }
  }

  lemma UpperIs(i: nat)
    ensures i < LINEAR ==> UpperBound(i) == i
    ensures i >= LINEAR ==>
      var j := i - LINEAR; UpperBound(i) == (Shl(HALF + j % HALF + 1, j / HALF + 1) % TWO_64 - 1) % TWO_64
  {
    hide Shl;
  }

  lemma LinearHigh(i: nat)
    requires i < LINEAR
    ensures High(i) == i
  {
  }

  lemma WrapDown(x: nat)
    requires 0 < x <= TWO_64
    ensures (x % TWO_64 - 1) % TWO_64 == x - 1
  {
  }

  lemma {:induction false} HighBelow(i: nat, octaves: nat)
    requires i < LINEAR + octaves * HALF && octaves <= 56
    ensures High(i) < LINEAR * Pow2(octaves) <= TWO_64
  {
    Octaves(octaves);
    if i >= LINEAR { HighBelow(i - HALF, octaves - 1); }
  }

  lemma Octaves(n: nat)
    requires n <= 56
    ensures LINEAR * Pow2(n) <= TWO_64 && Pow2(56) * LINEAR == TWO_64
  {
    Pow64();
    Pow2Add(8, 56);
    assert Pow2(8) == 256;
    Pow2Mono(n, 56);
  }

  // ---------- the buckets tile the 64-bit values ----------

  lemma {:induction false} BucketBelow(v: nat, octaves: nat)
    requires v < LINEAR * Pow2(octaves)
    ensures Bucket(v) < LINEAR + octaves * HALF
  {
    if v >= LINEAR { BucketBelow(v / 2, octaves - 1); }
  }

  lemma {:induction false} BucketHolds(v: nat)
    ensures Low(Bucket(v)) <= v <= High(Bucket(v))
  {
    if v >= LINEAR { BucketHolds(v / 2); }
  }

  lemma {:induction false} BucketIsUnique(v: nat, i: nat)
    requires Low(i) <= v <= High(i)
    ensures Bucket(v) == i
  {
    if i >= LINEAR {
      LowAbove(i);
      BucketIsUnique(v / 2, i - HALF);
    }
  }

  lemma {:induction false} LowAbove(i: nat)
    requires i >= LINEAR
    ensures Low(i) >= LINEAR
  {
    if i >= LINEAR + HALF { LowAbove(i - HALF); }
  }

  lemma {:induction false} NoGap(i: nat)
    ensures Low(i + 1) == High(i) + 1 && Low(i) <= High(i)
  {
    if i + 1 >= LINEAR { NoGap(i - HALF); }
  }

  lemma {:induction false} BucketMono(u: nat, v: nat)
    requires u <= v
    ensures Bucket(u) <= Bucket(v)
  {
    if u >= LINEAR {
      BucketMono(u / 2, v / 2);
    } else if v >= LINEAR {
      BucketAbove(v);
    }
  }

  lemma {:induction false} BucketAbove(v: nat)
    requires v >= LINEAR
    ensures Bucket(v) >= LINEAR
  {
    if v >= 2 * LINEAR { BucketAbove(v / 2); }
  }

  /** A bucket above the linear region is no wider than 1/128 of its lower bound; below, it holds one value. */
  lemma {:induction false} Narrow(i: nat)
    ensures i < LINEAR ==> High(i) == Low(i)
    ensures i >= LINEAR ==> (High(i) - Low(i) + 1) * HALF <= Low(i)
  {
    if i >= LINEAR { Narrow(i - HALF); }
  }

  lemma {:induction false} LastOfOctave(n: nat)
    ensures High(LINEAR - 1 + n * HALF) == LINEAR * Pow2(n) - 1
  {
    if n > 0 { LastOfOctave(n - 1); }
  }

  /** The code's buckets tile 0 to 2^64-1 without gap or overlap, and index finds the one that holds a value. */
  lemma BucketsTile(v: u64, i: nat)
    requires i < BUCKETS
    ensures 0 <= Index(v) < BUCKETS
    ensures LowerBound(i) <= v <= UpperBound(i) <==> Index(v) == i
    ensures LowerBound(0) == 0 && UpperBound(BUCKETS - 1) == TWO_64 - 1
    ensures i + 1 < BUCKETS ==> LowerBound(i + 1) == UpperBound(i) + 1
  {
    hide Index, LowerBound, UpperBound, Low, High, Bucket;
    IndexIsBucket(v);
    LowerIsLow(i);
    UpperIsHigh(i);
    LowerIsLow(i + 1);
    UpperIsHigh(BUCKETS - 1);
    LastOfOctave(64 - SUB_BITS);
    Octaves(64 - SUB_BITS);
    BucketBelow(v, 64 - SUB_BITS);
    BucketHolds(v);
    if Low(i) <= v <= High(i) { BucketIsUnique(v, i); }
    NoGap(i);
    assert LowerBound(0) == 0 by { LowerIsLow(0); FirstLow(); }
  }

  lemma FirstLow()
    ensures Low(0) == 0
  {
  }

  lemma IndexMono(u: u64, v: u64)
    requires u <= v
    ensures Index(u) <= Index(v)
  {
    hide Index, Bucket;
    IndexIsBucket(u);
    IndexIsBucket(v);
    BucketMono(u, v);
  }
}
