/** Recording, merging and the percentile scan (include/itch/histogram.hpp:19-67, 93-98). */
module Histograms {
  import opened Machine
  import opened Buckets

  // ---------- samples and ranks ----------

  function CountIn(samples: seq<u64>, bucket: int): nat {
    if samples == [] then 0 else
      var n := |samples| - 1;
      CountIn(samples[..n], bucket) + if Index(samples[n]) == bucket then 1 else 0
  }

  /** How many samples lie in the first `buckets` buckets. */
  function CountBelow(samples: seq<u64>, buckets: int): nat {
    if samples == [] then 0 else
      var n := |samples| - 1;
      CountBelow(samples[..n], buckets) + if Index(samples[n]) < buckets then 1 else 0
  }

  /** How many samples are at most x. */
  function AtMost(samples: seq<u64>, x: int): nat {
    if samples == [] then 0 else
      var n := |samples| - 1;
      AtMost(samples[..n], x) + if samples[n] <= x then 1 else 0
  }

  /** x is the r-th smallest sample: at least r samples are at most x, and fewer than r are below it. */
  predicate IsRanked(samples: seq<u64>, r: nat, x: u64) {
    AtMost(samples, x) >= r && AtMost(samples, x - 1) < r
  }

  lemma {:induction false} AtMostAll(samples: seq<u64>, x: int)
    ensures AtMost(samples, x) <= |samples|
    ensures (forall i :: 0 <= i < |samples| ==> samples[i] <= x) ==> AtMost(samples, x) == |samples|
    ensures (forall i :: 0 <= i < |samples| ==> samples[i] > x) ==> AtMost(samples, x) == 0
  {
    if samples != [] { AtMostAll(samples[..|samples| - 1], x); }
  }

  lemma {:induction false} AtMostMono(samples: seq<u64>, x: int, y: int)
    requires x <= y
    ensures AtMost(samples, x) <= AtMost(samples, y)
  {
    if samples != [] { AtMostMono(samples[..|samples| - 1], x, y); }
  }

  /** Each rank belongs to exactly one value. */
  lemma {:induction false} RankedExists(samples: seq<u64>, r: nat, top: u64) returns (x: u64)
    requires 1 <= r <= AtMost(samples, top)
    ensures x <= top && IsRanked(samples, r, x)
    decreases top
  {
    if AtMost(samples, top - 1) < r {
      x := top;
    } else {
      if top == 0 { AtMostAll(samples, -1); }
      x := RankedExists(samples, r, top - 1);
    }
  }

  lemma RankedUnique(samples: seq<u64>, r: nat, x: u64, y: u64)
    requires IsRanked(samples, r, x) && IsRanked(samples, r, y)
    ensures x == y
  {
    if x < y { AtMostMono(samples, x, y - 1); } else if y < x { AtMostMono(samples, y, x - 1); }
  }

  lemma {:induction false} CountStep(samples: seq<u64>, bucket: int)
    ensures CountBelow(samples, bucket + 1) == CountBelow(samples, bucket) + CountIn(samples, bucket)
  {
    if samples != [] { CountStep(samples[..|samples| - 1], bucket); }
  }

  lemma {:induction false} CountEnds(samples: seq<u64>)
    ensures CountBelow(samples, 0) == 0 && CountBelow(samples, BUCKETS) == |samples|
  {
    if samples != [] {
      CountEnds(samples[..|samples| - 1]);
      BucketsTile(samples[|samples| - 1], 0);
    }
  }

  /** The samples at most x are all in the buckets up to x's, and fill all buckets before it. */
  lemma {:induction false} CountBetween(samples: seq<u64>, x: u64)
    ensures CountBelow(samples, Index(x)) <= AtMost(samples, x - 1)
    ensures AtMost(samples, x) <= CountBelow(samples, Index(x) + 1)
  {
    hide Index;
    if samples != [] {
      var s := samples[|samples| - 1];
      CountBetween(samples[..|samples| - 1], x);
      if s <= x { IndexMono(s, x); } else { IndexMono(x, s); }
      if x <= s { IndexMono(x, s); }
    }
  }

  lemma {:induction false} CountBelowMono(samples: seq<u64>, i: int, j: int)
    requires i <= j
    ensures CountBelow(samples, i) <= CountBelow(samples, j)
  {
    if samples != [] { CountBelowMono(samples[..|samples| - 1], i, j); }
  }

  /** The bucket where the running count first reaches r holds the r-th smallest sample. */
  lemma FirstReachingBucket(samples: seq<u64>, r: nat, x: u64, i: int)
    requires IsRanked(samples, r, x)
    requires CountBelow(samples, i) < r <= CountBelow(samples, i + 1)
    ensures Index(x) == i
  {
    CountBetween(samples, x);
    if Index(x) < i {
      CountBelowMono(samples, Index(x) + 1, i);
    } else if Index(x) > i {
      CountBelowMono(samples, i + 1, Index(x));
    }
  }

  lemma CountSnoc(samples: seq<u64>, v: u64, bucket: int)
    ensures CountIn(samples + [v], bucket) == CountIn(samples, bucket) + if Index(v) == bucket then 1 else 0
  {
    assert (samples + [v])[..|samples|] == samples;
  }

  lemma {:induction false} CountConcat(a: seq<u64>, b: seq<u64>, bucket: int)
    ensures CountIn(a + b, bucket) == CountIn(a, bucket) + CountIn(b, bucket)
  {
    if b == [] {
      assert a + b == a;
    } else {
      var n := |b| - 1;
      CountConcat(a, b[..n], bucket);
      assert (a + b)[..|a + b| - 1] == a + b[..n];
    }
  }

  /** What the scan promises of the value it reports for the r-th smallest sample x. */
  ghost predicate Reports(value: int, x: u64, max: u64) {
    && x <= value <= max
    && (x < LINEAR ==> value == x)
    && (value - x) * HALF <= x
  }

  lemma BoundReports(samples: seq<u64>, r: nat, x: u64, i: nat, max: u64)
    requires IsRanked(samples, r, x) && x <= max && i < BUCKETS
    requires CountBelow(samples, i) < r <= CountBelow(samples, i + 1)
    ensures Reports(if UpperBound(i) < max then UpperBound(i) else max, x, max)
  {
    hide Index, UpperBound, LowerBound;
    FirstReachingBucket(samples, r, x, i);
    BucketsTile(x, i);
    UpperIsHigh(i);
    LowerIsLow(i);
    Narrow(i);
    LowIsLinear(i);
  }

  lemma LowIsLinear(i: nat)
    ensures i < LINEAR ==> Low(i) == i
    ensures i >= LINEAR ==> Low(i) >= LINEAR
  {
    if i >= LINEAR { LowAbove(i); }
  }

  // ---------- the histogram ----------

  class LatencyHistogram {
    const counts: array<nat>
    var count: nat
    var min: u64
    var max: u64
    ghost var samples: seq<u64>

    ghost predicate Valid()
      reads this, counts
    {
      && counts.Length == BUCKETS && count == |samples|
      && (forall i :: 0 <= i < BUCKETS ==> counts[i] == CountIn(samples, i))
      && (forall i :: 0 <= i < |samples| ==> min <= samples[i] <= max)
      && (if samples == [] then min == TWO_64 - 1 && max == 0 else min in samples && max in samples)
    }

    constructor ()
      ensures Valid() && samples == [] && fresh(counts)
    {
      counts := new nat[BUCKETS](_ => 0);
      count, min, max := 0, TWO_64 - 1, 0;
      samples := [];
    }

    method Record(v: u64)
      requires Valid()
      modifies this, counts
      ensures Valid() && samples == old(samples) + [v]
    {
      hide Index, CountIn;
      BucketsTile(v, 0);
      ghost var was := samples;
      forall i | 0 <= i < BUCKETS
        ensures CountIn(was + [v], i) == counts[i] + if Index(v) == i then 1 else 0
      {
        CountSnoc(was, v, i);
      }
      counts[Index(v)] := counts[Index(v)] + 1;
      count := count + 1;
      if v < min { min := v; }
      if v > max { max := v; }
      samples := samples + [v];
      if was != [] { assert old(min) in was && old(max) in was; }
      assert v == samples[|was|];
    }

    /** Adds the samples of `other`, which may be this histogram itself. */
    method Merge(other: LatencyHistogram)
      requires Valid() && other.Valid() && (other == this || other.counts != counts)
      modifies this, counts
      ensures Valid() && samples == old(samples) + old(other.samples)
    {
      ghost var a, b := samples, other.samples;
      for i := 0 to BUCKETS
        invariant unchanged(this) && unchanged(other)
        invariant forall j :: 0 <= j < i ==> counts[j] == old(counts[j]) + old(other.counts[j])
        invariant forall j :: i <= j < BUCKETS ==>
          counts[j] == old(counts[j]) && other.counts[j] == old(other.counts[j])
      {
        counts[i] := counts[i] + other.counts[i];
      }
      forall i | 0 <= i < BUCKETS ensures counts[i] == CountIn(a + b, i) { CountConcat(a, b, i); }
      var otherCount, otherMin, otherMax := other.count, other.min, other.max;
      count := count + otherCount;
      if otherCount != 0 && otherMin < min { min := otherMin; }
      if otherMax > max { max := otherMax; }
      samples := a + b;
    }

    /** The scan for an integer rank; a rank beyond the count is answered with max. */
    method AtRank(target: nat) returns (value: u64)
      requires Valid() && 1 <= target
      ensures target > count ==> value == max
      ensures target <= count ==> forall x: u64 :: IsRanked(samples, target, x) ==> Reports(value, x, max)
    {
      hide CountIn, CountBelow, AtMost, Reports, UpperBound;
      value := max;
      var cum, i, found := 0, 0, false;
      CountEnds(samples);
      while i < BUCKETS && !found
        invariant 0 <= i <= BUCKETS
        invariant !found ==> cum == CountBelow(samples, i) < target
        invariant !found ==> value == max
        invariant found ==> target <= count && forall x: u64 :: IsRanked(samples, target, x) ==> Reports(value, x, max)
        decreases BUCKETS - i, !found
      {
        cum := cum + counts[i];
        CountStep(samples, i);
        if cum >= target {
          CountBelowMono(samples, i + 1, BUCKETS);
          BoundFits(i);
          var hi: u64 := UpperBound(i);
          value := if hi < max then hi else max;
          found := true;
          forall x: u64 | IsRanked(samples, target, x) ensures Reports(value, x, max) {
            RankedBelowMax(target, x);
            BoundReports(samples, target, x, i, max);
          }
        } else {
          i := i + 1;
        }
      }
    }

    lemma BoundFits(i: nat)
      requires i < BUCKETS
      ensures 0 <= UpperBound(i) < TWO_64
    {
    }

    lemma RankedBelowMax(r: nat, x: u64)
      requires Valid() && IsRanked(samples, r, x) && r <= count
      ensures x <= max
    {
      AtMostAll(samples, max);
      if x > max { AtMostMono(samples, max, x - 1); }
    }

    /** ceil(x) */
    function Ceil(x: real): int { -((-x).Floor) }

    /** The rank that the code takes when its floating-point arithmetic makes `x` of p / 100 * n - 1e-9. */
    function RankOf(x: real): int { if Ceil(x) == 0 then 1 else Ceil(x) }

    /** That is the least rank, from 1 on, that is not below `x`. */
    lemma RankIsLeast(x: real, r: int)
      requires -1.0 < x
      ensures RankOf(x) >= 1 && RankOf(x) as real >= x
      ensures r >= 1 && r as real >= x ==> RankOf(x) <= r
    {
    }

    /** Computed without rounding, the rank is always one of 1 to n. */
    lemma ExactRankInRange(p: real, n: nat)
      requires 0.0 < p < 100.0 && n > 0
      ensures 1 <= RankOf(p / 100.0 * n as real - 0.000000001) <= n
    {
      var rank := p / 100.0 * n as real;
      assert 0.0 < rank by { assert p / 100.0 > 0.0; }
      assert rank <= n as real by { assert (1.0 - p / 100.0) * n as real >= 0.0; }
    }

    /**
     Nearest-rank percentile.  `x` is what rounding makes of p / 100 * n - 1e-9, any real above -1 and in the range of
     the cast to an integer: with a rank beyond the count the scan runs out and the answer is max.
     */
    method Percentile(p: real, x: real) returns (value: u64)
      requires Valid() && -1.0 < x && Ceil(x) < TWO_64
      ensures samples == [] ==> value == 0
      ensures samples != [] && p <= 0.0 ==> value == min
      ensures samples != [] && p >= 100.0 ==> value == max
      ensures samples != [] && 0.0 < p < 100.0 ==>
        if RankOf(x) > |samples| then value == max
        else RankOf(x) >= 1 && forall s: u64 :: IsRanked(samples, RankOf(x), s) ==> Reports(value, s, max)
    {
      hide CountIn, IsRanked, Reports;
      if count == 0 { return 0; }
      if !(p > 0.0) { return min; }
      if p >= 100.0 { return max; }
      var target := Ceil(x);
      if target == 0 { target := 1; }
      value := AtRank(target);
    }
  }
}
