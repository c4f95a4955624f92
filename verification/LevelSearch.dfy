/** The price-level search kernels (include/itch/simd/level_search.hpp). */
module LevelSearch {
  import opened Machine

  const PAD := 8

  datatype Isa = Scalar | Sse2 | Sse41 | Avx2

  ghost predicate SortedKeys(a: array<u32>, n: nat)
    requires n <= a.Length
    reads a
  {
    forall i, j :: 0 <= i <= j < n ==> a[i] <= a[j]
  }

  /** `pos` is the first index below `n` whose key is not less than `key`, or `n` when there is none. */
  ghost predicate IsLowerBound(a: array<u32>, n: nat, key: u32, pos: nat)
    requires n <= a.Length
    reads a
  {
    && pos <= n
    && (forall i :: 0 <= i < pos ==> a[i] < key)
    && (forall i :: pos <= i < n ==> a[i] >= key)
  }

  /** Binary search without a data-dependent branch. */
  method LowerBoundBranchless(a: array<u32>, n: nat, key: u32) returns (pos: nat)
    requires n <= a.Length && SortedKeys(a, n)
    ensures IsLowerBound(a, n, key, pos)
  {
    var base, m := 0, n;
    while m > 1
      invariant 0 <= base && 0 <= m && base + m <= n && (n > 0 ==> m > 0)
      invariant forall i :: 0 <= i < base ==> a[i] < key
      invariant forall i :: base + m <= i < n ==> a[i] >= key
    {
      var half := m / 2;
      base := if a[base + half] < key then base + half else base;
      m := m - half;
    }
    pos := base + if m == 1 && a[base] < key then 1 else 0;
  }

  /** One element at a time from the back, at most `chunks * 8` of them. */
  method ScalarFromBack(a: array<u32>, n: nat, key: u32, chunks: nat) returns (pos: nat)
    requires n <= a.Length && SortedKeys(a, n)
    ensures IsLowerBound(a, n, key, pos)
  {
    pos := n;
    var stop := if n > chunks * PAD then n - chunks * PAD else 0;
    while pos > stop && a[pos - 1] >= key
      invariant stop <= pos <= n
      invariant forall i :: pos <= i < n ==> a[i] >= key
    {
      pos := pos - 1;
    }
    if pos > stop || pos == 0 { return; }
    pos := LowerBoundBranchless(a, pos, key);
  }

  // ---------- lanes ----------

  /** The top bit flipped; with a 32-bit word that is the same as adding 2^31. */
  function Flip(x: u32): u32 { (x + 0x8000_0000) % TWO_32 }

  function Signed(x: u32): int { if x < 0x8000_0000 then x else x - TWO_32 }

  lemma FlipIsXor(x: bv32)
    ensures x ^ 0x8000_0000 == x + 0x8000_0000
  {
  }

  /** Flipping the top bit of both operands turns the signed compare into the unsigned one. */
  lemma SignBias(a: u32, b: u32)
    ensures Signed(Flip(a)) < Signed(Flip(b)) <==> a < b
  {
  }

  function MaxU(a: u32, b: u32): u32 { if a < b then b else a }

  function LtMask8(lanes: seq<u32>, key: u32): (m: seq<bool>)
    ensures |m| == |lanes|
    ensures forall i :: 0 <= i < |m| ==> (m[i] <==> lanes[i] < key)
  {
    var m := seq(|lanes|, i requires 0 <= i < |lanes| => Signed(Flip(key)) > Signed(Flip(lanes[i])));
    forall i | 0 <= i < |m| ensures m[i] <==> lanes[i] < key { SignBias(lanes[i], key); }
    m
  }

  function GeMask8(lanes: seq<u32>, key: u32): (m: seq<bool>)
    ensures |m| == |lanes|
    ensures forall i :: 0 <= i < |m| ==> (m[i] <==> lanes[i] >= key)
  {
    seq(|lanes|, i requires 0 <= i < |lanes| => MaxU(lanes[i], key) == lanes[i])
  }

  /** `m & ((1 << n) - 1)` */
  function LowLanes(m: seq<bool>, n: nat): (r: seq<bool>)
    ensures |r| == |m|
  {
    seq(|m|, i requires 0 <= i < |m| => i < n && m[i])
  }

  function Popcount(m: seq<bool>): (n: nat)
    ensures n <= |m|
  {
    if m == [] then 0 else (if m[|m| - 1] then 1 else 0) + Popcount(m[..|m| - 1])
  }

  /** A mask that is set exactly on the lanes from `lo` up to `hi` counts them. */
  lemma {:induction false} PopcountRange(m: seq<bool>, lo: nat, hi: nat)
    requires lo <= hi <= |m|
    requires forall i :: 0 <= i < |m| ==> (m[i] <==> lo <= i < hi)
    ensures Popcount(m) == hi - lo
  {
    if |m| > 0 {
      var n := |m| - 1;
      if hi == |m| && lo < hi {
        PopcountRange(m[..n], lo, hi - 1);
      } else {
        PopcountRange(m[..n], if lo == |m| then n else lo, if hi == |m| then n else hi);
      }
    }
  }

  /** Where the lower bound falls in a sorted chunk. */
  ghost function Split(lanes: seq<u32>, key: u32): (p: nat)
    requires forall i, j :: 0 <= i <= j < |lanes| ==> lanes[i] <= lanes[j]
    ensures p <= |lanes|
    ensures forall i :: 0 <= i < |lanes| ==> (lanes[i] < key <==> i < p)
  {
    if lanes == [] then 0
    else if lanes[|lanes| - 1] < key then |lanes|
    else Split(lanes[..|lanes| - 1], key)
  }

  /**
   The lanes below the key are a prefix of a sorted chunk, so counting them finds the split, whatever the masked lanes
   hold.
   */
  lemma LtCounts(lanes: seq<u32>, n: nat, key: u32)
    requires n <= |lanes| && forall i, j :: 0 <= i <= j < n ==> lanes[i] <= lanes[j]
    ensures Popcount(LowLanes(LtMask8(lanes, key), n)) == Split(lanes[..n], key)
    ensures n == |lanes| ==> LowLanes(LtMask8(lanes, key), n) == LtMask8(lanes, key)
  {
    PopcountRange(LowLanes(LtMask8(lanes, key), n), 0, Split(lanes[..n], key));
  }

  lemma GeCounts(lanes: seq<u32>, n: nat, key: u32)
    requires n <= |lanes| && forall i, j :: 0 <= i <= j < n ==> lanes[i] <= lanes[j]
    ensures n - Popcount(LowLanes(GeMask8(lanes, key), n)) == Split(lanes[..n], key)
    ensures n == |lanes| ==> LowLanes(GeMask8(lanes, key), n) == GeMask8(lanes, key)
  {
    PopcountRange(LowLanes(GeMask8(lanes, key), n), Split(lanes[..n], key), n);
  }

  // ---------- the back scan, chunk by chunk ----------

  ghost predicate NotBelow(a: array<u32>, from: nat, to: nat, key: u32)
    requires from <= to <= a.Length
    reads a
  {
    forall i :: from <= i < to ==> a[i] >= key
  }

  lemma ChunkIsSorted(a: array<u32>, n: nat, from: nat, to: nat)
    requires from <= to <= n <= a.Length && SortedKeys(a, n)
    ensures var lanes := a[from..to]; forall i, j :: 0 <= i <= j < |lanes| ==> lanes[i] <= lanes[j]
  {
  }

  /** A split inside the chunk is the lower bound; a chunk without one can be skipped. */
  lemma ChunkSplit(a: array<u32>, n: nat, from: nat, to: nat, key: u32)
    requires from <= to <= n <= a.Length && SortedKeys(a, n) && NotBelow(a, to, n, key)
    requires var lanes := a[from..to]; forall i, j :: 0 <= i <= j < |lanes| ==> lanes[i] <= lanes[j]
    ensures var p := Split(a[from..to], key);
      && (p > 0 || from == 0 ==> IsLowerBound(a, n, key, from + p))
      && (p == 0 ==> NotBelow(a, from, n, key))
  {
    hide Split;
    var lanes := a[from..to];
    var p := Split(lanes, key);
    forall i | from <= i < to ensures a[i] < key <==> i < from + p {
      assert a[i] == lanes[i - from];
    }
    forall i | 0 <= i < from && p > 0 ensures a[i] < key {
      assert a[i] <= a[from];
    }
  }

  lemma BoundBelow(a: array<u32>, i: nat, n: nat, key: u32, pos: nat)
    requires i <= n <= a.Length && IsLowerBound(a, i, key, pos) && NotBelow(a, i, n, key)
    ensures IsLowerBound(a, n, key, pos)
  {
  }

  lemma ShorterIsSorted(a: array<u32>, i: nat, n: nat)
    requires i <= n <= a.Length && SortedKeys(a, n)
    ensures SortedKeys(a, i)
  {
  }

  /** Some lane is below the key if and only if the split is not at the start. */
  lemma AnyLt(lanes: seq<u32>, key: u32)
    requires forall i, j :: 0 <= i <= j < |lanes| ==> lanes[i] <= lanes[j]
    ensures true in LtMask8(lanes, key) <==> Split(lanes, key) > 0
    ensures false in GeMask8(lanes, key) <==> Split(lanes, key) > 0
  {
    hide Split;
    var p := Split(lanes, key);
    if p > 0 { assert LtMask8(lanes, key)[0] && !GeMask8(lanes, key)[0]; }
  }

  /** SSE2: eight sign-biased signed compares; the lanes below the key are a prefix of the chunk. */
  method Sse2FromBack(a: array<u32>, n: nat, key: u32, chunks: nat) returns (pos: nat)
    requires n <= a.Length && PAD <= a.Length && SortedKeys(a, n)
    ensures IsLowerBound(a, n, key, pos)
  {
    hide SortedKeys, IsLowerBound, NotBelow, LtMask8, LowLanes, Popcount, Split;
    var i, c := n, 0;
    assert NotBelow(a, n, n, key) by { NothingBelow(a, n, key); }
    while c < chunks && i >= PAD
      invariant 0 <= i <= n && NotBelow(a, i, n, key)
      decreases chunks - c
    {
      var lanes := a[i - 8..i];
      var lt := LtMask8(lanes, key);
      ChunkIsSorted(a, n, i - 8, i);
      ChunkSplit(a, n, i - 8, i, key);
      AnyLt(lanes, key);
      LtCounts(lanes, 8, key);
      assert lanes[..8] == lanes;
      if true in lt { return i - 8 + Popcount(lt); }
      i := i - 8;
      c := c + 1;
    }
    if i >= PAD {
      ShorterIsSorted(a, i, n);
      pos := LowerBoundBranchless(a, i, key);
      BoundBelow(a, i, n, key, pos);
    } else {
      var lanes := a[..8];
      pos := Popcount(LowLanes(LtMask8(lanes, key), i));
      ChunkIsSorted(a, n, 0, i);
      assert lanes[..i] == a[0..i];
      LowIsSorted(lanes, i);
      LtCounts(lanes, i, key);
      ChunkSplit(a, n, 0, i, key);
    }
  }

  lemma NothingBelow(a: array<u32>, n: nat, key: u32)
    requires n <= a.Length
    ensures NotBelow(a, n, n, key)
  {
  }

  lemma LowIsSorted(lanes: seq<u32>, n: nat)
    requires n <= |lanes| && forall i, j :: 0 <= i <= j < n ==> lanes[..n][i] <= lanes[..n][j]
    ensures forall i, j :: 0 <= i <= j < n ==> lanes[i] <= lanes[j]
  {
    forall i, j | 0 <= i <= j < n ensures lanes[i] <= lanes[j] {
      assert lanes[..n][i] <= lanes[..n][j];
    }
  }

  /** SSE4.1 and AVX2: max(v, key) == v marks the lanes that are not less than the key. */
  method MaxFromBack(a: array<u32>, n: nat, key: u32, chunks: nat) returns (pos: nat)
    requires n <= a.Length && PAD <= a.Length && SortedKeys(a, n)
    ensures IsLowerBound(a, n, key, pos)
  {
    hide SortedKeys, IsLowerBound, NotBelow, GeMask8, LowLanes, Popcount, Split;
    var i, c := n, 0;
    assert NotBelow(a, n, n, key) by { NothingBelow(a, n, key); }
    while c < chunks && i >= PAD
      invariant 0 <= i <= n && NotBelow(a, i, n, key)
      decreases chunks - c
    {
      var lanes := a[i - 8..i];
      var ge := GeMask8(lanes, key);
      ChunkIsSorted(a, n, i - 8, i);
      ChunkSplit(a, n, i - 8, i, key);
      AnyLt(lanes, key);
      GeCounts(lanes, 8, key);
      assert lanes[..8] == lanes;
      if false in ge { return i - Popcount(ge); }
      i := i - 8;
      c := c + 1;
    }
    if i >= PAD {
      ShorterIsSorted(a, i, n);
      pos := LowerBoundBranchless(a, i, key);
      BoundBelow(a, i, n, key, pos);
    } else {
      var lanes := a[..8];
      ChunkIsSorted(a, n, 0, i);
      assert lanes[..i] == a[0..i];
      LowIsSorted(lanes, i);
      GeCounts(lanes, i, key);
      pos := i - Popcount(LowLanes(GeMask8(lanes, key), i));
      ChunkSplit(a, n, 0, i, key);
    }
  }

  /** The kernel of the build. */
  method LowerBoundFromBack(isa: Isa, a: array<u32>, n: nat, key: u32, chunks: nat) returns (pos: nat)
    requires n <= a.Length && SortedKeys(a, n) && (isa.Scalar? || PAD <= a.Length)
    ensures IsLowerBound(a, n, key, pos)
  {
    match isa
    case Scalar => pos := ScalarFromBack(a, n, key, chunks);
    case Sse2 => pos := Sse2FromBack(a, n, key, chunks);
    case Sse41 => pos := MaxFromBack(a, n, key, chunks);
    case Avx2 => pos := MaxFromBack(a, n, key, chunks);
  }
}
