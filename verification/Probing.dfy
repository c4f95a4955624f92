/** Triangular probing over a power-of-two number of groups (include/itch/order_map.hpp:20-21, 87). */
module Probing {
  import opened Arith

  /** Distance from the home group after `s` steps of +1, +2, +3, ... */
  function Tri(s: nat): nat {
    if s == 0 then 0 else Tri(s - 1) + s
  }

  /** The group visited by probe number `s`. */
  function ProbeAt(home: nat, s: nat, k: nat): (g: nat)
    ensures g < Pow2(k)
  {
    (home + Tri(s)) % Pow2(k)
  }

  lemma FirstProbe(home: nat, k: nat)
    requires home < Pow2(k)
    ensures ProbeAt(home, 0, k) == home
  {
    DivModUnique(home, 0, Pow2(k), home);
  }

  /** One turn of the probe loop: g = (g + step) & mask with step = s + 1. */
  lemma ProbeStep(home: nat, s: nat, k: nat)
    ensures (ProbeAt(home, s, k) + s + 1) % Pow2(k) == ProbeAt(home, s + 1, k)
  {
    ModAdd(home + Tri(s), s + 1, Pow2(k));
  }

  lemma OddTimesOdd(a: nat, b: nat)
    requires a % 2 == 1 && b % 2 == 1
    ensures (a * b) % 2 == 1
  {
    var x, y := a / 2, b / 2;
    assert a * b == (2 * x + 1) * b == 2 * (x * b) + b;
  }

  /** An odd factor carries no power of two. */
  lemma {:induction false} OddFactor(odd: nat, b: nat, n: nat, q: nat) returns (z: nat)
    requires odd % 2 == 1 && odd * b == q * Pow2(n)
    ensures b == z * Pow2(n)
    decreases n
  {
    if n == 0 {
      z := b;
    } else {
      var p := Pow2(n - 1);
      assert odd * b == 2 * (q * p) by { assert q * (2 * p) == 2 * (q * p); }
      if b % 2 == 1 { OddTimesOdd(odd, b); }
      var y := b / 2;
      assert odd * b == 2 * (odd * y) by { assert odd * (2 * y) == 2 * (odd * y); }
      z := OddFactor(odd, y, n - 1, q);
      assert b == z * Pow2(n) by { assert 2 * (z * p) == z * (2 * p); }
    }
  }

  lemma {:induction false} TriDifference(i: nat, d: nat)
    ensures 2 * (Tri(i + d) - Tri(i)) == d * (2 * i + d + 1)
  {
    if d > 0 {
      TriDifference(i, d - 1);
      var x := 2 * i + d;
      assert d * (x + 1) == (d - 1) * x + x + d;
    }
  }

  lemma {:induction false} TriMono(i: nat, j: nat)
    requires i <= j
    ensures Tri(i) <= Tri(j)
  {
    if i < j { TriMono(i, j - 1); }
  }

  /** The first 2^k probes visit pairwise different groups. */
  lemma ProbesDistinct(home: nat, i: nat, j: nat, k: nat)
    requires i < j < Pow2(k)
    ensures ProbeAt(home, i, k) != ProbeAt(home, j, k)
  {
    if ProbeAt(home, i, k) == ProbeAt(home, j, k) {
      EqualProbesAreFarApart(home, i, j - i, k);
    }
  }

  lemma EqualProbesAreFarApart(home: nat, i: nat, d: nat, k: nat)
    requires d > 0 && ProbeAt(home, i, k) == ProbeAt(home, i + d, k)
    ensures d >= Pow2(k + 1) || 2 * i + d + 1 >= Pow2(k + 1)
  {
    hide ProbeAt, Pow2;
    var q := EqualProbes(home, i, d, k);
    OddAndEven(i, d);
    TooSmall(d, 2 * i + d + 1, k + 1, q);
  }

  lemma OddAndEven(i: nat, d: nat)
    ensures d % 2 + (2 * i + d + 1) % 2 == 1
  {
  }

  lemma EqualProbes(home: nat, i: nat, d: nat, k: nat) returns (q: nat)
    requires ProbeAt(home, i, k) == ProbeAt(home, i + d, k)
    ensures d * (2 * i + d + 1) == q * Pow2(k + 1)
  {
    TriMono(i, i + d);
    TriDifference(i, d);
    q := CongruentDifference(home + Tri(i), home + Tri(i + d), Pow2(k));
    DoubleFactor(q, Pow2(k));
  }

  lemma DoubleFactor(q: nat, m: nat)
    ensures 2 * (q * m) == q * (2 * m)
  {
  }

  lemma TooSmall(d: nat, e: nat, n: nat, q: nat)
    requires d > 0 && e > 0 && d % 2 + e % 2 == 1 && d * e == q * Pow2(n)
    ensures d >= Pow2(n) || e >= Pow2(n)
  {
    if d % 2 == 1 {
      var z := OddFactor(d, e, n, q);
      if z > 0 { MulGrows(z, Pow2(n)); }
    } else {
      var z := OddFactor(e, d, n, q) by { assert e * d == d * e; }
      if z > 0 { MulGrows(z, Pow2(n)); }
    }
  }

  /** So they visit every group: no group is missed when all 2^k probes fail. */
  lemma ProbesCover(home: nat, g: nat, k: nat)
    requires g < Pow2(k)
    ensures exists s :: 0 <= s < Pow2(k) && ProbeAt(home, s, k) == g
  {
    var m := Pow2(k);
    if forall s :: 0 <= s < m ==> ProbeAt(home, s, k) != g {
      var visited := ProbeImage(home, m, k);
      var all := Below(m);
      SubsetSize(visited, all - {g});
    }
  }

  lemma {:induction false} ProbeImage(home: nat, n: nat, k: nat) returns (visited: set<nat>)
    requires n <= Pow2(k)
    ensures forall g :: g in visited <==> exists s :: 0 <= s < n && ProbeAt(home, s, k) == g
    ensures |visited| == n
  {
    visited := {};
    if n > 0 {
      var before := ProbeImage(home, n - 1, k);
      var g := ProbeAt(home, n - 1, k);
      forall s | 0 <= s < n - 1 ensures ProbeAt(home, s, k) != g {
        ProbesDistinct(home, s, n - 1, k);
      }
      visited := before + {g};
    }
  }

  function Below(n: nat): (s: set<nat>)
    ensures |s| == n && forall x :: x in s <==> 0 <= x < n
  {
    if n == 0 then {} else Below(n - 1) + {n - 1}
  }

  lemma {:induction false} SubsetSize<T>(a: set<T>, b: set<T>)
    requires a <= b
    ensures |a| <= |b|
  {
    if a != {} {
      var x :| x in a;
      SubsetSize(a - {x}, b - {x});
    }
  }
}
