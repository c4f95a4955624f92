/** The little non-linear arithmetic that the rest of the project needs. */
module Arith {
  lemma MulGrows(d: nat, m: nat)
    requires d >= 1
    ensures d * m >= m
  {
    assert d * m == m + (d - 1) * m;
    MulNonNegative(d - 1, m);
  }

  lemma MulNonNegative(d: nat, m: nat)
    ensures d * m >= 0
  {
  }

  lemma MulMono(a: nat, b: nat, m: nat)
    requires a <= b
    ensures a * m <= b * m
  {
    assert b * m == a * m + (b - a) * m;
  }

  /** Quotient and remainder are the only way to write `x` as `q * m + r`. */
  lemma DivModUnique(x: nat, q: nat, m: nat, r: nat)
    requires m > 0 && r < m && x == q * m + r
    ensures x / m == q && x % m == r
  {
    var p, s := x / m, x % m;
    assert x == p * m + s;
    if p < q {
      assert q * m - p * m == (q - p) * m;
      MulGrows(q - p, m);
    } else if q < p {
      assert p * m - q * m == (p - q) * m;
      MulGrows(p - q, m);
    }
  }

  lemma ModShift(x: nat, q: nat, m: nat)
    requires m > 0
    ensures (q * m + x) % m == x % m
  {
    var p, s := x / m, x % m;
    assert (q + p) * m == q * m + p * m;
    DivModUnique(q * m + x, q + p, m, s);
  }

  lemma ModAdd(a: nat, b: nat, m: nat)
    requires m > 0
    ensures (a % m + b) % m == (a + b) % m
  {
    var q, r := a / m, a % m;
    assert a == q * m + r;
    ModShift(r + b, q, m);
  }

  lemma DivMono(a: nat, b: nat, m: nat)
    requires m > 0 && a <= b
    ensures a / m <= b / m
  {
    var x, y := a / m, b / m;
    assert a == x * m + a % m && b == y * m + b % m;
    assert (y + 1) * m == y * m + m;
    if y + 1 <= x { MulMono(y + 1, x, m); }
  }

  lemma CongruentDifference(a: nat, b: nat, m: nat) returns (q: nat)
    requires m > 0 && a <= b && a % m == b % m
    ensures b - a == q * m
  {
    var x, y := a / m, b / m;
    DivMono(a, b, m);
    q := y - x;
    assert a == x * m + a % m && b == y * m + b % m;
    assert y * m - x * m == (y - x) * m;
  }

  function Pow2(n: nat): (p: nat)
    ensures p >= 1
  {
    if n == 0 then 1 else 2 * Pow2(n - 1)
  }

  /** `x >> n` */
  function Shr(x: nat, n: nat): nat {
    if n == 0 then x else Shr(x / 2, n - 1)
  }

  lemma {:induction false} ShrTwice(x: nat, m: nat, n: nat)
    ensures Shr(Shr(x, m), n) == Shr(x, m + n)
  {
    if m > 0 { ShrTwice(x / 2, m - 1, n); }
  }

  lemma {:induction false} ShrIsDiv(x: nat, n: nat)
    ensures Shr(x, n) == x / Pow2(n)
  {
    if n > 0 {
      ShrIsDiv(x / 2, n - 1);
      HalfFirst(x, Pow2(n - 1));
    }
  }

  lemma HalfFirst(x: nat, p: nat)
    requires p > 0
    ensures x / 2 / p == x / (2 * p)
  {
    var q, s := x / 2 / p, x / 2 % p;
    assert x / 2 == q * p + s;
    assert q * (2 * p) == 2 * (q * p);
    DivModUnique(x, q, 2 * p, 2 * s + x % 2);
  }

  lemma {:induction false} ShrBound(x: nat, n: nat, k: nat)
    requires x < Pow2(n + k)
    ensures Shr(x, n) < Pow2(k)
  {
    if n > 0 { ShrBound(x / 2, n - 1, k); }
  }

  lemma {:induction false} Pow2Add(a: nat, b: nat)
    ensures Pow2(a + b) == Pow2(a) * Pow2(b)
  {
    if a > 0 { Pow2Add(a - 1, b); }
  }

  lemma {:induction false} Pow2Mono(a: nat, b: nat)
    requires a <= b
    ensures Pow2(a) <= Pow2(b)
  {
    if a < b { Pow2Mono(a, b - 1); }
  }

  lemma Pow8()
    ensures Pow2(8) == 0x100
  {
  }

  lemma Pow64()
    ensures Pow2(64) == 0x1_0000_0000_0000_0000
  {
    hide Pow2;
    Pow8();
    Pow2Add(8, 8);
    Pow2Add(16, 16);
    Pow2Add(32, 32);
  }
}
