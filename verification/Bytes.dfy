/**
 Big-endian loads and stores (include/itch/bytes.hpp:17-70). A byte-swapped little-endian access is a big-endian one.
 */
module Bytes {
  import opened Machine
  import opened Arith

  function Pow256(n: nat): (p: nat)
    ensures p >= 1
  {
    if n == 0 then 1 else 256 * Pow256(n - 1)
  }

  /** The big-endian value of some bytes. */
  function Be(s: seq<u8>): nat {
    if s == [] then 0 else Be(s[..|s| - 1]) * 256 + s[|s| - 1]
  }

  function BeBytes(v: nat, n: nat): (s: seq<u8>)
    ensures |s| == n
  {
    if n == 0 then [] else BeBytes(v / 256, n - 1) + [v % 256]
  }

  function Le(s: seq<u8>): nat {
    if s == [] then 0 else s[0] + 256 * Le(s[1..])
  }

  function LeBytes(v: nat, n: nat): (s: seq<u8>)
    ensures |s| == n
  {
    if n == 0 then [] else [v % 256] + LeBytes(v / 256, n - 1)
  }

  lemma {:induction false} BeBound(s: seq<u8>)
    ensures Be(s) < Pow256(|s|)
  {
    if s != [] { BeBound(s[..|s| - 1]); }
  }

  lemma {:induction false} BeOfBytes(v: nat, n: nat)
    requires v < Pow256(n)
    ensures Be(BeBytes(v, n)) == v
  {
    if n > 0 {
      BeOfBytes(v / 256, n - 1);
      assert BeBytes(v, n)[..n - 1] == BeBytes(v / 256, n - 1);
    }
  }

  lemma {:induction false} BytesOfBe(s: seq<u8>)
    ensures BeBytes(Be(s), |s|) == s
  {
    if s != [] {
      BytesOfBe(s[..|s| - 1]);
      assert s == s[..|s| - 1] + [s[|s| - 1]];
    }
  }

  lemma BeSnoc(s: seq<u8>, b: u8)
    ensures Be(s + [b]) == Be(s) * 256 + b
  {
    assert (s + [b])[..|s|] == s;
  }

  lemma ShiftIn(u: nat, p: nat, v: nat, b: nat)
    ensures (u * p + v) * 256 + b == u * (256 * p) + (v * 256 + b)
  {
    assert u * (256 * p) == 256 * (u * p);
  }

  lemma {:induction false} BeConcat(a: seq<u8>, b: seq<u8>)
    ensures Be(a + b) == Be(a) * Pow256(|b|) + Be(b)
  {
    if b == [] {
      assert a + b == a;
    } else {
      var c, x := b[..|b| - 1], b[|b| - 1];
      BeConcat(a, c);
      hide Be;
      BeSnoc(a + c, x);
      BeSnoc(c, x);
      assert b == c + [x] && a + b == (a + c) + [x];
      ShiftIn(Be(a), Pow256(|c|), Be(c), x);
    }
  }

  // ---------- the loads and stores as the code makes them ----------

  /** Reversing the bytes of an n-byte word. */
  function Bswap(v: nat, n: nat): nat { Be(LeBytes(v, n)) }

  /** An n-byte copy into a little-endian word, then a byte swap. */
  function LoadBe(p: seq<u8>): nat { Bswap(Le(p), |p|) }

  function StoreBe(v: nat, n: nat): (s: seq<u8>)
    ensures |s| == n
  {
    LeBytes(Bswap(v, n), n)
  }

  lemma {:induction false} LeBytesOfLe(s: seq<u8>)
    ensures LeBytes(Le(s), |s|) == s
  {
    if s != [] {
      LeBytesOfLe(s[1..]);
      assert s == [s[0]] + s[1..];
      DropLowByte(Le(s[1..]), s[0]);
    }
  }

  lemma LoadIsBigEndian(p: seq<u8>)
    ensures LoadBe(p) == Be(p)
  {
    LeBytesOfLe(p);
  }

  function Reversed(s: seq<u8>): seq<u8> {
    if s == [] then [] else Reversed(s[1..]) + [s[0]]
  }

  lemma {:induction false} ReversedSnoc(s: seq<u8>, b: u8)
    ensures Reversed(s + [b]) == [b] + Reversed(s)
  {
    if s != [] {
      ReversedSnoc(s[1..], b);
      assert (s + [b])[1..] == s[1..] + [b];
    }
  }

  lemma DropLowByte(v: nat, b: u8)
    ensures (v * 256 + b) % 256 == b && (v * 256 + b) / 256 == v
  {
  }

  lemma {:induction false} LittleOfBig(s: seq<u8>)
    ensures LeBytes(Be(s), |s|) == Reversed(s)
  {
    if s != [] {
      hide Reversed;
      var n := |s| - 1;
      LittleOfBig(s[..n]);
      ReversedSnoc(s[..n], s[n]);
      assert s == s[..n] + [s[n]];
      DropLowByte(Be(s[..n]), s[n]);
    }
  }

  lemma {:induction false} BigIsReversedLittle(v: nat, n: nat)
    ensures BeBytes(v, n) == Reversed(LeBytes(v, n))
  {
    if n > 0 {
      BigIsReversedLittle(v / 256, n - 1);
      assert LeBytes(v, n)[1..] == LeBytes(v / 256, n - 1);
    }
  }

  lemma StoreIsBigEndian(v: nat, n: nat)
    ensures StoreBe(v, n) == BeBytes(v, n)
  {
    LittleOfBig(LeBytes(v, n));
    BigIsReversedLittle(v, n);
  }

  /** The 48-bit load as an 8-byte load from two bytes earlier with the two leading bytes masked off. */
  lemma OverreadIsPlain(p: seq<u8>)
    requires |p| >= 11
    ensures LoadBe(p[3..11]) % TWO_48 == Be(p[5..11]) == LoadBe(p[5..7]) * TWO_32 + LoadBe(p[7..11])
  {
    LoadIsBigEndian(p[3..11]);
    LoadIsBigEndian(p[5..7]);
    LoadIsBigEndian(p[7..11]);
    assert p[3..11] == p[3..5] + p[5..11] && p[5..11] == p[5..7] + p[7..11];
    BeConcat(p[3..5], p[5..11]);
    BeConcat(p[5..7], p[7..11]);
    BeBound(p[5..11]);
    assert Pow256(4) == TWO_32 && Pow256(6) == TWO_48;
    DivModUnique(Be(p[3..11]), Be(p[3..5]), TWO_48, Be(p[5..11]));
  }

  lemma Widths()
    ensures Pow256(1) == 0x100 && Pow256(2) == TWO_16 && Pow256(4) == TWO_32 && Pow256(6) == TWO_48
      && Pow256(8) == TWO_64
  {
    assert Pow256(3) == 0x100_0000 && Pow256(5) == 0x100_0000_0000 && Pow256(7) == 0x100_0000_0000_0000;
  }

  function Load16(p: seq<u8>): (v: u16)
    requires |p| == 2
    ensures v == Be(p)
  {
    LoadIsBigEndian(p);
    BeBound(p);
    Widths();
    LoadBe(p)
  }

  function Load64(p: seq<u8>): (v: u64)
    requires |p| == 8
    ensures v == Be(p)
  {
    LoadIsBigEndian(p);
    BeBound(p);
    Widths();
    LoadBe(p)
  }
}
