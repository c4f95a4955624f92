/**
 Control-byte groups of the order map (include/itch/simd/group.hpp).

 A tag byte is FULL (below 0x80), EMPTY or DELETED.  The SWAR kernel works on eight
 tags packed into one 64-bit word and is modelled on bit-vectors; the SSE2 and AVX2
 kernels compare byte by byte and are modelled by that meaning.
 */
module Group {
  const EMPTY: bv8 := 0xFF
  const DELETED: bv8 := 0x80
  const LSBS: bv64 := 0x0101_0101_0101_0101
  const MSBS: bv64 := 0x8080_8080_8080_8080

  datatype Kernel = Swar | Sse2 | Avx2

  function Width(k: Kernel): (w: nat) {
    match k
    case Swar => 8
    case Sse2 => 16
    case Avx2 => 32
  }

  predicate Full(c: bv8) { c < 0x80 }

  predicate IsTag(c: bv8) { Full(c) || c == EMPTY || c == DELETED }

  // ---------- the SWAR word ----------

  /** Eight tags in memory order, read as a little-endian word. */
  function Load(c: seq<bv8>): bv64
    requires |c| == 8
  {
    (c[0] as bv64) | ((c[1] as bv64) << 8) | ((c[2] as bv64) << 16) | ((c[3] as bv64) << 24)
    | ((c[4] as bv64) << 32) | ((c[5] as bv64) << 40) | ((c[6] as bv64) << 48) | ((c[7] as bv64) << 56)
  }

  function SwarMatch(ctrl: bv64, h2: bv8): bv64 {
    var x := ctrl ^ (LSBS * (h2 as bv64));
    ZeroBytes(x)
  }

  function ZeroBytes(x: bv64): bv64 { (x - LSBS) & !x & MSBS }

  function SwarEmpty(ctrl: bv64): bv64 { ctrl & (ctrl << 1) & MSBS }

  function SwarFree(ctrl: bv64): bv64 { ctrl & MSBS }

  /** The top bit of byte `i`, and whether a mask has it set. */
  function Msb(i: nat): bv64
    requires i < 8
  {
    match i
    case 0 => 0x80
    case 1 => 0x8000
    case 2 => 0x80_0000
    case 3 => 0x8000_0000
    case 4 => 0x80_0000_0000
    case 5 => 0x8000_0000_0000
    case 6 => 0x80_0000_0000_0000
    case _ => 0x8000_0000_0000_0000
  }

  predicate Lane(bits: bv64, i: nat)
    requires i < 8
  {
    bits & Msb(i) != 0
  }

  /**
   A byte is reported when it matches, or when it differs from the tag in bit 0 only and the byte below it is reported.
   */
  predicate Borrowed(c: seq<bv8>, h2: bv8, i: nat)
    requires i < |c|
  {
    c[i] == h2 || (c[i] == h2 ^ 1 && i > 0 && Borrowed(c, h2, i - 1))
  }

  lemma EmptyExact(c: seq<bv8>, i: nat)
    requires |c| == 8 && i < 8
    requires IsTag(c[i])
    ensures Lane(SwarEmpty(Load(c)), i) <==> c[i] == EMPTY
  {
  }

  lemma FreeExact(c: seq<bv8>, i: nat)
    requires |c| == 8 && i < 8
    ensures Lane(SwarFree(Load(c)), i) <==> !Full(c[i])
  {
  }

  lemma Broadcast(h: bv64)
    requires h < 0x80
    ensures LSBS * h == h | (h << 8) | (h << 16) | (h << 24) | (h << 32) | (h << 40) | (h << 48) | (h << 56)
  {
  }

  /** Byte `i` of the word, still in place. */
  function Byte(x: bv64, i: nat): bv64
    requires i < 8
  {
    match i
    case 0 => x & 0xFF
    case 1 => (x >> 8) & 0xFF
    case 2 => (x >> 16) & 0xFF
    case 3 => (x >> 24) & 0xFF
    case 4 => (x >> 32) & 0xFF
    case 5 => (x >> 40) & 0xFF
    case 6 => (x >> 48) & 0xFF
    case _ => (x >> 56) & 0xFF
  }

  /** The borrow of the subtraction enters byte `i` exactly when byte `i - 1` was reported. */
  lemma ZeroBytesStep(x: bv64, i: nat)
    requires i < 8
    ensures Lane(ZeroBytes(x), i) <==> Byte(x, i) == 0 || (Byte(x, i) == 1 && i > 0 && Lane(ZeroBytes(x), i - 1))
  {
    match i
    case 0 =>
    case 1 =>
    case 2 =>
    case 3 =>
    case 4 =>
    case 5 =>
    case 6 =>
    case _ =>
  }

  lemma ByteMatches(c: seq<bv8>, h2: bv8, i: nat)
    requires |c| == 8 && i < 8 && h2 < 0x80
    ensures Byte(Load(c) ^ (LSBS * (h2 as bv64)), i) == (c[i] ^ h2) as bv64
  {
    Broadcast(h2 as bv64);
    match i
    case 0 =>
    case 1 =>
    case 2 =>
    case 3 =>
    case 4 =>
    case 5 =>
    case 6 =>
    case _ =>
  }

  lemma XorTag(c: bv8, h2: bv8)
    ensures (c ^ h2) as bv64 == 0 <==> c == h2
    ensures (c ^ h2) as bv64 == 1 <==> c == h2 ^ 1
  {
  }

  lemma {:induction false} ZeroBytesExact(x: bv64, c: seq<bv8>, h2: bv8, i: nat)
    requires |c| == 8 && i < 8
    requires forall j :: 0 <= j < 8 ==> Byte(x, j) == (c[j] ^ h2) as bv64
    ensures Lane(ZeroBytes(x), i) <==> Borrowed(c, h2, i)
  {
    hide Byte, ZeroBytes, Lane;
    ZeroBytesStep(x, i);
    XorTag(c[i], h2);
    if i > 0 { ZeroBytesExact(x, c, h2, i - 1); }
  }

  /** The exact meaning of the SWAR match, false positives included. */
  lemma MatchExact(c: seq<bv8>, h2: bv8, i: nat)
    requires |c| == 8 && i < 8 && h2 < 0x80
    ensures Lane(SwarMatch(Load(c), h2), i) <==> Borrowed(c, h2, i)
  {
    forall j | 0 <= j < 8
      ensures Byte(Load(c) ^ (LSBS * (h2 as bv64)), j) == (c[j] ^ h2) as bv64
    {
      ByteMatches(c, h2, j);
    }
    ZeroBytesExact(Load(c) ^ (LSBS * (h2 as bv64)), c, h2, i);
  }

  /** Every reported byte is FULL, because the tag and the tag with bit 0 flipped both are. */
  lemma BorrowedIsFull(c: seq<bv8>, h2: bv8, i: nat)
    requires i < |c| && h2 < 0x80
    ensures c[i] == h2 ==> Borrowed(c, h2, i)
    ensures Borrowed(c, h2, i) ==> Full(c[i])
  {
    assert h2 ^ 1 < 0x80;
  }

  /**
   At an input: a match and two h2 ^ 1 tags above it are reported all three, the EMPTY tag that ends the run is not.
   */
  lemma FalsePositiveRun(h2: bv8)
    requires h2 < 0x80
    ensures var c := [h2, h2 ^ 1, h2 ^ 1, EMPTY, EMPTY, EMPTY, EMPTY, EMPTY]; var bits := SwarMatch(Load(c), h2);
      Lane(bits, 0) && Lane(bits, 1) && Lane(bits, 2) && !Lane(bits, 3)
  {
    hide SwarMatch, Load, Lane;
    var c := [h2, h2 ^ 1, h2 ^ 1, EMPTY, EMPTY, EMPTY, EMPTY, EMPTY];
    assert EMPTY != h2 && EMPTY != h2 ^ 1;
    assert Borrowed(c, h2, 0) && Borrowed(c, h2, 1) && Borrowed(c, h2, 2) && !Borrowed(c, h2, 3);
    MatchExact(c, h2, 0);
    MatchExact(c, h2, 1);
    MatchExact(c, h2, 2);
    MatchExact(c, h2, 3);
  }

  // ---------- BitMask<3>: walking the set bits ----------

  /** The lowest lane of a nonempty mask. */
  function Lowest(bits: bv64): (i: nat)
    ensures i < 8
  {
    if Lane(bits, 0) then 0 else if Lane(bits, 1) then 1 else if Lane(bits, 2) then 2 else if Lane(bits, 3) then 3
    else if Lane(bits, 4) then 4 else if Lane(bits, 5) then 5 else if Lane(bits, 6) then 6 else 7
  }

  /** The bit that countr_zero finds is the top bit of the lowest lane, and no lower lane is set. */
  lemma LowestIsIsolated(bits: bv64, j: nat)
    requires bits != 0 && bits & MSBS == bits && j < 8
    ensures bits & (0 - bits) == Msb(Lowest(bits))
    ensures Lane(bits, Lowest(bits))
    ensures Lane(bits, j) ==> Lowest(bits) <= j
  {
  }

  lemma ClearLowest(bits: bv64, j: nat)
    requires bits != 0 && bits & MSBS == bits && j < 8
    ensures var rest := bits & (bits - 1);
      rest & MSBS == rest && (Lane(rest, j) <==> Lane(bits, j) && j != Lowest(bits))
  {
  }

  lemma NoLaneIsZero(bits: bv64)
    requires bits & MSBS == bits
    ensures bits != 0 <==> exists j :: 0 <= j < 8 && Lane(bits, j)
  {
    if bits != 0 { LowestIsIsolated(bits, 0); }
  }

  ghost predicate Ascending(lanes: seq<nat>) {
    forall a, b :: 0 <= a < b < |lanes| ==> lanes[a] < lanes[b]
  }

  /** The range-for loop over a BitMask<3>: the set lanes, lowest first. */
  method Walk(mask: bv64) returns (lanes: seq<nat>)
    requires mask & MSBS == mask
    ensures Ascending(lanes)
    ensures forall j :: j in lanes <==> 0 <= j < 8 && Lane(mask, j)
  {
    lanes := [];
    var bits := mask;
    ghost var lo := 0;
    while bits != 0
      invariant bits & MSBS == bits && lo <= 8
      invariant Ascending(lanes)
      invariant forall j :: j in lanes <==> 0 <= j < lo && Lane(mask, j)
      invariant forall j :: 0 <= j < 8 ==> (Lane(bits, j) <==> lo <= j && Lane(mask, j))
      decreases 8 - lo
    {
      var j := Lowest(bits);
      ghost var before := bits;
      forall i | 0 <= i < 8
        ensures (Lane(bits, i) ==> j <= i) && (Lane(bits & (bits - 1), i) <==> Lane(bits, i) && i != j)
      {
        LowestIsIsolated(bits, i);
        ClearLowest(bits, i);
      }
      LowestIsIsolated(bits, 0);
      ClearLowest(bits, 0);
      assert forall a :: 0 <= a < |lanes| ==> lanes[a] in lanes;
      lanes := lanes + [j];
      bits := bits & (bits - 1);
      lo := j + 1;
    }
    NoLaneIsZero(bits);
  }

  // ---------- the three match functions of a group ----------

  ghost predicate Candidate(k: Kernel, c: seq<bv8>, h2: bv8, i: nat)
    requires i < |c|
  {
    if k.Swar? then Borrowed(c, h2, i) else c[i] == h2
  }

  /**
   match(h2): exact for SSE2 and AVX2; for SWAR also the run of h2^1 tags above a match.  Only FULL slots are reported.
   */
  method Match(k: Kernel, ctrl: array<bv8>, base: nat, h2: bv8) returns (lanes: seq<nat>)
    requires base + Width(k) <= ctrl.Length && h2 < 0x80
    ensures Ascending(lanes)
    ensures forall i :: i in lanes <==> 0 <= i < Width(k) && Candidate(k, ctrl[base..base + Width(k)], h2, i)
    ensures forall i :: i in lanes ==> 0 <= i < Width(k) && Full(ctrl[base + i])
    ensures forall i :: 0 <= i < Width(k) && ctrl[base + i] == h2 ==> i in lanes
  {
    hide Load, Lane, Borrowed;
    ghost var c := ctrl[base..base + Width(k)];
    if k.Swar? {
      var group := ctrl[base..base + 8];
      var mask := SwarMatch(Load(group), h2);
      lanes := Walk(mask);
      forall i | 0 <= i < 8 ensures Lane(mask, i) <==> Candidate(k, c, h2, i) {
        MatchExact(c, h2, i);
      }
    } else {
      lanes := [];
      for j := 0 to Width(k)
        invariant Ascending(lanes)
        invariant forall i :: i in lanes <==> 0 <= i < j && c[i] == h2
      {
        assert forall a :: 0 <= a < |lanes| ==> lanes[a] in lanes;
        if ctrl[base + j] == h2 { lanes := lanes + [j]; }
      }
    }
    forall i | 0 <= i < Width(k)
      ensures (c[i] == h2 ==> Candidate(k, c, h2, i)) && (Candidate(k, c, h2, i) ==> Full(c[i]))
    {
      BorrowedIsFull(c, h2, i);
    }
  }

  /** match_empty().any() */
  method AnyEmpty(k: Kernel, ctrl: array<bv8>, base: nat) returns (any: bool)
    requires base + Width(k) <= ctrl.Length
    requires forall i :: base <= i < base + Width(k) ==> IsTag(ctrl[i])
    ensures any <==> exists i :: base <= i < base + Width(k) && ctrl[i] == EMPTY
  {
    if k.Swar? {
      var group := ctrl[base..base + 8];
      var mask := SwarEmpty(Load(group));
      any := mask != 0;
      forall i | 0 <= i < 8 ensures Lane(mask, i) <==> ctrl[base + i] == EMPTY {
        EmptyExact(group, i);
      }
      NoLaneIsZero(mask);
      if any {
        var j :| 0 <= j < 8 && Lane(mask, j);
        assert ctrl[base + j] == EMPTY;
      }
      assert forall i :: base <= i < base + 8 ==> (ctrl[i] == EMPTY <==> Lane(mask, i - base));
    } else {
      any := false;
      for j := 0 to Width(k)
        invariant any <==> exists i :: base <= i < base + j && ctrl[i] == EMPTY
      {
        if ctrl[base + j] == EMPTY { any := true; }
      }
    }
  }

  /** match_empty_or_deleted(), and its lowest lane when there is one. */
  method LowestFree(k: Kernel, ctrl: array<bv8>, base: nat) returns (any: bool, lane: nat)
    requires base + Width(k) <= ctrl.Length
    ensures any <==> exists i :: base <= i < base + Width(k) && !Full(ctrl[i])
    ensures any ==> lane < Width(k) && !Full(ctrl[base + lane])
    ensures any ==> forall i :: base <= i < base + lane ==> Full(ctrl[i])
  {
    lane := 0;
    if k.Swar? {
      var group := ctrl[base..base + 8];
      var mask := SwarFree(Load(group));
      any := mask != 0;
      forall i | 0 <= i < 8 ensures Lane(mask, i) <==> !Full(ctrl[base + i]) {
        FreeExact(group, i);
      }
      NoLaneIsZero(mask);
      if any {
        lane := Lowest(mask);
        forall i | 0 <= i < 8 ensures Lane(mask, lane) && (Lane(mask, i) ==> lane <= i) {
          LowestIsIsolated(mask, i);
        }
        LowestIsIsolated(mask, 0);
        assert !Full(ctrl[base + lane]);
      }
      assert forall i :: base <= i < base + 8 ==> (!Full(ctrl[i]) <==> Lane(mask, i - base));
    } else {
      while lane < Width(k) && Full(ctrl[base + lane])
        invariant lane <= Width(k)
        invariant forall i :: base <= i < base + lane ==> Full(ctrl[i])
      {
        lane := lane + 1;
      }
      any := lane < Width(k);
    }
  }
}
