/**
 The contents of the order map as a value: tags, slots and, for the proofs, the probe
 number at which every live order was placed (include/itch/order_map.hpp:23-28, 76-133).
 */
module OrderTable {
  import opened Machine
  import opened Arith
  import opened Group
  import opened Probing

  datatype Order = Order(ref: u64, price: u32, shares: u32, locate: u16, side: u8)

  const GOLDEN: u64 := 0x9E37_79B9_7F4A_7C15
  const MAX_K := 57

  function Hash(ref: u64): u64 { (ref * GOLDEN) % TWO_64 }

  /** The home group: the top `k` bits of the hash. */
  function Home(ref: u64, k: nat): (g: nat)
    requires k <= MAX_K
    ensures g < Pow2(k)
  {
    Pow64();
    ShrBound(Hash(ref), 64 - k, k);
    Shr(Hash(ref), 64 - k)
  }

  /** The seven hash bits below the group index. */
  function Tag(ref: u64, k: nat): (h2: bv8)
    requires k <= MAX_K
    ensures Full(h2)
  {
    (Shr(Hash(ref), MAX_K - k) % 128) as bv8
  }

  /** Home group and tag are the top bits of the hash, one after the other. */
  lemma HashSplits(ref: u64, k: nat)
    requires 1 <= k <= MAX_K
    ensures var low := Shr(Hash(ref), MAX_K - k) - 128 * Home(ref, k); 0 <= low < 128 && Tag(ref, k) == low as bv8
  {
    hide Hash, Shr, Pow2;
    ShrTwice(Hash(ref), MAX_K - k, 7);
    ShrIsDiv(Shr(Hash(ref), MAX_K - k), 7);
    Seven();
  }

  lemma Seven()
    ensures Pow2(7) == 128
  {
    assert Pow2(4) == 16;
  }

  datatype Table = Table(
    kernel: Kernel,
    k: nat,
    ctrl: seq<bv8>,
    slots: seq<Order>,
    dist: seq<nat>,
    index: map<u64, nat>)

  function GroupOf(kernel: Kernel, i: nat): nat {
    match kernel
    case Swar => i / 8
    case Sse2 => i / 16
    case Avx2 => i / 32
  }

  function Base(kernel: Kernel, g: nat): nat {
    match kernel
    case Swar => g * 8
    case Sse2 => g * 16
    case Avx2 => g * 32
  }

  function Capacity(kernel: Kernel, k: nat): nat { Base(kernel, Pow2(k)) }

  function MaxLoad(cap: nat): nat { cap - cap / 8 }

  ghost predicate Shape(t: Table) {
    && 1 <= t.k <= MAX_K
    && |t.ctrl| == |t.slots| == |t.dist| == Capacity(t.kernel, t.k)
    && forall i :: 0 <= i < |t.ctrl| ==> IsTag(t.ctrl[i])
  }

  ghost predicate NoEmpty(t: Table, g: nat) {
    forall i :: 0 <= i < |t.ctrl| && GroupOf(t.kernel, i) == g ==> t.ctrl[i] != EMPTY
  }

  /** Slot `i` lies on the probe path of its order, and no earlier group of that path holds an EMPTY tag. */
  ghost predicate OnPath(t: Table, i: nat)
    requires Shape(t) && i < |t.ctrl|
  {
    var home := Home(t.slots[i].ref, t.k);
    && t.dist[i] < Pow2(t.k)
    && ProbeAt(home, t.dist[i], t.k) == GroupOf(t.kernel, i)
    && forall s :: 0 <= s < t.dist[i] ==> NoEmpty(t, ProbeAt(home, s, t.k))
  }

  /** FULL slots and live references are in one-to-one correspondence, and every tag belongs to its order. */
  ghost predicate Indexed(t: Table)
    requires Shape(t)
  {
    && (forall i :: 0 <= i < |t.ctrl| && Full(t.ctrl[i]) ==>
          var r := t.slots[i].ref; r in t.index && t.index[r] == i && t.ctrl[i] == Tag(r, t.k))
    && (forall r :: r in t.index ==>
          t.index[r] < |t.ctrl| && Full(t.ctrl[t.index[r]]) && t.slots[t.index[r]].ref == r)
  }

  ghost predicate Inv(t: Table) {
    && Shape(t)
    && Indexed(t)
    && forall i :: 0 <= i < |t.ctrl| && Full(t.ctrl[i]) ==> OnPath(t, i)
  }

  ghost function Live(t: Table): map<u64, Order>
    requires Inv(t)
  {
    map r | r in t.index :: t.slots[t.index[r]]
  }

  ghost function Count(c: seq<bv8>, x: bv8): (n: nat)
    ensures n <= |c|
  {
    if c == [] then 0 else (if c[|c| - 1] == x then 1 else 0) + Count(c[..|c| - 1], x)
  }

  lemma {:induction false} CountUpdate(c: seq<bv8>, i: nat, y: bv8, x: bv8)
    requires i < |c|
    ensures Count(c[i := y], x) == Count(c, x) - (if c[i] == x then 1 else 0) + (if y == x then 1 else 0)
  {
    var d := c[i := y];
    if i == |c| - 1 {
      assert d[..|c| - 1] == c[..|c| - 1];
    } else {
      assert d[..|c| - 1] == c[..|c| - 1][i := y];
      CountUpdate(c[..|c| - 1], i, y, x);
    }
  }

  lemma {:induction false} CountPositive(c: seq<bv8>, x: bv8)
    ensures Count(c, x) > 0 <==> x in c
  {
    if |c| > 0 { CountPositive(c[..|c| - 1], x); }
  }

  ghost function Empties(t: Table): nat { Count(t.ctrl, EMPTY) }

  ghost function Tombstones(t: Table): nat { Count(t.ctrl, DELETED) }

  // ---------- looking up ----------

  /** Every slot of the groups visited by the first `n` probes holds another order. */
  ghost predicate Missed(t: Table, ref: u64, n: nat)
    requires Shape(t)
  {
    forall i, s ::
      (0 <= i < |t.ctrl| && 0 <= s < n && Full(t.ctrl[i]) && GroupOf(t.kernel, i) == ProbeAt(Home(ref, t.k), s, t.k))
      ==> t.slots[i].ref != ref
  }

  ghost predicate Passed(t: Table, ref: u64, n: nat)
    requires Shape(t)
  {
    forall s :: 0 <= s < n ==> NoEmpty(t, ProbeAt(Home(ref, t.k), s, t.k))
  }

  /** A live order lies at or before the first group of its path that holds an EMPTY tag. */
  lemma LiveIsBeforeEmpty(t: Table, ref: u64, s: nat)
    requires Inv(t) && ref in t.index
    requires !NoEmpty(t, ProbeAt(Home(ref, t.k), s, t.k))
    ensures t.dist[t.index[ref]] <= s
    ensures GroupOf(t.kernel, t.index[ref]) == ProbeAt(Home(ref, t.k), t.dist[t.index[ref]], t.k)
  {
    assert OnPath(t, t.index[ref]);
  }

  /** A probe that reaches a group with an EMPTY tag has seen every place the order could be in. */
  lemma StopIsSafe(t: Table, ref: u64, s: nat)
    requires Inv(t)
    requires Missed(t, ref, s + 1)
    requires !NoEmpty(t, ProbeAt(Home(ref, t.k), s, t.k))
    ensures ref !in t.index
  {
    if ref in t.index { LiveIsBeforeEmpty(t, ref, s); }
  }

  /** As long as one EMPTY tag is left, a probe cannot run out of groups. */
  lemma ProbeEnds(t: Table, ref: u64, s: nat)
    requires Shape(t) && Empties(t) > 0
    requires Passed(t, ref, s)
    ensures s < Pow2(t.k)
  {
    var u := GapOnPath(t, ref);
  }

  lemma GapOnPath(t: Table, ref: u64) returns (u: nat)
    requires Shape(t) && Empties(t) > 0
    ensures u < Pow2(t.k) && !NoEmpty(t, ProbeAt(Home(ref, t.k), u, t.k))
  {
    CountPositive(t.ctrl, EMPTY);
    var i :| 0 <= i < |t.ctrl| && t.ctrl[i] == EMPTY;
    GroupInRange(t.kernel, i, Pow2(t.k));
    ProbesCover(Home(ref, t.k), GroupOf(t.kernel, i), t.k);
    u :| 0 <= u < Pow2(t.k) && ProbeAt(Home(ref, t.k), u, t.k) == GroupOf(t.kernel, i);
  }

  lemma GroupInRange(kernel: Kernel, i: nat, groups: nat)
    requires i < Base(kernel, groups)
    ensures GroupOf(kernel, i) < groups
  {
  }

  lemma GroupIsBlock(kernel: Kernel, g: nat, i: nat)
    ensures GroupOf(kernel, i) == g <==> Base(kernel, g) <= i < Base(kernel, g) + Width(kernel)
  {
  }

  // ---------- changing the table ----------

  /** The first `n` groups of the path are full. */
  ghost predicate FullUpTo(t: Table, ref: u64, n: nat)
    requires Shape(t)
  {
    forall i, s ::
      0 <= i < |t.ctrl| && 0 <= s < n && GroupOf(t.kernel, i) == ProbeAt(Home(ref, t.k), s, t.k) ==> Full(t.ctrl[i])
  }

  /** The lanes of its group below slot `i` are full. */
  ghost predicate LowestOfGroup(t: Table, i: nat)
    requires i < |t.ctrl|
  {
    !Full(t.ctrl[i]) && forall j :: 0 <= j < i && GroupOf(t.kernel, j) == GroupOf(t.kernel, i) ==> Full(t.ctrl[j])
  }

  /** The slot that an insert takes: the lowest free one of the first group on the path that has any. */
  ghost predicate Claimable(t: Table, ref: u64, i: nat)
    requires Shape(t)
  {
    && i < |t.ctrl| && LowestOfGroup(t, i)
    && exists s :: 0 <= s < Pow2(t.k) && FullUpTo(t, ref, s) && ProbeAt(Home(ref, t.k), s, t.k) == GroupOf(t.kernel, i)
  }

  lemma NothingFull(t: Table, ref: u64)
    requires Shape(t)
    ensures FullUpTo(t, ref, 0)
  {
  }

  lemma FullMore(t: Table, ref: u64, s: nat)
    requires Shape(t) && FullUpTo(t, ref, s)
    requires var g := ProbeAt(Home(ref, t.k), s, t.k);
      forall i :: Base(t.kernel, g) <= i < Base(t.kernel, g) + Width(t.kernel) && i < |t.ctrl| ==> Full(t.ctrl[i])
    ensures FullUpTo(t, ref, s + 1)
  {
    hide Home, ProbeAt;
    forall i: nat, u | i < |t.ctrl| && 0 <= u < s + 1 && GroupOf(t.kernel, i) == ProbeAt(Home(ref, t.k), u, t.k)
      ensures Full(t.ctrl[i])
    {
      GroupIsBlock(t.kernel, ProbeAt(Home(ref, t.k), s, t.k), i);
    }
  }

  lemma LowestIs(t: Table, g: nat, i: nat)
    requires i < |t.ctrl| && !Full(t.ctrl[i]) && GroupOf(t.kernel, i) == g
    requires forall j :: Base(t.kernel, g) <= j < i ==> Full(t.ctrl[j])
    ensures LowestOfGroup(t, i)
  {
    forall j: nat | j < i && GroupOf(t.kernel, j) == g ensures Full(t.ctrl[j]) { GroupIsBlock(t.kernel, g, j); }
  }

  lemma FullIsPassed(t: Table, ref: u64, n: nat)
    requires Shape(t) && FullUpTo(t, ref, n)
    ensures Passed(t, ref, n)
  {
  }

  /** The tag that erase leaves: DELETED only where the group has no EMPTY left. */
  ghost function Unmarked(t: Table, i: nat): bv8 { if NoEmpty(t, GroupOf(t.kernel, i)) then DELETED else EMPTY }

  /** `u` has the layout of `t`, and no group gained its first EMPTY tag. */
  ghost predicate NoNewGap(t: Table, u: Table) {
    && t.kernel == u.kernel && t.k == u.k
    && forall g: nat :: NoEmpty(t, g) ==> NoEmpty(u, g)
  }

  lemma PathKept(t: Table, u: Table, j: nat)
    requires Shape(t) && Shape(u) && NoNewGap(t, u) && j < |t.ctrl|
    requires OnPath(t, j) && u.slots[j].ref == t.slots[j].ref && u.dist[j] == t.dist[j]
    ensures OnPath(u, j)
  {
  }

  function Claimed(t: Table, i: nat, s: nat, ref: u64): Table
    requires t.k <= MAX_K && i < |t.ctrl| && i < |t.slots| && i < |t.dist|
  {
    t.(ctrl := t.ctrl[i := Tag(ref, t.k)], slots := t.slots[i := t.slots[i].(ref := ref)],
       dist := t.dist[i := s], index := t.index[ref := i])
  }

  lemma ClaimShape(t: Table, i: nat, s: nat, ref: u64)
    requires Shape(t) && Indexed(t) && i < |t.ctrl| && !Full(t.ctrl[i]) && ref !in t.index
    ensures Shape(Claimed(t, i, s, ref)) && Indexed(Claimed(t, i, s, ref))
    ensures NoNewGap(t, Claimed(t, i, s, ref))
  {
  }

  lemma ClaimKeepsInv(t: Table, i: nat, s: nat, ref: u64)
    requires Inv(t) && i < |t.ctrl| && !Full(t.ctrl[i]) && ref !in t.index
    requires s < Pow2(t.k) && ProbeAt(Home(ref, t.k), s, t.k) == GroupOf(t.kernel, i)
    requires Passed(t, ref, s)
    ensures Inv(Claimed(t, i, s, ref))
    ensures Live(Claimed(t, i, s, ref)) == Live(t)[ref := t.slots[i].(ref := ref)]
  {
    var u := Claimed(t, i, s, ref);
    ClaimShape(t, i, s, ref);
    ClaimOnPath(t, i, s, ref);
    forall j | 0 <= j < |u.ctrl| && Full(u.ctrl[j]) ensures OnPath(u, j) {
      if j != i { PathKept(t, u, j); }
    }
    ClaimLive(t, i, s, ref);
  }

  lemma ClaimOnPath(t: Table, i: nat, s: nat, ref: u64)
    requires Shape(t) && i < |t.ctrl| && Shape(Claimed(t, i, s, ref)) && NoNewGap(t, Claimed(t, i, s, ref))
    requires s < Pow2(t.k) && ProbeAt(Home(ref, t.k), s, t.k) == GroupOf(t.kernel, i)
    requires Passed(t, ref, s)
    ensures OnPath(Claimed(t, i, s, ref), i)
  {
  }

  lemma ClaimLive(t: Table, i: nat, s: nat, ref: u64)
    requires Inv(t) && i < |t.ctrl| && Inv(Claimed(t, i, s, ref)) && !Full(t.ctrl[i])
    ensures Live(Claimed(t, i, s, ref)) == Live(t)[ref := t.slots[i].(ref := ref)]
  {
  }

  function Erased(t: Table, i: nat, c: bv8): Table
    requires i < |t.ctrl| && i < |t.slots|
  {
    t.(ctrl := t.ctrl[i := c], index := t.index - {t.slots[i].ref})
  }

  lemma EraseShape(t: Table, i: nat, c: bv8)
    requires Shape(t) && Indexed(t) && i < |t.ctrl| && Full(t.ctrl[i])
    requires c == DELETED || c == EMPTY
    ensures Shape(Erased(t, i, c)) && Indexed(Erased(t, i, c))
  {
  }

  lemma EraseOpensNoGap(t: Table, i: nat, c: bv8)
    requires Shape(t) && i < |t.ctrl|
    requires c == DELETED || (c == EMPTY && !NoEmpty(t, GroupOf(t.kernel, i)))
    ensures NoNewGap(t, Erased(t, i, c))
  {
  }

  /** EMPTY may replace a FULL tag only in a group that already holds an EMPTY tag; DELETED may anywhere. */
  lemma EraseKeepsInv(t: Table, i: nat, c: bv8)
    requires Inv(t) && i < |t.ctrl| && Full(t.ctrl[i])
    requires c == DELETED || (c == EMPTY && !NoEmpty(t, GroupOf(t.kernel, i)))
    ensures Inv(Erased(t, i, c))
    ensures Live(Erased(t, i, c)) == Live(t) - {t.slots[i].ref}
  {
    EraseKeepsPaths(t, i, c);
    EraseShape(t, i, c);
    EraseLive(t, i, c);
    hide Shape, Indexed, OnPath, NoEmpty, Live;
  }

  lemma EraseKeepsPaths(t: Table, i: nat, c: bv8)
    requires Inv(t) && i < |t.ctrl| && Full(t.ctrl[i])
    requires c == DELETED || (c == EMPTY && !NoEmpty(t, GroupOf(t.kernel, i)))
    ensures var u := Erased(t, i, c); Shape(u) && forall j :: 0 <= j < |u.ctrl| && Full(u.ctrl[j]) ==> OnPath(u, j)
  {
    hide NoEmpty, OnPath, Home, Tag, Capacity;
    var u := Erased(t, i, c);
    EraseShape(t, i, c);
    EraseOpensNoGap(t, i, c);
    forall j | 0 <= j < |u.ctrl| && Full(u.ctrl[j]) ensures OnPath(u, j) { PathKept(t, u, j); }
  }

  lemma EraseLive(t: Table, i: nat, c: bv8)
    requires Inv(t) && i < |t.ctrl| && Full(t.ctrl[i]) && Inv(Erased(t, i, c))
    ensures Live(Erased(t, i, c)) == Live(t) - {t.slots[i].ref}
  {
    hide NoEmpty, OnPath, Home, Tag, Capacity;
  }

  function Written(t: Table, i: nat, o: Order): Table
    requires i < |t.slots|
  {
    t.(slots := t.slots[i := o])
  }

  lemma WriteShape(t: Table, i: nat, o: Order)
    requires Shape(t) && Indexed(t) && i < |t.ctrl| && Full(t.ctrl[i]) && t.slots[i].ref == o.ref
    ensures Shape(Written(t, i, o)) && Indexed(Written(t, i, o)) && NoNewGap(t, Written(t, i, o))
  {
  }

  lemma WriteKeepsInv(t: Table, i: nat, o: Order)
    requires Inv(t) && i < |t.ctrl| && Full(t.ctrl[i]) && t.slots[i].ref == o.ref
    ensures Inv(Written(t, i, o))
    ensures Live(Written(t, i, o)) == Live(t)[o.ref := o]
  {
    hide NoEmpty;
    var u := Written(t, i, o);
    WriteShape(t, i, o);
    forall j | 0 <= j < |u.ctrl| && Full(u.ctrl[j]) ensures OnPath(u, j) {
      PathKept(t, u, j);
    }
  }

  lemma {:induction false} AllEmptyCount(c: seq<bv8>)
    requires forall i :: 0 <= i < |c| ==> c[i] == EMPTY
    ensures Count(c, EMPTY) == |c| && Count(c, DELETED) == 0
  {
    if |c| > 0 { AllEmptyCount(c[..|c| - 1]); }
  }

  lemma ClearedInv(t: Table)
    requires 1 <= t.k <= MAX_K && |t.ctrl| == |t.slots| == |t.dist| == Capacity(t.kernel, t.k)
    requires t.index == map[] && forall i :: 0 <= i < |t.ctrl| ==> t.ctrl[i] == EMPTY
    ensures Inv(t) && Live(t) == map[] && Empties(t) == |t.ctrl| && Tombstones(t) == 0
  {
    AllEmptyCount(t.ctrl);
  }
}
