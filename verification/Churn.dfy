/** Sizing the map up front does not keep it from rehashing (include/itch/order_map.hpp:23-32, 98-133). */
module Churn {
  import opened Machine
  import opened Arith
  import opened Group
  import opened Probing
  import opened OrderTable
  import opened OrderMaps

  const EXPECTED := 13

  /** A 16-slot SWAR table of two groups, which is what 13 expected orders get. */
  ghost predicate TwoGroups(t: Table) { t.kernel == Swar && t.k == 1 }

  lemma ThirteenGetTwoGroups()
    ensures GroupsFor(Swar, EXPECTED) == 1
  {
    assert CeilLog(2) == 1;
  }

  lemma SmallTable(m: OrderMap)
    requires m.Valid() && TwoGroups(m.Contents())
    ensures m.capacity == m.ctrl.Length == 16
    ensures m.tombstones == Count(m.ctrl[..], DELETED) && m.size == |m.Orders()|
    ensures m.growthLeft == 14 - m.size - m.tombstones
    ensures Count(m.ctrl[..], EMPTY) == 16 - m.size - m.tombstones
    ensures forall i :: 0 <= i < 16 ==> IsTag(m.ctrl[i])
  {
    m.SizeIsLive();
    assert Pow2(1) == 2;
  }

  /** Live orders that all belong to the first group, but do not fit into it, have filled it. */
  lemma CrowdFillsGroup(t: Table)
    requires Inv(t) && TwoGroups(t) && |t.index| > 8 && forall r :: r in t.index ==> Home(r, 1) == 0
    ensures NoEmpty(t, 0)
  {
    hide Home, OnPath, NoEmpty, Shape, Full, Tag;
    IndexFits(t.index, 8);
    var r :| r in t.index && t.index[r] >= 8;
    OutsideItsHome(t, t.index[r]);
  }

  lemma OutsideItsHome(t: Table, i: nat)
    requires Shape(t) && TwoGroups(t) && 8 <= i < |t.ctrl| && OnPath(t, i) && Home(t.slots[i].ref, 1) == 0
    ensures NoEmpty(t, 0)
  {
    hide Home, NoEmpty;
    FirstProbe(0, 1);
  }

  lemma IndexFits(index: map<u64, nat>, n: nat)
    requires forall r, q :: r in index && q in index && index[r] == index[q] ==> r == q
    ensures (forall r :: r in index ==> index[r] < n) ==> |index| <= n
  {
    if forall r :: r in index ==> index[r] < n { Injects(index, n); }
  }

  lemma Injects(index: map<u64, nat>, n: nat)
    requires forall r :: r in index ==> index[r] < n
    requires forall r, q :: r in index && q in index && index[r] == index[q] ==> r == q
    ensures |index| <= n
  {
    var image := set r | r in index :: index[r];
    ImageSize(index, image);
    SubsetSize(image, Below(n));
  }

  lemma {:induction false} ImageSize(index: map<u64, nat>, image: set<nat>)
    requires forall r, q :: r in index && q in index && index[r] == index[q] ==> r == q
    requires image == set r | r in index :: index[r]
    ensures |image| == |index|
    decreases |index|
  {
    if index != map[] {
      var r :| r in index;
      var rest := index - {r};
      forall v ensures v in image - {index[r]} <==> v in set q | q in rest :: rest[q] {
        if v in image - {index[r]} {
          var q :| q in index && index[q] == v;
          assert q in rest && rest[q] == v;
        }
      }
      ImageSize(rest, image - {index[r]});
    }
  }

  ghost predicate Distinct(refs: seq<u64>) { forall i, j :: 0 <= i < j < |refs| ==> refs[i] != refs[j] }

  ghost predicate HoldsAll(m: OrderMap, refs: seq<u64>)
    reads m, m.ctrl, m.slots
  {
    && m.Valid() && TwoGroups(m.Contents()) && m.Orders().Keys == RefSet(refs)
    && m.size == |refs| && m.rehashes == 0 && m.tombstones == 0
  }

  method FillOne(m: OrderMap, refs: seq<u64>, n: nat)
    requires n < |refs| == EXPECTED && Distinct(refs) && HoldsAll(m, refs[..n])
    modifies m, m.ctrl, m.slots
    ensures HoldsAll(m, refs[..n + 1]) && m.ctrl == old(m.ctrl) && m.slots == old(m.slots)
  {
    hide OrderMap.Valid, OrderMap.Orders, Home, RefSet, Full, Claimable, Shape, Tag, IsTag, Count;
    SmallTable(m);
    RefSetSnoc(refs, n);
    ghost var was := m.Orders();
    var slot := m.Insert(refs[n]);
    assert m.Orders().Keys == was.Keys + {refs[n]};
    SmallTable(m);
  }

  /** Fills a map built for 13 orders with 13 orders of one home group, of which eight fill the first group. */
  method Fill(refs: seq<u64>) returns (m: OrderMap)
    requires |refs| == EXPECTED && Distinct(refs) && forall i :: 0 <= i < |refs| ==> Home(refs[i], 1) == 0
    ensures fresh(m) && fresh(m.ctrl) && fresh(m.slots) && HoldsAll(m, refs)
    ensures m.ctrl.Length == 16 && forall i :: 0 <= i < 8 ==> Full(m.ctrl[i])
  {
    hide OrderMap.Valid, OrderMap.Orders, Home, RefSet, Full;
    ThirteenGetTwoGroups();
    m := new OrderMap(Swar, EXPECTED);
    SmallTable(m);
    NoRefs(refs);
    for n := 0 to |refs|
      invariant fresh(m) && fresh(m.ctrl) && fresh(m.slots) && HoldsAll(m, refs[..n])
    {
      FillOne(m, refs, n);
    }
    assert refs[..|refs|] == refs;
    FirstGroupIsFull(m, refs);
  }

  lemma FirstGroupIsFull(m: OrderMap, refs: seq<u64>)
    requires m.Valid() && TwoGroups(m.Contents()) && m.tombstones == 0 && m.size > 8
    requires m.Orders().Keys == RefSet(refs) && forall i :: 0 <= i < |refs| ==> Home(refs[i], 1) == 0
    ensures m.ctrl.Length == 16 && forall i :: 0 <= i < 8 ==> Full(m.ctrl[i])
  {
    hide Home;
    SmallTable(m);
    var t := m.Contents();
    forall r | r in t.index ensures Home(r, 1) == 0 { assert r in m.Orders().Keys; }
    CrowdFillsGroup(t);
    CountPositive(t.ctrl, DELETED);
    forall i | 0 <= i < 8 ensures Full(m.ctrl[i]) {
      assert GroupOf(Swar, i) == 0 && t.ctrl[i] == m.ctrl[i];
      assert IsTag(m.ctrl[i]);
    }
  }

  // ---------- the refutation ----------

  ghost predicate FirstGroupHasNoEmpty(m: OrderMap)
    reads m, m.ctrl
  {
    m.ctrl.Length == 16 && forall i :: 0 <= i < 8 ==> m.ctrl[i] != EMPTY
  }

  /** Erasing from a group without an EMPTY tag frees no budget: the live order becomes a tombstone. */
  method EraseToTombstone(m: OrderMap, slot: nat)
    requires m.Valid() && TwoGroups(m.Contents()) && FirstGroupHasNoEmpty(m) && slot < 8 && Full(m.ctrl[slot])
    modifies m, m.ctrl
    ensures m.Valid() && TwoGroups(m.Contents()) && FirstGroupHasNoEmpty(m)
    ensures m.ctrl == old(m.ctrl) && m.slots == old(m.slots) && m.ctrl[..] == old(m.ctrl[..])[slot := DELETED]
    ensures m.size == old(m.size) - 1 && m.tombstones == old(m.tombstones) + 1 && m.rehashes == old(m.rehashes)
    ensures m.growthLeft == old(m.growthLeft) && m.Orders().Keys <= old(m.Orders().Keys)
  {
    hide OrderMap.Valid, OrderMap.Orders, Full;
    SmallTable(m);
    FirstGroupNoEmpty(m);
    ghost var c := m.ctrl[..];
    assert GroupOf(Swar, slot) == 0;
    NotDeleted(c[slot]);
    CountUpdate(c, slot, DELETED, DELETED);
    m.Erase(slot);
    SmallTable(m);
    assert forall i :: 0 <= i < 8 ==> m.ctrl[..][i] != EMPTY;
  }

  lemma FirstGroupNoEmpty(m: OrderMap)
    requires m.Valid() && TwoGroups(m.Contents()) && FirstGroupHasNoEmpty(m)
    ensures NoEmpty(m.Contents(), 0)
  {
    assert forall i :: 0 <= i < 16 ==> m.ctrl[..][i] == m.ctrl[i];
  }

  lemma NotDeleted(c: bv8)
    requires Full(c)
    ensures c != DELETED && c != EMPTY
  {
  }

  /** An order of the second group takes an EMPTY slot there, whatever tombstones the first group holds. */
  method InsertIntoSecondGroup(m: OrderMap, ref: u64)
    requires m.Valid() && TwoGroups(m.Contents()) && FirstGroupHasNoEmpty(m)
    requires ref !in m.Orders() && Home(ref, 1) == 1 && m.growthLeft > 0
    requires forall i :: 8 <= i < 16 ==> m.ctrl[i] != DELETED
    modifies m, m.ctrl, m.slots
    ensures m.Valid() && TwoGroups(m.Contents()) && FirstGroupHasNoEmpty(m)
    ensures m.ctrl == old(m.ctrl) && m.slots == old(m.slots) && m.ctrl[..8] == old(m.ctrl[..8])
    ensures m.size == old(m.size) + 1 && m.tombstones == old(m.tombstones) && m.rehashes == old(m.rehashes)
    ensures m.growthLeft == old(m.growthLeft) - 1 && m.Orders().Keys == old(m.Orders().Keys) + {ref}
  {
    hide OrderMap.Valid, OrderMap.Orders, Home, Full, Tag, Shape, Claimable, NoEmpty;
    SmallTable(m);
    FirstGroupNoEmpty(m);
    ghost var t := m.Contents();
    ghost var c := m.ctrl[..];
    var slot := m.Insert(ref);
    ClaimsInSecondGroup(t, ref, slot);
    CountUpdate(c, slot, Tag(ref, 1), DELETED);
    NotDeleted(Tag(ref, 1));
    SmallTable(m);
    assert m.ctrl[..8] == c[..8];
    assert forall i :: 0 <= i < 8 ==> m.ctrl[i] == m.ctrl[..8][i];
  }

  lemma ClaimsInSecondGroup(t: Table, ref: u64, i: nat)
    requires Shape(t) && TwoGroups(t) && NoEmpty(t, 0) && Empties(t) > 0 && Home(ref, 1) == 1 && Claimable(t, ref, i)
    ensures 8 <= i < |t.ctrl| == 16 && !Full(t.ctrl[i])
  {
    hide Home;
    assert Pow2(1) == 2;
    FirstProbe(1, 1);
    CountPositive(t.ctrl, EMPTY);
    var s :| 0 <= s < Pow2(1) && FullUpTo(t, ref, s) && ProbeAt(1, s, 1) == GroupOf(t.kernel, i);
    FullIsPassed(t, ref, s);
    NoEmptyAnywhere(t);
    assert s == 0;
  }

  lemma NoEmptyAnywhere(t: Table)
    requires Shape(t) && TwoGroups(t) && NoEmpty(t, 0)
    ensures NoEmpty(t, 1) ==> EMPTY !in t.ctrl
  {
    assert Pow2(1) == 2;
    if NoEmpty(t, 1) {
      forall i | 0 <= i < |t.ctrl| ensures t.ctrl[i] != EMPTY { assert GroupOf(Swar, i) == 0 || GroupOf(Swar, i) == 1; }
    }
  }

  /** One of the crowd goes and leaves a tombstone, and a newcomer takes the last of the budget. */
  method SwapOne(m: OrderMap, refs: seq<u64>, next: u64)
    requires m.Valid() && TwoGroups(m.Contents()) && m.rehashes == 0 && m.size == EXPECTED && m.tombstones == 0
    requires m.Orders().Keys == RefSet(refs) && next !in refs && Home(next, 1) == 1
    requires m.ctrl.Length == 16 && forall i :: 0 <= i < 8 ==> Full(m.ctrl[i])
    modifies m, m.ctrl, m.slots
    ensures m.Valid() && TwoGroups(m.Contents()) && m.rehashes == 0 && m.size == EXPECTED && m.growthLeft == 0
    ensures m.ctrl == old(m.ctrl) && m.slots == old(m.slots)
    ensures FirstGroupHasNoEmpty(m) && Full(m.ctrl[1]) && m.Orders().Keys <= RefSet(refs) + {next}
  {
    hide OrderMap.Valid, OrderMap.Orders, Home, Full, IsTag, Count, MaxLoad;
    SmallTable(m);
    assert FirstGroupHasNoEmpty(m) by { forall i | 0 <= i < 8 ensures m.ctrl[i] != EMPTY { NotDeleted(m.ctrl[i]); } }
    NoTombstones(m);
    EraseToTombstone(m, 0);
    InsertIntoSecondGroup(m, next);
    assert m.ctrl[1] == m.ctrl[..8][1];
  }

  /**
   A map built for 13 expected orders that never holds more than 13 and rehashes all the same: eight orders fill
   one group, two of them go and leave tombstones, and two newcomers use up the budget.
   */
  method ChurnRehashes(refs: seq<u64>, next: u64, last: u64) returns (m: OrderMap, peak: nat)
    requires |refs| == EXPECTED && Distinct(refs) && forall i :: 0 <= i < |refs| ==> Home(refs[i], 1) == 0
    requires Home(next, 1) == 1 && next !in refs && last !in refs && last != next
    ensures m.Valid() && m.rehashes == 1 && peak == EXPECTED
  {
    hide OrderMap.Valid, OrderMap.Orders, OrderMap.Contents, Home, Full, Shape, Claimable, Tag, Distinct;
    m := Fill(refs);
    peak := m.size;
    SwapOne(m, refs, next);
    peak := Max(peak, m.size);
    EraseToTombstone(m, 1);
    var slot := m.Insert(last);
    peak := Max(peak, m.size);
  }

  lemma NoTombstones(m: OrderMap)
    requires m.Valid() && TwoGroups(m.Contents()) && m.tombstones == 0
    ensures m.ctrl.Length == 16 && forall i :: 0 <= i < 16 ==> m.ctrl[i] != DELETED
  {
    SmallTable(m);
    CountPositive(m.ctrl[..], DELETED);
    assert forall i :: 0 <= i < 16 ==> m.ctrl[..][i] == m.ctrl[i];
  }

  /** References that do it. */
  const CROWD: seq<u64> := [2, 4, 5, 7, 10, 12, 13, 15, 18, 20, 23, 25, 26]

  lemma CrowdIsThere()
    ensures |CROWD| == EXPECTED && Distinct(CROWD) && 1 !in CROWD && 3 !in CROWD
    ensures Home(1, 1) == 1 && forall i :: 0 <= i < |CROWD| ==> Home(CROWD[i], 1) == 0
  {
    hide Home;
    assert Home(1, 1) == 1 by { TopBit(1); }
    forall i | 0 <= i < |CROWD| ensures Home(CROWD[i], 1) == 0 { TopBit(CROWD[i]); }
  }

  lemma TopBit(ref: u64)
    ensures Home(ref, 1) == if Hash(ref) < 0x8000_0000_0000_0000 then 0 else 1
  {
    TopBitOf(Hash(ref));
  }

  lemma TopBitOf(x: u64)
    ensures Shr(x, 63) == if x < 0x8000_0000_0000_0000 then 0 else 1
  {
    Pow64();
    assert Pow2(64) == 2 * Pow2(63);
    ShrBound(x, 63, 1);
    assert Pow2(1) == 2 && Pow2(0) == 1;
    if x < Pow2(63) { ShrBound(x, 63, 0); } else { ShrReaches(x, 63); }
  }

  lemma {:induction false} ShrReaches(x: nat, n: nat)
    requires x >= Pow2(n)
    ensures Shr(x, n) >= 1
  {
    if n > 0 { ShrReaches(x / 2, n - 1); }
  }

  /** And so it happens. */
  method ChurnHappens() returns (m: OrderMap, peak: nat)
    ensures m.Valid() && m.rehashes == 1 && peak == EXPECTED
  {
    hide OrderMap.Valid;
    CrowdIsThere();
    m, peak := ChurnRehashes(CROWD, 1, 3);
  }
}
