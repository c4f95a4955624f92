/** The global order map (include/itch/order_map.hpp). */
module OrderMaps {
  import opened Machine
  import opened Arith
  import opened Group
  import opened Probing
  import opened OrderTable

  /** More live orders than any address space could hold. */
  const LIMIT: nat := 0x1_0000_0000_0000

  /** The exponent of the smallest power of two that is at least `n`. */
  function CeilLog(n: nat): (k: nat)
    ensures Pow2(k) >= n && (k > 0 ==> Pow2(k - 1) < n)
  {
    if n <= 1 then 0 else
      var h := CeilLog((n + 1) / 2);
      h + 1
  }

  /**
   groups_for, as an exponent: at least two groups, at most 7/8 full with `orders` orders, and no more groups than that
   takes.
   */
  function GroupsFor(kernel: Kernel, orders: nat): (k: nat)
    ensures k >= 1 && MaxLoad(Capacity(kernel, k)) >= orders
    ensures k > 1 ==> Capacity(kernel, k - 1) < orders + orders / 7 + 1
    ensures orders < LIMIT ==> k <= MAX_K
  {
    var slots := orders + orders / 7 + 1;
    var w := Width(kernel);
    var k := CeilLog((slots + w - 1) / w);
    var r := if k < 1 then 1 else k;
    EnoughGroups(kernel, orders, r);
    NoFewerGroups(kernel, orders, r);
    if orders < LIMIT then ExponentBound(k, LIMIT); r else r
  }

  lemma EnoughGroups(kernel: Kernel, orders: nat, k: nat)
    requires Pow2(k) >= (orders + orders / 7 + 1 + Width(kernel) - 1) / Width(kernel)
    ensures MaxLoad(Capacity(kernel, k)) >= orders
  {
    assert Capacity(kernel, k) >= orders + orders / 7 + 1;
  }

  lemma NoFewerGroups(kernel: Kernel, orders: nat, k: nat)
    requires k > 1 ==> Pow2(k - 1) < (orders + orders / 7 + 1 + Width(kernel) - 1) / Width(kernel)
    ensures k > 1 ==> Capacity(kernel, k - 1) < orders + orders / 7 + 1
  {
  }

  lemma ExponentBound(k: nat, n: nat)
    requires k > 0 ==> Pow2(k - 1) < n
    requires n <= LIMIT
    ensures k < MAX_K
  {
    if k >= MAX_K {
      Pow48();
      Pow2Mono(48, k - 1);
    }
  }

  lemma Pow48()
    ensures Pow2(48) == LIMIT
  {
    hide Pow2;
    Pow8();
    Pow2Add(8, 8);
    Pow2Add(16, 16);
    Pow2Add(32, 16);
  }

  class OrderMap {
    const kernel: Kernel
    var ctrl: array<bv8>
    var slots: array<Order>
    var capacity: nat
    var groupMask: nat
    var groupShift: nat
    var size: nat
    var tombstones: nat
    var growthLeft: nat
    var rehashes: nat
    var grows: nat
    ghost var dist: seq<nat>
    ghost var index: map<u64, nat>

    ghost function Contents(): Table
      reads this, ctrl, slots
    {
      Table(kernel, if groupShift <= 64 then 64 - groupShift else 0, ctrl[..], slots[..], dist, index)
    }

    ghost predicate Valid()
      reads this, ctrl, slots
    {
      && ctrl as object != slots as object
      && groupShift <= 64
      && Inv(Contents())
      && capacity == ctrl.Length
      && groupMask == Pow2(64 - groupShift) - 1
      && size == |index|
      && tombstones == Tombstones(Contents())
      && Empties(Contents()) == capacity - size - tombstones
      && growthLeft == MaxLoad(capacity) - size - tombstones
    }

    /** The partial map from references to orders that the table stands for. */
    ghost function Orders(): map<u64, Order>
      requires Valid()
      reads this, ctrl, slots
    {
      Live(Contents())
    }

    lemma Lengths()
      requires Valid()
      ensures capacity == ctrl.Length == slots.Length
    {
    }

    /** An EMPTY tag always remains: at least one slot in eight. */
    lemma EmptyLeft()
      requires Valid()
      ensures Empties(Contents()) >= capacity / 8 >= 2
    {
      assert Pow2(64 - groupShift) >= 2;
    }

    constructor (kernel: Kernel, expected: nat)
      requires expected < LIMIT
      ensures Valid() && fresh(ctrl) && fresh(slots)
      ensures Orders() == map[] && growthLeft >= expected && rehashes == grows == tombstones == 0
      ensures this.kernel == kernel && Contents().k == GroupsFor(kernel, expected)
    {
      this.kernel := kernel;
      ctrl := new bv8[0];
      slots := new Order[0];
      rehashes, grows := 0, 0;
      new;
      Allocate(GroupsFor(kernel, expected));
    }

    method Allocate(k: nat)
      requires 1 <= k <= MAX_K
      modifies this
      ensures Valid() && fresh(ctrl) && fresh(slots)
      ensures Orders() == map[] && tombstones == 0 && capacity == Capacity(kernel, k)
      ensures growthLeft == MaxLoad(capacity) && rehashes == old(rehashes) && grows == old(grows)
      ensures Contents().k == k
    {
      hide Valid, MaxLoad, Inv, Live, Home, Tag, Pow2;
      capacity := Base(kernel, Pow2(k));
      groupMask := Pow2(k) - 1;
      groupShift := 64 - k;
      ctrl := new bv8[capacity];
      slots := new Order[capacity];
      dist := seq(capacity, _ => 0);
      Clear();
    }

    method Clear()
      requires groupShift <= 64 && 1 <= 64 - groupShift <= MAX_K && groupMask == Pow2(64 - groupShift) - 1
      requires ctrl as object != slots as object
      requires capacity == ctrl.Length == slots.Length == |dist| == Capacity(kernel, 64 - groupShift)
      modifies this`size, this`tombstones, this`growthLeft, this`index, ctrl
      ensures Valid() && Orders() == map[] && tombstones == 0 && growthLeft == MaxLoad(capacity)
    {
      hide MaxLoad, Inv, Live, Home, Tag, Capacity, Empties, Tombstones;
      for i := 0 to capacity
        invariant forall j :: 0 <= j < i ==> ctrl[j] == EMPTY
        invariant ctrl == old(ctrl)
      {
        ctrl[i] := EMPTY;
      }
      size, tombstones, growthLeft := 0, 0, MaxLoad(capacity);
      index := map[];
      ClearedInv(Contents());
      ClearedSizes(Contents());
    }

    /** The inner loop of find: compare the full reference on every reported lane. */
    method SearchGroup(base: nat, h2: bv8, ref: u64) returns (slot: Option<nat>)
      requires base + Width(kernel) <= ctrl.Length == slots.Length && Full(h2)
      ensures slot.Some? ==> slot.value < ctrl.Length && Full(ctrl[slot.value]) && slots[slot.value].ref == ref
      ensures slot.None? ==> forall i :: base <= i < base + Width(kernel) && ctrl[i] == h2 ==> slots[i].ref != ref
    {
      var lanes := Match(kernel, ctrl, base, h2);
      for j := 0 to |lanes|
        invariant forall a :: 0 <= a < j ==> lanes[a] in lanes && slots[base + lanes[a]].ref != ref
      {
        assert lanes[j] in lanes;
        if slots[base + lanes[j]].ref == ref { return Some(base + lanes[j]); }
      }
      forall i | base <= i < base + Width(kernel) && ctrl[i] == h2 ensures slots[i].ref != ref {
        assert ctrl[base + (i - base)] == h2;
        assert (i - base) in lanes;
      }
      slot := None;
    }

    /** One turn of the probe loop of find, at group `g`. */
    method Probe(ref: u64, g: nat, ghost s: nat) returns (slot: Option<nat>, stop: bool)
      requires Valid() && g == ProbeAt(Home(ref, Contents().k), s, Contents().k)
      requires Missed(Contents(), ref, s) && Passed(Contents(), ref, s)
      ensures slot.Some? ==> slot.value < capacity && Full(ctrl[slot.value]) && slots[slot.value].ref == ref
      ensures slot.None? && stop ==> ref !in index
      ensures slot.None? && !stop ==> Missed(Contents(), ref, s + 1) && Passed(Contents(), ref, s + 1)
    {
      hide Inv, Missed, Passed, NoEmpty;
      stop := false;
      GroupFacts(Contents(), g);
      slot := SearchGroup(Base(kernel, g), Tag(ref, 64 - groupShift), ref);
      if slot.None? {
        GroupMissed(Contents(), ref, s);
        stop := AnyEmpty(kernel, ctrl, Base(kernel, g));
        if stop { StopIsSafe(Contents(), ref, s); }
        else { PassedMore(Contents(), ref, s); }
      }
    }

    method Find(ref: u64) returns (slot: Option<nat>)
      requires Valid()
      ensures slot.Some? <==> ref in Orders()
      ensures slot.Some? ==>
        slot.value < capacity && Full(ctrl[slot.value]) && slots[slot.value] == Orders()[ref]
          && slots[slot.value].ref == ref
    {
      hide Inv, Shape, Missed, Passed;
      ghost var t := Contents();
      NothingProbed(t, ref);
      EmptyLeft();
      var g := Home(ref, 64 - groupShift);
      var step := 1;
      while true
        invariant step >= 1 && g == ProbeAt(Home(ref, t.k), step - 1, t.k)
        invariant Missed(t, ref, step - 1) && Passed(t, ref, step - 1)
        decreases Pow2(t.k) - step
      {
        var stop;
        slot, stop := Probe(ref, g, step - 1);
        if slot.Some? {
          SlotIsLive(t, slot.value);
          return;
        }
        if stop { return; }
        ProbeEnds(t, ref, step);
        ProbeStep(Home(ref, t.k), step - 1, t.k);
        g := (g + step) % (groupMask + 1);
        step := step + 1;
      }
    }

    /** The probe loop of insert: the lowest free slot of the first group on the path that has one. */
    method FindFree(ref: u64) returns (slot: nat, ghost s: nat)
      requires Valid()
      ensures slot < capacity && !Full(ctrl[slot])
      ensures s < Pow2(Contents().k) && Shape(Contents()) && Passed(Contents(), ref, s)
      ensures ProbeAt(Home(ref, Contents().k), s, Contents().k) == GroupOf(kernel, slot)
      ensures Claimable(Contents(), ref, slot)
    {
      hide Inv, Shape, Missed, Passed, NoEmpty, Live, MaxLoad, FullUpTo, LowestOfGroup, Empties, Tombstones, Tag;
      ghost var t := Contents();
      NothingProbed(t, ref);
      NothingFull(t, ref);
      EmptyLeft();
      var g := Home(ref, 64 - groupShift);
      var step := 1;
      while true
        invariant step >= 1 && g == ProbeAt(Home(ref, t.k), step - 1, t.k)
        invariant Passed(t, ref, step - 1) && FullUpTo(t, ref, step - 1)
        decreases Pow2(t.k) - step
      {
        s := step - 1;
        GroupFacts(t, g);
        var any, lane := LowestFree(kernel, ctrl, Base(kernel, g));
        if any {
          slot := Base(kernel, g) + lane;
          GroupIsBlock(kernel, g, slot);
          ProbeEnds(t, ref, s);
          LowestIs(t, g, slot);
          return;
        }
        PassedMore(t, ref, s);
        FullMore(t, ref, s);
        ProbeEnds(t, ref, step);
        ProbeStep(Home(ref, t.k), s, t.k);
        g := (g + step) % (groupMask + 1);
        step := step + 1;
      }
    }

    /** insert, once the table is known to have room. */
    method Claim(ref: u64) returns (slot: nat)
      requires Valid() && ref !in Orders() && growthLeft > 0
      modifies this, ctrl, slots
      ensures Valid() && ctrl == old(ctrl) && slots == old(slots)
      ensures slot < capacity && Full(ctrl[slot]) && slots[slot].ref == ref
      ensures Orders() == old(Orders())[ref := slots[slot]]
      ensures capacity == old(capacity)
      ensures tombstones <= old(tombstones) && size == old(size) + 1
      ensures rehashes == old(rehashes) && grows == old(grows)
      ensures Shape(old(Contents())) && Claimable(old(Contents()), ref, slot)
      ensures groupShift == old(groupShift) && ctrl[..] == old(ctrl[..])[slot := Tag(ref, old(Contents().k))]
    {
      hide Inv, Passed;
      ghost var s;
      slot, s := FindFree(ref);
      NothingProbed(Contents(), ref);
      Place(slot, ref, s);
    }

    method SetSlot(slot: nat, c: bv8, o: Order)
      requires ctrl as object != slots as object && slot < ctrl.Length == slots.Length
      modifies ctrl, slots
      ensures ctrl[..] == old(ctrl[..])[slot := c] && slots[..] == old(slots[..])[slot := o]
    {
      ctrl[slot] := c;
      slots[slot] := o;
    }

    method Place(slot: nat, ref: u64, ghost s: nat)
      requires Valid() && ref !in index && growthLeft > 0
      requires slot < capacity && !Full(ctrl[slot])
      requires Shape(Contents()) && s < Pow2(Contents().k) && Passed(Contents(), ref, s)
      requires ProbeAt(Home(ref, Contents().k), s, Contents().k) == GroupOf(kernel, slot)
      modifies this, ctrl, slots
      ensures Valid() && ctrl == old(ctrl) && slots == old(slots)
      ensures Full(ctrl[slot]) && slots[slot].ref == ref
      ensures Orders() == old(Orders())[ref := slots[slot]]
      ensures capacity == old(capacity)
      ensures tombstones <= old(tombstones) && size == old(size) + 1
      ensures rehashes == old(rehashes) && grows == old(grows)
      ensures groupShift == old(groupShift) && ctrl[..] == old(ctrl[..])[slot := Tag(ref, old(Contents().k))]
    {
      hide Inv, Live, Shape, Passed, Tag, Home, ProbeAt, Empties, Tombstones, MaxLoad, GroupOf, Pow2, Full;
      hide Capacity, Hash, Indexed, Claimable;
      ghost var t := Contents();
      Sizes(t);
      ClaimKeepsInv(t, slot, s, ref);
      ClaimCounts(t, slot, s, ref);
      if ctrl[slot] == EMPTY {
        growthLeft := growthLeft - 1;
      } else {
        tombstones := tombstones - 1;
      }
      SetSlot(slot, Tag(ref, 64 - groupShift), slots[slot].(ref := ref));
      size := size + 1;
      dist := dist[slot := s];
      index := index[ref := slot];
      assert Contents() == Claimed(t, slot, s, ref);
    }

    method Insert(ref: u64) returns (slot: nat)
      requires Valid() && ref !in Orders() && size < LIMIT
      modifies this, ctrl, slots
      ensures Valid() && (ctrl == old(ctrl) || fresh(ctrl)) && (slots == old(slots) || fresh(slots))
      ensures slot < capacity && Full(ctrl[slot]) && slots[slot].ref == ref && size == old(size) + 1
      ensures Orders() == old(Orders())[ref := slots[slot]]
      ensures old(growthLeft) > 0 ==>
        && rehashes == old(rehashes) && capacity == old(capacity) && growthLeft + 1 >= old(growthLeft)
        && tombstones <= old(tombstones) && groupShift == old(groupShift) && ctrl == old(ctrl) && slots == old(slots)
        && Shape(old(Contents())) && Claimable(old(Contents()), ref, slot)
        && ctrl[..] == old(ctrl[..])[slot := Tag(ref, old(Contents().k))]
      ensures old(growthLeft) == 0 ==> rehashes == old(rehashes) + 1 && 2 * (growthLeft + 1) >= MaxLoad(capacity)
    {
      hide Inv, Shape, Claimable, Tag, Live;
      if growthLeft == 0 {
        SizeIsLive();
        RehashForInsert();
        SizeIsLive();
      }
      slot := Claim(ref);
    }

    method Erase(slot: nat)
      requires Valid() && slot < capacity && Full(ctrl[slot])
      modifies this, ctrl
      ensures Valid() && ctrl == old(ctrl) && slots == old(slots)
      ensures slots[..] == old(slots[..])
      ensures Orders() == old(Orders()) - {old(slots[slot].ref)}
      ensures capacity == old(capacity)
      ensures size == old(size) - 1 && rehashes == old(rehashes) && grows == old(grows)
      ensures groupShift == old(groupShift) && ctrl[..] == old(ctrl[..])[slot := Unmarked(old(Contents()), slot)]
    {
      hide Inv, Live, Shape, NoEmpty;
      var g := GroupOf(kernel, slot);
      SlotFacts(Contents(), slot);
      GroupFacts(Contents(), g);
      var any := AnyEmpty(kernel, ctrl, Base(kernel, g));
      Unmark(slot, any);
    }

    method Unmark(slot: nat, toEmpty: bool)
      requires Valid() && slot < capacity && Full(ctrl[slot])
      requires toEmpty ==> !NoEmpty(Contents(), GroupOf(kernel, slot))
      modifies this, ctrl
      ensures Valid() && ctrl == old(ctrl) && slots == old(slots)
      ensures slots[..] == old(slots[..])
      ensures Orders() == old(Orders()) - {old(slots[slot].ref)}
      ensures capacity == old(capacity)
      ensures size == old(size) - 1 && rehashes == old(rehashes) && grows == old(grows)
      ensures groupShift == old(groupShift) && ctrl[..] == old(ctrl[..])[slot := if toEmpty then EMPTY else DELETED]
    {
      hide Inv, Live, NoEmpty, Empties, Tombstones, MaxLoad, GroupOf, Full;
      ghost var t := Contents();
      var c := if toEmpty then EMPTY else DELETED;
      Sizes(t);
      EraseKeepsInv(t, slot, c);
      EraseCounts(t, slot, c);
      if toEmpty {
        growthLeft := growthLeft + 1;
      } else {
        tombstones := tombstones + 1;
      }
      ctrl[slot] := c;
      size := size - 1;
      index := index - {t.slots[slot].ref};
      assert ctrl[..] == t.ctrl[slot := c];
      assert Contents() == Erased(t, slot, c);
    }

    /** The caller fills in the slot that find or insert returned. */
    method Write(slot: nat, o: Order)
      requires Valid() && slot < capacity && Full(ctrl[slot]) && slots[slot].ref == o.ref
      modifies slots
      ensures Valid() && slots[slot] == o && ctrl[..] == old(ctrl[..])
      ensures Orders() == old(Orders())[o.ref := o]
    {
      hide Inv, Live, MaxLoad;
      ghost var t := Contents();
      Sizes(t);
      WriteKeepsInv(t, slot, o);
      slots[slot] := o;
      assert slots[..] == t.slots[slot := o];
      assert Contents() == Written(t, slot, o);
    }

    lemma SizeIsLive()
      requires Valid()
      ensures size == |Orders()| && tombstones + size <= MaxLoad(capacity)
      ensures capacity == Capacity(kernel, Contents().k) && 1 <= Contents().k <= MAX_K
    {
      assert Orders().Keys == index.Keys;
    }

    /** Out of room: double when more than half of the load budget is live, otherwise purge the tombstones. */
    method RehashForInsert()
      requires Valid() && growthLeft == 0 && size < LIMIT
      modifies this
      ensures Valid() && fresh(ctrl) && fresh(slots)
      ensures Orders() == old(Orders()) && tombstones == 0
      ensures capacity == if 2 * old(size) > MaxLoad(old(capacity)) then 2 * old(capacity) else old(capacity)
      ensures growthLeft > 0 && 2 * growthLeft >= MaxLoad(capacity)
      ensures rehashes == old(rehashes) + 1
      ensures grows == old(grows) + if 2 * old(size) > MaxLoad(old(capacity)) then 1 else 0
    {
      hide Inv, Shape, Live, LiveBelow, Empties, Tombstones, MaxLoad, Pow2, Full, Capacity;
      var grow := 2 * size > MaxLoad(capacity);
      SizeIsLive();
      RehashFits(kernel, Contents().k, size, grow);
      ghost var t := Contents();
      var oldCtrl, oldSlots := ctrl, slots;
      Allocate(if grow then 64 - groupShift + 1 else 64 - groupShift);
      Reinsert(t, oldCtrl, oldSlots);
      SizeIsLive();
      rehashes := rehashes + 1;
      if grow { grows := grows + 1; }
    }

    method Reinsert(ghost t: Table, oldCtrl: array<bv8>, oldSlots: array<Order>)
      requires Valid() && Orders() == map[] && tombstones == 0
      requires Inv(t) && oldCtrl[..] == t.ctrl && oldSlots[..] == t.slots
      requires oldCtrl != ctrl && oldSlots != slots && oldSlots as object != ctrl as object
        && oldCtrl as object != slots as object
      requires |t.index| < MaxLoad(capacity)
      modifies this, ctrl, slots
      ensures Valid() && ctrl == old(ctrl) && slots == old(slots)
      ensures Orders() == Live(t) && tombstones == 0 && capacity == old(capacity)
      ensures rehashes == old(rehashes) && grows == old(grows)
    {
      hide Inv, Shape, Live, LiveBelow, Empties, Tombstones, MaxLoad;
      LiveAll(t);
      Sizes(t);
      for i := 0 to oldCtrl.Length
        invariant Valid() && ctrl == old(ctrl) && slots == old(slots)
        invariant oldCtrl[..] == t.ctrl && oldSlots[..] == t.slots
        invariant Orders() == LiveBelow(t, i)
        invariant tombstones == 0 && capacity == old(capacity)
        invariant rehashes == old(rehashes) && grows == old(grows)
      {
        if Full(oldCtrl[i]) {
          assert Full(t.ctrl[i]) && t.slots[i] == oldSlots[i];
          LiveGrows(t, i);
          SizeIsLive();
          var slot := Claim(oldSlots[i].ref);
          Write(slot, oldSlots[i]);
        } else {
          LiveSkips(t, i);
        }
      }
    }
  }

  lemma BlockFits(kernel: Kernel, g: nat, k: nat)
    requires g < Pow2(k)
    ensures Base(kernel, g) + Width(kernel) <= Capacity(kernel, k)
  {
  }

  /** A group holds no EMPTY tag when none of its lanes does. */
  lemma BlockNoEmpty(t: Table, g: nat)
    requires Shape(t) && g < Pow2(t.k)
    ensures Base(t.kernel, g) + Width(t.kernel) <= |t.ctrl|
    ensures NoEmpty(t, g) <==>
      forall i :: Base(t.kernel, g) <= i < Base(t.kernel, g) + Width(t.kernel) ==> t.ctrl[i] != EMPTY
  {
    BlockFits(t.kernel, g, t.k);
    forall i: nat ensures GroupOf(t.kernel, i) == g <==> Base(t.kernel, g) <= i < Base(t.kernel, g) + Width(t.kernel) {
      GroupIsBlock(t.kernel, g, i);
    }
  }

  lemma GroupFacts(t: Table, g: nat)
    requires Inv(t) && g < Pow2(t.k)
    ensures Shape(t) && Base(t.kernel, g) + Width(t.kernel) <= |t.ctrl| == |t.slots|
    ensures forall i :: 0 <= i < |t.ctrl| ==> IsTag(t.ctrl[i])
    ensures NoEmpty(t, g) <==>
      forall i :: Base(t.kernel, g) <= i < Base(t.kernel, g) + Width(t.kernel) ==> t.ctrl[i] != EMPTY
  {
    BlockNoEmpty(t, g);
  }

  lemma SlotIsLive(t: Table, i: nat)
    requires Inv(t) && i < |t.ctrl| && Full(t.ctrl[i])
    ensures t.slots[i].ref in Live(t) && Live(t)[t.slots[i].ref] == t.slots[i]
  {
  }

  lemma ClearedSizes(t: Table)
    requires t.index == map[]
    ensures |t.index| == 0
  {
  }

  lemma Sizes(t: Table)
    requires Inv(t)
    ensures |t.ctrl| == |t.slots| == |t.dist| && t.k <= MAX_K
  {
  }

  lemma NothingProbed(t: Table, ref: u64)
    requires Inv(t)
    ensures Shape(t) && t.k <= MAX_K && |t.slots| == |t.ctrl| && (ref in Live(t) <==> ref in t.index)
    ensures Missed(t, ref, 0) && Passed(t, ref, 0) && ProbeAt(Home(ref, t.k), 0, t.k) == Home(ref, t.k)
  {
    hide Indexed, OnPath, NoEmpty;
    FirstProbe(Home(ref, t.k), t.k);
  }

  lemma PassedMore(t: Table, ref: u64, s: nat)
    requires Inv(t) && Passed(t, ref, s) && NoEmpty(t, ProbeAt(Home(ref, t.k), s, t.k))
    ensures Passed(t, ref, s + 1)
  {
  }

  /** Comparing the reference on every slot with the right tag has ruled out the whole group. */
  lemma GroupMissed(t: Table, ref: u64, s: nat)
    requires Inv(t) && Missed(t, ref, s)
    requires var base := Base(t.kernel, ProbeAt(Home(ref, t.k), s, t.k));
      forall i :: base <= i < base + Width(t.kernel) && i < |t.ctrl| && t.ctrl[i] == Tag(ref, t.k) ==>
        t.slots[i].ref != ref
    ensures Missed(t, ref, s + 1)
  {
    var g := ProbeAt(Home(ref, t.k), s, t.k);
    forall i | 0 <= i < |t.ctrl| && Full(t.ctrl[i]) && GroupOf(t.kernel, i) == g
      ensures t.slots[i].ref != ref
    {
      GroupIsBlock(t.kernel, g, i);
    }
  }

  lemma ClaimCounts(t: Table, i: nat, s: nat, ref: u64)
    requires Inv(t) && i < |t.ctrl| && !Full(t.ctrl[i]) && ref !in t.index
    ensures |Claimed(t, i, s, ref).index| == |t.index| + 1
    ensures var u := Claimed(t, i, s, ref);
      && (t.ctrl[i] == EMPTY ==> Empties(t) > 0 && Empties(u) == Empties(t) - 1 && Tombstones(u) == Tombstones(t))
      && (t.ctrl[i] != EMPTY ==> Tombstones(t) > 0 && Empties(u) == Empties(t) && Tombstones(u) == Tombstones(t) - 1)
  {
    hide Indexed, OnPath;
    assert IsTag(t.ctrl[i]);
    CountPositive(t.ctrl, t.ctrl[i]);
    CountUpdate(t.ctrl, i, Tag(ref, t.k), EMPTY);
    CountUpdate(t.ctrl, i, Tag(ref, t.k), DELETED);
  }

  lemma EraseCounts(t: Table, i: nat, c: bv8)
    requires Inv(t) && i < |t.ctrl| && Full(t.ctrl[i]) && (c == EMPTY || c == DELETED)
    ensures |Erased(t, i, c).index| == |t.index| - 1
    ensures Empties(Erased(t, i, c)) == Empties(t) + if c == EMPTY then 1 else 0
    ensures Tombstones(Erased(t, i, c)) == Tombstones(t) + if c == DELETED then 1 else 0
  {
    hide OnPath;
    assert t.slots[i].ref in t.index;
    CountUpdate(t.ctrl, i, c, EMPTY);
    CountUpdate(t.ctrl, i, c, DELETED);
  }

  lemma SlotFacts(t: Table, i: nat)
    requires Inv(t) && i < |t.ctrl|
    ensures |t.slots| == |t.ctrl| && GroupOf(t.kernel, i) < Pow2(t.k)
    ensures Base(t.kernel, GroupOf(t.kernel, i)) <= i < Base(t.kernel, GroupOf(t.kernel, i)) + Width(t.kernel)
  {
    GroupInRange(t.kernel, i, Pow2(t.k));
    GroupIsBlock(t.kernel, GroupOf(t.kernel, i), i);
  }

  // ---------- rehash ----------

  /** The live orders found in the first `n` slots. */
  ghost function LiveBelow(t: Table, n: nat): map<u64, Order> {
    map r | r in t.index && t.index[r] < n && t.index[r] < |t.slots| :: t.slots[t.index[r]]
  }

  lemma LiveGrows(t: Table, i: nat)
    requires Inv(t) && i < |t.ctrl| && Full(t.ctrl[i])
    ensures t.slots[i].ref !in LiveBelow(t, i)
    ensures LiveBelow(t, i + 1) == LiveBelow(t, i)[t.slots[i].ref := t.slots[i]]
    ensures |LiveBelow(t, i)| < |t.index|
  {
    hide OnPath;
    assert t.slots[i].ref in t.index && t.index[t.slots[i].ref] == i;
    BelowIsSmaller(t, t.slots[i].ref);
  }

  lemma BelowIsSmaller(t: Table, r: u64)
    requires r in t.index
    ensures |LiveBelow(t, t.index[r])| < |t.index|
  {
    var below := LiveBelow(t, t.index[r]);
    SubsetSize(below.Keys, t.index.Keys - {r});
  }

  lemma LiveSkips(t: Table, i: nat)
    requires Inv(t) && i < |t.ctrl| && !Full(t.ctrl[i])
    ensures LiveBelow(t, i + 1) == LiveBelow(t, i)
  {
    hide OnPath;
  }

  lemma LiveAll(t: Table)
    requires Inv(t)
    ensures LiveBelow(t, |t.ctrl|) == Live(t) && LiveBelow(t, 0) == map[]
  {
    hide OnPath;
  }

  /** The new table exists, and the live orders fill at most half of its load budget. */
  lemma RehashFits(kernel: Kernel, k: nat, size: nat, grow: bool)
    requires 1 <= k <= MAX_K && size < LIMIT && size <= MaxLoad(Capacity(kernel, k))
    requires grow <==> 2 * size > MaxLoad(Capacity(kernel, k))
    ensures grow ==> k + 1 <= MAX_K && Capacity(kernel, k + 1) == 2 * Capacity(kernel, k)
    ensures var cap := Capacity(kernel, if grow then k + 1 else k);
      2 * size <= MaxLoad(cap) && size < MaxLoad(cap)
  {
    assert Pow2(k + 1) == 2 * Pow2(k);
    var half := Pow2(k - 1);
    assert Pow2(k) == 2 * half;
    if grow { ExponentBound(k, LIMIT); }
    match kernel
    case Swar => assert Capacity(kernel, k) == 16 * half && MaxLoad(16 * half) == 14 * half;
    case Sse2 => assert Capacity(kernel, k) == 32 * half && MaxLoad(32 * half) == 28 * half;
    case Avx2 => assert Capacity(kernel, k) == 64 * half && MaxLoad(64 * half) == 56 * half;
  }

  function RefSet(refs: seq<u64>): set<u64> { set r | r in refs }

  lemma RefSetSnoc(refs: seq<u64>, n: nat)
    requires n < |refs| && forall i, j :: 0 <= i < j < |refs| ==> refs[i] != refs[j]
    ensures RefSet(refs[..n + 1]) == RefSet(refs[..n]) + {refs[n]} && refs[n] !in RefSet(refs[..n])
  {
  }

  /** A map built for n expected orders takes its first n inserts without a rehash. */
  method FillToExpected(kernel: Kernel, refs: seq<u64>) returns (m: OrderMap)
    requires |refs| < LIMIT && forall i, j :: 0 <= i < j < |refs| ==> refs[i] != refs[j]
    ensures fresh(m) && m.Valid() && m.rehashes == 0 && m.Orders().Keys == RefSet(refs)
  {
    hide OrderMap.Valid, OrderMap.Orders, OrderMap.Contents, RefSet, Full, MaxLoad, Capacity;
    m := new OrderMap(kernel, |refs|);
    assert RefSet(refs[..0]) == {} by { NoRefs(refs); }
    for n := 0 to |refs|
      invariant m.Valid() && fresh(m) && fresh(m.ctrl) && fresh(m.slots)
      invariant m.rehashes == 0 && m.growthLeft >= |refs| - n
      invariant |m.Orders()| == n && m.Orders().Keys == RefSet(refs[..n])
    {
      RefSetSnoc(refs, n);
      m.SizeIsLive();
      ghost var was := m.Orders();
      var slot := m.Insert(refs[n]);
      assert m.Orders().Keys == was.Keys + {refs[n]};
    }
    assert refs[..|refs|] == refs;
  }

  lemma NoRefs(refs: seq<u64>)
    ensures RefSet(refs[..0]) == {}
  {
  }
}
