/**
 One side of one book: three parallel arrays, best level at the back (include/itch/order_book.hpp:40-127,
 src/itch/order_book.cpp:12-26).
 */
module LevelSides {
  import opened Machine
  import opened Levels
  import opened LevelSearch
  import opened BlockMove

  const INITIAL_LEVELS: u32 := 16

  /** Growth doubles a 32-bit capacity, so a side cannot take a level beyond 2^31. */
  const MAX_LEVELS: nat := 0x8000_0000

  /** An add at `key` finds its level, or can make one. */
  predicate CanTake(s: seq<Level>, key: u32) { Has(s, key) || |s| < MAX_LEVELS }

  /** What growth makes of a capacity. */
  function Grown(cap: u32): nat { if cap == 0 then 16 else 2 * (cap as int) }

  /** A larger copy with the first `size` elements kept (regrow). */
  method Regrow<T(0)>(was: array<T>, size: nat, cap: nat, zero: T) returns (grown: array<T>)
    requires size <= was.Length && size <= cap
    ensures fresh(grown) && grown.Length == cap
    ensures grown[..size] == was[..size]
    ensures forall i :: size <= i < cap ==> grown[i] == zero
  {
    grown := new T[cap](_ => zero);
    for i := 0 to size
      invariant forall j :: 0 <= j < i ==> grown[j] == was[j]
      invariant forall j :: i <= j < cap ==> grown[j] == zero
    {
      grown[i] := was[i];
    }
  }

  class LevelSide {
    const isa: Isa
    const chunks: nat
    var keys: array<u32>
    var qty: array<u64>
    var orders: array<u32>
    var size: u32
    var cap: u32
    ghost var levels: seq<Level>

    ghost function Footprint(): set<object>
      reads this
    {
      {this, keys, qty, orders}
    }

    /** The arrays are separate, equally long, and hold `levels` in their first `size` places. */
    ghost predicate Parallel()
      reads this, keys, qty, orders
    {
      && keys != orders && keys as object != qty as object && orders as object != qty as object
      && size <= cap && keys.Length == qty.Length == orders.Length == cap
      && |levels| == size
      && forall i :: 0 <= i < size ==> levels[i] == Level(keys[i], qty[i], orders[i])
    }

    ghost predicate Valid()
      reads this, keys, qty, orders
    {
      Parallel() && Sorted(levels) && (cap == 0 || cap >= INITIAL_LEVELS)
    }

    constructor (isa: Isa, chunks: nat)
      ensures Valid() && levels == [] && fresh(keys) && fresh(qty) && fresh(orders)
      ensures this.isa == isa && this.chunks == chunks && cap == 0
    {
      this.isa, this.chunks := isa, chunks;
      keys, qty, orders := new u32[0], new u64[0], new u32[0];
      size, cap := 0, 0;
      levels := [];
    }

    method Grow()
      requires Valid() && cap < MAX_LEVELS
      modifies this
      ensures Valid() && levels == old(levels) && cap == Grown(old(cap)) > old(cap)
      ensures fresh(keys) && fresh(qty) && fresh(orders)
      ensures forall i :: size <= i < cap ==> keys[i] == 0 && qty[i] == 0 && orders[i] == 0
    {
      var newCap: u32 := if cap == 0 then INITIAL_LEVELS else cap * 2;
      var k := Regrow(keys, size, newCap, 0);
      var q := Regrow(qty, size, newCap, 0);
      var o := Regrow(orders, size, newCap, 0);
      forall i | 0 <= i < size ensures k[i] == keys[i] && q[i] == qty[i] && o[i] == orders[i] {
        assert k[i] == k[..size][i] && q[i] == q[..size][i] && o[i] == o[..size][i];
      }
      keys, qty, orders, cap := k, q, o, newCap;
    }

    method ReserveInitial()
      requires Valid()
      modifies this
      ensures Valid() && levels == old(levels) && cap == if old(cap) == 0 then 16 else old(cap)
      ensures
        || (keys == old(keys) && qty == old(qty) && orders == old(orders))
        || (fresh(keys) && fresh(qty) && fresh(orders))
    {
      if cap == 0 { Grow(); }
    }

    method Search(key: u32) returns (pos: nat)
      requires Valid()
      ensures pos == Find(levels, key)
    {
      if size == 0 { return 0; }
      assert SortedKeys(keys, size) by {
        forall i, j | 0 <= i <= j < size ensures keys[i] <= keys[j] {
          assert keys[i] == levels[i].key && keys[j] == levels[j].key;
        }
      }
      pos := LowerBoundFromBack(isa, keys, size, key, chunks);
      FindExact(levels, key);
      var p := Find(levels, key);
      assert pos < size ==> levels[pos].key == keys[pos];
      assert p < size ==> levels[p].key == keys[p];
    }

    /** The best level sits at the back. */
    method Best() returns (key: u32, quantity: u64)
      requires Valid() && levels != []
      ensures key == levels[|levels| - 1].key && quantity == levels[|levels| - 1].qty
    {
      key, quantity := keys[size - 1], qty[size - 1];
      assert levels[size - 1] == Level(keys[size - 1], qty[size - 1], orders[size - 1]);
    }

    method Add(key: u32, shares: u32) returns (top: bool)
      requires Valid() && CanTake(levels, key)
      modifies this, keys, qty, orders
      ensures Valid() && levels == Levels.Add(old(levels), key, shares)
      ensures top == AddTouchesTop(old(levels), key)
      ensures cap == if old(!Has(levels, key) && size == cap) then Grown(old(cap)) else old(cap)
      ensures
        || (keys == old(keys) && qty == old(qty) && orders == old(orders))
        || (fresh(keys) && fresh(qty) && fresh(orders))
    {
      hide Sorted, Find, Insert;
      var n := size;
      var pos := Search(key);
      AddAt(levels, key, shares, key);
      if pos < n && keys[pos] == key {
        UpdateLevel(pos, (qty[pos] + shares) % TWO_64, (orders[pos] + 1) % TWO_32);
        return pos == n - 1;
      }
      if n == cap { Grow(); }
      InsertLevel(pos, key, shares);
      top := n - pos == 0;
    }

    method UpdateLevel(pos: nat, q: u64, count: u32)
      requires Parallel() && pos < size
      modifies this`levels, qty, orders
      ensures Parallel() && levels == old(levels)[pos := Level(keys[pos], q, count)]
      ensures orders[pos] == count
    {
      qty[pos] := q;
      orders[pos] := count;
      levels := levels[pos := Level(keys[pos], q, count)];
    }

    /** Shifts the levels from `pos` on up by one place. */
    method OpenGap(pos: nat)
      requires Parallel() && size < cap && pos <= size
      modifies keys, qty, orders
      ensures forall i :: 0 <= i < pos ==> levels[i] == Level(keys[i], qty[i], orders[i])
      ensures forall i :: pos < i <= size ==> levels[i - 1] == Level(keys[i], qty[i], orders[i])
    {
      var tail := size - pos;
      if tail != 0 {
        ShiftUp(keys, pos, tail, 4);
        ShiftUp(qty, pos, tail, 8);
        ShiftUp(orders, pos, tail, 4);
      }
    }

    method InsertLevel(pos: nat, key: u32, shares: u32)
      requires Parallel() && size < cap && pos <= size
      modifies this`size, this`levels, keys, qty, orders
      ensures Parallel() && levels == Insert(old(levels), pos, Level(key, shares, 1))
    {
      hide Insert;
      ghost var was, l := levels, Level(key, shares, 1);
      OpenGap(pos);
      keys[pos] := key;
      qty[pos] := shares;
      orders[pos] := 1;
      size := size + 1;
      levels := Insert(was, pos, l);
      InsertPlace(was, pos, l, 0);
      forall i | 0 <= i < size ensures levels[i] == Level(keys[i], qty[i], orders[i]) { InsertPlace(was, pos, l, i); }
    }

    method Reduce(key: u32, shares: u32, gone: bool) returns (r: Reduced)
      requires Valid()
      modifies this, keys, qty, orders
      ensures Valid() && levels == Levels.Reduce(old(levels), key, shares, gone)
      ensures r == ReduceResult(old(levels), key) && cap == old(cap)
      ensures keys == old(keys) && qty == old(qty) && orders == old(orders)
    {
      hide Sorted, Find;
      var n := size;
      if n == 0 { return MissingLevel; }
      var pos := Search(key);
      ReduceAt(levels, key, shares, gone, key);
      if pos >= n || keys[pos] != key { return MissingLevel; }
      UpdateLevel(pos, (qty[pos] - shares) % TWO_64, (orders[pos] - if gone then 1 else 0) % TWO_32);
      if orders[pos] == 0 {
        RemoveLevel(pos);
        assert levels == Remove(old(levels), pos);
      }
      r := if pos == n - 1 then TopChanged else Done;
    }

    /** Shifts the levels above `pos` down by one place. */
    method CloseGap(pos: nat)
      requires Parallel() && pos < size
      modifies keys, qty, orders
      ensures forall i :: 0 <= i < pos ==> levels[i] == Level(keys[i], qty[i], orders[i])
      ensures forall i :: pos <= i < size - 1 ==> levels[i + 1] == Level(keys[i], qty[i], orders[i])
    {
      var tail := size - pos - 1;
      if tail != 0 {
        ShiftDown(keys, pos, tail, 4);
        ShiftDown(qty, pos, tail, 8);
        ShiftDown(orders, pos, tail, 4);
      }
    }

    lemma RemoveSize(was: seq<Level>, pos: nat)
      requires pos < |was|
      ensures |Remove(was, pos)| == |was| - 1
    {
    }

    method RemoveLevel(pos: nat)
      requires Parallel() && pos < size
      modifies this`size, this`levels, keys, qty, orders
      ensures Parallel() && levels == Remove(old(levels), pos)
    {
      hide Remove;
      ghost var was := levels;
      var n := size;
      CloseGap(pos);
      size := n - 1;
      levels := Remove(was, pos);
      assert |levels| == n - 1 by { RemoveSize(was, pos); }
      forall i | 0 <= i < size ensures levels[i] == Level(keys[i], qty[i], orders[i]) { RemovePlace(was, pos, i); }
    }
  }
}
