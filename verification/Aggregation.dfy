/** The central theorem: in every reachable state the price levels are the aggregation of the live orders. */
module Aggregation {
  import opened Machine
  import opened OrderTable
  import opened Levels
  import opened Books
  import opened Totals
  import opened Probing

  ghost predicate Rests(o: Order, locate: u16, buy: bool, key: u32) {
    o.locate == locate && IsBuy(o.side) == buy && KeyFor(buy, o.price) == key
  }

  /** The shares of the live orders that rest at one price of one side of one book. */
  ghost function Bucket(m: map<u64, Order>, locate: u16, buy: bool, key: u32): map<u64, nat> {
    map r | r in m && Rests(m[r], locate, buy, key) :: m[r].shares as nat
  }

  /** A level exists exactly when orders rest at its price; its quantity is their sum and its count their number. */
  ghost predicate LevelIs(l: Option<Level>, b: map<u64, nat>) {
    match l
    case None => b == map[]
    case Some(l) => b != map[] && l.qty == Total(b) && l.orders == |b|
  }

  ghost predicate SideAgrees(s: seq<Level>, m: map<u64, Order>, locate: u16, buy: bool) {
    Sorted(s) && forall key: u32 :: LevelIs(At(s, key), Bucket(m, locate, buy, key))
  }

  ghost predicate Consistent(e: Engine) {
    && Shaped(e)
    && (forall r :: r in e.orders ==> e.orders[r].ref == r)
    && forall locate: u16, buy: bool :: SideAgrees(SideOf(e.books[locate], buy), e.orders, locate, buy)
  }

  lemma ConsistentIsShaped(e: Engine)
    requires Consistent(e)
    ensures Shaped(e)
  {
  }

  // ---------- how a bucket moves ----------

  lemma BucketSet(m: map<u64, Order>, r: u64, o: Order, locate: u16, buy: bool, key: u32)
    requires r in m ==> (Rests(m[r], locate, buy, key) <==> Rests(o, locate, buy, key))
    ensures Bucket(m[r := o], locate, buy, key) ==
      if Rests(o, locate, buy, key) then Bucket(m, locate, buy, key)[r := o.shares as nat]
        else Bucket(m, locate, buy, key)
  {
  }

  lemma BucketDrop(m: map<u64, Order>, r: u64, locate: u16, buy: bool, key: u32)
    ensures Bucket(m - {r}, locate, buy, key) == Bucket(m, locate, buy, key) - {r}
  {
  }

  lemma BucketBound(m: map<u64, Order>, locate: u16, buy: bool, key: u32)
    ensures |Bucket(m, locate, buy, key)| <= |m|
    ensures Total(Bucket(m, locate, buy, key)) <= |Bucket(m, locate, buy, key)| * (TWO_32 - 1)
  {
    hide Total;
    var b := Bucket(m, locate, buy, key);
    SubsetSize(b.Keys, m.Keys);
    TotalBound(b, TWO_32 - 1);
  }

  /**
   What the level's counter says about room is what its orders say; and the quantity has room for one more order in any
   case.
   */
  lemma RoomIsInTheBucket(s: seq<Level>, m: map<u64, Order>, locate: u16, buy: bool, key: u32)
    requires SideAgrees(s, m, locate, buy)
    ensures Room(s, key) <==> |Bucket(m, locate, buy, key)| + 1 < TWO_32
    ensures Total(Bucket(m, locate, buy, key)) + TWO_32 - 1 < TWO_64
  {
    hide Sorted, Find, Total;
    var b := Bucket(m, locate, buy, key);
    assert LevelIs(At(s, key), b);
    BucketBound(m, locate, buy, key);
  }

  // ---------- one side under add and reduce ----------

  lemma AddAgrees(s: seq<Level>, m: map<u64, Order>, r: u64, o: Order)
    requires SideAgrees(s, m, o.locate, IsBuy(o.side)) && r !in m && Room(s, KeyFor(IsBuy(o.side), o.price))
    ensures SideAgrees(Levels.Add(s, KeyFor(IsBuy(o.side), o.price), o.shares), m[r := o], o.locate, IsBuy(o.side))
  {
    hide Sorted, Has, Find, Total, Levels.Add, Room;
    var buy := IsBuy(o.side);
    var key := KeyFor(buy, o.price);
    AddAt(s, key, o.shares, key);
    RoomIsInTheBucket(s, m, o.locate, buy, key);
    forall k: u32
      ensures LevelIs(At(Levels.Add(s, key, o.shares), k), Bucket(m[r := o], o.locate, buy, k))
    {
      AddAt(s, key, o.shares, k);
      BucketSet(m, r, o, o.locate, buy, k);
      assert LevelIs(At(s, k), Bucket(m, o.locate, buy, k));
      if k == key { AddLevelIs(At(s, k), m, r, o, k); }
    }
  }

  lemma AddLevelIs(l: Option<Level>, m: map<u64, Order>, r: u64, o: Order, key: u32)
    requires r !in m && key == KeyFor(IsBuy(o.side), o.price)
    requires LevelIs(l, Bucket(m, o.locate, IsBuy(o.side), key))
    requires |Bucket(m, o.locate, IsBuy(o.side), key)| + 1 < TWO_32
    requires Total(Bucket(m, o.locate, IsBuy(o.side), key)) + TWO_32 - 1 < TWO_64
    ensures var b := Bucket(m, o.locate, IsBuy(o.side), key);
      LevelIs(match l
              case Some(x) => Some(Level(key, (x.qty + o.shares) % TWO_64, (x.orders + 1) % TWO_32))
              case None => Some(Level(key, o.shares, 1)), b[r := o.shares as nat])
  {
    var b := Bucket(m, o.locate, IsBuy(o.side), key);
    TotalInsert(b, r, o.shares as nat);
    assert r in b[r := o.shares as nat];
  }

  /** The order map after `r` lost `shares`, and left when `gone`. */
  ghost function Lighter(m: map<u64, Order>, r: u64, shares: u32, gone: bool): map<u64, Order>
    requires r in m && shares <= m[r].shares
  {
    if gone then m - {r} else m[r := m[r].(shares := m[r].shares - shares)]
  }

  lemma OtherBucketKept(m: map<u64, Order>, r: u64, shares: u32, gone: bool, locate: u16, buy: bool, key: u32)
    requires r in m && shares <= m[r].shares && !Rests(m[r], locate, buy, key)
    ensures Bucket(Lighter(m, r, shares, gone), locate, buy, key) == Bucket(m, locate, buy, key)
  {
  }

  lemma ReduceAgrees(s: seq<Level>, m: map<u64, Order>, r: u64, shares: u32, gone: bool)
    requires r in m && SideAgrees(s, m, m[r].locate, IsBuy(m[r].side))
    requires shares <= m[r].shares && (gone ==> shares == m[r].shares)
    ensures var o := m[r]; var buy := IsBuy(o.side); var key := KeyFor(buy, o.price);
      && SideAgrees(Levels.Reduce(s, key, shares, gone), Lighter(m, r, shares, gone), o.locate, buy)
      && Has(s, key) && Drains(s, key, shares, gone)
  {
    hide Sorted, Find, Less, Total, Levels.Reduce;
    var o := m[r];
    var buy := IsBuy(o.side);
    var key := KeyFor(buy, o.price);
    assert LevelIs(At(s, key), Bucket(m, o.locate, buy, key)) && r in Bucket(m, o.locate, buy, key);
    var l := s[Find(s, key)];
    ReduceLevelIs(l, m, r, shares, gone);
    ReduceAt(s, key, shares, gone, key);
    forall k: u32
      ensures LevelIs(At(Levels.Reduce(s, key, shares, gone), k), Bucket(Lighter(m, r, shares, gone), o.locate, buy, k))
    {
      ReduceAt(s, key, shares, gone, k);
      assert LevelIs(At(s, k), Bucket(m, o.locate, buy, k));
      if k != key { OtherBucketKept(m, r, shares, gone, o.locate, buy, k); }
    }
  }

  lemma LessExact(l: Level, shares: u32, gone: bool)
    requires shares <= l.qty && l.orders > 0
    ensures Less(l, shares, gone) == Level(l.key, l.qty - shares, l.orders - if gone then 1 else 0)
  {
  }

  lemma DropFacts(b: map<u64, nat>, r: u64)
    requires r in b
    ensures Total(b - {r}) == Total(b) - b[r] && |b - {r}| == |b| - 1
    ensures |b| == 1 ==> b - {r} == map[] && Total(b) == b[r]
    ensures |b| > 1 ==> b - {r} != map[]
  {
    TotalSplit(b, r);
    assert |b - {r}| == |b| - 1;
  }

  lemma SetFacts(b: map<u64, nat>, r: u64, v: nat)
    requires r in b && v <= b[r]
    ensures Total(b[r := v]) == Total(b) - (b[r] - v) && |b[r := v]| == |b| && b[r := v] != map[] && b[r] <= Total(b)
  {
    TotalUpdate(b, r, v);
    assert r in b[r := v];
    assert b[r := v].Keys == b.Keys;
  }

  lemma ReduceLevelIs(l: Level, m: map<u64, Order>, r: u64, shares: u32, gone: bool)
    requires r in m && shares <= m[r].shares && (gone ==> shares == m[r].shares)
    requires l.key == KeyFor(IsBuy(m[r].side), m[r].price)
    requires LevelIs(Some(l), Bucket(m, m[r].locate, IsBuy(m[r].side), l.key))
    ensures var x := Less(l, shares, gone);
      && LevelIs(if x.orders == 0 then None
        else Some(x), Bucket(Lighter(m, r, shares, gone), m[r].locate, IsBuy(m[r].side), l.key))
      && (x.orders == 0 ==> x.qty == 0)
  {
    hide Less, Total, Rests;
    var o := m[r];
    var buy := IsBuy(o.side);
    var b := Bucket(m, o.locate, buy, l.key);
    assert Rests(o, o.locate, buy, l.key) by { InItsBucket(o); }
    assert r in b && b[r] == o.shares;
    SetFacts(b, r, (o.shares - shares) as nat);
    DropFacts(b, r);
    LessExact(l, shares, gone);
    BucketDrop(m, r, o.locate, buy, l.key);
    InItsBucket(o.(shares := o.shares - shares));
    BucketSet(m, r, o.(shares := o.shares - shares), o.locate, buy, l.key);
  }

  lemma InItsBucket(o: Order)
    ensures Rests(o, o.locate, IsBuy(o.side), KeyFor(IsBuy(o.side), o.price))
  {
  }

  // ---------- the whole engine ----------

  lemma OrderAtOnePlace(o: Order, locate: u16, buy: bool, key: u32)
    ensures Rests(o, locate, buy, key) <==>
      o.locate == locate && IsBuy(o.side) == buy && key == KeyFor(IsBuy(o.side), o.price)
  {
  }

  lemma AddKeepsConsistent(e: Engine, locate: u16, ref: u64, side: u8, shares: u32, price: u32)
    requires Consistent(e) && ref !in e.orders && RoomFor(e, locate, side, price)
    ensures Consistent(AddOrder(e, locate, ref, side, shares, price).0)
  {
    hide Rests, Levels.Add, At, Room;
    var o := Order(ref, price, shares, locate, side);
    var f := AddOrder(e, locate, ref, side, shares, price).0;
    AddAgrees(SideOf(e.books[locate], IsBuy(side)), e.orders, ref, o);
    forall l: u16, buy: bool ensures SideAgrees(SideOf(f.books[l], buy), f.orders, l, buy) {
      assert SideAgrees(SideOf(e.books[l], buy), e.orders, l, buy);
      if l != locate || buy != IsBuy(side) {
        forall key: u32 ensures Bucket(f.orders, l, buy, key) == Bucket(e.orders, l, buy, key) {
          OrderAtOnePlace(o, l, buy, key);
          BucketSet(e.orders, ref, o, l, buy, key);
        }
      }
    }
  }

  /** An order that is live loses `shares`: the level is there, it drains exactly, and the books stay consistent. */
  lemma ApplyReduceKeepsConsistent(e: Engine, ref: u64, shares: u32, gone: bool)
    requires Consistent(e) && ref in e.orders
    requires shares <= e.orders[ref].shares && (gone ==> shares == e.orders[ref].shares)
    ensures var f := ApplyReduce(e, e.orders[ref], shares, gone).0;
      Consistent(f.(orders := Lighter(e.orders, ref, shares, gone))) && f.stats == e.stats && f.orders == e.orders
    ensures var o := e.orders[ref];
      Drains(SideOf(e.books[o.locate], IsBuy(o.side)), KeyFor(IsBuy(o.side), o.price), shares, gone)
  {
    hide Rests, Levels.Reduce, At, Drains;
    var o := e.orders[ref];
    var f := ApplyReduce(e, o, shares, gone).0;
    var m := Lighter(e.orders, ref, shares, gone);
    ReduceAgrees(SideOf(e.books[o.locate], IsBuy(o.side)), e.orders, ref, shares, gone);
    forall l: u16, buy: bool ensures SideAgrees(SideOf(f.books[l], buy), m, l, buy) {
      assert SideAgrees(SideOf(e.books[l], buy), e.orders, l, buy);
      if l != o.locate || buy != IsBuy(o.side) {
        forall key: u32 ensures Bucket(m, l, buy, key) == Bucket(e.orders, l, buy, key) {
          OrderAtOnePlace(o, l, buy, key);
          OtherBucketKept(e.orders, ref, shares, gone, l, buy, key);
        }
      }
    }
  }

  lemma ReduceKeepsConsistent(e: Engine, ref: u64, wanted: u32)
    requires Consistent(e)
    ensures var f := ReduceOrder(e, ref, wanted).0;
      Consistent(f) && f.stats.missingLevel == e.stats.missingLevel && |f.orders| <= |e.orders|
  {
    hide SideAgrees;
    if ref in e.orders {
      var o := e.orders[ref];
      var shares := if wanted > o.shares then o.shares else wanted;
      ApplyReduceKeepsConsistent(e, ref, shares, shares == o.shares);
    }
  }

  lemma RemoveKeepsConsistent(e: Engine, ref: u64)
    requires Consistent(e)
    ensures var f := RemoveOrder(e, ref).0;
      Consistent(f) && f.stats.missingLevel == e.stats.missingLevel
  {
    hide SideAgrees;
    if ref in e.orders { ApplyReduceKeepsConsistent(e, ref, e.orders[ref].shares, true); }
  }

  lemma ReplaceKeepsConsistent(e: Engine, oldRef: u64, newRef: u64, shares: u32, price: u32)
    requires Consistent(e) && Legal(e, Replace(oldRef, newRef, shares, price))
    ensures var f := ReplaceOrder(e, oldRef, newRef, shares, price).0;
      Consistent(f) && f.stats.missingLevel == e.stats.missingLevel
  {
    hide SideAgrees;
    if oldRef in e.orders {
      var o := e.orders[oldRef];
      var f := RemoveOrder(e, oldRef).0;
      RemoveKeepsConsistent(e, oldRef);
      AddKeepsConsistent(f, o.locate, newRef, o.side, shares, price);
    }
  }

  /** Every legal event keeps the levels the aggregation of the orders, and never misses a level. */
  lemma StepKeepsConsistent(e: Engine, ev: Event)
    requires Consistent(e) && Legal(e, ev)
    ensures var f := Apply(e, ev).0;
      Consistent(f) && f.stats.missingLevel == e.stats.missingLevel
  {
    hide SideAgrees;
    match ev
    case Add(locate, ref, side, shares, price) => AddKeepsConsistent(e, locate, ref, side, shares, price);
    case Reduce(ref, shares) => ReduceKeepsConsistent(e, ref, shares);
    case Remove(ref) => RemoveKeepsConsistent(e, ref);
    case Replace(oldRef, newRef, shares, price) => ReplaceKeepsConsistent(e, oldRef, newRef, shares, price);
  }

  lemma EmptyIsConsistent()
    ensures Consistent(Empty())
  {
  }

  lemma LegalPrefix(e: Engine, evs: seq<Event>)
    requires Shaped(e) && LegalRun(e, evs) && evs != []
    ensures LegalRun(e, evs[..|evs| - 1]) && Legal(Run(e, evs[..|evs| - 1]), evs[|evs| - 1])
  {
    hide Legal, Run;
    var n := |evs| - 1;
    forall i | 0 <= i < n ensures Legal(Run(e, evs[..n][..i]), evs[..n][i]) {
      assert evs[..n][..i] == evs[..i];
      assert Legal(Run(e, evs[..i]), evs[i]);
    }
  }

  /** In every state reachable from an empty engine the levels aggregate the live orders, and missing_level is 0. */
  lemma {:induction false} ReachableIsConsistent(evs: seq<Event>)
    requires LegalRun(Empty(), evs)
    ensures var e := Run(Empty(), evs);
      Consistent(e) && e.stats.missingLevel == 0
  {
    hide Consistent, Legal, LegalRun, Apply;
    EmptyIsConsistent();
    if evs != [] {
      var n := |evs| - 1;
      LegalPrefix(Empty(), evs);
      ReachableIsConsistent(evs[..n]);
      StepKeepsConsistent(Run(Empty(), evs[..n]), evs[n]);
    }
  }

  /** The drain assertion of reduce holds at every call that a reachable state can make. */
  lemma DrainNeverFails(evs: seq<Event>, ref: u64, shares: u32, gone: bool)
    requires LegalRun(Empty(), evs) && ref in Run(Empty(), evs).orders
    requires shares <= Run(Empty(), evs).orders[ref].shares && (gone ==> shares == Run(Empty(), evs).orders[ref].shares)
    ensures var e := Run(Empty(), evs); var o := e.orders[ref];
      Drains(SideOf(e.books[o.locate], IsBuy(o.side)), KeyFor(IsBuy(o.side), o.price), shares, gone)
  {
    ReachableIsConsistent(evs);
    ApplyReduceKeepsConsistent(Run(Empty(), evs), ref, shares, gone);
  }

  /**
   The exact limit of the fixed-width counters: the level of the new order is its aggregate if and only if its order
   counter had room.
   */
  lemma AddAggregatesIff(s: seq<Level>, m: map<u64, Order>, r: u64, o: Order)
    requires SideAgrees(s, m, o.locate, IsBuy(o.side)) && r !in m
    ensures var buy := IsBuy(o.side); var key := KeyFor(buy, o.price);
      LevelIs(At(Levels.Add(s, key, o.shares), key), Bucket(m[r := o], o.locate, buy, key)) <==> Room(s, key)
  {
    hide Sorted, Has, Find, Levels.Add, Total, Room;
    var buy := IsBuy(o.side);
    var key := KeyFor(buy, o.price);
    var b := Bucket(m, o.locate, buy, key);
    AddAt(s, key, o.shares, key);
    RoomIsInTheBucket(s, m, o.locate, buy, key);
    assert LevelIs(At(s, key), b);
    BucketSet(m, r, o, o.locate, buy, key);
    TotalInsert(b, r, o.shares as nat);
    EmptyTotal();
    assert r in b[r := o.shares as nat];
  }

  lemma ConsistentSays(e: Engine, locate: u16, buy: bool, key: u32)
    requires Shaped(e)
    ensures Consistent(e) ==> LevelIs(At(SideOf(e.books[locate], buy), key), Bucket(e.orders, locate, buy, key))
  {
    if Consistent(e) { assert SideAgrees(SideOf(e.books[locate], buy), e.orders, locate, buy); }
  }

  /** So the room that a legal add asks for is exactly what it needs. */
  lemma AddKeepsConsistentIff(e: Engine, locate: u16, ref: u64, side: u8, shares: u32, price: u32)
    requires Consistent(e) && ref !in e.orders
    ensures Consistent(AddOrder(e, locate, ref, side, shares, price).0) <==> RoomFor(e, locate, side, price)
  {
    hide Room, Levels.Add, LevelIs, Sorted, At, Bucket;
    var buy := IsBuy(side);
    var o := Order(ref, price, shares, locate, side);
    var f := AddOrder(e, locate, ref, side, shares, price).0;
    var key := KeyFor(buy, price);
    AddAggregatesIff(SideOf(e.books[locate], buy), e.orders, ref, o);
    if RoomFor(e, locate, side, price) {
      AddKeepsConsistent(e, locate, ref, side, shares, price);
    } else {
      ConsistentSays(f, locate, buy, key);
    }
  }

  /** And so is what a legal replace asks for. */
  lemma ReplaceKeepsConsistentIff(e: Engine, oldRef: u64, newRef: u64, shares: u32, price: u32)
    requires var ev := Replace(oldRef, newRef, shares, price); Consistent(e) && Fresh(e, ev)
    ensures Consistent(ReplaceOrder(e, oldRef, newRef, shares, price).0) <==>
      Legal(e, Replace(oldRef, newRef, shares, price))
  {
    hide Consistent, RoomFor, AddOrder, Books.ApplyReduce;
    ConsistentIsShaped(e);
    RemoveKeepsConsistent(e, oldRef);
    if oldRef in e.orders {
      var o := e.orders[oldRef];
      AddKeepsConsistentIff(RemoveOrder(e, oldRef).0, o.locate, newRef, o.side, shares, price);
    }
  }

  /** For any event with fresh references: the books stay consistent if and only if the level that it joins has room. */
  lemma StepKeepsConsistentIff(e: Engine, ev: Event)
    requires Consistent(e) && Fresh(e, ev)
    ensures Consistent(Apply(e, ev).0) <==> HasRoom(e, ev)
  {
    hide Consistent, RoomFor, AddOrder, ReduceOrder, RemoveOrder, ReplaceOrder;
    ConsistentIsShaped(e);
    match ev
    case Add(locate, ref, side, shares, price) => AddKeepsConsistentIff(e, locate, ref, side, shares, price);
    case Reduce(ref, shares) => ReduceKeepsConsistent(e, ref, shares);
    case Remove(ref) => RemoveKeepsConsistent(e, ref);
    case Replace(oldRef, newRef, shares, price) => ReplaceKeepsConsistentIff(e, oldRef, newRef, shares, price);
  }

  ghost predicate AlwaysConsistent(evs: seq<Event>) {
    forall i :: 0 <= i <= |evs| ==> Consistent(Run(Empty(), evs[..i]))
  }

  /** So over a whole run: the books are consistent all along if and only if each event finds room. */
  lemma RunIsConsistentIff(evs: seq<Event>)
    requires FreshRun(Empty(), evs)
    ensures AlwaysConsistent(evs) <==> LegalRun(Empty(), evs)
  {
    hide Consistent, Fresh, HasRoom, Run;
    if LegalRun(Empty(), evs) {
      forall i | 0 <= i <= |evs| ensures Consistent(Run(Empty(), evs[..i])) {
        forall j | 0 <= j < i
          ensures Legal(Run(Empty(), evs[..i][..j]), evs[..i][j]) { assert evs[..i][..j] == evs[..j]; }
        ReachableIsConsistent(evs[..i]);
      }
    }
    if AlwaysConsistent(evs) {
      forall i | 0 <= i < |evs| ensures Legal(Run(Empty(), evs[..i]), evs[i]) {
        RunStep(evs[..i + 1]);
        assert evs[..i + 1][..i] == evs[..i];
        StepKeepsConsistentIff(Run(Empty(), evs[..i]), evs[i]);
      }
    }
  }

  lemma FewOrdersHaveRoom(e: Engine, locate: u16, side: u8, price: u32)
    requires Consistent(e) && |e.orders| + 1 < TWO_32
    ensures RoomFor(e, locate, side, price)
  {
    hide Room, LevelIs;
    var s := SideOf(e.books[locate], IsBuy(side));
    assert SideAgrees(s, e.orders, locate, IsBuy(side));
    RoomIsInTheBucket(s, e.orders, locate, IsBuy(side), KeyFor(IsBuy(side), price));
    BucketBound(e.orders, locate, IsBuy(side), KeyFor(IsBuy(side), price));
  }

  // ---------- a run beyond the limit ----------

  /** Many one-share orders at one price. */
  function Crowd(n: nat): seq<Event>
    requires n <= TWO_64
  {
    seq(n, i requires 0 <= i < n => Add(1, i, BUY, 1, 100))
  }

  /** Their level counts them modulo 2^32. */
  lemma {:induction false} CrowdedLevel(n: nat)
    requires n < TWO_64
    ensures var e := Run(Empty(), Crowd(n));
      && e.books[1] == Book(if n == 0 then [] else [Level(100, n, n % TWO_32)], [])
      && |e.orders| == n && (forall r :: r in e.orders <==> 0 <= r < n)
  {
    hide Levels.Add, Run;
    RunStep(Crowd(n));
    if n > 0 {
      CrowdedLevel(n - 1);
      assert Crowd(n)[..n - 1] == Crowd(n - 1);
      var e := Run(Empty(), Crowd(n - 1));
      AddToOnlyLevel(e.books[1].bids, n - 1);
      assert n - 1 !in e.orders;
    }
  }

  lemma RunStep(evs: seq<Event>)
    ensures Run(Empty(), evs) == if evs == [] then Empty() else Apply(Run(Empty(), evs[..|evs| - 1]), evs[|evs| - 1]).0
  {
  }

  lemma AddToOnlyLevel(s: seq<Level>, n: nat)
    requires n + 1 < TWO_64 && s == if n == 0 then [] else [Level(100, n, n % TWO_32)]
    ensures Levels.Add(s, 100, 1) == [Level(100, n + 1, (n + 1) % TWO_32)]
  {
  }

  /**
   After 2^32 of them the level counts no order at all: up to the last one the run is legal, and then the books are
   wrong.
   */
  lemma CountWraps()
    ensures LegalRun(Empty(), Crowd(TWO_32 - 1))
    ensures var e := Run(Empty(), Crowd(TWO_32));
      |e.orders| == TWO_32 && e.books[1].bids == [Level(100, TWO_32, 0)] && !Consistent(e)
  {
    hide Run, Consistent;
    var evs := Crowd(TWO_32 - 1);
    forall i | 0 <= i < |evs| ensures Legal(Run(Empty(), evs[..i]), evs[i]) {
      assert evs[..i] == Crowd(i);
      CrowdedLevel(i);
    }
    CrowdedLevel(TWO_32);
    NoOrderAtWrappedLevel(Run(Empty(), Crowd(TWO_32)));
  }

  lemma NoOrderAtWrappedLevel(e: Engine)
    requires Shaped(e) && e.books[1].bids == [Level(100, TWO_32, 0)]
    ensures !Consistent(e)
  {
    var s := SideOf(e.books[1], true);
    AtLevel(s, 0);
    var b := Bucket(e.orders, 1, true, 100);
    assert |b| == 0 ==> b == map[];
    ConsistentSays(e, 1, true, 100);
  }

  // ---------- no order, no level ----------

  lemma NoOrdersNoLevels(s: seq<Level>, l: u16, buy: bool)
    requires SideAgrees(s, map[], l, buy)
    ensures s == []
  {
    forall key: u32 ensures At(s, key) == At([], key) {
      assert LevelIs(At(s, key), Bucket(map[], l, buy, key));
    }
    SideIsItsMap(s, []);
  }

  /** When no order is left, all books are empty, down to the last level. */
  lemma NoOrdersNoBooks(e: Engine)
    requires Consistent(e) && e.orders == map[]
    ensures e.books == Empty().books
  {
    hide Sorted;
    forall l: u16, buy: bool ensures SideOf(e.books[l], buy) == [] {
      assert SideAgrees(SideOf(e.books[l], buy), e.orders, l, buy);
      NoOrdersNoLevels(SideOf(e.books[l], buy), l, buy);
    }
    forall l: u16 ensures e.books[l] == Book([], []) {
      assert SideOf(e.books[l], true) == [] && SideOf(e.books[l], false) == [];
    }
  }

  // ---------- each live order supports at most one level ----------

  ghost function Supporters(s: seq<Level>, m: map<u64, Order>, locate: u16, buy: bool, n: nat): set<u64>
    requires n <= |s|
  {
    set r | r in m && exists i :: 0 <= i < n && Rests(m[r], locate, buy, s[i].key)
  }

  lemma NewSupporter(s: seq<Level>, m: map<u64, Order>, locate: u16, buy: bool, n: nat) returns (r: u64)
    requires SideAgrees(s, m, locate, buy) && n < |s|
    ensures r !in Supporters(s, m, locate, buy, n) && r in Supporters(s, m, locate, buy, n + 1)
  {
    hide Find, Total;
    var key := s[n].key;
    AtLevel(s, n);
    assert LevelIs(At(s, key), Bucket(m, locate, buy, key));
    r :| r in Bucket(m, locate, buy, key);
    assert Rests(m[r], locate, buy, s[n].key);
  }

  lemma SupportersGrow(s: seq<Level>, m: map<u64, Order>, locate: u16, buy: bool, n: nat)
    requires n < |s|
    ensures Supporters(s, m, locate, buy, n) <= Supporters(s, m, locate, buy, n + 1)
  {
  }

  lemma SupportersLive(s: seq<Level>, m: map<u64, Order>, locate: u16, buy: bool, n: nat)
    requires n <= |s|
    ensures |Supporters(s, m, locate, buy, n)| <= |m|
  {
    SubsetSize(Supporters(s, m, locate, buy, n), m.Keys);
  }

  lemma {:induction false} LevelsAtMostOrders(s: seq<Level>, m: map<u64, Order>, locate: u16, buy: bool, n: nat)
    requires SideAgrees(s, m, locate, buy) && n <= |s|
    ensures n <= |Supporters(s, m, locate, buy, n)| <= |m|
  {
    hide SideAgrees, Supporters;
    SupportersLive(s, m, locate, buy, n);
    if n > 0 {
      LevelsAtMostOrders(s, m, locate, buy, n - 1);
      var r := NewSupporter(s, m, locate, buy, n - 1);
      SupportersGrow(s, m, locate, buy, n - 1);
      OneLarger(Supporters(s, m, locate, buy, n - 1), Supporters(s, m, locate, buy, n), r);
    }
  }

  lemma OneLarger(a: set<u64>, b: set<u64>, r: u64)
    requires a <= b && r !in a && r in b
    ensures |a| + 1 <= |b|
  {
    SubsetSize(a + {r}, b);
  }
}
