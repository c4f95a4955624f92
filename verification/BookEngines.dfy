/** The order-book engine over its mutable parts (include/itch/order_book.hpp:138-281). */
module BookEngines {
  import opened Machine
  import opened Group
  import opened OrderTable
  import OM = OrderMaps
  import opened Levels
  import opened LevelSearch
  import LS = LevelSides
  import opened Books
  import opened Aggregation

  /** The order fits into the map, and its level into the 32-bit capacity of the side. */
  ghost predicate Holds(e: Engine, locate: u16, side: u8, price: u32) {
    && Shaped(e) && |e.orders| < OM.LIMIT
    && LS.CanTake(SideOf(e.books[locate], IsBuy(side)), KeyFor(IsBuy(side), price))
  }

  /** What the event stores can be stored; only adds, and replaces once the old order is out, store anything. */
  ghost predicate Storable(e: Engine, ev: Event) {
    match ev
    case Add(locate, _, side, _, price) => Holds(e, locate, side, price)
    case Replace(oldRef, _, _, price) =>
      Shaped(e) &&
      (oldRef in e.orders ==> Holds(RemoveOrder(e, oldRef).0, e.orders[oldRef].locate, e.orders[oldRef].side, price))
    case _ => true
  }

  /** It always can with fewer than 2^31 orders alive, because a side has no more levels than there are orders. */
  lemma FewOrdersAreStorable(e: Engine, ev: Event)
    requires Consistent(e) && |e.orders| < LS.MAX_LEVELS
    ensures Storable(e, ev)
  {
    hide Consistent, SideAgrees, LevelIs, Levels.Reduce;
    match ev
    case Add(locate, _, side, _, price) => FewOrdersHold(e, locate, side, price);
    case Replace(oldRef, _, _, price) =>
      ConsistentIsShaped(e);
      if oldRef in e.orders {
        RemoveKeepsConsistent(e, oldRef);
        FewOrdersHold(RemoveOrder(e, oldRef).0, e.orders[oldRef].locate, e.orders[oldRef].side, price);
      }
    case _ =>
  }

  lemma FewOrdersHold(e: Engine, locate: u16, side: u8, price: u32)
    requires Consistent(e) && |e.orders| < LS.MAX_LEVELS
    ensures Holds(e, locate, side, price)
  {
    var s := SideOf(e.books[locate], IsBuy(side));
    assert SideAgrees(s, e.orders, locate, IsBuy(side));
    LevelsAtMostOrders(s, e.orders, locate, IsBuy(side), |s|);
  }

  class OrderBook {
    const bids: LS.LevelSide
    const asks: LS.LevelSide

    constructor (isa: Isa, chunks: nat)
      ensures bids.Valid() && asks.Valid() && bids.levels == [] && asks.levels == []
      ensures fresh(bids.Footprint()) && fresh(asks.Footprint()) && bids.Footprint() !! asks.Footprint()
    {
      bids := new LS.LevelSide(isa, chunks);
      asks := new LS.LevelSide(isa, chunks);
    }

    function Side(buy: bool): LS.LevelSide { if buy then bids else asks }

    method Top() returns (t: Top)
      requires bids.Valid() && asks.Valid()
      ensures t == TopOf(Book(bids.levels, asks.levels))
    {
      hide Sorted;
      t := Books.Top(0, 0, 0, 0);
      if bids.size > 0 {
        var key, qty := bids.Best();
        t := t.(bidPrice := key, bidQty := qty);
      }
      if asks.size > 0 {
        var key, qty := asks.Best();
        t := t.(askPrice := TWO_32 - 1 - key, askQty := qty);
      }
    }

    /** Locked or crossed. */
    method IsCrossed() returns (c: bool)
      requires bids.Valid() && asks.Valid()
      ensures c == Crossed(Book(bids.levels, asks.levels))
    {
      hide Sorted;
      if bids.size == 0 || asks.size == 0 { return false; }
      var bid, bidQty := bids.Best();
      var ask, askQty := asks.Best();
      c := bid >= TWO_32 - 1 - ask;
    }
  }

  /** The sides of these books are valid and share nothing. */
  ghost predicate Apart(bs: seq<OrderBook>, owned: set<object>)
    reads owned
  {
    && (forall i, buy: bool :: 0 <= i < |bs| ==> bs[i].Side(buy) in owned && bs[i].Side(buy).Footprint() <= owned)
    && (forall i, buy: bool, j, sell: bool ::
          0 <= i < |bs| && 0 <= j < |bs| && (i != j || buy != sell) ==>
            bs[i].Side(buy).Footprint() !! bs[j].Side(sell).Footprint())
  }

  ghost predicate AllEmpty(bs: seq<OrderBook>, owned: set<object>)
    requires Apart(bs, owned)
    reads owned
  {
    forall i, buy: bool :: 0 <= i < |bs| ==> bs[i].Side(buy).Valid() && bs[i].Side(buy).levels == []
  }

  lemma ApartGrows(bs: seq<OrderBook>, owned: set<object>, more: set<object>)
    requires Apart(bs, owned) && AllEmpty(bs, owned) && owned <= more
    ensures Apart(bs, more) && AllEmpty(bs, more)
  {
    hide LS.LevelSide.Valid;
  }

  method MakeBook(bs: seq<OrderBook>, ghost owned: set<object>, isa: Isa, chunks: nat)
    returns (more: seq<OrderBook>, ghost all: set<object>)
    requires Apart(bs, owned) && AllEmpty(bs, owned)
    ensures Apart(more, all) && AllEmpty(more, all)
    ensures |more| == |bs| + 1 && owned <= all && fresh(all - owned)
  {
    var b := new OrderBook(isa, chunks);
    all := owned + b.bids.Footprint() + b.asks.Footprint();
    more := bs + [b];
    forall i, buy: bool | 0 <= i < |more| ensures more[i].Side(buy).Footprint() <= all {
      if i == |bs| { assert more[i] == b; } else { assert more[i] == bs[i]; }
    }
    forall i, buy: bool, j, sell: bool | 0 <= i < |more| && 0 <= j < |more| && (i != j || buy != sell)
      ensures more[i].Side(buy).Footprint() !! more[j].Side(sell).Footprint()
    {
      assert i < |bs| ==> more[i] == bs[i] && bs[i].Side(buy).Footprint() <= owned;
      assert j < |bs| ==> more[j] == bs[j] && bs[j].Side(sell).Footprint() <= owned;
    }
  }

  method MakeBooks(n: nat, isa: Isa, chunks: nat) returns (bs: seq<OrderBook>, ghost owned: set<object>)
    ensures |bs| == n && Apart(bs, owned) && AllEmpty(bs, owned) && fresh(owned)
  {
    bs, owned := [], {};
    for i := 0 to n
      invariant |bs| == i && fresh(owned) && Apart(bs, owned) && AllEmpty(bs, owned)
    {
      bs, owned := MakeBook(bs, owned, isa, chunks);
    }
  }

  class BookEngine {
    const orders: OM.OrderMap
    const books: seq<OrderBook>
    var stats: Stats
    ghost var Repr: set<object>

    function Side(l: u16, buy: bool): LS.LevelSide
      requires |books| == MAX_LOCATE
    {
      books[l].Side(buy)
    }

    /** The engine owns its map and its sides, and no two of them share an object. */
    ghost predicate Owned()
      reads this, Repr
    {
      && |books| == MAX_LOCATE
      && {this, orders} <= Repr && {orders.ctrl, orders.slots} <= Repr
      && (var own: set<object> := {this, orders}; var tables: set<object> := {orders.ctrl, orders.slots}; own !! tables)
      && Apart(books, Repr)
      && forall l: u16, buy: bool :: Side(l, buy).Footprint() !! {this, orders} + {orders.ctrl} + {orders.slots}
    }

    ghost predicate Valid()
      reads this, Repr
    {
      && Owned()
      && orders.Valid()
      && forall l: u16, buy: bool :: Side(l, buy).Valid()
    }

    ghost function BookAt(l: u16): Book
      requires Owned()
      reads this, Repr
    {
      Book(Side(l, true).levels, Side(l, false).levels)
    }

    /** The engine as a value. */
    ghost function View(): Engine
      requires Valid()
      reads this, Repr
    {
      Engine(orders.Orders(),
        seq(MAX_LOCATE, l requires 0 <= l < MAX_LOCATE reads this, Repr requires Owned() => BookAt(l)), stats)
    }

    constructor (kernel: Kernel, expected: nat, isa: Isa, chunks: nat)
      requires expected < OM.LIMIT
      ensures Valid() && fresh(Repr) && View() == Empty()
    {
      hide View, Apart, OM.OrderMap.Valid, OM.OrderMap.Orders, LS.LevelSide.Valid, Empty;
      EmptyIs();
      var table := new OM.OrderMap(kernel, expected);
      ghost var tableRepr: set<object> := {table, table.ctrl, table.slots};
      var bs, owned := MakeBooks(MAX_LOCATE, isa, chunks);
      orders := table;
      books := bs;
      stats := Stats(0, 0, 0);
      Repr := owned + tableRepr + {this};
      new;
      ApartGrows(books, owned, Repr);
      ViewOf(Empty());
    }

    static lemma EmptyIs()
      ensures |Empty().books| == MAX_LOCATE && forall m: u16 :: Empty().books[m] == Book([], [])
      ensures Empty().orders == map[] && Empty().stats == Stats(0, 0, 0)
    {
    }

    // ---------- framing ----------

    lemma ViewOf(e: Engine)
      requires Valid() && |e.books| == MAX_LOCATE
      requires e.orders == orders.Orders() && e.stats == stats
      requires forall m: u16 :: e.books[m] == Book(Side(m, true).levels, Side(m, false).levels)
      ensures View() == e
    {
      hide OM.OrderMap.Valid, OM.OrderMap.Orders, LS.LevelSide.Valid;
      assert View().books == e.books;
    }

    lemma ViewFacts()
      requires Valid()
      ensures this in Repr && orders.capacity == orders.ctrl.Length == orders.slots.Length
      ensures Shaped(View()) && View().orders == orders.Orders() && View().stats == stats
      ensures forall m: u16, sell: bool :: SideOf(View().books[m], sell) == Side(m, sell).levels
    {
      hide OM.OrderMap.Valid, OM.OrderMap.Orders, LS.LevelSide.Valid;
      orders.Lengths();
    }

    lemma SideFacts(l: u16, buy: bool)
      requires Valid()
      ensures |books| == MAX_LOCATE && this in Repr
      ensures Side(l, buy).Valid() && Side(l, buy).Footprint() <= Repr && this !in Side(l, buy).Footprint()
    {
      assert Side(l, buy).Footprint() !! {this, orders} + {orders.ctrl} + {orders.slots};
    }

    lemma MapFacts()
      requires Valid()
      ensures orders.Valid() && {this, orders} + {orders.ctrl} + {orders.slots} <= Repr
      ensures this !in {orders as object} + {orders.ctrl} + {orders.slots}
    {
    }

    /** Whatever one side does to itself, with old or with new arrays, leaves the rest of the engine standing. */
    twostate lemma SideStep(at: (u16, bool))
      requires old(Valid()) && Side(at.0, at.1).Valid()
      requires unchanged(old(Repr) - {this} - old(Side(at.0, at.1).Footprint()))
      requires fresh(Side(at.0, at.1).Footprint() - old(Side(at.0, at.1).Footprint()))
      requires Repr == old(Repr) + Side(at.0, at.1).Footprint()
      ensures Valid() && orders.Orders() == old(orders.Orders())
      ensures forall m: u16, sell: bool :: at != (m, sell) ==> Side(m, sell).levels == old(Side(m, sell).levels)
    {
      hide OM.OrderMap.Valid, OM.OrderMap.Orders, LS.LevelSide.Valid;
      forall m: u16, sell: bool | at != (m, sell)
        ensures Side(m, sell).Footprint() == old(Side(m, sell).Footprint())
        ensures Side(m, sell).Valid() && Side(m, sell).levels == old(Side(m, sell).levels)
      {
        assert old(Side(m, sell).Footprint() !! Side(at.0, at.1).Footprint());
      }
    }

    /** The same for the order map. */
    twostate lemma MapStep()
      requires old(Valid()) && orders.Valid()
      requires unchanged(old(Repr) - {this, orders} - {old(orders.ctrl)} - {old(orders.slots)})
      requires orders.ctrl == old(orders.ctrl) || fresh(orders.ctrl)
      requires orders.slots == old(orders.slots) || fresh(orders.slots)
      requires Repr == old(Repr) + {orders.ctrl} + {orders.slots}
      ensures Valid()
      ensures forall m: u16, sell: bool :: Side(m, sell).levels == old(Side(m, sell).levels)
    {
      hide OM.OrderMap.Valid, OM.OrderMap.Orders, LS.LevelSide.Valid;
      forall m: u16, sell: bool
        ensures Side(m, sell).Footprint() == old(Side(m, sell).Footprint())
        ensures Side(m, sell).Valid() && Side(m, sell).levels == old(Side(m, sell).levels)
      {
        assert old(Side(m, sell).Footprint() !! {this, orders} + {orders.ctrl} + {orders.slots});
      }
    }

    // ---------- one side of one book ----------

    method AddToSide(l: u16, buy: bool, key: u32, shares: u32) returns (top: bool)
      requires Valid() && LS.CanTake(Side(l, buy).levels, key)
      modifies Repr
      ensures Valid() && fresh(Repr - old(Repr))
      ensures stats == old(stats) && orders.Orders() == old(orders.Orders())
      ensures Side(l, buy).levels == Levels.Add(old(Side(l, buy).levels), key, shares)
      ensures forall m: u16, sell: bool :: l != m || buy != sell ==> Side(m, sell).levels == old(Side(m, sell).levels)
      ensures top == AddTouchesTop(old(Side(l, buy).levels), key)
    {
      hide Valid, OM.OrderMap.Valid, OM.OrderMap.Orders, LS.LevelSide.Valid, Levels.Add, AddTouchesTop;
      SideFacts(l, buy);
      var s := Side(l, buy);
      top := s.Add(key, shares);
      Repr := Repr + s.Footprint();
      SideStep((l, buy));
    }

    method ReduceSide(l: u16, buy: bool, key: u32, shares: u32, gone: bool) returns (r: Reduced)
      requires Valid()
      modifies Repr
      ensures Valid() && Repr == old(Repr)
      ensures stats == old(stats) && orders.Orders() == old(orders.Orders())
      ensures Side(l, buy).levels == Levels.Reduce(old(Side(l, buy).levels), key, shares, gone)
      ensures forall m: u16, sell: bool :: l != m || buy != sell ==> Side(m, sell).levels == old(Side(m, sell).levels)
      ensures r == ReduceResult(old(Side(l, buy).levels), key)
      ensures orders.ctrl == old(orders.ctrl) && orders.slots == old(orders.slots)
        && orders.slots[..] == old(orders.slots[..])
      ensures orders.ctrl[..] == old(orders.ctrl[..]) && orders.capacity == old(orders.capacity)
    {
      hide OM.OrderMap.Valid, OM.OrderMap.Orders, LS.LevelSide.Valid, Levels.Reduce, ReduceResult;
      r := Side(l, buy).Reduce(key, shares, gone);
    }

    /** Allocates level storage ahead of the first order (called on Stock Directory). */
    method Prepare(l: u16)
      requires Valid()
      modifies Repr
      ensures Valid() && fresh(Repr - old(Repr)) && View() == old(View())
      ensures Side(l, true).cap > 0 && Side(l, false).cap > 0
    {
      hide OM.OrderMap.Valid, OM.OrderMap.Orders, LS.LevelSide.Valid;
      PrepareSide(l, true);
      PrepareSide(l, false);
    }

    method PrepareSide(l: u16, buy: bool)
      requires Valid()
      modifies Repr
      ensures Valid() && fresh(Repr - old(Repr))
      ensures stats == old(stats) && orders.Orders() == old(orders.Orders())
      ensures forall m: u16, sell: bool :: Side(m, sell).levels == old(Side(m, sell).levels)
      ensures Side(l, buy).cap > 0 && forall m: u16, sell: bool :: Side(m, sell).cap >= old(Side(m, sell).cap)
    {
      hide Valid, OM.OrderMap.Valid, OM.OrderMap.Orders, LS.LevelSide.Valid;
      SideFacts(l, buy);
      var s := Side(l, buy);
      s.ReserveInitial();
      Repr := Repr + s.Footprint();
      SideStep((l, buy));
    }

    // ---------- the order map ----------

    method StoreOrder(o: Order)
      requires Valid() && o.ref !in orders.Orders() && orders.size < OM.LIMIT
      modifies Repr
      ensures Valid() && fresh(Repr - old(Repr)) && stats == old(stats)
      ensures orders.Orders() == old(orders.Orders())[o.ref := o]
      ensures forall m: u16, sell: bool :: Side(m, sell).levels == old(Side(m, sell).levels)
    {
      hide Valid, OM.OrderMap.Valid, OM.OrderMap.Orders, LS.LevelSide.Valid;
      MapFacts();
      var slot := orders.Insert(o.ref);
      orders.Write(slot, o);
      Repr := Repr + {orders.ctrl} + {orders.slots};
      MapStep();
    }

    method DropOrder(slot: nat)
      requires Valid() && slot < orders.capacity <= orders.ctrl.Length && orders.capacity <= orders.slots.Length
        && Full(orders.ctrl[slot])
      modifies Repr
      ensures Valid() && Repr == old(Repr)
      ensures View() == old(View()).(orders := old(View().orders) - {old(orders.slots[slot].ref)})
    {
      hide Valid, Owned, View, OM.OrderMap.Valid, OM.OrderMap.Orders, LS.LevelSide.Valid;
      ghost var e := View();
      ViewFacts();
      MapFacts();
      orders.Erase(slot);
      MapStep();
      ViewOf(e.(orders := e.orders - {old(orders.slots[slot].ref)}));
    }

    method SetOrder(slot: nat, o: Order)
      requires Valid() && slot < orders.capacity <= orders.ctrl.Length && orders.capacity <= orders.slots.Length
        && Full(orders.ctrl[slot])
      requires orders.slots[slot].ref == o.ref
      modifies Repr
      ensures Valid() && Repr == old(Repr)
      ensures View() == old(View()).(orders := old(View().orders)[o.ref := o])
      ensures orders.ctrl == old(orders.ctrl) && orders.slots == old(orders.slots)
        && orders.capacity == old(orders.capacity)
      ensures orders.ctrl[..] == old(orders.ctrl[..]) && orders.slots[slot] == o
    {
      hide Valid, Owned, View, OM.OrderMap.Valid, OM.OrderMap.Orders, LS.LevelSide.Valid;
      ghost var e := View();
      ViewFacts();
      MapFacts();
      orders.Write(slot, o);
      MapStep();
      ViewOf(e.(orders := e.orders[o.ref := o]));
    }

    // ---------- what a sink reads ----------

    method TopAt(l: u16) returns (t: Top, crossed: bool)
      requires Valid()
      ensures t == TopOf(View().books[l]) && crossed == Crossed(View().books[l])
    {
      hide View, TopOf, Crossed, LS.LevelSide.Valid, OM.OrderMap.Valid, OM.OrderMap.Orders;
      ViewFacts();
      SideFacts(l, true);
      SideFacts(l, false);
      t := books[l].Top();
      crossed := books[l].IsCrossed();
      assert View().books[l] == Book(SideOf(View().books[l], true), SideOf(View().books[l], false));
    }

    method LiveOrders() returns (n: nat)
      requires Valid()
      ensures n == |View().orders|
    {
      hide View, LS.LevelSide.Valid, OM.OrderMap.Valid, OM.OrderMap.Orders;
      ViewFacts();
      orders.SizeIsLive();
      n := orders.size;
    }

    // ---------- the operations ----------

    method Add(locate: u16, ref: u64, side: u8, shares: u32, price: u32) returns (u: Update)
      requires Valid() && ref !in View().orders && Storable(View(), Books.Add(locate, ref, side, shares, price))
      modifies Repr
      ensures Valid() && fresh(Repr - old(Repr))
      ensures (View(), u) == AddOrder(old(View()), locate, ref, side, shares, price)
    {
      hide Valid, Owned, View, LS.CanTake;
      ghost var e := View();
      var buy := IsBuy(side);
      ViewFacts();
      MapFacts();
      orders.SizeIsLive();
      StoreOrder(Order(ref, price, shares, locate, side));
      var top := AddToSide(locate, buy, KeyFor(buy, price), shares);
      u := Update(price, locate, side, top);
      ViewOf(AddOrder(e, locate, ref, side, shares, price).0);
    }

    method ApplyReduce(o: Order, shares: u32, gone: bool) returns (u: Update)
      requires Valid()
      modifies Repr
      ensures Valid() && Repr == old(Repr)
      ensures (View(), u) == Books.ApplyReduce(old(View()), o, shares, gone)
      ensures orders.ctrl == old(orders.ctrl) && orders.slots == old(orders.slots)
        && orders.capacity == old(orders.capacity)
      ensures orders.ctrl[..] == old(orders.ctrl[..]) && orders.slots[..] == old(orders.slots[..])
    {
      hide Owned, View, Levels.Reduce, OM.OrderMap.Valid, OM.OrderMap.Orders, LS.LevelSide.Valid;
      ghost var e := View();
      ViewFacts();
      var buy := IsBuy(o.side);
      var r := ReduceSide(o.locate, buy, KeyFor(buy, o.price), shares, gone);
      if r == MissingLevel { SetStats(stats.(missingLevel := stats.missingLevel + 1)); }
      u := Update(o.price, o.locate, o.side, r == TopChanged);
      ViewOf(Books.ApplyReduce(e, o, shares, gone).0);
    }

    lemma ReduceIgnoresOrders(e: Engine, m: map<u64, Order>, o: Order, shares: u32, gone: bool)
      requires Shaped(e)
      ensures Books.ApplyReduce(e.(orders := m), o, shares, gone).0 ==
        Books.ApplyReduce(e, o, shares, gone).0.(orders := m)
      ensures Books.ApplyReduce(e.(orders := m), o, shares, gone).1 == Books.ApplyReduce(e, o, shares, gone).1
    {
    }

    method SetStats(s: Stats)
      requires Valid()
      modifies this`stats
      ensures Valid() && stats == s && orders.Orders() == old(orders.Orders())
      ensures View() == old(View()).(stats := s)
      ensures forall m: u16, sell: bool :: Side(m, sell).levels == old(Side(m, sell).levels)
    {
      hide OM.OrderMap.Valid, OM.OrderMap.Orders, LS.LevelSide.Valid;
      stats := s;
    }

    /** Executions and cancels: clamp, shrink the order, shrink its level, drop the order when nothing is left. */
    method Reduce(ref: u64, wanted: u32) returns (u: Update)
      requires Valid()
      modifies Repr
      ensures Valid() && Repr == old(Repr)
      ensures (View(), u) == ReduceOrder(old(View()), ref, wanted)
    {
      hide Owned, View, Books.ApplyReduce, OM.OrderMap.Valid, OM.OrderMap.Orders, LS.LevelSide.Valid;
      ghost var e := View();
      ViewFacts();
      var found := orders.Find(ref);
      if found.None? {
        SetStats(stats.(unknownRef := stats.unknownRef + 1));
        return Unknown;
      }
      var slot, o := found.value, orders.slots[found.value];
      var shares := wanted;
      if shares > o.shares {
        SetStats(stats.(overfill := stats.overfill + 1));
        shares := o.shares;
      }
      if shares == 0 { return Update(o.price, o.locate, o.side, false); }
      ghost var f := View();
      var left := o.(shares := o.shares - shares);
      SetOrder(slot, left);
      var gone := left.shares == 0;
      ReduceIgnoresOrders(f, View().orders, left, shares, gone);
      u := ApplyReduce(left, shares, gone);
      if gone { DropOrder(slot); }
      assert e.orders[ref := left] - {ref} == e.orders - {ref};
    }

    method Remove(ref: u64) returns (u: Update)
      requires Valid()
      modifies Repr
      ensures Valid() && Repr == old(Repr)
      ensures (View(), u) == RemoveOrder(old(View()), ref)
    {
      hide Owned, View, Books.ApplyReduce, OM.OrderMap.Valid, OM.OrderMap.Orders, LS.LevelSide.Valid;
      ghost var e := View();
      ViewFacts();
      var found := orders.Find(ref);
      if found.None? {
        SetStats(stats.(unknownRef := stats.unknownRef + 1));
        return Unknown;
      }
      var o := orders.slots[found.value];
      ReduceIgnoresOrders(e, e.orders, o, o.shares, true);
      u := ApplyReduce(o, o.shares, true);
      DropOrder(found.value);
    }

    /** The new order keeps side and locate of the old one. */
    method Replace(oldRef: u64, newRef: u64, shares: u32, price: u32) returns (u: Update)
      requires Valid() && (oldRef in View().orders ==> newRef !in View().orders || newRef == oldRef)
      requires Storable(View(), Books.Replace(oldRef, newRef, shares, price))
      modifies Repr
      ensures Valid() && fresh(Repr - old(Repr))
      ensures (View(), u) == ReplaceOrder(old(View()), oldRef, newRef, shares, price)
    {
      hide Owned, View, LS.CanTake, Books.ApplyReduce, AddOrder, OM.OrderMap.Valid, OM.OrderMap.Orders;
      hide LS.LevelSide.Valid;
      ghost var e := View();
      ViewFacts();
      var found := orders.Find(oldRef);
      if found.None? {
        SetStats(stats.(unknownRef := stats.unknownRef + 1));
        return Unknown;
      }
      var o := orders.slots[found.value];
      ReduceIgnoresOrders(e, e.orders, o, o.shares, true);
      var removed := ApplyReduce(o, o.shares, true);
      DropOrder(found.value);
      u := Add(o.locate, newRef, o.side, shares, price);
      u := u.(topChanged := u.topChanged || removed.topChanged);
    }
  }
}
