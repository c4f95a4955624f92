/**
 The book in terms of the live orders alone: which orders are bids, what the best prices are, and what rests at each
 price (include/itch/order_book.hpp:129-160).
 */
module Quotes {
  import opened Machine
  import opened OrderTable
  import opened Levels
  import opened Books
  import opened Totals
  import opened Aggregation

  /** A live order of the book with side 'B'. */
  ghost predicate LiveBuy(m: map<u64, Order>, l: u16, r: u64) { r in m && m[r].locate == l && m[r].side == 66 }

  /** Any other side is a sell. */
  ghost predicate LiveSell(m: map<u64, Order>, l: u16, r: u64) { r in m && m[r].locate == l && m[r].side != 66 }

  /** The shares of the live buys at one price, order by order. */
  ghost function BuysAt(m: map<u64, Order>, l: u16, price: u32): map<u64, nat> {
    map r | r in m && m[r].locate == l && m[r].side == 66 && m[r].price == price :: m[r].shares as nat
  }

  ghost function SellsAt(m: map<u64, Order>, l: u16, price: u32): map<u64, nat> {
    map r | r in m && m[r].locate == l && m[r].side != 66 && m[r].price == price :: m[r].shares as nat
  }

  /** The highest price of a live buy, and the sum of the shares there; zeros when there is none. */
  ghost predicate BestBid(m: map<u64, Order>, l: u16, price: u32, qty: u64) {
    if exists r :: LiveBuy(m, l, r) then
      && (exists r :: LiveBuy(m, l, r) && m[r].price == price)
      && (forall r :: LiveBuy(m, l, r) ==> m[r].price <= price)
      && qty == Total(BuysAt(m, l, price))
    else price == 0 && qty == 0
  }

  /** The lowest price of a live sell, and the sum of the shares there; zeros when there is none. */
  ghost predicate BestAsk(m: map<u64, Order>, l: u16, price: u32, qty: u64) {
    if exists r :: LiveSell(m, l, r) then
      && (exists r :: LiveSell(m, l, r) && m[r].price == price)
      && (forall r :: LiveSell(m, l, r) ==> m[r].price >= price)
      && qty == Total(SellsAt(m, l, price))
    else price == 0 && qty == 0
  }

  lemma BucketsAreSides(m: map<u64, Order>, l: u16, price: u32)
    ensures Bucket(m, l, true, price) == BuysAt(m, l, price)
    ensures Bucket(m, l, false, TWO_32 - 1 - price) == SellsAt(m, l, price)
  {
  }

  /** What a book has at one price, of some orders' shares. */
  ghost predicate Depth(x: Option<Level>, b: map<u64, nat>) {
    match x
    case None => b == map[]
    case Some(l) => b != map[] && l.qty == Total(b) && l.orders == |b|
  }

  /** In a consistent engine a side shows, price by price, the sum and the number of the live orders there. */
  lemma DepthIsOrders(e: Engine, l: u16, price: u32)
    requires Consistent(e)
    ensures Depth(At(e.books[l].bids, price), BuysAt(e.orders, l, price))
    ensures Depth(At(e.books[l].asks, TWO_32 - 1 - price), SellsAt(e.orders, l, price))
  {
    hide Sorted, At, Total, Bucket;
    BucketsAreSides(e.orders, l, price);
    assert SideAgrees(SideOf(e.books[l], true), e.orders, l, true);
    assert SideAgrees(SideOf(e.books[l], false), e.orders, l, false);
    assert LevelIs(At(e.books[l].bids, price), Bucket(e.orders, l, true, price));
    assert LevelIs(At(e.books[l].asks, TWO_32 - 1 - price), Bucket(e.orders, l, false, TWO_32 - 1 - price));
  }

  /** The last level has the highest key of all. */
  lemma LastIsHighest(s: seq<Level>, key: u32)
    requires Sorted(s)
    ensures s == [] ==> At(s, key).None?
    ensures s != [] ==> At(s, s[|s| - 1].key) == Some(s[|s| - 1])
    ensures s != [] && At(s, key).Some? ==> key <= s[|s| - 1].key
  {
    FindExact(s, key);
    if s != [] { AtLevel(s, |s| - 1); }
  }

  lemma SidesAreSorted(e: Engine, l: u16)
    requires Consistent(e)
    ensures Sorted(e.books[l].bids) && Sorted(e.books[l].asks)
  {
    assert SideAgrees(SideOf(e.books[l], true), e.orders, l, true);
    assert SideAgrees(SideOf(e.books[l], false), e.orders, l, false);
  }

  lemma BidIsBest(e: Engine, l: u16)
    requires Consistent(e)
    ensures BestBid(e.orders, l, TopOf(e.books[l]).bidPrice, TopOf(e.books[l]).bidQty)
  {
    hide Sorted, At, Total, Consistent;
    ConsistentIsShaped(e);
    SidesAreSorted(e, l);
    var s := e.books[l].bids;
    forall r | LiveBuy(e.orders, l, r) ensures s != [] && e.orders[r].price <= s[|s| - 1].key {
      DepthIsOrders(e, l, e.orders[r].price);
      LastIsHighest(s, e.orders[r].price);
      assert r in BuysAt(e.orders, l, e.orders[r].price);
    }
    if s != [] {
      var price := s[|s| - 1].key;
      DepthIsOrders(e, l, price);
      LastIsHighest(s, price);
      var r :| r in BuysAt(e.orders, l, price);
      assert LiveBuy(e.orders, l, r) && e.orders[r].price == price;
    }
  }

  lemma AskIsBest(e: Engine, l: u16)
    requires Consistent(e)
    ensures BestAsk(e.orders, l, TopOf(e.books[l]).askPrice, TopOf(e.books[l]).askQty)
  {
    hide Sorted, At, Total, Consistent;
    ConsistentIsShaped(e);
    SidesAreSorted(e, l);
    var s := e.books[l].asks;
    forall r | LiveSell(e.orders, l, r) ensures s != [] && TWO_32 - 1 - e.orders[r].price <= s[|s| - 1].key {
      DepthIsOrders(e, l, e.orders[r].price);
      LastIsHighest(s, TWO_32 - 1 - e.orders[r].price);
      assert r in SellsAt(e.orders, l, e.orders[r].price);
    }
    if s != [] {
      var price: u32 := TWO_32 - 1 - s[|s| - 1].key;
      DepthIsOrders(e, l, price);
      LastIsHighest(s, s[|s| - 1].key);
      var r :| r in SellsAt(e.orders, l, price);
      assert LiveSell(e.orders, l, r) && e.orders[r].price == price;
    }
  }

  /** The top of every book is the best bid and the best ask among its live orders. */
  lemma TopIsBest(e: Engine, l: u16)
    requires Consistent(e)
    ensures var t := TopOf(e.books[l]);
      BestBid(e.orders, l, t.bidPrice, t.bidQty) && BestAsk(e.orders, l, t.askPrice, t.askQty)
  {
    BidIsBest(e, l);
    AskIsBest(e, l);
  }

  /** A book is crossed if and only if some live buy is priced at or above some live sell. */
  lemma CrossedIff(e: Engine, l: u16)
    requires Consistent(e)
    ensures Crossed(e.books[l]) <==>
      exists r, q :: LiveBuy(e.orders, l, r) && LiveSell(e.orders, l, q) && e.orders[r].price >= e.orders[q].price
  {
    hide Total, Consistent;
    ConsistentIsShaped(e);
    TopIsBest(e, l);
    SideHasOrders(e, l);
    var t := TopOf(e.books[l]);
    if Crossed(e.books[l]) {
      var r :| LiveBuy(e.orders, l, r) && e.orders[r].price == t.bidPrice;
      var q :| LiveSell(e.orders, l, q) && e.orders[q].price == t.askPrice;
    }
  }

  lemma SideHasOrders(e: Engine, l: u16)
    requires Consistent(e)
    ensures e.books[l].bids != [] <==> exists r :: LiveBuy(e.orders, l, r)
    ensures e.books[l].asks != [] <==> exists r :: LiveSell(e.orders, l, r)
  {
    hide Sorted, At, Total, Consistent;
    ConsistentIsShaped(e);
    SidesAreSorted(e, l);
    var s, t := e.books[l].bids, e.books[l].asks;
    forall r | LiveBuy(e.orders, l, r) ensures s != [] {
      DepthIsOrders(e, l, e.orders[r].price);
      LastIsHighest(s, e.orders[r].price);
      assert r in BuysAt(e.orders, l, e.orders[r].price);
    }
    forall r | LiveSell(e.orders, l, r) ensures t != [] {
      DepthIsOrders(e, l, e.orders[r].price);
      LastIsHighest(t, TWO_32 - 1 - e.orders[r].price);
      assert r in SellsAt(e.orders, l, e.orders[r].price);
    }
    if s != [] {
      DepthIsOrders(e, l, s[|s| - 1].key);
      LastIsHighest(s, s[|s| - 1].key);
      var r :| r in BuysAt(e.orders, l, s[|s| - 1].key);
      assert LiveBuy(e.orders, l, r);
    }
    if t != [] {
      var price: u32 := TWO_32 - 1 - t[|t| - 1].key;
      DepthIsOrders(e, l, price);
      LastIsHighest(t, t[|t| - 1].key);
      var r :| r in SellsAt(e.orders, l, price);
      assert LiveSell(e.orders, l, r);
    }
  }
}
