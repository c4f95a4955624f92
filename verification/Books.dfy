/** The order-book engine as a value and a step function (include/itch/order_book.hpp:129-275). */
module Books {
  import opened Machine
  import opened OrderTable
  import opened Levels

  const MAX_LOCATE := 65536
  const BUY: u8 := 66

  datatype Book = Book(bids: seq<Level>, asks: seq<Level>)

  datatype Top = Top(bidPrice: u32, askPrice: u32, bidQty: u64, askQty: u64)

  datatype Stats = Stats(unknownRef: nat, missingLevel: nat, overfill: nat)

  datatype Engine = Engine(orders: map<u64, Order>, books: seq<Book>, stats: Stats)

  datatype Update = Unknown | Update(price: u32, locate: u16, side: u8, topChanged: bool)

  datatype Event =
    | Add(locate: u16, ref: u64, side: u8, shares: u32, price: u32)
    | Reduce(ref: u64, shares: u32)
    | Remove(ref: u64)
    | Replace(oldRef: u64, newRef: u64, shares: u32, price: u32)

  predicate IsBuy(side: u8) { side == BUY }

  /** Higher key means better price on both sides. */
  function KeyFor(buy: bool, price: u32): u32 { if buy then price else TWO_32 - 1 - price }

  function SideOf(b: Book, buy: bool): seq<Level> { if buy then b.bids else b.asks }

  function WithSide(b: Book, buy: bool, s: seq<Level>): Book {
    if buy then b.(bids := s) else b.(asks := s)
  }

  function TopOf(b: Book): Top {
    var n, m := |b.bids|, |b.asks|;
    Top(
      if n > 0 then b.bids[n - 1].key else 0,
      if m > 0 then TWO_32 - 1 - b.asks[m - 1].key else 0,
      if n > 0 then b.bids[n - 1].qty else 0,
      if m > 0 then b.asks[m - 1].qty else 0)
  }

  predicate Crossed(b: Book) {
    b.bids != [] && b.asks != [] && b.bids[|b.bids| - 1].key >= TWO_32 - 1 - b.asks[|b.asks| - 1].key
  }

  predicate Shaped(e: Engine) { |e.books| == MAX_LOCATE }

  function Empty(): Engine {
    Engine(map[], seq(MAX_LOCATE, _ => Book([], [])), Stats(0, 0, 0))
  }

  // ---------- the five operations ----------

  function AddOrder(e: Engine, locate: u16, ref: u64, side: u8, shares: u32, price: u32): (r: (Engine, Update))
    requires Shaped(e)
    ensures Shaped(r.0) && r.1.Update?
  {
    var buy := IsBuy(side);
    var key := KeyFor(buy, price);
    var s := SideOf(e.books[locate], buy);
    (e.(orders := e.orders[ref := Order(ref, price, shares, locate, side)],
        books := e.books[locate := WithSide(e.books[locate], buy, Levels.Add(s, key, shares))]),
     Update(price, locate, side, AddTouchesTop(s, key)))
  }

  /** Takes `shares` (and the order, when `gone`) off the level of `o`; the order map is the caller's business. */
  function ApplyReduce(e: Engine, o: Order, shares: u32, gone: bool): (r: (Engine, Update))
    requires Shaped(e)
    ensures Shaped(r.0) && r.1.Update?
  {
    var buy := IsBuy(o.side);
    var key := KeyFor(buy, o.price);
    var s := SideOf(e.books[o.locate], buy);
    var missing := if ReduceResult(s, key) == MissingLevel then 1 else 0;
    (e.(books := e.books[o.locate := WithSide(e.books[o.locate], buy, Levels.Reduce(s, key, shares, gone))],
        stats := e.stats.(missingLevel := e.stats.missingLevel + missing)),
     Update(o.price, o.locate, o.side, ReduceResult(s, key) == TopChanged))
  }

  function UnknownRef(e: Engine): Engine {
    e.(stats := e.stats.(unknownRef := e.stats.unknownRef + 1))
  }

  function ReduceOrder(e: Engine, ref: u64, wanted: u32): (r: (Engine, Update))
    requires Shaped(e)
    ensures Shaped(r.0)
  {
    if ref !in e.orders then (UnknownRef(e), Unknown) else
      var o := e.orders[ref];
      var over := wanted > o.shares;
      var f := if over then e.(stats := e.stats.(overfill := e.stats.overfill + 1)) else e;
      var shares := if over then o.shares else wanted;
      if shares == 0 then (f, Update(o.price, o.locate, o.side, false)) else
        var left := o.(shares := o.shares - shares);
        var gone := left.shares == 0;
        var (g, u) := ApplyReduce(f, left, shares, gone);
        (g.(orders := if gone then e.orders - {ref} else e.orders[ref := left]), u)
  }

  function RemoveOrder(e: Engine, ref: u64): (r: (Engine, Update))
    requires Shaped(e)
    ensures Shaped(r.0)
  {
    if ref !in e.orders then (UnknownRef(e), Unknown) else
      var o := e.orders[ref];
      var (g, u) := ApplyReduce(e, o, o.shares, true);
      (g.(orders := e.orders - {ref}), u)
  }

  /** The new order keeps side and locate of the old one. */
  function ReplaceOrder(e: Engine, oldRef: u64, newRef: u64, shares: u32, price: u32): (r: (Engine, Update))
    requires Shaped(e)
    ensures Shaped(r.0)
  {
    if oldRef !in e.orders then (UnknownRef(e), Unknown) else
      var o := e.orders[oldRef];
      var (f, removed) := RemoveOrder(e, oldRef);
      var (g, added) := AddOrder(f, o.locate, newRef, o.side, shares, price);
      (g, added.(topChanged := added.topChanged || removed.topChanged))
  }

  function Apply(e: Engine, ev: Event): (r: (Engine, Update))
    requires Shaped(e)
    ensures Shaped(r.0)
  {
    match ev
    case Add(locate, ref, side, shares, price) => AddOrder(e, locate, ref, side, shares, price)
    case Reduce(ref, shares) => ReduceOrder(e, ref, shares)
    case Remove(ref) => RemoveOrder(e, ref)
    case Replace(oldRef, newRef, shares, price) => ReplaceOrder(e, oldRef, newRef, shares, price)
  }

  /** The 32-bit order counter of the level at `key`, if there is one, can take one more. */
  predicate Room(s: seq<Level>, key: u32) {
    Has(s, key) ==> s[Find(s, key)].orders + 1 < TWO_32
  }

  ghost predicate RoomFor(e: Engine, locate: u16, side: u8, price: u32) {
    Shaped(e) && Room(SideOf(e.books[locate], IsBuy(side)), KeyFor(IsBuy(side), price))
  }

  /** What the caller owes: a new reference must not be live (insert's precondition). */
  predicate Fresh(e: Engine, ev: Event) {
    match ev
    case Add(_, ref, _, _, _) => ref !in e.orders
    case Replace(oldRef, newRef, _, _) => oldRef in e.orders ==> newRef !in e.orders || newRef == oldRef
    case _ => true
  }

  /** The level that a new order joins has room for it. */
  ghost predicate HasRoom(e: Engine, ev: Event) {
    match ev
    case Add(locate, _, side, _, price) => RoomFor(e, locate, side, price)
    case Replace(oldRef, _, _, price) =>
      Shaped(e) &&
      (oldRef in e.orders ==> RoomFor(RemoveOrder(e, oldRef).0, e.orders[oldRef].locate, e.orders[oldRef].side, price))
    case _ => true
  }

  ghost predicate Legal(e: Engine, ev: Event) { Fresh(e, ev) && HasRoom(e, ev) }

  function Run(e: Engine, evs: seq<Event>): (r: Engine)
    requires Shaped(e)
    ensures Shaped(r)
  {
    if evs == [] then e else Apply(Run(e, evs[..|evs| - 1]), evs[|evs| - 1]).0
  }

  ghost predicate FreshRun(e: Engine, evs: seq<Event>)
    requires Shaped(e)
  {
    forall i :: 0 <= i < |evs| ==> Fresh(Run(e, evs[..i]), evs[i])
  }

  ghost predicate LegalRun(e: Engine, evs: seq<Event>)
    requires Shaped(e)
  {
    forall i :: 0 <= i < |evs| ==> Legal(Run(e, evs[..i]), evs[i])
  }
}
