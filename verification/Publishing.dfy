/**
 From order messages to the published top of book (include/itch/book_builder.hpp:53-82,
 tools/feed_handler_main.cpp:192-262).
 */
module Publishing {
  import opened Machine
  import opened OrderTable
  import opened Books
  import opened Aggregation
  import opened Tops
  import opened BboCache

  /** The seven book-changing messages, with the fields that the handlers read. */
  datatype OrderMessage =
    | AddMsg(locate: u16, timestamp: u64, ref: u64, side: u8, shares: u32, price: u32)
    | AddMpidMsg(locate: u16, timestamp: u64, ref: u64, side: u8, shares: u32, price: u32)
    | ExecutedMsg(locate: u16, timestamp: u64, ref: u64, shares: u32)
    | ExecutedWithPriceMsg(locate: u16, timestamp: u64, ref: u64, shares: u32)
    | CancelMsg(locate: u16, timestamp: u64, ref: u64, shares: u32)
    | DeleteMsg(locate: u16, timestamp: u64, ref: u64)
    | ReplaceMsg(locate: u16, timestamp: u64, ref: u64, newRef: u64, shares: u32, price: u32)

  datatype FeedMessage = BookMessage(order: OrderMessage) | SystemEvent(code: u8) | StockDirectory(locate: u16)

  function EventOf(m: OrderMessage): Event {
    match m
    case AddMsg(locate, _, ref, side, shares, price) => Add(locate, ref, side, shares, price)
    case AddMpidMsg(locate, _, ref, side, shares, price) => Add(locate, ref, side, shares, price)
    case ExecutedMsg(_, _, ref, shares) => Reduce(ref, shares)
    case ExecutedWithPriceMsg(_, _, ref, shares) => Reduce(ref, shares)
    case CancelMsg(_, _, ref, shares) => Reduce(ref, shares)
    case DeleteMsg(_, _, ref) => Remove(ref)
    case ReplaceMsg(_, _, ref, newRef, shares, price) => Replace(ref, newRef, shares, price)
  }

  datatype Kind = KAdd | KExecute | KCancel | KDelete | KReplace

  /** What the strategy's ring carries. */
  datatype BookEvent = BookEvent(
    timestamp: u64, recvTsc: u64, ref: u64, bidQty: u64, askQty: u64, price: u32, shares: u32,
    bidPrice: u32, askPrice: u32, locate: u16, kind: Kind, side: u8)

  function KindOf(m: OrderMessage): Kind {
    if m.AddMsg? || m.AddMpidMsg? then KAdd
    else if m.ExecutedMsg? || m.ExecutedWithPriceMsg? then KExecute
    else if m.CancelMsg? then KCancel
    else if m.DeleteMsg? then KDelete
    else KReplace
  }

  function RefOf(m: OrderMessage): u64 { if m.ReplaceMsg? then m.newRef else m.ref }

  function SharesOf(m: OrderMessage): u32 { if m.DeleteMsg? then 0 else m.shares }

  function SnapshotOf(t: Top, timestamp: u64): Snapshot {
    Snapshot(t.bidPrice, t.askPrice, t.bidQty, t.askQty, timestamp)
  }

  function BookEventOf(m: OrderMessage, u: Update, t: Top, recvTsc: u64): BookEvent
    requires u.Update?
  {
    BookEvent(m.timestamp, recvTsc, RefOf(m), t.bidQty, t.askQty, u.price, SharesOf(m),
              t.bidPrice, t.askPrice, u.locate, KindOf(m), u.side)
  }

  /** The publisher's fields; `events` is what its ring has accepted so far. */
  datatype Published = Published(
    bbo: seq<Snapshot>, events: seq<BookEvent>, dropped: nat, crossed: nat, peakLive: nat, marketOpen: bool,
    recvTsc: u64)

  datatype Feed = Feed(engine: Engine, pub: Published)

  /** A message, and what the ring would answer to a push right then. */
  datatype Input = Input(message: FeedMessage, accepted: bool)

  predicate Sized(s: Feed) { Shaped(s.engine) && |s.pub.bbo| == MAX_LOCATE }

  function Opening(): (s: Feed)
    ensures Sized(s)
  {
    Feed(Empty(), Published(seq(MAX_LOCATE, _ => ZERO), [], 0, 0, 0, false, 0))
  }

  function Announce(p: Published, m: OrderMessage, u: Update, b: Book, accepted: bool): (q: Published)
    requires u.Update? && |p.bbo| == MAX_LOCATE
    ensures |q.bbo| == MAX_LOCATE
  {
    var t := TopOf(b);
    p.(bbo := p.bbo[u.locate := SnapshotOf(t, m.timestamp)],
       crossed := p.crossed + if p.marketOpen && Crossed(b) then 1 else 0,
       events := if accepted then p.events + [BookEventOf(m, u, t, p.recvTsc)] else p.events,
       dropped := p.dropped + if accepted then 0 else 1)
  }

  /** The sink's reaction to one applied order message. */
  function OnBook(p: Published, m: OrderMessage, u: Update, e: Engine, accepted: bool): (q: Published)
    requires Shaped(e) && |p.bbo| == MAX_LOCATE
    ensures |q.bbo| == MAX_LOCATE
  {
    if u.Unknown? then p else
      var live := |e.orders|;
      var peaked := if KindOf(m) == KAdd && live > p.peakLive then p.(peakLive := live) else p;
      if u.topChanged then Announce(peaked, m, u, e.books[u.locate], accepted) else peaked
  }

  const MARKET_OPEN: u8 := 81
  const MARKET_CLOSE: u8 := 77

  function OnSystem(p: Published, code: u8): Published {
    if code == MARKET_OPEN then p.(marketOpen := true)
    else if code == MARKET_CLOSE then p.(marketOpen := false)
    else p
  }

  function Handle(s: Feed, i: Input): (t: Feed)
    requires Sized(s)
    ensures Sized(t)
  {
    match i.message
    case BookMessage(m) =>
      var (e, u) := Apply(s.engine, EventOf(m));
      Feed(e, OnBook(s.pub, m, u, e, i.accepted))
    case SystemEvent(code) => s.(pub := OnSystem(s.pub, code))
    case StockDirectory(_) => s
  }

  predicate FreshInput(s: Feed, i: Input) {
    i.message.BookMessage? ==> Fresh(s.engine, EventOf(i.message.order))
  }

  ghost predicate LegalInput(s: Feed, i: Input) {
    i.message.BookMessage? ==> Legal(s.engine, EventOf(i.message.order))
  }

  function Session(ms: seq<Input>): (s: Feed)
    ensures Sized(s)
  {
    if ms == [] then Opening() else Handle(Session(ms[..|ms| - 1]), ms[|ms| - 1])
  }

  ghost predicate FreshSession(ms: seq<Input>) {
    forall i :: 0 <= i < |ms| ==> FreshInput(Session(ms[..i]), ms[i])
  }

  ghost predicate LegalSession(ms: seq<Input>) {
    forall i :: 0 <= i < |ms| ==> LegalInput(Session(ms[..i]), ms[i])
  }

  // ---------- the published top is the top ----------

  predicate Shows(x: Snapshot, t: Top) {
    x.bidPrice == t.bidPrice && x.askPrice == t.askPrice && x.bidQty == t.bidQty && x.askQty == t.askQty
  }

  ghost predicate BboIsTop(s: Feed)
    requires Sized(s)
  {
    forall l: u16 :: Shows(s.pub.bbo[l], TopOf(s.engine.books[l]))
  }

  /** The last event that a strategy has received for a stock, as it shows the top. */
  function Seen(events: seq<BookEvent>, l: u16): Top {
    if events == [] then Top(0, 0, 0, 0) else
      var x := events[|events| - 1];
      if x.locate == l then Top(x.bidPrice, x.askPrice, x.bidQty, x.askQty) else Seen(events[..|events| - 1], l)
  }

  /** As long as nothing was dropped, the events alone tell the top of every book. */
  ghost predicate EventsTellTop(s: Feed)
    requires Sized(s)
  {
    s.pub.dropped == 0 ==> forall l: u16 :: Seen(s.pub.events, l) == TopOf(s.engine.books[l])
  }

  lemma OrderStep(s: Feed, m: OrderMessage, accepted: bool)
    requires Sized(s) && BooksSorted(s.engine) && BboIsTop(s) && EventsTellTop(s)
    ensures var t := Handle(s, Input(BookMessage(m), accepted));
      BooksSorted(t.engine) && BboIsTop(t) && EventsTellTop(t)
  {
    hide Apply, TopOf, BooksSorted, Crossed, EventOf, KindOf;
    var (e, u) := Apply(s.engine, EventOf(m));
    ApplyKeepsSorted(s.engine, EventOf(m));
    ClearFlagMeansSameTop(s.engine, EventOf(m));
    var t := Handle(s, Input(BookMessage(m), accepted));
    forall l: u16 | t.pub.dropped == 0 ensures Seen(t.pub.events, l) == TopOf(e.books[l]) {
      if u.Update? && u.topChanged {
        assert t.pub.events[..|t.pub.events| - 1] == s.pub.events;
      }
      assert Seen(s.pub.events, l) == TopOf(s.engine.books[l]);
    }
  }

  /**
   After every session, legal or not, the published top of every stock is the top of its book, and so is what the
   events tell.
   */
  lemma {:induction false} PublishedTopIsTop(ms: seq<Input>)
    ensures var s := Session(ms); BooksSorted(s.engine) && BboIsTop(s) && EventsTellTop(s)
  {
    hide Apply, BooksSorted, OnBook;
    if ms == [] {
      OpeningShowsNothing();
    } else {
      var n := |ms| - 1;
      PublishedTopIsTop(ms[..n]);
      if ms[n].message.BookMessage? { OrderStep(Session(ms[..n]), ms[n].message.order, ms[n].accepted); }
    }
  }

  lemma OpeningShowsNothing()
    ensures var s := Opening(); BooksSorted(s.engine) && BboIsTop(s) && EventsTellTop(s)
  {
  }

  // ---------- legal sessions ----------

  lemma SessionPrefix(ms: seq<Input>)
    requires LegalSession(ms) && ms != []
    ensures LegalSession(ms[..|ms| - 1]) && LegalInput(Session(ms[..|ms| - 1]), ms[|ms| - 1])
  {
    hide LegalInput, Session;
    var n := |ms| - 1;
    forall i | 0 <= i < n ensures LegalInput(Session(ms[..n][..i]), ms[..n][i]) {
      assert ms[..n][..i] == ms[..i];
    }
  }

  /**
   After a legal session the levels behind those tops are the aggregation of the live orders, and none was ever
   missing.
   */
  lemma {:induction false} SessionIsConsistent(ms: seq<Input>)
    requires LegalSession(ms)
    ensures var e := Session(ms).engine; Consistent(e) && e.stats.missingLevel == 0
  {
    hide Apply, Consistent, Legal, LegalSession, OnBook;
    if ms == [] {
      EmptyIsConsistent();
    } else {
      var n := |ms| - 1;
      SessionPrefix(ms);
      SessionIsConsistent(ms[..n]);
      if ms[n].message.BookMessage? { StepKeepsConsistent(Session(ms[..n]).engine, EventOf(ms[n].message.order)); }
    }
  }

  // ---------- the peak of the live orders ----------

  lemma MapSizes(m: map<u64, Order>, r: u64, o: Order)
    ensures |m[r := o]| == if r in m then |m| else |m| + 1
    ensures |m - {r}| <= |m| && (r in m ==> |m - {r}| == |m| - 1)
  {
    assert m[r := o].Keys == m.Keys + {r};
    assert (m - {r}).Keys == m.Keys - {r};
  }

  lemma OnlyAddsGrow(e: Engine, ev: Event)
    requires Shaped(e) && !ev.Add?
    ensures |Apply(e, ev).0.orders| <= |e.orders|
  {
    hide ReduceOrder, RemoveOrder, ReplaceOrder;
    match ev
    case Reduce(ref, wanted) => ReduceGrowsNothing(e, ref, wanted);
    case Remove(ref) => RemoveShrinks(e, ref);
    case Replace(oldRef, newRef, shares, price) => ReplaceGrowsNothing(e, oldRef, newRef, shares, price);
  }

  lemma ReduceGrowsNothing(e: Engine, ref: u64, wanted: u32)
    requires Shaped(e)
    ensures |ReduceOrder(e, ref, wanted).0.orders| <= |e.orders|
  {
    hide Books.ApplyReduce;
    if ref in e.orders {
      var o := e.orders[ref];
      MapSizes(e.orders, ref, o.(shares := if wanted > o.shares then 0 else o.shares - wanted));
    }
  }

  lemma RemoveShrinks(e: Engine, ref: u64)
    requires Shaped(e)
    ensures |RemoveOrder(e, ref).0.orders| == if ref in e.orders then |e.orders| - 1 else |e.orders|
  {
    hide Books.ApplyReduce;
    if ref in e.orders { MapSizes(e.orders, ref, e.orders[ref]); }
  }

  lemma ReplaceGrowsNothing(e: Engine, oldRef: u64, newRef: u64, shares: u32, price: u32)
    requires Shaped(e)
    ensures |ReplaceOrder(e, oldRef, newRef, shares, price).0.orders| <= |e.orders|
  {
    hide RemoveOrder, Levels.Add;
    RemoveShrinks(e, oldRef);
    if oldRef in e.orders {
      var o := e.orders[oldRef];
      MapSizes(RemoveOrder(e, oldRef).0.orders, newRef, Order(newRef, price, shares, o.locate, o.side));
    }
  }

  function LiveAfter(ms: seq<Input>): nat { |Session(ms).engine.orders| }

  /** One input keeps the peak at or above the live orders, and raises it only to their number. */
  lemma PeakStep(s: Feed, i: Input)
    requires Sized(s) && |s.engine.orders| <= s.pub.peakLive
    ensures var t := Handle(s, i);
      && |t.engine.orders| <= t.pub.peakLive && s.pub.peakLive <= t.pub.peakLive
      && (t.pub.peakLive > s.pub.peakLive ==> t.pub.peakLive == |t.engine.orders|)
  {
    hide Apply;
    if i.message.BookMessage? {
      var ev := EventOf(i.message.order);
      if ev.Add? { AddsAreKnown(s.engine, ev); } else { OnlyAddsGrow(s.engine, ev); }
    }
  }

  lemma AddsAreKnown(e: Engine, ev: Event)
    requires Shaped(e) && ev.Add?
    ensures Apply(e, ev).1.Update?
  {
  }

  lemma SessionStep(ms: seq<Input>)
    ensures ms == [] ==> Session(ms) == Opening() && LiveAfter(ms) == 0 == Session(ms).pub.peakLive
    ensures ms != [] ==> Session(ms) == Handle(Session(ms[..|ms| - 1]), ms[|ms| - 1])
  {
    hide Handle;
  }

  /** The publisher looks at the number of live orders on adds only, and still finds its maximum over the whole run. */
  lemma {:induction false} PeakIsMaximum(ms: seq<Input>) returns (at: nat)
    ensures at <= |ms| && LiveAfter(ms[..at]) == Session(ms).pub.peakLive
    ensures forall i :: 0 <= i <= |ms| ==> LiveAfter(ms[..i]) <= Session(ms).pub.peakLive
  {
    hide Handle, Session;
    SessionStep(ms);
    if ms == [] {
      at := 0;
    } else {
      var n := |ms| - 1;
      var front := ms[..n];
      at := PeakIsMaximum(front);
      assert front[..n] == front && ms[..n + 1] == ms;
      assert LiveAfter(front[..n]) <= Session(front).pub.peakLive;
      PeakStep(Session(front), ms[n]);
      forall i | 0 <= i <= n + 1 ensures LiveAfter(ms[..i]) <= Session(ms).pub.peakLive {
        if i <= n { assert front[..i] == ms[..i]; }
      }
      if Session(ms).pub.peakLive > Session(front).pub.peakLive {
        at := n + 1;
      } else {
        assert front[..at] == ms[..at];
      }
    }
  }

  /** Every raised flag is either an event in the ring or a counted drop. */
  lemma EventsAndDrops(s: Feed, i: Input)
    requires Sized(s)
    ensures var t := Handle(s, i);
      var raised := i.message.BookMessage?
        && (var u := Apply(s.engine, EventOf(i.message.order)).1; u.Update? && u.topChanged);
      |t.pub.events| + t.pub.dropped == |s.pub.events| + s.pub.dropped + (if raised then 1 else 0)
  {
    hide Apply;
  }
}
