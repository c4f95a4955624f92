/**
 What the publisher's snapshots and events carry, told from the messages and the live orders
 (tools/feed_handler_main.cpp:192-262).
 */
module Announcements {
  import opened Machine
  import opened OrderTable
  import opened Books
  import opened Aggregation
  import opened Updates
  import opened Quotes
  import opened Publishing

  /** The input raises the top-changed flag of book `l`. */
  ghost predicate Raises(s: Feed, i: Input, l: u16)
    requires Sized(s)
  {
    match i.message
    case BookMessage(m) =>
      var u := Apply(s.engine, EventOf(m)).1;
      u.Update? && u.topChanged && u.locate == l
    case _ => false
  }

  // ---------- the snapshots ----------

  /** The time of the last message that raised the flag of book `l`, and 0 if none did. */
  ghost function LastRaise(ms: seq<Input>, l: u16): u64 {
    if ms == [] then 0 else
      var n := |ms| - 1;
      if Raises(Session(ms[..n]), ms[n], l) then ms[n].message.order.timestamp else LastRaise(ms[..n], l)
  }

  lemma {:induction false} TimestampIsLastRaise(ms: seq<Input>, l: u16)
    ensures Session(ms).pub.bbo[l].timestamp == LastRaise(ms, l)
  {
    hide Apply, TopOf, Crossed;
    if ms != [] { TimestampIsLastRaise(ms[..|ms| - 1], l); }
  }

  /**
   After a legal session the published quotes of every stock are the best bid and the best ask among its live orders.
   */
  lemma PublishedIsBest(ms: seq<Input>, l: u16)
    requires LegalSession(ms)
    ensures var s := Session(ms); var x := s.pub.bbo[l];
      && BestBid(s.engine.orders, l, x.bidPrice, x.bidQty) && BestAsk(s.engine.orders, l, x.askPrice, x.askQty)
      && x.timestamp == LastRaise(ms, l)
  {
    hide LegalSession, Session, EventsTellTop, Consistent, BestBid, BestAsk, TopOf;
    PublishedTopIsTop(ms);
    SessionIsConsistent(ms);
    TopIsBest(Session(ms).engine, l);
    TimestampIsLastRaise(ms, l);
  }

  // ---------- the events ----------

  /** The order that an event is about, as the message names it and the order map has it. */
  ghost predicate About(x: BookEvent, kind: Kind, ref: u64, shares: u32, price: u32, locate: u16, side: u8) {
    && x.kind == kind && x.ref == ref && x.shares == shares
    && x.price == price && x.locate == locate && x.side == side
  }

  /** What one message tells the strategy, with the orders `m` before it. */
  ghost predicate Tells(x: BookEvent, msg: OrderMessage, m: map<u64, Order>) {
    match msg
    case AddMsg(locate, _, ref, side, shares, price) => About(x, KAdd, ref, shares, price, locate, side)
    case AddMpidMsg(locate, _, ref, side, shares, price) => About(x, KAdd, ref, shares, price, locate, side)
    case ExecutedMsg(_, _, ref, shares) =>
      ref in m && About(x, KExecute, ref, shares, m[ref].price, m[ref].locate, m[ref].side)
    case ExecutedWithPriceMsg(_, _, ref, shares) =>
      ref in m && About(x, KExecute, ref, shares, m[ref].price, m[ref].locate, m[ref].side)
    case CancelMsg(_, _, ref, shares) =>
      ref in m && About(x, KCancel, ref, shares, m[ref].price, m[ref].locate, m[ref].side)
    case DeleteMsg(_, _, ref) =>
      ref in m && About(x, KDelete, ref, 0, m[ref].price, m[ref].locate, m[ref].side)
    case ReplaceMsg(_, _, ref, newRef, shares, price) =>
      ref in m && About(x, KReplace, newRef, shares, price, m[ref].locate, m[ref].side)
  }

  /** An accepted event carries its message's order, times, and the top of the book after it. */
  lemma EventTells(s: Feed, msg: OrderMessage, l: u16)
    requires Sized(s) && Raises(s, Input(BookMessage(msg), true), l)
    ensures var t := Handle(s, Input(BookMessage(msg), true)); var n := |s.pub.events|;
      && |t.pub.events| == n + 1 && t.pub.events[..n] == s.pub.events
      && var x := t.pub.events[n]; var top := TopOf(t.engine.books[l]);
         && x.locate == l && Tells(x, msg, s.engine.orders)
         && x.timestamp == msg.timestamp && x.recvTsc == s.pub.recvTsc
         && x.bidPrice == top.bidPrice && x.askPrice == top.askPrice
         && x.bidQty == top.bidQty && x.askQty == top.askQty
  {
    hide Apply, TopOf, Crossed;
    UpdateTells(s.engine, EventOf(msg));
  }

  /** A message that raises no flag, or that the ring refuses, adds no event. */
  lemma NoEvent(s: Feed, i: Input)
    requires Sized(s) && (!i.accepted || forall l: u16 :: !Raises(s, i, l))
    ensures Handle(s, i).pub.events == s.pub.events
  {
    hide Apply, TopOf, Crossed;
    match i.message
    case BookMessage(m) =>
      var u := Apply(s.engine, EventOf(m)).1;
      if u.Update? { assert !i.accepted || !Raises(s, i, u.locate); }
    case _ =>
  }

  // ---------- market hours and crossed books ----------

  /** The last system event that is a 'Q' or an 'M' decides. */
  ghost function IsOpen(ms: seq<Input>): bool {
    if ms == [] then false else
      match ms[|ms| - 1].message
      case SystemEvent(code) => if code == 81 then true else if code == 77 then false else IsOpen(ms[..|ms| - 1])
      case _ => IsOpen(ms[..|ms| - 1])
  }

  /** The messages that leave the book they change crossed while the market is open. */
  ghost function CrossedCount(ms: seq<Input>): nat {
    if ms == [] then 0 else
      var n := |ms| - 1;
      CrossedCount(ms[..n]) +
        if IsOpen(ms[..n]) &&
          exists l: u16 :: Raises(Session(ms[..n]), ms[n], l) && Crossed(Session(ms).engine.books[l])
        then 1 else 0
  }

  lemma {:induction false} MarketHours(ms: seq<Input>)
    ensures Session(ms).pub.marketOpen == IsOpen(ms)
  {
    hide Apply, TopOf, Crossed;
    if ms != [] { MarketHours(ms[..|ms| - 1]); }
  }

  lemma {:induction false} CrossedIsCounted(ms: seq<Input>)
    ensures Session(ms).pub.crossed == CrossedCount(ms)
  {
    hide Apply, TopOf, Crossed;
    if ms != [] {
      var n := |ms| - 1;
      CrossedIsCounted(ms[..n]);
      MarketHours(ms[..n]);
      OneCrossed(Session(ms[..n]), ms[n]);
    }
  }

  lemma OneCrossed(s: Feed, i: Input)
    requires Sized(s)
    ensures var t := Handle(s, i);
      t.pub.crossed == s.pub.crossed +
        if s.pub.marketOpen && exists l: u16 :: Raises(s, i, l) && Crossed(t.engine.books[l]) then 1 else 0
  {
    hide Apply, TopOf, Crossed;
    match i.message
    case BookMessage(m) =>
      var u := Apply(s.engine, EventOf(m)).1;
      if u.Update? && u.topChanged { assert Raises(s, i, u.locate); }
    case _ =>
  }
}
