/**
 The synthetic stream generator, in lock step with an engine that is fed what it writes
 (include/itch/sim/synthetic_feed.hpp:41-273).
 */
module SyntheticFeeds {
  import opened Machine
  import opened Arith
  import opened Framing
  import opened Messages
  import opened Codec
  import opened Parsing
  import opened Books
  import opened Streams
  import opened Dispatch
  import opened LiveLists
  import opened SyntheticWires

  const TICK := 100
  const SELL: u8 := 83

  type Lots = x: int | 1 <= x <= 10 witness 1

  /** The random draws behind one new order. */
  datatype OrderDraw = OrderDraw(buy: bool, behind: u32, lots: Lots, mpid: bool)

  /** The draws behind one step; which of them are used depends on the branch taken. */
  datatype StepDraw = StepDraw(symbol: nat, u: real, index: nat, order: OrderDraw, all: bool, priced: bool)

  /** 32-bit arithmetic around the mid price. */
  function PickPrice(mid: u32, side: u8, behind: u32): u32 {
    if side == BUY then (mid - TICK * (1 + behind)) % TWO_32 else (mid + TICK * (1 + behind)) % TWO_32
  }

  /** One to ten round lots. */
  function PickShares(lots: Lots): (s: u32)
    ensures 100 <= s <= 1000 && s % 100 == 0 && s / 100 == lots
  {
    100 * lots
  }

  /** Where 32 bits suffice, buys lie below the mid price and sells above, by the same whole number of ticks. */
  lemma PricesLieBehind(mid: u32, behind: u32)
    requires 100 * (1 + behind) <= mid && mid + 100 * (1 + behind) < TWO_32
    ensures PickPrice(mid, 66, behind) == mid - 100 * (1 + behind)
    ensures PickPrice(mid, 83, behind) == mid + 100 * (1 + behind)
  {
  }

  /** The order that a draw makes. */
  function Drawn(mid: u32, ref: u64, side: u8, d: OrderDraw): Live {
    Live(ref, PickPrice(mid, side, d.behind), PickShares(d.lots), side)
  }

  function AtLeastOne(x: nat): nat { if x < 1 then 1 else x }

  /** An order has lost some shares, and its place with the last. */
  ghost predicate LosesShares(was: Lists, now: Lists, sym: nat, i: nat, shares: nat) {
    At(was, sym, i) && shares <= was[sym][i].shares && now == Shrunk(was, sym, i, shares)
  }

  /** The lists with `n` new orders of one symbol, drawn one after the other. */
  ghost function Seeded(
      was: Lists, mid: u32, ref: nat, sym: nat, seeds: (nat, nat) -> OrderDraw, n: nat): (now: Lists)
    requires sym < |was| && ref + n < TWO_64
    ensures |now| == |was|
  {
    if n == 0 then was else
      var d := seeds(sym, n - 1);
      Push(Seeded(was, mid, ref, sym, seeds, n - 1), sym, Drawn(mid, ref + n - 1, if d.buy then 66 else 83, d))
  }

  /** An order of the symbol is deleted, replaced, cancelled or executed, in whole or in part, or there is a trade. */
  ghost predicate Acted(was: Lists, now: Lists, mid: u32, ref: u64, sym: nat, d: StepDraw)
    requires sym < |was| && was[sym] != []
  {
    var i := d.index % |was[sym]|;
    var o := was[sym][i];
    if d.u < 0.78 then now == Erase(was, sym, i)
    else if d.u < 0.88 then now == Put(was, sym, i, Drawn(mid, ref, o.side, d.order))
    else if d.u < 0.93 then LosesShares(was, now, sym, i, if d.all then o.shares else AtLeastOne(o.shares / 2))
    else if d.u < 0.98 then LosesShares(was, now, sym, i, if d.all then o.shares else AtLeastOne(o.shares / 3))
    else now == was
  }

  /** The mid prices with the drift of one draw. */
  ghost predicate Drifted(was: seq<u32>, now: seq<u32>, sym: nat, u: real)
    requires sym < |was|
  {
    now ==
      if u > 0.9995 then was[sym := (was[sym] + 100) % TWO_32]
      else if u > 0.999 then was[sym := (was[sym] - 100) % TWO_32]
      else was
  }

  class SyntheticFeed {
    const symbols: nat
    const ticks: nat -> u8
    var mids: seq<u32>
    var live: Lists
    var out: seq<u8>
    var nextRef: u64
    var nextMatch: u64
    var ts: u64
    var messages: nat
    ghost var records: seq<seq<u8>>
    ghost var engine: Engine
    ghost var peak: nat

    /** The bytes are the records so far, and the engine is one that was fed them and held at most `peak` orders. */
    ghost predicate Written()
      reads this`out, this`records, this`messages, this`engine, this`peak
    {
      && out == Join(records) && Frameable(records) && messages == |records|
      && SelfConsistent(records) && engine == ApplyCalls(Empty(), records) && NeverMore(records, peak)
    }

    ghost predicate Valid()
      reads this
    {
      && 1 <= symbols <= MAX_SYMBOLS && |mids| == |live| == symbols
      && Written() && Lockstep(live, engine, nextRef) && |engine.orders| < nextRef && peak < nextRef
      && |records| == messages
    }

    constructor (symbols: nat, mids: seq<u32>, ticks: nat -> u8)
      requires 1 <= symbols <= MAX_SYMBOLS && |mids| == symbols
      ensures Valid() && nextRef == nextMatch == 1 && ts == 34_200_000_000_000 && messages == 0
      ensures this.symbols == symbols && this.mids == mids && this.ticks == ticks
      ensures forall s :: 0 <= s < symbols ==> live[s] == []
    {
      this.symbols, this.mids, this.ticks := symbols, mids, ticks;
      live := seq(symbols, _ => []);
      out, messages, records := [], 0, [];
      nextRef, nextMatch, ts := 1, 1, 34_200_000_000_000;
      engine, peak := Empty(), 0;
    }

    // ---------- writing ----------

    method Write(t: Table, m: Message, ghost ev: Option<Event>)
      requires Written() && ReadsAs(t, m, ev) && Sensible(engine, m.header.locate, ev)
      modifies this`out, this`messages, this`records, this`engine, this`peak
      ensures Written() && messages == old(messages) + 1
      ensures engine == match ev case Some(x) => Apply(old(engine), x).0 case None => old(engine)
      ensures peak == Max(old(peak), |engine.orders|) && records == old(records) + [RecordOf(t, m)]
    {
      hide Wire, WellFormed, EventIn, LocateOf, Sensible, SelfConsistent, Apply, NeverMore;
      ghost var p := Wire(t, m);
      JoinConcat(records, [p]);
      JoinOne(p);
      OneMoreRecord(records, p);
      out := out + Block(Wire(t, m));
      messages := messages + 1;
      records := records + [p];
      engine := Effect(engine, p);
      WellFormedStream(old(records));
      NeverMoreSnoc(old(records), p, peak, Max(peak, |engine.orders|));
      peak := Max(peak, |engine.orders|);
    }

    method FillHeader(sym: nat) returns (h: MsgHeader)
      requires sym < MAX_SYMBOLS
      modifies this`ts
      ensures ts == (old(ts) + 1 + ticks(messages)) % TWO_64 && h == MsgHeader(sym + 1, 0, ts)
    {
      ts := (ts + 1 + ticks(messages)) % TWO_64;
      h := MsgHeader(sym + 1, 0, ts);
    }

    /** The header of a record of symbol `sym` at the current time. */
    function HeaderNow(sym: nat): MsgHeader
      requires sym < MAX_SYMBOLS
      reads this`ts
    {
      MsgHeader(sym + 1, 0, ts)
    }

    method EmitSystem(code: u8)
      requires Valid()
      modifies this`ts, this`out, this`messages, this`records, this`engine, this`peak
      ensures Valid() && messages == old(messages) + 1
      ensures records == old(records) + [RecordOf(SYSTEM_EVENT, SystemMessage(MsgHeader(0, 0, ts), code))]
      ensures ts == (old(ts) + 1000) % TWO_64 && SystemAt(records, |old(records)|, code)
    {
      hide Wire, Written, Lockstep, EventIn, Apply;
      ts := (ts + 1000) % TWO_64;
      var h := MsgHeader(0, 0, ts);
      SystemReads(h, code);
      Write(SYSTEM_EVENT, SystemMessage(h, code), None);
    }

    method EmitDirectory(sym: nat)
      requires Valid() && sym < symbols
      modifies this`ts, this`out, this`messages, this`records, this`engine, this`peak
      ensures Valid() && messages == old(messages) + 1
      ensures records == old(records) + [RecordOf(STOCK_DIRECTORY, DirectoryMessage(HeaderNow(sym), sym))]
    {
      hide Wire, Written, Lockstep, EventIn, Apply;
      var h := FillHeader(sym);
      DirectoryReads(h, sym);
      Write(STOCK_DIRECTORY, DirectoryMessage(h, sym), None);
    }

    // ---------- the order operations ----------

    method AddOrder(sym: nat, d: OrderDraw)
      requires Valid() && sym < symbols && nextRef + 1 < TWO_64
      modifies this
      ensures Valid() && nextRef == old(nextRef) + 1 && messages == old(messages) + 1
      ensures var side := if d.buy then BUY else SELL;
        live == Push(old(live), sym, Live(old(nextRef), PickPrice(mids[sym], side, d.behind), PickShares(d.lots), side))
      ensures mids == old(mids)
      ensures var o := live[sym][|live[sym]| - 1];
        records == old(records) +
          [if d.mpid then RecordOf(ADD_ORDER_MPID, AddMpidMessage(HeaderNow(sym), o, sym))
           else RecordOf(ADD_ORDER, AddMessage(HeaderNow(sym), o, sym))]
    {
      hide Wire, Written, Lockstep, EventIn, Apply, ReadsAs, RecordOf;
      var side := if d.buy then BUY else SELL;
      var o := Live(nextRef, PickPrice(mids[sym], side, d.behind), PickShares(d.lots), side);
      nextRef := nextRef + 1;
      var h := FillHeader(sym);
      AddInStep(live, engine, o.ref, sym, o);
      AddReads(h, o, sym);
      ghost var ev := Some(Add(h.locate, o.ref, o.side, o.shares, o.price));
      if d.mpid {
        Write(ADD_ORDER_MPID, AddMpidMessage(h, o, sym), ev);
      } else {
        Write(ADD_ORDER, AddMessage(h, o, sym), ev);
      }
      live := Push(live, sym, o);
      PushSize(old(live), sym, o);
    }

    lemma PushSize(was: Lists, s: nat, o: Live)
      requires s < |was|
      ensures |Push(was, s, o)| == |was|
    {
    }

    lemma ListedOrder(sym: nat, idx: nat)
      requires Valid() && At(live, sym, idx)
      ensures var o := live[sym][idx]; o.ref in engine.orders && engine.orders[o.ref] == OrderOf(sym, o) && o.shares > 0
    {
      MirrorsAt(live, engine.orders, sym, idx);
    }

    method DeleteOrder(sym: nat, idx: nat)
      requires Valid() && At(live, sym, idx)
      modifies this
      ensures Valid() && nextRef == old(nextRef) && messages == old(messages) + 1
      ensures live == Erase(old(live), sym, idx) && mids == old(mids) && |engine.orders| == |old(engine.orders)| - 1
      ensures records == old(records) + [RecordOf(ORDER_DELETE, DeleteMessage(HeaderNow(sym), old(live[sym][idx].ref)))]
    {
      hide Wire, Written, Lockstep, EventIn, Apply, Erase;
      var o := live[sym][idx];
      var h := FillHeader(sym);
      ListedOrder(sym, idx);
      RemoveInStep(live, engine, nextRef, sym, idx);
      DeleteReads(h, o.ref);
      Write(ORDER_DELETE, DeleteMessage(h, o.ref), Some(Remove(o.ref)));
      SameLength(live, sym, idx, o);
      live := Erase(live, sym, idx);
    }

    method ReplaceOrder(sym: nat, idx: nat, d: OrderDraw)
      requires Valid() && At(live, sym, idx) && nextRef + 1 < TWO_64
      modifies this
      ensures Valid() && nextRef == old(nextRef) + 1 && messages == old(messages) + 1
      ensures var side := old(live[sym][idx].side);
        live == Put(old(live), sym, idx,
          Live(old(nextRef), PickPrice(mids[sym], side, d.behind), PickShares(d.lots), side))
      ensures mids == old(mids)
      ensures var o, now := old(live[sym][idx]), live[sym][idx];
        records == old(records) +
          [RecordOf(ORDER_REPLACE, ReplaceMessage(HeaderNow(sym), o.ref, now.ref, now.shares, now.price))]
    {
      hide Wire, Written, Lockstep, EventIn, Apply, Books.ApplyReduce;
      var o := live[sym][idx];
      var h := FillHeader(sym);
      var now := Live(nextRef, PickPrice(mids[sym], o.side, d.behind), PickShares(d.lots), o.side);
      ListedOrder(sym, idx);
      ReplaceInStep(live, engine, nextRef, sym, idx, now.shares, now.price);
      NotYetUsed(now.ref);
      nextRef := nextRef + 1;
      ReplaceReads(h, o.ref, now.ref, now.shares, now.price);
      Write(ORDER_REPLACE, ReplaceMessage(h, o.ref, now.ref, now.shares, now.price),
            Some(Replace(o.ref, now.ref, now.shares, now.price)));
      SameLength(live, sym, idx, now);
      live := Put(live, sym, idx, now);
    }

    lemma NotYetUsed(ref: u64)
      requires Valid() && ref >= nextRef
      ensures ref !in engine.orders
    {
    }

    /** The part that a cancel and an execution share: the list follows what the record takes off the order. */
    method Shrink(sym: nat, idx: nat, shares: u32)
      requires At(live, sym, idx) && shares <= live[sym][idx].shares
      modifies this`live
      ensures live == Shrunk(old(live), sym, idx, shares)
    {
      var o := live[sym][idx];
      var left := o.(shares := o.shares - shares);
      live := Put(live, sym, idx, left);
      if left.shares == 0 {
        assert live[sym][idx := live[sym][|live[sym]| - 1]][..|live[sym]| - 1] ==
               old(live)[sym][idx := old(live)[sym][|live[sym]| - 1]][..|live[sym]| - 1];
        live := Erase(live, sym, idx);
      }
    }

    lemma ShrunkSize(was: Lists, s: nat, i: nat, shares: u32)
      requires At(was, s, i) && shares <= was[s][i].shares
      ensures |Shrunk(was, s, i, shares)| == |was|
    {
    }

    method CancelOrder(sym: nat, idx: nat, all: bool)
      requires Valid() && At(live, sym, idx)
      modifies this
      ensures Valid() && nextRef == old(nextRef) && messages == old(messages) + 1 && mids == old(mids)
      ensures var n := old(live[sym][idx].shares); var cancelled := if all then n else AtLeastOne(n / 2);
        && cancelled <= n && live == Shrunk(old(live), sym, idx, cancelled)
        && records == old(records) +
             [RecordOf(ORDER_CANCEL, CancelMessage(HeaderNow(sym), old(live[sym][idx].ref), cancelled))]
    {
      hide Wire, Written, Lockstep, EventIn, Apply, Shrunk;
      var o := live[sym][idx];
      var h := FillHeader(sym);
      ListedOrder(sym, idx);
      var cancelled: u32 := if all then o.shares else AtLeastOne(o.shares / 2);
      ReduceInStep(live, engine, nextRef, sym, idx, cancelled);
      CancelReads(h, o.ref, cancelled);
      Write(ORDER_CANCEL, CancelMessage(h, o.ref, cancelled), Some(Reduce(o.ref, cancelled)));
      ShrunkSize(live, sym, idx, cancelled);
      Shrink(sym, idx, cancelled);
    }

    method ExecuteOrder(sym: nat, idx: nat, all: bool, priced: bool)
      requires Valid() && At(live, sym, idx)
      modifies this
      ensures Valid() && nextRef == old(nextRef) && messages == old(messages) + 1 && mids == old(mids)
      ensures var n := old(live[sym][idx].shares); var qty := if all then n else AtLeastOne(n / 3);
        && qty <= n && live == Shrunk(old(live), sym, idx, qty)
        && var o := old(live[sym][idx]);
           records == old(records) +
             [if priced
              then RecordOf(ORDER_EXECUTED_WITH_PRICE,
                            ExecutePricedMessage(HeaderNow(sym), o.ref, qty, old(nextMatch), o.price))
              else RecordOf(ORDER_EXECUTED, ExecuteMessage(HeaderNow(sym), o.ref, qty, old(nextMatch)))]
      ensures nextMatch == (old(nextMatch) + 1) % TWO_64
    {
      hide Wire, Written, Lockstep, EventIn, Apply, Shrunk, ReadsAs, RecordOf;
      var o := live[sym][idx];
      ListedOrder(sym, idx);
      var qty: u32 := if all then o.shares else AtLeastOne(o.shares / 3);
      var h := FillHeader(sym);
      ReduceInStep(live, engine, nextRef, sym, idx, qty);
      ExecuteReads(h, o.ref, qty, nextMatch, o.price);
      ghost var ev := Some(Reduce(o.ref, qty));
      if priced {
        Write(ORDER_EXECUTED_WITH_PRICE, ExecutePricedMessage(h, o.ref, qty, nextMatch, o.price), ev);
      } else {
        Write(ORDER_EXECUTED, ExecuteMessage(h, o.ref, qty, nextMatch), ev);
      }
      nextMatch := (nextMatch + 1) % TWO_64;
      ShrunkSize(live, sym, idx, qty);
      Shrink(sym, idx, qty);
    }

    method Trade(sym: nat, lots: Lots)
      requires Valid() && sym < symbols
      modifies this
      ensures Valid() && nextRef == old(nextRef) && messages == old(messages) + 1 && live == old(live)
        && mids == old(mids)
      ensures records == old(records) +
        [RecordOf(TRADE, TradeMessage(HeaderNow(sym), PickShares(lots), sym, mids[sym], old(nextMatch)))]
      ensures nextMatch == (old(nextMatch) + 1) % TWO_64
    {
      hide Wire, Written, Lockstep, EventIn, Apply;
      var h := FillHeader(sym);
      TradeReads(h, PickShares(lots), sym, mids[sym], nextMatch);
      Write(TRADE, TradeMessage(h, PickShares(lots), sym, mids[sym], nextMatch), None);
      nextMatch := (nextMatch + 1) % TWO_64;
    }

    // ---------- the stream ----------

    /** The draw picks a delete, replace, cancel, execution or trade of one of the symbol's orders. */
    method Act(sym: nat, d: StepDraw)
      requires Valid() && sym < symbols && live[sym] != [] && nextRef + 1 < TWO_64
      modifies this
      ensures Valid() && old(nextRef) <= nextRef <= old(nextRef) + 1 && messages == old(messages) + 1
      ensures old(records) <= records && mids == old(mids)
      ensures Acted(old(live), live, old(mids[sym]), old(nextRef), sym, d)
    {
      hide Written, Lockstep, Erase, Put, Shrunk, PickPrice, RecordOf, DeleteMessage, ReplaceMessage, CancelMessage;
      hide ExecuteMessage, ExecutePricedMessage, TradeMessage, HeaderNow;
      var idx := d.index % |live[sym]|;
      if d.u < 0.78 { DeleteOrder(sym, idx); }
      else if d.u < 0.88 { ReplaceOrder(sym, idx, d.order); }
      else if d.u < 0.93 { CancelOrder(sym, idx, d.all); }
      else if d.u < 0.98 { ExecuteOrder(sym, idx, d.all, d.priced); }
      else { Trade(sym, d.order.lots); }
    }

    /** At the far end of the draws the mid price drifts by a tick. */
    method Drift(sym: nat, u: real)
      requires Valid() && sym < symbols
      modifies this`mids
      ensures Valid()
      ensures Drifted(old(mids), mids, sym, u)
    {
      hide Written, Lockstep;
      if u > 0.9995 {
        mids := mids[sym := (mids[sym] + TICK) % TWO_32];
      } else if u > 0.999 {
        mids := mids[sym := (mids[sym] - TICK) % TWO_32];
      }
    }

    /**
     One step: an add, when the symbol has no order or the draw says so, and otherwise one of the other operations.
     */
    method Step(d: StepDraw)
      requires Valid() && nextRef + 1 < TWO_64
      modifies this
      ensures Valid() && old(nextRef) <= nextRef <= old(nextRef) + 1 && messages == old(messages) + 1
      ensures old(records) <= records
      ensures var sym := Min(d.symbol, symbols - 1);
        if old(live[sym]) == [] || d.u < 0.42 then
          && live == Push(old(live), sym, Drawn(old(mids[sym]), old(nextRef), if d.order.buy then 66 else 83, d.order))
          && mids == old(mids)
        else
          && Acted(old(live), live, old(mids[sym]), old(nextRef), sym, d) && Drifted(old(mids), mids, sym, d.u)
    {
      hide Written, Lockstep, Push, PickPrice, Acted, Drifted, RecordOf, AddMessage, AddMpidMessage, HeaderNow;
      var sym := if d.symbol < symbols then d.symbol else symbols - 1;
      if |live[sym]| == 0 || d.u < 0.42 {
        AddOrder(sym, d.order);
        return;
      }
      Act(sym, d);
      Drift(sym, d.u);
    }

    method Drain()
      requires Valid()
      modifies this
      ensures Valid() && forall s :: 0 <= s < symbols ==> live[s] == []
      ensures nextRef == old(nextRef) && messages + |engine.orders| == old(messages) + |old(engine.orders)|
      ensures old(records) <= records
    {
      hide Written, Lockstep;
      for sym := 0 to symbols
        invariant Valid() && nextRef == old(nextRef) && old(records) <= records
        invariant messages + |engine.orders| == old(messages) + |old(engine.orders)|
        invariant forall s :: 0 <= s < sym ==> live[s] == []
      {
        while |live[sym]| > 0
          invariant Valid() && nextRef == old(nextRef) && old(records) <= records
          invariant messages + |engine.orders| == old(messages) + |old(engine.orders)|
          invariant forall s :: 0 <= s < sym ==> live[s] == []
          decreases |live[sym]|
        {
          DeleteOrder(sym, |live[sym]| - 1);
        }
      }
    }

    /**
     The whole stream, whatever the draws: its records name live orders only, a parser that wants every message
     dispatches each of them and counts no error, and an engine fed with them ends without an order.  It ends empty,
     with no error counted, if its orders found room, for which it is enough that fewer than 2^32 were alive at a time.
     The bound keeps the 64-bit references from wrapping.
     */
    method Build(initial: nat, seeds: (nat, nat) -> OrderDraw, steps: seq<StepDraw>) returns (stream: seq<u8>)
      requires Valid() && nextRef == 1 && messages == 0 && symbols * initial + |steps| + 1 < TWO_64
      modifies this
      ensures var ps := Records(stream);
        && Consumed(stream) == |stream| && AllWellFormed(ps)
          && |ps| == messages <= symbols + 2 * (symbols * initial + |steps|) + 4
        && peak <= symbols * initial + |steps| && Drained(ps, peak) && (Roomy(ps) ==> LeavesNothing(ps))
        && (peak < TWO_32 ==> Roomy(ps))
        && SystemAt(ps, 0, 'O' as u8) && SystemAt(ps, symbols + 1, 'Q' as u8)
        && SystemAt(ps, |ps| - 2, 'M' as u8) && SystemAt(ps, |ps| - 1, 'C' as u8)
    {
      hide Written, Lockstep, Drained, Roomy, LeavesNothing, Records, Consumed, AllWellFormed, SystemAt;
      hide Acted, Drifted, Push, PickPrice;
      ghost var seeded := symbols * initial;
      Open();
      ghost var opening := records;
      Seed(initial, seeds);
      ghost var start: nat := nextRef;
      for i := 0 to |steps|
        invariant Valid() && start == seeded + 1 && nextRef <= start + i
        invariant messages == 2 + symbols + seeded + i && opening <= records
      {
        Step(steps[i]);
      }
      Drain();
      Close();
      SystemStays(opening, records, 0, 79);
      SystemStays(opening, records, symbols + 1, 81);
      stream := out;
      Finished();
    }

    /** The start of the day: start of messages, the directory, and the market opens. */
    method Open()
      requires Valid() && messages == 0
      modifies this`ts, this`out, this`messages, this`records, this`engine, this`peak
      ensures Valid() && messages == symbols + 2
      ensures SystemAt(records, 0, 79) && SystemAt(records, symbols + 1, 81)
    {
      hide Written, Lockstep, SystemAt, RecordOf, SystemMessage, DirectoryMessage, HeaderNow;
      EmitSystem(79);
      for sym := 0 to symbols
        invariant Valid() && messages == 1 + sym && SystemAt(records, 0, 79)
      {
        ghost var before := records;
        EmitDirectory(sym);
        SystemStays(before, records, 0, 79);
      }
      ghost var before := records;
      EmitSystem(81);
      SystemStays(before, records, 0, 79);
    }

    /** The end of the day: the market closes, and end of messages. */
    method Close()
      requires Valid()
      modifies this`ts, this`out, this`messages, this`records, this`engine, this`peak
      ensures Valid() && messages == old(messages) + 2 && old(records) <= records
      ensures SystemAt(records, |records| - 2, 77) && SystemAt(records, |records| - 1, 67)
    {
      hide Written, Lockstep, SystemAt, RecordOf, SystemMessage, HeaderNow;
      EmitSystem(77);
      ghost var closing := records;
      EmitSystem(67);
      SystemStays(closing, records, |records| - 2, 77);
    }

    lemma SystemStays(was: seq<seq<u8>>, now: seq<seq<u8>>, i: nat, code: u8)
      requires was <= now && SystemAt(was, i, code)
      ensures SystemAt(now, i, code)
    {
    }

    method Seed(initial: nat, seeds: (nat, nat) -> OrderDraw)
      requires Valid() && nextRef == 1 && symbols * initial + 1 < TWO_64
      modifies this
      ensures Valid() && nextRef == symbols * initial + 1 && messages == old(messages) + symbols * initial
      ensures old(records) <= records
    {
      hide Written, Lockstep;
      ghost var seeded: nat := 0;
      for sym := 0 to symbols
        invariant old(records) <= records
        invariant Valid() && seeded == sym * initial && nextRef == seeded + 1 && messages == old(messages) + seeded
      {
        OneSymbolMore(sym, initial);
        SeedSymbol(sym, initial, seeds);
        seeded := seeded + initial;
      }
    }

    lemma OneSymbolMore(sym: nat, initial: nat)
      requires sym < symbols
      ensures (sym + 1) * initial == sym * initial + initial <= symbols * initial
    {
      MulMono(sym + 1, symbols, initial);
    }

    method SeedSymbol(sym: nat, initial: nat, seeds: (nat, nat) -> OrderDraw)
      requires Valid() && sym < symbols && nextRef + initial < TWO_64
      modifies this
      ensures Valid() && nextRef == old(nextRef) + initial && messages == old(messages) + initial
      ensures old(records) <= records && mids == old(mids)
      ensures live == Seeded(old(live), old(mids[sym]), old(nextRef), sym, seeds, initial)
    {
      hide Written, Lockstep, Push, PickPrice, RecordOf, AddMessage, AddMpidMessage, HeaderNow;
      for i := 0 to initial
        invariant Valid() && nextRef == old(nextRef) + i && messages == old(messages) + i
        invariant old(records) <= records && mids == old(mids)
        invariant live == Seeded(old(live), old(mids[sym]), old(nextRef), sym, seeds, i)
      {
        AddOrder(sym, seeds(sym, i));
      }
    }

    lemma Finished()
      requires Valid() && forall s :: 0 <= s < symbols ==> live[s] == []
      ensures Records(out) == records && Consumed(out) == |out| && |records| == messages
      ensures AllWellFormed(records) && Drained(records, peak) && (Roomy(records) ==> LeavesNothing(records))
      ensures peak < TWO_32 ==> Roomy(records)
    {
      hide SelfConsistent, Roomy, Lockstep, ApplyCalls, LeavesNothing;
      RecordsOfJoin(records, []);
      assert Join(records) + [] == out;
      WellFormedStream(records);
      DrainedHasNoOrders(live, engine, nextRef);
      RoomyLeavesNothing(records, peak);
    }
  }
}
