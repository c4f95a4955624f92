/**
 What each event does to the live orders and the error counters, and what its update tells
 (include/itch/order_book.hpp:191-239, 270-275).
 */
module Updates {
  import opened Machine
  import opened OrderTable
  import opened Levels
  import opened Books
  import opened Totals
  import opened Aggregation

  /** The orders afterwards: a reduction takes at most what is there, and the order with its last share. */
  lemma OrdersAfter(e: Engine, ev: Event)
    requires Shaped(e)
    ensures var m, n := e.orders, Apply(e, ev).0.orders;
      match ev
      case Add(locate, ref, side, shares, price) => n == m[ref := Order(ref, price, shares, locate, side)]
      case Reduce(ref, shares) =>
        if ref !in m || shares == 0 || m[ref].shares == 0 then n == m
        else if shares >= m[ref].shares then n == m - {ref}
        else n == m[ref := m[ref].(shares := m[ref].shares - shares)]
      case Remove(ref) => n == m - {ref}
      case Replace(oldRef, newRef, shares, price) =>
        if oldRef !in m then n == m
        else n == (m - {oldRef})[newRef := Order(newRef, price, shares, m[oldRef].locate, m[oldRef].side)]
  {
    hide Levels.Add, Levels.Reduce, ReduceResult;
    if ev.Remove? && ev.ref !in e.orders { assert e.orders - {ev.ref} == e.orders; }
  }

  /** The reference that an event must find, if it must. */
  function Sought(ev: Event): Option<u64> {
    match ev
    case Add(_, _, _, _, _) => None
    case Reduce(ref, _) => Some(ref)
    case Remove(ref) => Some(ref)
    case Replace(oldRef, _, _, _) => Some(oldRef)
  }

  ghost predicate Unfound(e: Engine, ev: Event) { Sought(ev).Some? && Sought(ev).value !in e.orders }

  /** The error counters count just what they are named after. */
  lemma StatsAfter(e: Engine, ev: Event)
    requires Consistent(e)
    ensures var s, t := e.stats, Apply(e, ev).0.stats;
      && t.unknownRef == s.unknownRef + (if Unfound(e, ev) then 1 else 0)
      && t.missingLevel == s.missingLevel
      && t.overfill == s.overfill +
           (if ev.Reduce? && ev.ref in e.orders && ev.shares > e.orders[ev.ref].shares then 1 else 0)
  {
    hide Levels.Add, Levels.Reduce, ReduceResult, Consistent;
    ConsistentIsShaped(e);
    match ev
    case Add(_, _, _, _, _) =>
    case Reduce(ref, shares) => ReduceKeepsConsistent(e, ref, shares);
    case Remove(ref) => RemoveKeepsConsistent(e, ref);
    case Replace(oldRef, _, _, _) => RemoveKeepsConsistent(e, oldRef);
  }

  /** A reduction of an order whose level is not there is counted, and changes no book. */
  lemma MissingLevelIsCounted(e: Engine, o: Order, shares: u32, gone: bool)
    requires Shaped(e)
    ensures var (f, u) := ApplyReduce(e, o, shares, gone); var buy := IsBuy(o.side);
      var there := Has(SideOf(e.books[o.locate], buy), KeyFor(buy, o.price));
      && f.stats == e.stats.(missingLevel := e.stats.missingLevel + if there then 0 else 1)
      && (!there ==> f.books == e.books && !u.topChanged)
  {
  }

  /**
   What the update tells of the order: the price, the locate and the side, read from the request or the stored order.
   */
  lemma UpdateTells(e: Engine, ev: Event)
    requires Shaped(e)
    ensures var u := Apply(e, ev).1;
      && (u.Unknown? <==> Unfound(e, ev))
      && match ev
         case Add(locate, ref, side, shares, price) => u.price == price && u.locate == locate && u.side == side
         case Reduce(ref, _) => ref in e.orders ==> Names(u, e.orders[ref].price, e.orders[ref])
         case Remove(ref) => ref in e.orders ==> Names(u, e.orders[ref].price, e.orders[ref])
         case Replace(oldRef, _, _, price) => oldRef in e.orders ==> Names(u, price, e.orders[oldRef])
  {
    hide Levels.Add, Levels.Reduce, ReduceResult, AddTouchesTop;
  }

  predicate Names(u: Update, price: u32, o: Order) {
    u.Update? && u.price == price && u.locate == o.locate && u.side == o.side
  }

  // ---------- conservation ----------

  ghost function SharesOf(m: map<u64, Order>): map<u64, nat> { map r | r in m :: m[r].shares as nat }

  /** All shares resting in an engine. */
  ghost function Resting(e: Engine): nat { Total(SharesOf(e.orders)) }

  /** The shares that an event brings in. */
  ghost function Brings(e: Engine, ev: Event): nat {
    match ev
    case Add(_, _, _, shares, _) => shares
    case Replace(oldRef, _, shares, _) => if oldRef in e.orders then shares else 0
    case _ => 0
  }

  /** The shares that it takes out. */
  ghost function Takes(e: Engine, ev: Event): nat {
    match ev
    case Add(_, _, _, _, _) => 0
    case Reduce(ref, shares) => if ref in e.orders then Min(shares, e.orders[ref].shares) else 0
    case Remove(ref) => if ref in e.orders then e.orders[ref].shares else 0
    case Replace(oldRef, _, _, _) => if oldRef in e.orders then e.orders[oldRef].shares else 0
  }

  lemma SharesSet(m: map<u64, Order>, r: u64, o: Order)
    ensures Total(SharesOf(m[r := o])) == Total(SharesOf(m)) + o.shares - if r in m then m[r].shares else 0
  {
    hide Total;
    var b := SharesOf(m);
    assert SharesOf(m[r := o]) == b[r := o.shares as nat];
    if r in m { TotalUpdate(b, r, o.shares as nat); } else { TotalInsert(b, r, o.shares as nat); }
  }

  lemma SharesDrop(m: map<u64, Order>, r: u64)
    requires r in m
    ensures Total(SharesOf(m - {r})) == Total(SharesOf(m)) - m[r].shares
  {
    hide Total;
    TotalSplit(SharesOf(m), r);
    assert SharesOf(m - {r}) == SharesOf(m) - {r};
  }

  /** One event: what rests is what rested, and what came in, without what went out. */
  lemma StepConserves(e: Engine, ev: Event)
    requires Shaped(e) && Fresh(e, ev)
    ensures Resting(Apply(e, ev).0) == Resting(e) + Brings(e, ev) - Takes(e, ev)
  {
    hide Apply, Total, SharesOf;
    OrdersAfter(e, ev);
    var m := e.orders;
    match ev
    case Add(locate, ref, side, shares, price) => SharesSet(m, ref, Order(ref, price, shares, locate, side));
    case Reduce(ref, shares) =>
      if ref in m && shares > 0 && m[ref].shares > 0 {
        if shares >= m[ref].shares { SharesDrop(m, ref); }
        else { SharesSet(m, ref, m[ref].(shares := m[ref].shares - shares)); }
      }
    case Remove(ref) =>
      if ref in m { SharesDrop(m, ref); } else { assert m - {ref} == m; }
    case Replace(oldRef, newRef, shares, price) =>
      if oldRef in m {
        SharesDrop(m, oldRef);
        SharesSet(m - {oldRef}, newRef, Order(newRef, price, shares, m[oldRef].locate, m[oldRef].side));
      }
  }

  ghost function Brought(evs: seq<Event>): nat {
    if evs == [] then 0 else
      var n := |evs| - 1;
      Brought(evs[..n]) + Brings(Run(Empty(), evs[..n]), evs[n])
  }

  ghost function Taken(evs: seq<Event>): nat {
    if evs == [] then 0 else
      var n := |evs| - 1;
      Taken(evs[..n]) + Takes(Run(Empty(), evs[..n]), evs[n])
  }

  /** No share is lost or made up over any run: what came in went out or still rests. */
  lemma {:induction false} SharesAreConserved(evs: seq<Event>)
    requires FreshRun(Empty(), evs)
    ensures Brought(evs) == Taken(evs) + Resting(Run(Empty(), evs))
  {
    hide Apply, Resting, Brings, Takes, Fresh;
    if evs == [] {
      NothingRests();
    } else {
      var n := |evs| - 1;
      FreshPrefix(evs);
      SharesAreConserved(evs[..n]);
      StepConserves(Run(Empty(), evs[..n]), evs[n]);
    }
  }

  lemma NothingRests()
    ensures Resting(Empty()) == 0
  {
    assert SharesOf(map[]) == map[];
    EmptyTotal();
  }

  lemma FreshPrefix(evs: seq<Event>)
    requires FreshRun(Empty(), evs) && evs != []
    ensures var n := |evs| - 1; FreshRun(Empty(), evs[..n]) && Fresh(Run(Empty(), evs[..n]), evs[n])
  {
    hide Fresh, Run;
    var n := |evs| - 1;
    forall i | 0 <= i < n ensures Fresh(Run(Empty(), evs[..n][..i]), evs[..n][i]) {
      assert evs[..n][..i] == evs[..i];
    }
  }
}
