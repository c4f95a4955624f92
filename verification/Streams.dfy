/**
 Self-consistent streams of records, as the generator promises them (include/itch/sim/synthetic_feed.hpp:5-10), and
 what an engine makes of one.
 */
module Streams {
  import opened Machine
  import opened OrderTable
  import opened Books
  import opened Aggregation
  import opened Parsing
  import opened Dispatch
  import opened Publishing

  /** It names a live order of its own locate for at most its shares, and uses fresh references. */
  ghost predicate Sensible(e: Engine, l: u16, ev: Option<Event>) {
    match ev
    case Some(Add(locate, ref, _, shares, _)) => locate == l && ref !in e.orders && shares > 0
    case Some(Reduce(ref, shares)) =>
      ref in e.orders && 0 < shares <= e.orders[ref].shares && e.orders[ref].locate == l
    case Some(Remove(ref)) => ref in e.orders && e.orders[ref].locate == l
    case Some(Replace(oldRef, newRef, shares, _)) =>
      oldRef in e.orders && e.orders[oldRef].locate == l && newRef !in e.orders && shares > 0
    case None => true
  }

  ghost predicate NamesLive(e: Engine, p: seq<u8>)
    requires WellFormed(p)
  {
    Sensible(e, LocateOf(p), EventIn(p))
  }

  ghost predicate SelfConsistent(ps: seq<seq<u8>>) {
    && AllWellFormed(ps)
    && forall i :: 0 <= i < |ps| ==> NamesLive(ApplyCalls(Empty(), ps[..i]), ps[i])
  }

  lemma OneMoreRecord(ps: seq<seq<u8>>, p: seq<u8>)
    requires SelfConsistent(ps) && WellFormed(p) && NamesLive(ApplyCalls(Empty(), ps), p)
    ensures SelfConsistent(ps + [p]) && ApplyCalls(Empty(), ps + [p]) == Effect(ApplyCalls(Empty(), ps), p)
  {
    hide NamesLive, WellFormed, Effect;
    var all := ps + [p];
    assert all[..|ps|] == ps;
    forall i | 0 <= i < |all| ensures WellFormed(all[i]) && NamesLive(ApplyCalls(Empty(), all[..i]), all[i]) {
      if i < |ps| { assert all[..i] == ps[..i] && all[i] == ps[i]; }
    }
  }

  lemma SelfConsistentPrefix(ps: seq<seq<u8>>)
    requires SelfConsistent(ps) && ps != []
    ensures var n := |ps| - 1;
      SelfConsistent(ps[..n]) && WellFormed(ps[n]) && NamesLive(ApplyCalls(Empty(), ps[..n]), ps[n])
  {
    hide WellFormed, NamesLive, ApplyCalls;
    var n := |ps| - 1;
    forall i | 0 <= i < n ensures NamesLive(ApplyCalls(Empty(), ps[..n][..i]), ps[..n][i]) {
      assert ps[..n][..i] == ps[..i];
    }
  }

  lemma LastCall(ps: seq<seq<u8>>)
    requires AllWellFormed(ps) && ps != []
    ensures var n := |ps| - 1; ApplyCalls(Empty(), ps) == Effect(ApplyCalls(Empty(), ps[..n]), ps[n])
  {
    hide WellFormed, Effect;
  }

  lemma WellFormedStream(ps: seq<seq<u8>>)
    requires SelfConsistent(ps)
    ensures AllWellFormed(ps)
  {
  }

  // ---------- room for every order ----------

  ghost predicate FindsRoom(e: Engine, p: seq<u8>)
    requires WellFormed(p)
  {
    match EventIn(p)
    case Some(ev) => HasRoom(e, ev)
    case None => true
  }

  /** No order of the stream joins a level whose 32-bit counter is full. */
  ghost predicate Roomy(ps: seq<seq<u8>>)
    requires AllWellFormed(ps)
  {
    forall i :: 0 <= i < |ps| ==> FindsRoom(ApplyCalls(Empty(), ps[..i]), ps[i])
  }

  /** At no time are more than `n` orders alive. */
  ghost predicate NeverMore(ps: seq<seq<u8>>, n: nat)
    requires AllWellFormed(ps)
  {
    forall i :: 0 <= i <= |ps| ==> |ApplyCalls(Empty(), ps[..i]).orders| <= n
  }

  lemma RoomyPrefix(ps: seq<seq<u8>>)
    requires AllWellFormed(ps) && ps != []
    ensures var n := |ps| - 1;
      AllWellFormed(ps[..n]) && WellFormed(ps[n])
      && (Roomy(ps) ==> Roomy(ps[..n]) && FindsRoom(ApplyCalls(Empty(), ps[..n]), ps[n]))
  {
    hide WellFormed, FindsRoom, ApplyCalls;
    var n := |ps| - 1;
    if Roomy(ps) {
      forall i | 0 <= i < n ensures FindsRoom(ApplyCalls(Empty(), ps[..n][..i]), ps[..n][i]) {
        assert ps[..n][..i] == ps[..i];
      }
    }
  }

  /** The books and the error counters as they should be. */
  ghost predicate InOrder(e: Engine) { Consistent(e) && e.stats == Stats(0, 0, 0) }

  lemma SensibleStep(e: Engine, p: seq<u8>)
    requires InOrder(e) && WellFormed(p) && NamesLive(e, p)
    ensures FindsRoom(e, p) ==> InOrder(Effect(e, p))
    ensures |e.orders| < TWO_32 && |Effect(e, p).orders| < TWO_32 ==> FindsRoom(e, p)
  {
    hide WellFormed, LocateOf, EventIn;
    match EventIn(p)
    case Some(ev) =>
      SensibleEvent(e, LocateOf(p), ev);
      if |e.orders| < TWO_32 && |Apply(e, ev).0.orders| < TWO_32 { SensibleHasRoom(e, LocateOf(p), ev); }
    case None =>
  }

  lemma SensibleEvent(e: Engine, l: u16, ev: Event)
    requires InOrder(e) && Sensible(e, l, Some(ev))
    ensures HasRoom(e, ev) ==> InOrder(Apply(e, ev).0)
  {
    hide Consistent, RoomFor, Levels.Add, Levels.Reduce, Levels.ReduceResult;
    ConsistentIsShaped(e);
    if HasRoom(e, ev) { StepKeepsConsistent(e, ev); }
  }

  lemma SensibleHasRoom(e: Engine, l: u16, ev: Event)
    requires Consistent(e) && Shaped(e) && Sensible(e, l, Some(ev))
    requires |e.orders| < TWO_32 && |Apply(e, ev).0.orders| < TWO_32
    ensures HasRoom(e, ev)
  {
    hide Consistent, RoomFor, Levels.Add, Levels.Reduce, Levels.ReduceResult;
    ConsistentIsShaped(e);
    match ev
    case Add(locate, ref, side, shares, price) =>
      MapSizes(e.orders, ref, Order(ref, price, shares, locate, side));
      FewOrdersHaveRoom(e, locate, side, price);
    case Replace(oldRef, _, _, price) =>
      var o := e.orders[oldRef];
      RemoveKeepsConsistent(e, oldRef);
      RemoveShrinks(e, oldRef);
      FewOrdersHaveRoom(RemoveOrder(e, oldRef).0, o.locate, o.side, price);
    case _ =>
  }

  /** In a self-consistent stream whose orders find room, the books are right and no error is counted. */
  lemma {:induction false} RoomyIsInOrder(ps: seq<seq<u8>>)
    requires SelfConsistent(ps) && Roomy(ps)
    ensures InOrder(ApplyCalls(Empty(), ps))
  {
    hide WellFormed, Effect, NamesLive, FindsRoom, Roomy, InOrder, SelfConsistent;
    if ps == [] {
      NothingIsInOrder();
    } else {
      var n := |ps| - 1;
      WellFormedStream(ps);
      SelfConsistentPrefix(ps);
      LastCall(ps);
      RoomyPrefix(ps);
      RoomyIsInOrder(ps[..n]);
      SensibleStep(ApplyCalls(Empty(), ps[..n]), ps[n]);
    }
  }

  lemma NothingIsInOrder()
    ensures InOrder(Empty()) && ApplyCalls(Empty(), []) == Empty()
  {
    EmptyIsConsistent();
  }

  /** They find room as long as fewer than 2^32 orders are alive at a time. */
  lemma {:induction false} FewLiveOrdersAreRoomy(ps: seq<seq<u8>>, most: nat)
    requires SelfConsistent(ps) && NeverMore(ps, most) && most < TWO_32
    ensures Roomy(ps)
  {
    hide WellFormed, Effect, NamesLive, FindsRoom, InOrder, SelfConsistent, ApplyCalls;
    WellFormedStream(ps);
    if ps != [] {
      var n := |ps| - 1;
      SelfConsistentPrefix(ps);
      LastCall(ps);
      NeverMorePrefix(ps, most);
      FewLiveOrdersAreRoomy(ps[..n], most);
      RoomyIsInOrder(ps[..n]);
      SensibleStep(ApplyCalls(Empty(), ps[..n]), ps[n]);
      forall i | 0 <= i < |ps| ensures FindsRoom(ApplyCalls(Empty(), ps[..i]), ps[i]) {
        if i < n { assert ps[..n][..i] == ps[..i] && ps[..n][i] == ps[i]; }
      }
    }
  }

  lemma NeverMorePrefix(ps: seq<seq<u8>>, most: nat)
    requires AllWellFormed(ps) && NeverMore(ps, most) && ps != []
    ensures var n := |ps| - 1;
      NeverMore(ps[..n], most) && |ApplyCalls(Empty(), ps[..n]).orders| <= most
        && |ApplyCalls(Empty(), ps).orders| <= most
  {
    hide WellFormed, ApplyCalls;
    var n := |ps| - 1;
    forall i | 0 <= i <= n ensures |ApplyCalls(Empty(), ps[..n][..i]).orders| <= most {
      assert ps[..n][..i] == ps[..i];
    }
    assert ps[..n + 1] == ps;
  }

  lemma NeverMoreSnoc(ps: seq<seq<u8>>, p: seq<u8>, most: nat, more: nat)
    requires AllWellFormed(ps) && WellFormed(p) && NeverMore(ps, most) && most <= more
    requires |Effect(ApplyCalls(Empty(), ps), p).orders| <= more
    ensures AllWellFormed(ps + [p]) && NeverMore(ps + [p], more)
  {
    hide WellFormed, Effect;
    var all := ps + [p];
    assert all[..|ps|] == ps;
    forall i | 0 <= i <= |all| ensures |ApplyCalls(Empty(), all[..i]).orders| <= more {
      if i <= |ps| { assert all[..i] == ps[..i]; } else { assert all[..i] == all; }
    }
  }

  /** A self-consistent stream that has at most `most` orders alive at a time, and leaves none. */
  ghost predicate Drained(ps: seq<seq<u8>>, most: nat) {
    SelfConsistent(ps) && NeverMore(ps, most) && ApplyCalls(Empty(), ps).orders == map[]
  }

  ghost predicate LeavesNothing(ps: seq<seq<u8>>)
    requires AllWellFormed(ps)
  {
    ApplyCalls(Empty(), ps) == Empty()
  }

  /** A stream that leaves no order leaves an empty engine: no level, no error counted. */
  lemma RoomyLeavesNothing(ps: seq<seq<u8>>, most: nat)
    requires Drained(ps, most)
    ensures AllWellFormed(ps)
    ensures Roomy(ps) ==> LeavesNothing(ps)
    ensures most < TWO_32 ==> Roomy(ps)
  {
    hide SelfConsistent, Roomy, ApplyCalls;
    WellFormedStream(ps);
    if most < TWO_32 { FewLiveOrdersAreRoomy(ps, most); }
    if Roomy(ps) {
      RoomyIsInOrder(ps);
      NoOrdersNoBooks(ApplyCalls(Empty(), ps));
    }
  }
}
