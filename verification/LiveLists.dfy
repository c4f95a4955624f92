/**
 The generator's lists of live orders against the engine's order map (include/itch/sim/synthetic_feed.hpp:66-75,
 120-209).
 */
module LiveLists {
  import opened Machine
  import opened OrderTable
  import opened Levels
  import opened Books
  import opened Publishing

  datatype Live = Live(ref: u64, price: u32, shares: u32, side: u8)

  /** One list per symbol; symbol s trades under locate s + 1. */
  type Lists = seq<seq<Live>>

  const MAX_SYMBOLS := 65535

  function OrderOf(s: nat, o: Live): Order
    requires s < MAX_SYMBOLS
  {
    Order(o.ref, o.price, o.shares, s + 1, o.side)
  }

  predicate At(live: Lists, s: int, i: int) { 0 <= s < |live| && 0 <= i < |live[s]| }

  ghost predicate Listed(live: Lists, m: map<u64, Order>)
    requires |live| <= MAX_SYMBOLS
  {
    forall s, i :: At(live, s, i) ==> live[s][i].ref in m && m[live[s][i].ref] == OrderOf(s, live[s][i])
  }

  ghost predicate HasRef(live: Lists, r: u64) { exists s, i :: At(live, s, i) && live[s][i].ref == r }

  ghost predicate Distinct(live: Lists) {
    forall s, i, t, j :: At(live, s, i) && At(live, t, j) && live[s][i].ref == live[t][j].ref ==> s == t && i == j
  }

  /** The lists hold exactly the orders of the map, each once, under their symbol. */
  ghost predicate Mirrors(live: Lists, m: map<u64, Order>) {
    |live| <= MAX_SYMBOLS && Listed(live, m) && (forall r :: r in m ==> HasRef(live, r)) && Distinct(live)
  }

  function Push(live: Lists, s: nat, o: Live): Lists
    requires s < |live|
  {
    live[s := live[s] + [o]]
  }

  function Put(live: Lists, s: nat, i: nat, o: Live): Lists
    requires At(live, s, i)
  {
    live[s := live[s][i := o]]
  }

  /** The last order takes the place of the erased one. */
  function Erase(live: Lists, s: nat, i: nat): Lists
    requires At(live, s, i)
  {
    var n := |live[s]| - 1;
    live[s := live[s][i := live[s][n]][..n]]
  }

  /** An order loses shares, and its place when none are left. */
  function Shrunk(live: Lists, s: nat, i: nat, shares: u32): Lists
    requires At(live, s, i) && shares <= live[s][i].shares
  {
    var left := live[s][i].(shares := live[s][i].shares - shares);
    if left.shares == 0 then Erase(live, s, i) else Put(live, s, i, left)
  }

  lemma PushAt(live: Lists, s: nat, o: Live, t: int, j: int)
    requires s < |live|
    ensures var now := Push(live, s, o);
      && (At(now, t, j) <==> At(live, t, j) || (t == s && j == |live[s]|))
      && (At(now, t, j) ==> now[t][j] == if t == s && j == |live[s]| then o else live[t][j])
  {
  }

  lemma PutAt(live: Lists, s: nat, i: nat, o: Live, t: int, j: int)
    requires At(live, s, i)
    ensures var now := Put(live, s, i, o);
      && (At(now, t, j) <==> At(live, t, j))
      && (At(now, t, j) ==> now[t][j] == if t == s && j == i then o else live[t][j])
  {
  }

  lemma EraseAt(live: Lists, s: nat, i: nat, t: int, j: int)
    requires At(live, s, i)
    ensures var now, last := Erase(live, s, i), |live[s]| - 1;
      && (At(now, t, j) <==> At(live, t, j) && !(t == s && j == last))
      && (At(now, t, j) ==> now[t][j] == if t == s && j == i then live[s][last] else live[t][j])
  {
  }

  lemma SameLength(live: Lists, s: nat, i: nat, o: Live)
    requires s < |live|
    ensures |Push(live, s, o)| == |live|
    ensures At(live, s, i) ==> |Put(live, s, i, o)| == |Erase(live, s, i)| == |live|
  {
  }

  lemma PushMirrors(live: Lists, m: map<u64, Order>, s: nat, o: Live)
    requires Mirrors(live, m) && s < |live| && o.ref !in m
    ensures Mirrors(Push(live, s, o), m[o.ref := OrderOf(s, o)])
  {
    hide Push;
    var now, n := Push(live, s, o), m[o.ref := OrderOf(s, o)];
    SameLength(live, s, 0, o);
    forall t, j ensures At(now, t, j) <==> At(live, t, j) || (t == s && j == |live[s]|) { PushAt(live, s, o, t, j); }
    forall t, j | At(now, t, j) ensures now[t][j] == if t == s && j == |live[s]| then o else live[t][j] {
      PushAt(live, s, o, t, j);
    }
    forall r | r in n ensures HasRef(now, r) {
      if r == o.ref {
        assert At(now, s, |live[s]|);
      } else {
        assert HasRef(live, r);
        var t, j :| At(live, t, j) && live[t][j].ref == r;
        assert At(now, t, j);
      }
    }
  }

  lemma DistinctRefs(live: Lists)
    requires Distinct(live)
    ensures forall s, i, t, j :: At(live, s, i) && At(live, t, j) && live[s][i].ref == live[t][j].ref ==>
      s == t && i == j
  {
  }

  lemma PutDistinct(live: Lists, m: map<u64, Order>, s: nat, i: nat, o: Live)
    requires Mirrors(live, m) && At(live, s, i) && (o.ref == live[s][i].ref || o.ref !in m)
    ensures Distinct(Put(live, s, i, o))
  {
    hide Put, HasRef;
    var now := Put(live, s, i, o);
    forall t, j ensures At(now, t, j) <==> At(live, t, j) { PutAt(live, s, i, o, t, j); }
    forall t, j | At(now, t, j)
      ensures now[t][j] == if t == s && j == i then o else live[t][j] { PutAt(live, s, i, o, t, j); }
  }

  lemma PutListed(live: Lists, m: map<u64, Order>, s: nat, i: nat, o: Live)
    requires Mirrors(live, m) && At(live, s, i) && (o.ref == live[s][i].ref || o.ref !in m)
    ensures |Put(live, s, i, o)| == |live|
    ensures Listed(Put(live, s, i, o), (m - {live[s][i].ref})[o.ref := OrderOf(s, o)])
  {
    hide Put, HasRef, Distinct;
    var now, n := Put(live, s, i, o), (m - {live[s][i].ref})[o.ref := OrderOf(s, o)];
    DistinctRefs(live);
    SameLength(live, s, i, o);
    forall t, j | At(now, t, j) ensures now[t][j].ref in n && n[now[t][j].ref] == OrderOf(t, now[t][j]) {
      PutAt(live, s, i, o, t, j);
    }
  }

  lemma PutMirrors(live: Lists, m: map<u64, Order>, s: nat, i: nat, o: Live)
    requires Mirrors(live, m) && At(live, s, i) && (o.ref == live[s][i].ref || o.ref !in m)
    ensures Mirrors(Put(live, s, i, o), (m - {live[s][i].ref})[o.ref := OrderOf(s, o)])
  {
    PutListed(live, m, s, i, o);
    PutDistinct(live, m, s, i, o);
    PutHasRefs(live, m, s, i, o);
    hide Put, Listed, Distinct, HasRef;
  }

  lemma PutHasRefs(live: Lists, m: map<u64, Order>, s: nat, i: nat, o: Live)
    requires Mirrors(live, m) && At(live, s, i)
    ensures forall r :: r == o.ref || (r in m && r != live[s][i].ref) ==> HasRef(Put(live, s, i, o), r)
  {
    hide Put, Distinct, Listed;
    var now := Put(live, s, i, o);
    forall r | r == o.ref || (r in m && r != live[s][i].ref) ensures HasRef(now, r) {
      if r == o.ref {
        PutAt(live, s, i, o, s, i);
      } else {
        assert HasRef(live, r);
        var t, j :| At(live, t, j) && live[t][j].ref == r;
        PutAt(live, s, i, o, t, j);
      }
    }
  }

  lemma EraseMirrors(live: Lists, m: map<u64, Order>, s: nat, i: nat)
    requires Mirrors(live, m) && At(live, s, i)
    ensures Mirrors(Erase(live, s, i), m - {live[s][i].ref})
  {
    hide Erase;
    var now, gone := Erase(live, s, i), live[s][i].ref;
    var last := |live[s]| - 1;
    SameLength(live, s, i, live[s][i]);
    assert At(live, s, last);
    forall t, j ensures At(now, t, j) <==> At(live, t, j) && !(t == s && j == last) { EraseAt(live, s, i, t, j); }
    forall t, j | At(now, t, j) ensures now[t][j] == if t == s && j == i then live[s][last] else live[t][j] {
      EraseAt(live, s, i, t, j);
    }
    forall r | r in m - {gone} ensures HasRef(now, r) {
      assert HasRef(live, r);
      var t, j :| At(live, t, j) && live[t][j].ref == r;
      if t == s && j == last { assert At(now, s, i); } else { assert At(now, t, j); }
    }
  }

  // ---------- in lock step with an engine ----------

  /**
   The engine's orders are the listed ones, all below the next reference, none of them empty; and each event found its
   order.
   */
  ghost predicate Lockstep(live: Lists, e: Engine, nextRef: u64) {
    && nextRef > 0 && Shaped(e) && e.stats.unknownRef == e.stats.overfill == 0
    && Mirrors(live, e.orders)
    && (forall r :: r in e.orders ==> 0 < r < nextRef && e.orders[r].shares > 0)
  }

  lemma AddInStep(live: Lists, e: Engine, nextRef: u64, s: nat, o: Live)
    requires Lockstep(live, e, nextRef) && s < |live| && nextRef + 1 < TWO_64 && o.ref == nextRef && o.shares > 0
    ensures o.ref !in e.orders
    ensures var f := Apply(e, Add(s + 1, o.ref, o.side, o.shares, o.price)).0;
      Lockstep(Push(live, s, o), f, nextRef + 1) && |f.orders| == |e.orders| + 1
  {
    hide Mirrors, Push, Levels.Add;
    MirrorsSize(live, e.orders);
    PushMirrors(live, e.orders, s, o);
    MapSizes(e.orders, o.ref, OrderOf(s, o));
  }

  lemma MirrorsSize(live: Lists, m: map<u64, Order>)
    requires Mirrors(live, m)
    ensures |live| <= MAX_SYMBOLS
  {
  }

  lemma MirrorsAt(live: Lists, m: map<u64, Order>, s: nat, i: nat)
    requires Mirrors(live, m) && At(live, s, i)
    ensures |live| <= MAX_SYMBOLS && live[s][i].ref in m && m[live[s][i].ref] == OrderOf(s, live[s][i])
  {
  }

  lemma RemoveInStep(live: Lists, e: Engine, nextRef: u64, s: nat, i: nat)
    requires Lockstep(live, e, nextRef) && At(live, s, i)
    ensures var f := Apply(e, Remove(live[s][i].ref)).0;
      Lockstep(Erase(live, s, i), f, nextRef) && |f.orders| == |e.orders| - 1
  {
    hide Mirrors, Erase, Levels.Reduce, ReduceResult;
    MirrorsAt(live, e.orders, s, i);
    EraseMirrors(live, e.orders, s, i);
    MapSizes(e.orders, live[s][i].ref, OrderOf(s, live[s][i]));
  }

  /** An execution or a cancel of part or all of a live order. */
  lemma ReduceInStep(live: Lists, e: Engine, nextRef: u64, s: nat, i: nat, shares: u32)
    requires Lockstep(live, e, nextRef) && At(live, s, i) && 0 < shares <= live[s][i].shares
    ensures var f := Apply(e, Reduce(live[s][i].ref, shares)).0;
      Lockstep(Shrunk(live, s, i, shares), f, nextRef) && |f.orders| <= |e.orders|
  {
    hide Mirrors, Erase, Put, Levels.Reduce, ReduceResult;
    var o := live[s][i];
    var left := o.(shares := o.shares - shares);
    MirrorsAt(live, e.orders, s, i);
    MapSizes(e.orders, o.ref, OrderOf(s, left));
    if left.shares == 0 {
      EraseMirrors(live, e.orders, s, i);
    } else {
      PutMirrors(live, e.orders, s, i, left);
      assert (e.orders - {o.ref})[o.ref := OrderOf(s, left)] == e.orders[o.ref := OrderOf(s, left)];
    }
  }

  lemma ReplaceInStep(live: Lists, e: Engine, nextRef: u64, s: nat, i: nat, shares: u32, price: u32)
    requires Lockstep(live, e, nextRef) && At(live, s, i) && nextRef + 1 < TWO_64 && shares > 0
    ensures nextRef !in e.orders
    ensures var f := Apply(e, Replace(live[s][i].ref, nextRef, shares, price)).0;
      Lockstep(Put(live, s, i, Live(nextRef, price, shares, live[s][i].side)), f, nextRef + 1)
        && |f.orders| == |e.orders|
  {
    hide Mirrors, Put, Levels.Add, Levels.Reduce, ReduceResult;
    var o := live[s][i];
    var now := Live(nextRef, price, shares, o.side);
    MirrorsAt(live, e.orders, s, i);
    PutMirrors(live, e.orders, s, i, now);
    MapSizes(e.orders, o.ref, OrderOf(s, o));
    MapSizes(e.orders - {o.ref}, nextRef, OrderOf(s, now));
  }

  /** When the lists have run empty, no order is left. */
  lemma DrainedHasNoOrders(live: Lists, e: Engine, nextRef: u64)
    requires Lockstep(live, e, nextRef) && forall s :: 0 <= s < |live| ==> live[s] == []
    ensures e.orders == map[]
  {
    forall r: u64 ensures r !in e.orders { NoRefLeft(live, r); }
  }

  lemma NoRefLeft(live: Lists, r: u64)
    requires forall s :: 0 <= s < |live| ==> live[s] == []
    ensures !HasRef(live, r)
  {
  }
}
