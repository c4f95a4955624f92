/** The top-of-book flag of an update (include/itch/order_book.hpp:49-94, 150-155, 228-239). */
module Tops {
  import opened Machine
  import opened OrderTable
  import opened Levels
  import opened Books
  import opened Totals
  import opened Aggregation

  /** The best level of a side, which is all that the top of book shows of it. */
  function Best(s: seq<Level>): Option<Level> {
    if s == [] then None else Some(s[|s| - 1])
  }

  lemma AddBest(s: seq<Level>, key: u32, shares: u32)
    requires Sorted(s)
    ensures !AddTouchesTop(s, key) ==> Best(Levels.Add(s, key, shares)) == Best(s)
  {
  }

  lemma ReduceBest(s: seq<Level>, key: u32, shares: u32, gone: bool)
    requires Sorted(s)
    ensures ReduceResult(s, key) != TopChanged ==> Best(Levels.Reduce(s, key, shares, gone)) == Best(s)
  {
  }

  ghost predicate BooksSorted(e: Engine) {
    Shaped(e) && forall l: u16, buy: bool :: Sorted(SideOf(e.books[l], buy))
  }

  /** Books other than the update's are untouched, and with a clear flag so is the top of the update's book. */
  ghost predicate Quiet(e: Engine, f: Engine, u: Update) {
    && Shaped(e) && Shaped(f)
    && forall l: u16 ::
         && (u.Unknown? || l != u.locate ==> f.books[l] == e.books[l])
         && (u.Unknown? || !u.topChanged ==> TopOf(f.books[l]) == TopOf(e.books[l]))
  }

  /** The top of a book is a function of its two best levels. */
  lemma SameBestSameTop(b: Book, c: Book)
    requires Best(b.bids) == Best(c.bids) && Best(b.asks) == Best(c.asks)
    ensures TopOf(b) == TopOf(c)
  {
  }

  lemma AddQuiet(e: Engine, locate: u16, ref: u64, side: u8, shares: u32, price: u32)
    requires BooksSorted(e)
    ensures var (f, u) := AddOrder(e, locate, ref, side, shares, price); Quiet(e, f, u)
  {
    hide Levels.Add, Sorted, AddTouchesTop, Best, TopOf;
    var s := SideOf(e.books[locate], IsBuy(side));
    var f := AddOrder(e, locate, ref, side, shares, price).0;
    AddBest(s, KeyFor(IsBuy(side), price), shares);
    if !AddTouchesTop(s, KeyFor(IsBuy(side), price)) { SameBestSameTop(e.books[locate], f.books[locate]); }
  }

  lemma ApplyReduceQuiet(e: Engine, o: Order, shares: u32, gone: bool)
    requires BooksSorted(e)
    ensures var (f, u) := ApplyReduce(e, o, shares, gone); Quiet(e, f, u) && BooksSorted(f)
  {
    hide Levels.Reduce, ReduceResult, Sorted, Best, TopOf;
    var key := KeyFor(IsBuy(o.side), o.price);
    var s := SideOf(e.books[o.locate], IsBuy(o.side));
    var f := ApplyReduce(e, o, shares, gone).0;
    ReduceBest(s, key, shares, gone);
    ReduceAt(s, key, shares, gone, key);
    if ReduceResult(s, key) != TopChanged { SameBestSameTop(e.books[o.locate], f.books[o.locate]); }
    forall l: u16, buy: bool ensures Sorted(SideOf(f.books[l], buy)) {
      assert Sorted(SideOf(e.books[l], buy));
    }
  }

  /** A clear flag never hides a change of the top, for any event; in a Replace the flag covers both halves. */
  lemma ClearFlagMeansSameTop(e: Engine, ev: Event)
    requires BooksSorted(e)
    ensures var (f, u) := Apply(e, ev); Quiet(e, f, u)
  {
    hide BooksSorted, TopOf, Quiet, AddOrder, ReduceOrder, RemoveOrder, ReplaceOrder;
    match ev
    case Add(locate, ref, side, shares, price) => AddQuiet(e, locate, ref, side, shares, price);
    case Reduce(ref, wanted) => ReduceQuiet(e, ref, wanted);
    case Remove(ref) => RemoveQuiet(e, ref);
    case Replace(oldRef, newRef, shares, price) => ReplaceQuiet(e, oldRef, newRef, shares, price);
  }

  lemma ReduceQuiet(e: Engine, ref: u64, wanted: u32)
    requires BooksSorted(e)
    ensures var (f, u) := ReduceOrder(e, ref, wanted); Quiet(e, f, u)
  {
    hide BooksSorted, TopOf, ApplyReduce;
    if ref in e.orders {
      var o := e.orders[ref];
      var over := wanted > o.shares;
      var g := if over then e.(stats := e.stats.(overfill := e.stats.overfill + 1)) else e;
      var shares := if over then o.shares else wanted;
      assert BooksSorted(g) by { SameBooksSorted(e, g); }
      ApplyReduceQuiet(g, o.(shares := o.shares - shares), shares, o.shares == shares);
    }
  }

  lemma RemoveQuiet(e: Engine, ref: u64)
    requires BooksSorted(e)
    ensures var (f, u) := RemoveOrder(e, ref); Quiet(e, f, u) && BooksSorted(f)
  {
    hide BooksSorted, TopOf, ApplyReduce;
    if ref in e.orders {
      var o := e.orders[ref];
      ApplyReduceQuiet(e, o, o.shares, true);
      SameBooksSorted(ApplyReduce(e, o, o.shares, true).0, RemoveOrder(e, ref).0);
    } else {
      SameBooksSorted(e, UnknownRef(e));
    }
  }

  lemma ReplaceQuiet(e: Engine, oldRef: u64, newRef: u64, shares: u32, price: u32)
    requires BooksSorted(e)
    ensures var (f, u) := ReplaceOrder(e, oldRef, newRef, shares, price); Quiet(e, f, u)
  {
    hide BooksSorted, TopOf, ApplyReduce, AddOrder;
    RemoveQuiet(e, oldRef);
    if oldRef in e.orders {
      var o := e.orders[oldRef];
      var g := RemoveOrder(e, oldRef).0;
      AddQuiet(g, o.locate, newRef, o.side, shares, price);
      UpdateLocates(e, oldRef, g, o.locate, newRef, o.side, shares, price);
    }
  }

  lemma UpdateLocates(e: Engine, oldRef: u64, g: Engine, locate: u16, ref: u64, side: u8, shares: u32, price: u32)
    requires Shaped(e) && oldRef in e.orders && Shaped(g)
    ensures var u := RemoveOrder(e, oldRef).1; u.Update? && u.locate == e.orders[oldRef].locate
    ensures AddOrder(g, locate, ref, side, shares, price).1.locate == locate
  {
  }

  lemma SameBooksSorted(e: Engine, f: Engine)
    requires BooksSorted(e) && e.books == f.books
    ensures BooksSorted(f)
  {
  }

  lemma AddKeepsSorted(e: Engine, locate: u16, ref: u64, side: u8, shares: u32, price: u32)
    requires BooksSorted(e)
    ensures BooksSorted(AddOrder(e, locate, ref, side, shares, price).0)
  {
    hide Levels.Add, Sorted;
    var f := AddOrder(e, locate, ref, side, shares, price).0;
    var key := KeyFor(IsBuy(side), price);
    AddAt(SideOf(e.books[locate], IsBuy(side)), key, shares, key);
    forall l: u16, buy: bool ensures Sorted(SideOf(f.books[l], buy)) { assert Sorted(SideOf(e.books[l], buy)); }
  }

  lemma ReduceKeepsSorted(e: Engine, ref: u64, wanted: u32)
    requires BooksSorted(e)
    ensures BooksSorted(ReduceOrder(e, ref, wanted).0)
  {
    hide BooksSorted, ApplyReduce;
    var g := e.(stats := e.stats.(overfill := e.stats.overfill + 1));
    SameBooksSorted(e, g);
    SameBooksSorted(e, UnknownRef(e));
    if ref in e.orders {
      var o := e.orders[ref];
      var f := if wanted > o.shares then g else e;
      var shares := if wanted > o.shares then o.shares else wanted;
      var left := o.(shares := o.shares - shares);
      ApplyReduceQuiet(f, left, shares, left.shares == 0);
      if shares > 0 {
        SameBooksSorted(ApplyReduce(f, left, shares, left.shares == 0).0, ReduceOrder(e, ref, wanted).0);
      }
    }
  }

  /** Every event keeps the levels of every side strictly ascending, whatever the orders are. */
  lemma ApplyKeepsSorted(e: Engine, ev: Event)
    requires BooksSorted(e)
    ensures BooksSorted(Apply(e, ev).0)
  {
    hide BooksSorted, AddOrder, ReduceOrder, RemoveOrder;
    match ev
    case Add(locate, ref, side, shares, price) => AddKeepsSorted(e, locate, ref, side, shares, price);
    case Reduce(ref, wanted) => ReduceKeepsSorted(e, ref, wanted);
    case Remove(ref) => RemoveQuiet(e, ref);
    case Replace(oldRef, newRef, shares, price) =>
      RemoveQuiet(e, oldRef);
      if oldRef in e.orders {
        var o := e.orders[oldRef];
        AddKeepsSorted(RemoveOrder(e, oldRef).0, o.locate, newRef, o.side, shares, price);
      } else {
        SameBooksSorted(e, UnknownRef(e));
      }
  }

  // ---------- when a raised flag means a change ----------

  predicate AtTop(s: seq<Level>, key: u32) { s != [] && s[|s| - 1].key == key }

  /**
   The flag goes up although the top will not change: no share is added to the best level or taken from it, or a
   replace puts back just what it takes.  All of this can be read off the request, the stored order and the best level
   beforehand.
   */
  predicate FalseAlarm(e: Engine, ev: Event)
    requires Shaped(e)
  {
    match ev
    case Add(locate, ref, side, shares, price) =>
      var s := SideOf(e.books[locate], IsBuy(side));
      shares == 0 && (AtTop(s, KeyFor(IsBuy(side), price)) || (s == [] && price == 0))
    case Reduce(ref, _) => false
    case Remove(ref) =>
      ref in e.orders &&
      var o := e.orders[ref];
      var s := SideOf(e.books[o.locate], IsBuy(o.side));
      && o.shares == 0 && AtTop(s, KeyFor(IsBuy(o.side), o.price))
      && (s[|s| - 1].orders > 1 || (|s| == 1 && o.price == 0))
    case Replace(oldRef, _, shares, price) =>
      oldRef in e.orders &&
      var o := e.orders[oldRef];
      var buy := IsBuy(o.side);
      var s := SideOf(e.books[o.locate], buy);
      var from, to := KeyFor(buy, o.price), KeyFor(buy, price);
      if AtTop(s, from)
      then (to == from && shares == o.shares) || (to < from && o.shares == 0 && s[|s| - 1].orders > 1)
      else AtTop(s, to) && shares == 0
  }

  /** What the top of book shows of one side: a price and a quantity, both 0 when the side is empty. */
  function Shown(s: seq<Level>, buy: bool): (u32, u64) {
    if s == [] then (0, 0) else (KeyFor(buy, s[|s| - 1].key), s[|s| - 1].qty)
  }

  lemma TopIsShown(b: Book, buy: bool, t: seq<Level>)
    ensures TopOf(WithSide(b, buy, t)) != TopOf(b) <==> Shown(t, buy) != Shown(SideOf(b, buy), buy)
  {
  }

  lemma BestOfAdd(s: seq<Level>, key: u32, shares: u32)
    requires Sorted(s)
    ensures var t := Levels.Add(s, key, shares); var n := |s| - 1;
      && t != [] && (AddTouchesTop(s, key) <==> s == [] || key >= s[n].key)
      && t[|t| - 1] ==
           if s == [] || key > s[n].key then Level(key, shares, 1)
           else if key == s[n].key then Level(key, (s[n].qty + shares) % TWO_64, (s[n].orders + 1) % TWO_32)
           else s[n]
  {
  }

  lemma BestOfReduce(s: seq<Level>, key: u32, shares: u32, gone: bool)
    requires Sorted(s) && Has(s, key)
    ensures s != [] && key <= s[|s| - 1].key
    ensures var n := |s| - 1; var t := Levels.Reduce(s, key, shares, gone); var l := Less(s[n], shares, gone);
      && (ReduceResult(s, key) == TopChanged <==> key == s[n].key)
      && if key == s[n].key && l.orders == 0 then t == s[..n]
         else t != [] && t[|t| - 1] == if key == s[n].key then l else s[n]
  {
    hide Less;
    FindExact(s, key);
  }

  /** The facts about a live order's level that the flag depends on. */
  lemma LiveLevel(e: Engine, ref: u64)
    requires Consistent(e) && ref in e.orders
    ensures var o := e.orders[ref]; var buy := IsBuy(o.side); var s := SideOf(e.books[o.locate], buy);
      var key := KeyFor(buy, o.price);
      && Sorted(s) && Has(s, key)
      && var l := s[Find(s, key)];
         && l.key == key && l.orders > 0 && o.shares <= l.qty && (l.orders == 1 ==> l.qty == o.shares)
         && (AtTop(s, key) ==> l == s[|s| - 1])
  {
    hide Total;
    var o := e.orders[ref];
    var buy := IsBuy(o.side);
    var s := SideOf(e.books[o.locate], buy);
    var key := KeyFor(buy, o.price);
    assert SideAgrees(s, e.orders, o.locate, buy);
    var b := Bucket(e.orders, o.locate, buy, key);
    assert LevelIs(At(s, key), b);
    assert ref in b;
    SetFacts(b, ref, 0);
    DropFacts(b, ref);
    FindExact(s, key);
  }

  /** In a consistent engine the quantity of a level cannot wrap, even where its order counter does. */
  lemma RoomAtTop(e: Engine, locate: u16, buy: bool, key: u32)
    requires Consistent(e) && AtTop(SideOf(e.books[locate], buy), key)
    ensures var s := SideOf(e.books[locate], buy); s[|s| - 1].qty + TWO_32 - 1 < TWO_64
  {
    hide Total;
    var s := SideOf(e.books[locate], buy);
    assert SideAgrees(s, e.orders, locate, buy);
    RoomIsInTheBucket(s, e.orders, locate, buy, key);
    FindExact(s, key);
    assert LevelIs(At(s, key), Bucket(e.orders, locate, buy, key));
  }

  ghost predicate Exact(e: Engine, ev: Event)
    requires Shaped(e)
  {
    var (f, u) := Apply(e, ev);
    u.Update? ==> (u.topChanged <==> TopOf(f.books[u.locate]) != TopOf(e.books[u.locate]))
  }

  lemma AddExactIff(e: Engine, locate: u16, ref: u64, side: u8, shares: u32, price: u32)
    requires Consistent(e)
    ensures var ev := Add(locate, ref, side, shares, price); Exact(e, ev) <==> !FalseAlarm(e, ev)
  {
    hide Consistent, TopOf, Levels.Add, AddTouchesTop;
    ConsistentIsShaped(e);
    var buy := IsBuy(side);
    var s := SideOf(e.books[locate], buy);
    var key := KeyFor(buy, price);
    BooksAreSorted(e, locate, buy);
    BestOfAdd(s, key, shares);
    TopIsShown(e.books[locate], buy, Levels.Add(s, key, shares));
    if AtTop(s, key) { RoomAtTop(e, locate, buy, key); }
  }

  lemma BooksAreSorted(e: Engine, locate: u16, buy: bool)
    requires Consistent(e)
    ensures Shaped(e) && Sorted(SideOf(e.books[locate], buy))
  {
    assert SideAgrees(SideOf(e.books[locate], buy), e.orders, locate, buy);
  }

  /** What a reduction of a live order shows: the flag, and whether the best level's price or quantity moved. */
  lemma ReduceShows(e: Engine, ref: u64, shares: u32, gone: bool)
    requires Consistent(e) && ref in e.orders && shares <= e.orders[ref].shares
      && (gone ==> shares == e.orders[ref].shares)
    ensures var o := e.orders[ref]; var buy := IsBuy(o.side); var s := SideOf(e.books[o.locate], buy);
      var key := KeyFor(buy, o.price);
      var t := Levels.Reduce(s, key, shares, gone); var n := |s| - 1;
      && s != [] && Sorted(s) && Sorted(t) && key <= s[n].key && (ReduceResult(s, key) == TopChanged <==> AtTop(s, key))
      && if !AtTop(s, key) then t != [] && t[|t| - 1] == s[n]
         else
           && s[n].orders > 0 && o.shares <= s[n].qty && (s[n].orders == 1 ==> s[n].qty == o.shares)
           && if gone && s[n].orders == 1 then t == s[..n]
              else t != [] && t[|t| - 1] == Level(key, s[n].qty - shares, s[n].orders - if gone then 1 else 0)
  {
    hide Consistent, Levels.Reduce, ReduceResult, Less, Sorted;
    ConsistentIsShaped(e);
    var o := e.orders[ref];
    var buy := IsBuy(o.side);
    var s := SideOf(e.books[o.locate], buy);
    var key := KeyFor(buy, o.price);
    LiveLevel(e, ref);
    BestOfReduce(s, key, shares, gone);
    ReduceAt(s, key, shares, gone, key);
    if AtTop(s, key) { LessExact(s[|s| - 1], shares, gone); }
  }

  lemma SortedTop(s: seq<Level>)
    requires Sorted(s) && |s| > 1
    ensures s[|s| - 2].key < s[|s| - 1].key
  {
  }

  lemma ApplyReduceExactIff(e: Engine, ref: u64, shares: u32, gone: bool)
    requires Consistent(e) && ref in e.orders && shares <= e.orders[ref].shares
      && (gone ==> shares == e.orders[ref].shares)
    ensures var o := e.orders[ref]; var s := SideOf(e.books[o.locate], IsBuy(o.side));
      var (f, u) := ApplyReduce(e, o, shares, gone);
      (u.topChanged <==> TopOf(f.books[o.locate]) != TopOf(e.books[o.locate])) <==>
      !(shares == 0 && AtTop(s, KeyFor(IsBuy(o.side), o.price))
        && (!gone || s[|s| - 1].orders > 1 || (|s| == 1 && o.price == 0)))
  {
    hide Consistent, TopOf, Levels.Reduce, ReduceResult, Sorted;
    ConsistentIsShaped(e);
    var o := e.orders[ref];
    var buy := IsBuy(o.side);
    var s := SideOf(e.books[o.locate], buy);
    var key := KeyFor(buy, o.price);
    ReduceShows(e, ref, shares, gone);
    TopIsShown(e.books[o.locate], buy, Levels.Reduce(s, key, shares, gone));
    if |s| > 1 { SortedTop(s); }
  }

  lemma ReplaceExactIff(e: Engine, oldRef: u64, newRef: u64, shares: u32, price: u32)
    requires Consistent(e) && oldRef in e.orders
    ensures var ev := Replace(oldRef, newRef, shares, price); Exact(e, ev) <==> !FalseAlarm(e, ev)
  {
    hide Consistent, TopOf, Levels.Add, Levels.Reduce, ReduceResult, AddTouchesTop, Sorted;
    ConsistentIsShaped(e);
    var o := e.orders[oldRef];
    var buy := IsBuy(o.side);
    var s := SideOf(e.books[o.locate], buy);
    var from, to := KeyFor(buy, o.price), KeyFor(buy, price);
    var t := Levels.Reduce(s, from, o.shares, true);
    var r := Levels.Add(t, to, shares);
    ReduceShows(e, oldRef, o.shares, true);
    BestOfAdd(t, to, shares);
    TopIsShown(e.books[o.locate], buy, r);
    RemoveKeepsConsistent(e, oldRef);
    var g := RemoveOrder(e, oldRef).0;
    assert SideOf(g.books[o.locate], buy) == t;
    if AtTop(t, to) { RoomAtTop(g, o.locate, buy, to); }
    if |s| > 1 { SortedTop(s); }
  }

  /**
   In a consistent engine, for every event, zero shares and replaces included: the flag says just whether the top
   changed, if and only if it is no false alarm.
   */
  lemma FlagIsExactIff(e: Engine, ev: Event)
    requires Consistent(e)
    ensures Exact(e, ev) <==> !FalseAlarm(e, ev)
  {
    hide Consistent, TopOf;
    match ev
    case Add(locate, ref, side, shares, price) => AddExactIff(e, locate, ref, side, shares, price);
    case Reduce(ref, wanted) =>
      if ref in e.orders {
        var o := e.orders[ref];
        var shares := if wanted > o.shares then o.shares else wanted;
        if shares > 0 { ApplyReduceExactIff(e, ref, shares, shares == o.shares); }
      }
    case Remove(ref) =>
      if ref in e.orders { ApplyReduceExactIff(e, ref, e.orders[ref].shares, true); }
    case Replace(oldRef, newRef, shares, price) =>
      if oldRef in e.orders { ReplaceExactIff(e, oldRef, newRef, shares, price); }
  }

  ghost predicate Positive(e: Engine, ev: Event) {
    match ev
    case Add(_, _, _, shares, _) => shares > 0
    case Remove(ref) => ref in e.orders ==> e.orders[ref].shares > 0
    case Replace(oldRef, _, shares, _) => shares > 0 && (oldRef in e.orders ==> e.orders[oldRef].shares > 0)
    case _ => true
  }

  /** For add, reduce and remove of positive shares the flag is exact. */
  lemma FlagIsExact(e: Engine, ev: Event)
    requires Consistent(e) && !ev.Replace? && Positive(e, ev)
    ensures var (f, u) := Apply(e, ev);
      u.Update? ==> (u.topChanged <==> TopOf(f.books[u.locate]) != TopOf(e.books[u.locate]))
  {
    hide Consistent, TopOf;
    FlagIsExactIff(e, ev);
  }

  /**
   For a replace of positive shares by positive shares it is, but for one case: an order of the best level replaced by
   its equal.
   */
  lemma ReplaceFlagIsExactIff(e: Engine, oldRef: u64, newRef: u64, shares: u32, price: u32)
    requires Consistent(e) && Positive(e, Replace(oldRef, newRef, shares, price)) && oldRef in e.orders
    ensures var o := e.orders[oldRef]; var (f, u) := ReplaceOrder(e, oldRef, newRef, shares, price);
      (u.topChanged <==> TopOf(f.books[u.locate]) != TopOf(e.books[u.locate])) <==>
      !(AtTop(SideOf(e.books[o.locate], IsBuy(o.side)), KeyFor(IsBuy(o.side), o.price)) && price == o.price
        && shares == o.shares)
  {
    hide Consistent, TopOf;
    FlagIsExactIff(e, Replace(oldRef, newRef, shares, price));
  }

  /** That case at an input: the only order of a book replaced by an equal one. */
  lemma ReplaceMayFlagNoChange(shares: u32)
    ensures var e := AddOrder(Empty(), 1, 7, BUY, shares, 100).0;
      var (f, u) := ReplaceOrder(e, 7, 8, shares, 100);
      u.Update? && u.topChanged && f.books == e.books
  {
    hide Levels.Add, Levels.Reduce, ReduceResult, AddTouchesTop, Empty;
    LoneLevel(shares);
    NoBook(1);
    var e := AddOrder(Empty(), 1, 7, BUY, shares, 100).0;
    var f := ReplaceOrder(e, 7, 8, shares, 100).0;
    assert e.books[1] == Book([Level(100, shares, 1)], []) == f.books[1];
  }

  lemma NoBook(l: u16)
    ensures Shaped(Empty()) && Empty().books[l] == Book([], []) && Empty().orders == map[]
  {
  }

  lemma LoneLevel(shares: u32)
    ensures var s := [Level(100, shares, 1)];
      && Levels.Add([], 100, shares) == s && AddTouchesTop([], 100)
      && Levels.Reduce(s, 100, shares, true) == [] && ReduceResult(s, 100) == TopChanged
  {
  }
}
