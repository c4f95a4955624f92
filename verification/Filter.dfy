/**
 Following a few stocks only: a run through a locate filter against the full run (include/itch/book_builder.hpp:13-18,
 include/itch/parser.hpp:85-87).
 */
module Filter {
  import opened Machine
  import opened OrderTable
  import opened Levels
  import opened Books

  /** An order message as the parser sees it: the locate of its header, and the event it carries. */
  datatype Message = Message(locate: u16, event: Event)

  function Full(e: Engine, ms: seq<Message>): (r: Engine)
    requires Shaped(e)
    ensures Shaped(r)
  {
    if ms == [] then e else Apply(Full(e, ms[..|ms| - 1]), ms[|ms| - 1].event).0
  }

  /** The parser drops a message whose locate the sink does not want. */
  function Filtered(e: Engine, ms: seq<Message>, wanted: set<u16>): (r: Engine)
    requires Shaped(e)
    ensures Shaped(r)
  {
    if ms == [] then e else
      var f := Filtered(e, ms[..|ms| - 1], wanted);
      var m := ms[|ms| - 1];
      if m.locate in wanted then Apply(f, m.event).0 else f
  }

  /** The header locate is the locate of the order that the message adds or refers to. */
  ghost predicate Carries(e: Engine, m: Message) {
    match m.event
    case Add(locate, _, _, _, _) => locate == m.locate
    case Reduce(ref, _) => ref in e.orders ==> e.orders[ref].locate == m.locate
    case Remove(ref) => ref in e.orders ==> e.orders[ref].locate == m.locate
    case Replace(oldRef, _, _, _) => oldRef in e.orders ==> e.orders[oldRef].locate == m.locate
  }

  ghost predicate GoodFeed(e: Engine, ms: seq<Message>)
    requires Shaped(e)
  {
    forall i :: 0 <= i < |ms| ==> Carries(Full(e, ms[..i]), ms[i]) && Fresh(Full(e, ms[..i]), ms[i].event)
  }

  function Kept(m: map<u64, Order>, wanted: set<u16>): map<u64, Order> {
    map r | r in m && m[r].locate in wanted :: m[r]
  }

  ghost predicate Simulates(e: Engine, f: Engine, wanted: set<u16>) {
    && Shaped(e) && Shaped(f)
    && f.orders == Kept(e.orders, wanted)
    && forall l: u16 :: f.books[l] == if l in wanted then e.books[l] else Book([], [])
  }

  /** A wanted message does the same to both engines. */
  lemma WantedStep(e: Engine, f: Engine, m: Message, wanted: set<u16>)
    requires Simulates(e, f, wanted) && Carries(e, m) && m.locate in wanted
    ensures Simulates(Apply(e, m.event).0, Apply(f, m.event).0, wanted)
  {
    hide Levels.Add, Levels.Reduce, ReduceResult, AddTouchesTop;
    match m.event
    case Add(locate, ref, side, shares, price) =>
    case Reduce(ref, shares) => WantedReduce(e, f, ref, shares, wanted);
    case Remove(ref) => WantedRemove(e, f, ref, wanted);
    case Replace(oldRef, newRef, shares, price) =>
      WantedRemove(e, f, oldRef, wanted);
  }

  lemma WantedReduce(e: Engine, f: Engine, ref: u64, shares: u32, wanted: set<u16>)
    requires Simulates(e, f, wanted) && (ref in e.orders ==> e.orders[ref].locate in wanted)
    ensures Simulates(ReduceOrder(e, ref, shares).0, ReduceOrder(f, ref, shares).0, wanted)
  {
    hide Levels.Reduce, ReduceResult;
  }

  lemma WantedRemove(e: Engine, f: Engine, ref: u64, wanted: set<u16>)
    requires Simulates(e, f, wanted) && (ref in e.orders ==> e.orders[ref].locate in wanted)
    ensures Simulates(RemoveOrder(e, ref).0, RemoveOrder(f, ref).0, wanted)
  {
    hide Levels.Reduce, ReduceResult;
  }

  /** An unwanted message changes nothing that the filtered engine holds. */
  lemma UnwantedStep(e: Engine, f: Engine, m: Message, wanted: set<u16>)
    requires Shaped(e) && Simulates(e, f, wanted) && Carries(e, m) && Fresh(e, m.event) && m.locate !in wanted
    ensures Simulates(Apply(e, m.event).0, f, wanted)
  {
    hide Simulates, Levels.Add, Levels.Reduce, ReduceResult, AddTouchesTop;
    match m.event
    case Add(locate, ref, side, shares, price) => UnwantedAdd(e, f, locate, ref, side, shares, price, wanted);
    case Reduce(ref, shares) => UnwantedReduce(e, f, ref, shares, wanted);
    case Remove(ref) => UnwantedRemove(e, f, ref, wanted);
    case Replace(oldRef, newRef, shares, price) =>
      UnwantedRemove(e, f, oldRef, wanted);
      if oldRef in e.orders {
        UnwantedAdd(RemoveOrder(e, oldRef).0, f, m.locate, newRef, e.orders[oldRef].side, shares, price, wanted);
      }
  }

  lemma UnwantedAdd(e: Engine, f: Engine, locate: u16, ref: u64, side: u8, shares: u32, price: u32, wanted: set<u16>)
    requires Simulates(e, f, wanted) && ref !in e.orders && locate !in wanted
    ensures Simulates(AddOrder(e, locate, ref, side, shares, price).0, f, wanted)
  {
    hide Levels.Add, AddTouchesTop;
  }

  lemma UnwantedReduce(e: Engine, f: Engine, ref: u64, shares: u32, wanted: set<u16>)
    requires Simulates(e, f, wanted) && (ref in e.orders ==> e.orders[ref].locate !in wanted)
    ensures Simulates(ReduceOrder(e, ref, shares).0, f, wanted)
  {
    hide Levels.Reduce, ReduceResult;
  }

  lemma UnwantedRemove(e: Engine, f: Engine, ref: u64, wanted: set<u16>)
    requires Simulates(e, f, wanted) && (ref in e.orders ==> e.orders[ref].locate !in wanted)
    ensures Simulates(RemoveOrder(e, ref).0, f, wanted)
  {
    hide Levels.Reduce, ReduceResult;
  }

  lemma GoodPrefix(e: Engine, ms: seq<Message>)
    requires Shaped(e) && GoodFeed(e, ms) && ms != []
    ensures GoodFeed(e, ms[..|ms| - 1])
    ensures Carries(Full(e, ms[..|ms| - 1]), ms[|ms| - 1]) && Fresh(Full(e, ms[..|ms| - 1]), ms[|ms| - 1].event)
  {
    hide Carries, Fresh, Full;
    var n := |ms| - 1;
    forall i | 0 <= i < n
      ensures Carries(Full(e, ms[..n][..i]), ms[..n][i]) && Fresh(Full(e, ms[..n][..i]), ms[..n][i].event)
    {
      assert ms[..n][..i] == ms[..i];
      assert Carries(Full(e, ms[..i]), ms[i]) && Fresh(Full(e, ms[..i]), ms[i].event);
    }
  }

  /**
   For every feed whose order messages carry their order's locate, the filtered run ends with the
   wanted books of the full run, no other book, and the full run's orders of the wanted locates.
   */
  lemma {:induction false} FilterSimulation(e: Engine, f: Engine, ms: seq<Message>, wanted: set<u16>)
    requires Shaped(e) && Shaped(f) && Simulates(e, f, wanted) && GoodFeed(e, ms)
    ensures Simulates(Full(e, ms), Filtered(f, ms, wanted), wanted)
  {
    hide Simulates, Carries, Fresh, GoodFeed, Apply;
    if ms != [] {
      var n := |ms| - 1;
      GoodPrefix(e, ms);
      FilterSimulation(e, f, ms[..n], wanted);
      if ms[n].locate in wanted {
        WantedStep(Full(e, ms[..n]), Filtered(f, ms[..n], wanted), ms[n], wanted);
      } else {
        UnwantedStep(Full(e, ms[..n]), Filtered(f, ms[..n], wanted), ms[n], wanted);
      }
    }
  }

  lemma FilterFromEmpty(ms: seq<Message>, wanted: set<u16>)
    requires GoodFeed(Empty(), ms)
    ensures Simulates(Full(Empty(), ms), Filtered(Empty(), ms, wanted), wanted)
  {
    hide GoodFeed;
    FilterSimulation(Empty(), Empty(), ms, wanted);
  }
}
