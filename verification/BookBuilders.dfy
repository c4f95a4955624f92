/**
 The message handlers over the mutable engine and publisher (include/itch/book_builder.hpp:48-134,
 tools/feed_handler_main.cpp:205-262).
 */
module BookBuilders {
  import opened Machine
  import opened Group
  import opened LevelSearch
  import OM = OrderMaps
  import opened Books
  import BE = BookEngines
  import opened BboCache
  import opened Publishing

  class Publisher {
    const engine: BE.BookEngine
    const bbo: array<Snapshot>
    ghost var events: seq<BookEvent>
    var dropped: nat
    var crossed: nat
    var peakLive: nat
    var marketOpen: bool
    var recvTsc: u64

    ghost function View(): Published
      reads this, bbo
    {
      Published(bbo[..], events, dropped, crossed, peakLive, marketOpen, recvTsc)
    }

    ghost predicate Valid()
      reads this, bbo, engine, engine.Repr
    {
      && bbo.Length == MAX_LOCATE && engine.Valid()
      && this !in engine.Repr && bbo !in engine.Repr
    }

    constructor (engine: BE.BookEngine)
      requires engine.Valid()
      ensures this.engine == engine && Valid() && fresh(bbo) && View() == Opening().pub
    {
      hide BE.BookEngine.Valid, Empty;
      this.engine := engine;
      bbo := new Snapshot[MAX_LOCATE](_ => ZERO);
      events := [];
      dropped, crossed, peakLive := 0, 0, 0;
      marketOpen, recvTsc := false, 0;
      new;
      assert bbo[..] == seq(MAX_LOCATE, _ => ZERO);
    }

    /** `accepted` is the ring's answer, should this update push an event. */
    method OnBook(m: OrderMessage, u: Update, accepted: bool)
      requires Valid()
      modifies this, bbo
      ensures Valid() && View() == Publishing.OnBook(old(View()), m, u, engine.View(), accepted)
    {
      hide BE.BookEngine.Valid, BE.BookEngine.View, Publishing.Announce;
      if u.Unknown? { return; }
      if m.AddMsg? || m.AddMpidMsg? {
        var live := engine.LiveOrders();
        if live > peakLive { peakLive := live; }
      }
      if u.topChanged { Announce(m, u, accepted); }
    }

    method Announce(m: OrderMessage, u: Update, accepted: bool)
      requires Valid() && u.Update?
      modifies this, bbo
      ensures Valid() && Shaped(engine.View())
      ensures View() == Publishing.Announce(old(View()), m, u, engine.View().books[u.locate], accepted)
    {
      hide BE.BookEngine.Valid, BE.BookEngine.View, TopOf, Crossed;
      var t, cross := engine.TopAt(u.locate);
      bbo[u.locate] := SnapshotOf(t, m.timestamp);
      if marketOpen && cross { crossed := crossed + 1; }
      if accepted {
        events := events + [BookEventOf(m, u, t, recvTsc)];
      } else {
        dropped := dropped + 1;
      }
      engine.ViewFacts();
    }

    method OnSystemEvent(code: u8)
      requires Valid()
      modifies this
      ensures Valid() && View() == OnSystem(old(View()), code)
    {
      if code == MARKET_OPEN { marketOpen := true; }
      if code == MARKET_CLOSE { marketOpen := false; }
    }
  }

  /** A new reference is not live, and what the event stores can be stored. */
  ghost predicate Acceptable(e: Engine, ev: Event) { BE.Storable(e, ev) && Fresh(e, ev) }

  ghost predicate AcceptableInput(s: Feed, i: Input) {
    i.message.BookMessage? ==> Acceptable(s.engine, EventOf(i.message.order))
  }

  ghost predicate StorableSession(ms: seq<Input>) {
    forall i :: 0 <= i < |ms| && ms[i].message.BookMessage? ==>
      BE.Storable(Session(ms[..i]).engine, EventOf(ms[i].message.order))
  }

  class BookBuilder {
    const engine: BE.BookEngine
    const sink: Publisher

    ghost predicate Valid()
      reads this, sink, sink.bbo, sink.engine, sink.engine.Repr
    {
      sink.engine == engine && sink.Valid()
    }

    ghost function View(): (f: Feed)
      requires Valid()
      reads this, sink, sink.bbo, sink.engine, sink.engine.Repr
      ensures Sized(f)
    {
      engine.ViewFacts();
      Feed(engine.View(), sink.View())
    }

    constructor (engine: BE.BookEngine)
      requires engine.Valid() && engine.View() == Empty()
      ensures this.engine == sink.engine == engine && Valid() && fresh(sink) && fresh(sink.bbo) && View() == Opening()
    {
      hide BE.BookEngine.Valid, BE.BookEngine.View, Empty;
      this.engine := engine;
      sink := new Publisher(engine);
      new;
      assert engine.View() == Opening().engine;
    }

    /** The engine part of a handler; the locate of an execute, cancel, delete or replace is not looked at. */
    method ApplyMessage(m: OrderMessage) returns (u: Update)
      requires Valid() && Acceptable(View().engine, EventOf(m))
      modifies engine.Repr
      ensures Valid() && fresh(engine.Repr - old(engine.Repr))
      ensures (engine.View(), u) == Apply(old(engine.View()), EventOf(m))
      ensures sink.View() == old(sink.View())
    {
      hide BE.BookEngine.Valid, BE.BookEngine.View, BE.Storable;
      match m
      case AddMsg(locate, _, ref, side, shares, price) => u := engine.Add(locate, ref, side, shares, price);
      case AddMpidMsg(locate, _, ref, side, shares, price) => u := engine.Add(locate, ref, side, shares, price);
      case ExecutedMsg(_, _, ref, shares) => u := engine.Reduce(ref, shares);
      case ExecutedWithPriceMsg(_, _, ref, shares) => u := engine.Reduce(ref, shares);
      case CancelMsg(_, _, ref, shares) => u := engine.Reduce(ref, shares);
      case DeleteMsg(_, _, ref) => u := engine.Remove(ref);
      case ReplaceMsg(_, _, ref, newRef, shares, price) => u := engine.Replace(ref, newRef, shares, price);
    }

    method On(i: Input)
      requires Valid() && AcceptableInput(View(), i)
      modifies engine.Repr, sink, sink.bbo
      ensures Valid() && fresh(engine.Repr - old(engine.Repr))
      ensures View() == Handle(old(View()), i)
    {
      hide BE.BookEngine.Valid, BE.BookEngine.View, Apply, Publishing.OnBook, Acceptable;
      match i.message
      case BookMessage(m) =>
        var u := ApplyMessage(m);
        sink.OnBook(m, u, i.accepted);
      case SystemEvent(code) => sink.OnSystemEvent(code);
      case StockDirectory(l) => engine.Prepare(l);
    }
  }

  /** A whole session on a new engine: the objects end where the specification does, with every published top right. */
  method RunSession(ms: seq<Input>, kernel: Kernel, expected: nat, isa: Isa, chunks: nat) returns (b: BookBuilder)
    requires FreshSession(ms) && StorableSession(ms) && expected < OM.LIMIT
    ensures b.Valid() && b.View() == Session(ms) && BboIsTop(b.View())
  {
    hide BE.BookEngine.Valid, BE.BookEngine.View, Handle, FreshInput, BE.Storable, BboIsTop;
    var engine := new BE.BookEngine(kernel, expected, isa, chunks);
    b := new BookBuilder(engine);
    ghost var objects := engine.Repr;
    for n := 0 to |ms|
      invariant b.engine == engine && b.Valid() && b.View() == Session(ms[..n])
      invariant fresh(engine.Repr) && fresh(b.sink) && fresh(b.sink.bbo)
    {
      InputIsAcceptable(ms, n);
      b.On(ms[n]);
      assert ms[..n + 1][..n] == ms[..n];
    }
    assert ms[..|ms|] == ms;
    PublishedTopIsTop(ms);
  }

  lemma InputIsAcceptable(ms: seq<Input>, n: nat)
    requires n < |ms| && FreshSession(ms) && StorableSession(ms)
    ensures AcceptableInput(Session(ms[..n]), ms[n])
  {
    hide Session, BE.Storable, Fresh;
    assert FreshInput(Session(ms[..n]), ms[n]);
  }
}
