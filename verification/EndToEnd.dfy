/**
 From the packets of a feed to the published tops (tools/feed_handler_main.cpp:205-262,
 include/itch/mold_udp64.hpp:59-100, include/itch/parser.hpp:73-90).
 */
module EndToEnd {
  import opened Machine
  import opened Books
  import opened Aggregation
  import opened Parsing
  import opened Publishing
  import opened Dispatch
  import opened Mold
  import opened MoldRuns
  import opened MoldLines
  import opened MoldSend
  import opened Framing
  import opened Streams
  import opened SyntheticFeeds

  /** What the sequencer hands to the parser. */
  function MessagesOf(out: seq<Delivery>): seq<seq<u8>> {
    seq(|out|, i requires 0 <= i < |out| => out[i].message)
  }

  lemma MessagesOfNumbered(ms: seq<seq<u8>>, first: nat)
    ensures MessagesOf(Numbered(ms, first)) == ms
  {
  }

  /** What the builder and the publisher see of the parser's calls; `answers` are the ring's, call by call. */
  function InputsOf(calls: seq<seq<u8>>, answers: nat -> bool): seq<Input>
    requires AllWellFormed(calls)
  {
    if calls == [] then [] else
      var n := |calls| - 1;
      InputsOf(calls[..n], answers) +
      match Decoded(calls[n])
      case Some(m) => [Input(m, answers(n))]
      case None => []
  }

  lemma SessionSnoc(ms: seq<Input>, i: Input)
    ensures Session(ms + [i]) == Handle(Session(ms), i)
  {
    assert (ms + [i])[..|ms|] == ms;
  }

  /** The builder's engine goes through just what the calls mean. */
  lemma {:induction false} SessionAppliesCalls(calls: seq<seq<u8>>, answers: nat -> bool)
    requires AllWellFormed(calls)
    ensures Session(InputsOf(calls, answers)).engine == ApplyCalls(Empty(), calls)
  {
    hide WellFormed, Decoded, Apply, OnBook, OnSystem, Session;
    if calls == [] {
      NothingHandled();
    } else {
      var n := |calls| - 1;
      SessionAppliesCalls(calls[..n], answers);
      var before := InputsOf(calls[..n], answers);
      match Decoded(calls[n])
      case Some(m) => SessionSnoc(before, Input(m, answers(n)));
      case None => assert before + [] == before;
    }
  }

  lemma NothingHandled()
    ensures Session([]).engine == Empty()
  {
  }

  // ---------- streams as sessions ----------

  lemma SessionGrows(ms: seq<Input>, i: Input)
    ensures FreshSession(ms) && FreshInput(Session(ms), i) ==> FreshSession(ms + [i])
    ensures LegalSession(ms) && LegalInput(Session(ms), i) ==> LegalSession(ms + [i])
  {
    hide FreshInput, LegalInput, Session;
    var all := ms + [i];
    forall j | 0 <= j < |all| ensures all[..j] == if j < |ms| then ms[..j] else ms {}
  }

  /**
   A self-consistent stream makes a session that the builder accepts, whatever the ring answers; and a legal one if it
   is roomy.
   */
  lemma {:induction false} StreamIsSession(ps: seq<seq<u8>>, answers: nat -> bool)
    requires SelfConsistent(ps)
    ensures FreshSession(InputsOf(ps, answers)) && (Roomy(ps) ==> LegalSession(InputsOf(ps, answers)))
  {
    hide WellFormed, Decoded, SelfConsistent, Roomy, FindsRoom, FreshSession, LegalSession, NamesLive;
    hide FreshInput, LegalInput;
    hide Session, Effect;
    if ps == [] {
      NothingIsLegal();
    } else {
      var n := |ps| - 1;
      WellFormedStream(ps);
      SelfConsistentPrefix(ps);
      RoomyPrefix(ps);
      StreamIsSession(ps[..n], answers);
      var before := InputsOf(ps[..n], answers);
      SessionAppliesCalls(ps[..n], answers);
      match Decoded(ps[n])
      case Some(m) =>
        SensibleIsFresh(Session(before), ps[n], answers(n));
        SessionGrows(before, Input(m, answers(n)));
      case None => assert before + [] == before;
    }
  }

  lemma NothingIsLegal()
    ensures FreshSession([]) && LegalSession([])
  {
  }

  lemma SensibleIsFresh(s: Feed, p: seq<u8>, answer: bool)
    requires WellFormed(p) && Decoded(p).Some? && NamesLive(s.engine, p)
    ensures var i := Input(Decoded(p).value, answer);
      FreshInput(s, i) && (FindsRoom(s.engine, p) ==> LegalInput(s, i))
  {
    hide WellFormed, Decoded, HasRoom;
  }

  // ---------- the whole way ----------

  lemma {:induction false} FilterIsWellFormed(ms: seq<seq<u8>>, wants: Wants)
    ensures AllWellFormed(Filter(ms, wants))
  {
    hide WellFormed, LocateOf;
    if ms != [] { FilterIsWellFormed(ms[..|ms| - 1], wants); }
  }

  /** The calls of the parser over what a sequencer delivered. */
  function CallsOf(log: Log, wants: Wants): (calls: seq<seq<u8>>)
    ensures calls == Filter(MessagesOf(log.out), wants) && AllWellFormed(calls)
  {
    var s := State(Counts(0, 0, 0, 0, 0, seq(256, _ => 0)), []);
    EveryRecordCountedOnce(s, MessagesOf(log.out), wants);
    FilterIsWellFormed(MessagesOf(log.out), wants);
    ParseAll(s, MessagesOf(log.out), wants).calls
  }

  /**
   For genuine packets of a channel, of which each starts within the reach of those before it, be they repeated, merged
   from several lines, or lost where another line has brought the same: from the place where it joins, a new sequencer
   makes the books those of the wanted messages up to the reach, and the published top of every stock is the top of its
   book.
   */
  lemma PacketsToTops(c: Channel, ps: seq<seq<u8>>, wants: Wants, answers: nat -> bool)
    requires c.Valid() && AllGenuine(c, ps) && InReach(c, ps, JoinsAt(c, ps))
    ensures var from, to := JoinsAt(c, ps), Reach(c, ps, JoinsAt(c, ps));
      var calls := CallsOf(MoldRuns.Run(Sequencer([], 0), ps).1, wants);
      && from <= to <= |c.messages| && calls == Filter(c.messages[from..to], wants)
      && var s := Session(InputsOf(calls, answers));
         && s.engine == ApplyCalls(Empty(), calls) && BboIsTop(s) && EventsTellTop(s)
         && (LegalSession(InputsOf(calls, answers)) ==> Consistent(s.engine))
  {
    hide MoldRuns.Run, InReach, Reach, JoinsAt, Genuine, AllGenuine, CallsOf, WellFormed, LegalSession, Session;
    hide InputsOf, ApplyCalls, BboIsTop, EventsTellTop, Consistent;
    var from, to := JoinsAt(c, ps), Reach(c, ps, JoinsAt(c, ps));
    NewSequencerJoins(c, Sequencer([], 0), ps);
    GenuinePackets(c, Sequencer(c.session, c.base + from), ps, from);
    var log := MoldRuns.Run(Sequencer([], 0), ps).1;
    MessagesOfNumbered(c.messages[from..to], c.base + from);
    var calls := CallsOf(log, wants);
    SessionAppliesCalls(calls, answers);
    var ms := InputsOf(calls, answers);
    PublishedTopIsTop(ms);
    if LegalSession(ms) { SessionIsConsistent(ms); }
  }

  /**
   The session of a whole generated stream: no order is left, every published top is the top of its book, and if the
   orders found room, no level is left, no error counted, and every published top empty.
   */
  ghost predicate EndsFlat(ps: seq<seq<u8>>, s: Feed)
    requires AllWellFormed(ps) && Publishing.Sized(s)
  {
    && s.engine.orders == map[] && BboIsTop(s) && EventsTellTop(s)
    && (Roomy(ps) ==> s.engine == Empty() && forall l: u16 :: Shows(s.pub.bbo[l], Top(0, 0, 0, 0)))
  }

  lemma StreamEndsFlat(ps: seq<seq<u8>>, most: nat, answers: nat -> bool)
    requires Drained(ps, most)
    ensures AllWellFormed(ps) && EndsFlat(ps, Session(InputsOf(ps, answers)))
  {
    hide WellFormed, Session, InputsOf, ApplyCalls, SelfConsistent, Roomy, EventsTellTop, TopOf;
    RoomyLeavesNothing(ps, most);
    SessionAppliesCalls(ps, answers);
    PublishedTopIsTop(InputsOf(ps, answers));
    if Roomy(ps) {
      forall l: u16 ensures TopOf(Empty().books[l]) == Top(0, 0, 0, 0) { EmptyTop(l); }
    }
  }

  /** What a new sequencer has delivered in whole, a parser that wants everything hands on in whole. */
  lemma StreamIsCalled(ps: seq<seq<u8>>, log: Log, first: nat, wants: Wants)
    requires AllWellFormed(ps) && log.out == Numbered(ps, first) && forall t, l :: wants(t, l)
    ensures CallsOf(log, wants) == ps
  {
    hide WellFormed, CallsOf;
    MessagesOfNumbered(ps, first);
    EverythingIsKept(ps, wants);
  }

  /**
   A generated stream over two complete lines, into a new sequencer, a parser, a builder and a publisher, ends flat.
   */
  lemma GeneratedFeedEndsFlat(c: Channel, merged: Arrivals, most: nat, wants: Wants, answers: nat -> bool)
    requires c.Valid() && Drained(c.messages, most)
    requires Carries(c, Line(merged, true), 0, |c.messages|) && Carries(c, Line(merged, false), 0, |c.messages|)
    requires forall t, l :: wants(t, l)
    ensures var calls := CallsOf(MoldRuns.Run(Sequencer([], 0), Packets(merged)).1, wants);
      calls == c.messages && EndsFlat(calls, Session(InputsOf(calls, answers)))
  {
    hide MoldRuns.Run, CallsOf, WellFormed, Session, InputsOf, Drained, Carries, Line, Packets, EndsFlat;
    RedundantLinesDeliverOnce(c, merged);
    StreamEndsFlat(c.messages, most, answers);
    StreamIsCalled(c.messages, MoldRuns.Run(Sequencer([], 0), Packets(merged)).1, c.base, wants);
  }

  /**
   The generator writes a file, the sender packs it into packets, and a new sequencer, parser, builder and publisher
   fed with them end flat.
   */
  method GenerateAndSend(
      feed: SyntheticFeed, initial: nat, seeds: (nat, nat) -> OrderDraw, steps: seq<StepDraw>,
      sender: MoldSender, wants: Wants, answers: nat -> bool)
    requires feed.Valid() && feed.nextRef == 1 && feed.messages == 0 && sender.Initial() && |sender.session| == 10
    requires feed.symbols + 2 * (feed.symbols * initial + |steps|) + 5 < TWO_64 && forall t, l :: wants(t, l)
    modifies feed, sender
    ensures var calls := CallsOf(MoldRuns.Run(Sequencer([], 0), sender.sent).1, wants);
      && |calls| == feed.messages && Drained(calls, feed.peak) && feed.peak <= feed.symbols * initial + |steps|
      && EndsFlat(calls, Session(InputsOf(calls, answers)))
      && (feed.peak < TWO_32 ==> Roomy(calls))
  {
    hide MoldRuns.Run, CallsOf, WellFormed, Session, InputsOf, Drained, Roomy, LeavesNothing, Records, Consumed;
    hide EndsFlat;
    hide SyntheticFeed.Valid, MoldSender.Initial;
    var file := feed.Build(initial, seeds, steps);
    sender.SendFile(file);
    ghost var ps := Records(file);
    StreamIsCalled(ps, MoldRuns.Run(Sequencer([], 0), sender.sent).1, 1, wants);
    StreamEndsFlat(ps, feed.peak, answers);
  }

  lemma EmptyTop(l: u16)
    ensures TopOf(Empty().books[l]) == Top(0, 0, 0, 0)
  {
  }

  lemma {:induction false} EverythingIsKept(ms: seq<seq<u8>>, wants: Wants)
    requires AllWellFormed(ms) && forall t, l :: wants(t, l)
    ensures Filter(ms, wants) == ms
  {
    hide WellFormed, LocateOf;
    if ms != [] {
      var n := |ms| - 1;
      EverythingIsKept(ms[..n], wants);
      KeptAlone(ms[n], wants);
      assert ms == ms[..n] + [ms[n]];
    }
  }

  lemma KeptAlone(m: seq<u8>, wants: Wants)
    requires WellFormed(m) && forall t, l :: wants(t, l)
    ensures Wanted(m, wants)
  {
  }
}
