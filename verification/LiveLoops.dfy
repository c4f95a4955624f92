/**
 The live loop over the sequencer, parser, builder, engine and publisher objects (tools/feed_handler_main.cpp:421-449).
 */
module LiveLoops {
  import opened Machine
  import opened Group
  import opened LevelSearch
  import OM = OrderMaps
  import opened Parsing
  import opened Parsers
  import opened Books
  import opened Publishing
  import BB = BookBuilders
  import BE = BookEngines
  import opened Dispatch
  import opened Mold
  import opened MoldRuns
  import opened MoldLines
  import opened MoldSend
  import LS = LevelSides
  import opened Aggregation
  import opened Framing
  import opened Streams
  import opened SyntheticFeeds
  import opened LiveLists
  import opened EndToEnd

  // ---------- the packets that the loop looks at ----------

  type Poll = seq<seq<u8>>

  predicate EndsSession(pkt: seq<u8>) {
    var h := ParseHeader(pkt);
    h.Some? && h.value.count == END_OF_SESSION
  }

  predicate HasEnd(poll: Poll) { exists i :: 0 <= i < |poll| && EndsSession(poll[i]) }

  /** Whatever came in with the packet that ends the session is still looked at. */
  function Heard(polls: seq<Poll>): seq<seq<u8>> {
    if polls == [] then [] else polls[0] + if HasEnd(polls[0]) then [] else Heard(polls[1..])
  }

  lemma HeardFrom(polls: seq<Poll>, k: nat)
    requires k <= |polls|
    ensures k == |polls| ==> Heard(polls[k..]) == []
    ensures k < |polls| ==> Heard(polls[k..]) == polls[k] + if HasEnd(polls[k]) then [] else Heard(polls[k + 1..])
  {
    hide HasEnd;
    if k < |polls| { assert polls[k..][1..] == polls[k + 1..]; }
  }

  // ---------- what the builder has to accept ----------

  ghost predicate AcceptableCall(calls: seq<seq<u8>>, k: nat, answers: nat -> bool)
    requires AllWellFormed(calls) && k < |calls|
  {
    match Decoded(calls[k])
    case Some(m) => BB.AcceptableInput(Session(InputsOf(calls[..k], answers)), Input(m, answers(k)))
    case None => true
  }

  /** Every call of the parser finds an engine that can take it. */
  ghost predicate AcceptableCalls(calls: seq<seq<u8>>, answers: nat -> bool)
    requires AllWellFormed(calls)
  {
    forall k :: 0 <= k < |calls| ==> AcceptableCall(calls, k, answers)
  }

  lemma PrefixAcceptable(calls: seq<seq<u8>>, k: nat, answers: nat -> bool)
    requires AllWellFormed(calls) && AcceptableCalls(calls, answers) && k <= |calls|
    ensures AllWellFormed(calls[..k]) && AcceptableCalls(calls[..k], answers)
  {
    hide WellFormed, Decoded, BB.AcceptableInput, Session, InputsOf;
    forall j | 0 <= j < k ensures AcceptableCall(calls[..k], j, answers) {
      assert AcceptableCall(calls, j, answers);
      assert calls[..k][..j] == calls[..j];
    }
  }

  // ---------- the parser's calls grow with the messages ----------

  function Start(): (s: State)
    ensures Parsing.Sized(s)
  {
    State(Counts(0, 0, 0, 0, 0, seq(256, _ => 0)), [])
  }

  lemma {:induction false} FilterGrows(a: seq<seq<u8>>, b: seq<seq<u8>>, wants: Wants)
    ensures Filter(a, wants) <= Filter(a + b, wants)
  {
    hide Wanted;
    if b == [] {
      assert a + b == a;
    } else {
      var n := |b| - 1;
      FilterGrows(a, b[..n], wants);
      assert (a + b)[..|a + b| - 1] == a + b[..n];
    }
  }

  lemma CallsAre(ms: seq<seq<u8>>, wants: Wants)
    ensures ParseAll(Start(), ms, wants).calls == Filter(ms, wants) && AllWellFormed(Filter(ms, wants))
  {
    hide WellFormed, LocateOf, ParseOne;
    EveryRecordCountedOnce(Start(), ms, wants);
    FilterIsWellFormed(ms, wants);
  }

  /** Every call that these messages lead to can be taken. */
  ghost predicate Takes(ms: seq<seq<u8>>, wants: Wants, answers: nat -> bool) {
    AllWellFormed(Filter(ms, wants)) && AcceptableCalls(Filter(ms, wants), answers)
  }

  lemma TakesFirst(a: seq<seq<u8>>, b: seq<seq<u8>>, wants: Wants, answers: nat -> bool)
    requires Takes(a + b, wants, answers)
    ensures Takes(a, wants, answers)
  {
    hide WellFormed, AcceptableCalls, Filter;
    FilterGrows(a, b, wants);
    PrefixAcceptable(Filter(a + b, wants), |Filter(a, wants)|, answers);
    assert Filter(a + b, wants)[..|Filter(a, wants)|] == Filter(a, wants);
  }

  lemma MessagesConcat(a: seq<Delivery>, b: seq<Delivery>)
    ensures MessagesOf(a + b) == MessagesOf(a) + MessagesOf(b)
  {
  }

  // ---------- the loop ----------

  class Receiver {
    const sequencer: MoldSequencer
    const parser: Parser
    const builder: BB.BookBuilder
    var gaps: nat
    var lost: nat

    ghost function Frame(): set<object>
      reads this, builder, builder.engine
    {
      {this, sequencer, parser, parser.byType, builder.sink, builder.sink.bbo} + builder.engine.Repr
    }

    ghost predicate Valid()
      reads parser, parser.byType, builder, builder.sink, builder.sink.bbo
      reads builder.sink.engine, builder.sink.engine.Repr
      reads builder.engine, builder.engine.Repr
    {
      && parser.Valid() && builder.Valid() && builder.sink.engine == builder.engine
      && this !in builder.engine.Repr && sequencer !in builder.engine.Repr && parser !in builder.engine.Repr
      && parser.byType !in builder.engine.Repr
    }

    /** The parser has seen `ms`, and the builder has handled the calls that they led to. */
    ghost predicate HasHeard(ms: seq<seq<u8>>, answers: nat -> bool)
      requires Valid()
      reads parser, parser.byType, builder, builder.sink, builder.sink.bbo
      reads builder.sink.engine, builder.sink.engine.Repr
      reads builder.engine, builder.engine.Repr
    {
      && parser.View() == ParseAll(Start(), ms, parser.wants) && AllWellFormed(parser.calls)
      && builder.View() == Session(InputsOf(parser.calls, answers))
    }

    /** The sequencer has seen the packets `ps`, and the rest of the pipeline what it delivered. */
    ghost predicate HasReceived(ps: seq<seq<u8>>, answers: nat -> bool)
      requires Valid()
      reads this, sequencer, parser, parser.byType, builder, builder.sink, builder.sink.bbo
      reads builder.sink.engine, builder.sink.engine.Repr
      reads builder.engine, builder.engine.Repr
    {
      var (s, log) := MoldRuns.Run(Sequencer([], 0), ps);
      && sequencer.View() == s && gaps == |log.gaps| && lost == GapTotal(log.gaps)
      && HasHeard(MessagesOf(log.out), answers)
    }

    constructor (wants: Wants, kernel: Kernel, expected: nat, isa: Isa, chunks: nat, answers: nat -> bool)
      requires expected < OM.LIMIT
      ensures Valid() && HasReceived([], answers) && parser.wants == wants
      ensures fresh(Frame() - {this})
    {
      hide BE.BookEngine.Valid, BE.BookEngine.View, BB.BookBuilder.Valid, BB.BookBuilder.View, Empty, Opening;
      hide MoldRuns.Run;
      sequencer := new MoldSequencer();
      parser := new Parser(wants);
      var engine := new BE.BookEngine(kernel, expected, isa, chunks);
      builder := new BB.BookBuilder(engine);
      gaps, lost := 0, 0;
      new;
      RunSteps(Sequencer([], 0), []);
      NothingHeard(wants, answers);
    }

    /** What the handler does with call number `k`: the locate, directory and trade messages change no book. */
    method Dispatch(call: seq<u8>, k: nat, ghost before: seq<seq<u8>>, answers: nat -> bool)
      requires Valid() && k == |before| && AllWellFormed(before) && WellFormed(call)
      requires AcceptableCalls(before + [call], answers) && builder.View() == Session(InputsOf(before, answers))
      modifies builder.engine.Repr, builder.sink, builder.sink.bbo
      ensures Valid() && fresh(builder.engine.Repr - old(builder.engine.Repr))
      ensures builder.View() == Session(InputsOf(before + [call], answers))
    {
      hide BB.BookBuilder.Valid, BB.BookBuilder.View, Handle, Session, WellFormed, Decoded, BB.AcceptableInput;
      hide AcceptableCalls, InputsOf;
      CanTake(before, call, answers);
      InputsSnoc(before, call, answers);
      match Decoded(call)
      case Some(m) => builder.On(Input(m, answers(k)));
      case None =>
    }

    /** One message: parsed, and handled by the builder and its sink if the parser dispatches it. */
    method Hear(msg: seq<u8>, ghost ms: seq<seq<u8>>, answers: nat -> bool)
      requires Valid() && HasHeard(ms, answers) && Takes(ms + [msg], parser.wants, answers)
      modifies parser, parser.byType, builder.engine.Repr, builder.sink, builder.sink.bbo
      ensures Valid() && HasHeard(ms + [msg], answers) && fresh(builder.engine.Repr - old(builder.engine.Repr))
    {
      hide BB.BookBuilder.Valid, BB.BookBuilder.View, Session, WellFormed, LocateOf, AcceptableCalls, InputsOf;
      var k := |parser.calls|;
      ghost var before := parser.calls;
      CallsAre(ms, parser.wants);
      CallsAre(ms + [msg], parser.wants);
      assert (ms + [msg])[..|ms|] == ms;
      parser.Parse(msg);
      if |parser.calls| > k { Dispatch(msg, k, before, answers); }
    }

    /** One packet: the sequencer's deliveries go to the parser one by one. */
    method OnPacket(pkt: seq<u8>, ghost ps: seq<seq<u8>>, answers: nat -> bool) returns (ended: bool)
      requires Valid() && HasReceived(ps, answers) && Takes(DeliveredBy(ps + [pkt]), parser.wants, answers)
      modifies Frame()
      ensures Valid() && HasReceived(ps + [pkt], answers) && fresh(Frame() - old(Frame()))
      ensures ended == EndsSession(pkt)
    {
      hide BB.BookBuilder.Valid, BB.BookBuilder.View, Session, Step, MoldRuns.Run, EndsSession, HasHeard, Takes;
      hide MessagesOf;
      ghost var heard := DeliveredBy(ps);
      ghost var s := MoldRuns.Run(Sequencer([], 0), ps).0;
      RunSnoc(Sequencer([], 0), ps, pkt);
      StepEnds(s, pkt);
      var r, out := sequencer.OnPacket(pkt);
      DeliveriesConcat(ps, pkt, out);
      GapTotalSnoc(MoldRuns.Run(Sequencer([], 0), ps).1.gaps, r);
      assert heard + MessagesOf(out[..0]) == heard by { NoMessages(out); }
      for i := 0 to |out|
        invariant Valid() && HasHeard(heard + MessagesOf(out[..i]), answers) && fresh(Frame() - old(Frame()))
        invariant sequencer.View() == Step(s, pkt).0 && gaps == old(gaps) && lost == old(lost)
      {
        OneMessage(heard, out, i, parser.wants, answers);
        Hear(out[i].message, heard + MessagesOf(out[..i]), answers);
      }
      assert out[..|out|] == out;
      if r.gapCount > 0 {
        gaps := gaps + 1;
        lost := lost + r.gapCount;
      }
      ended := r.endOfSession;
    }

    /** One poll; `rest` is what the loop still looks at after it. */
    method OnPoll(poll: Poll, ghost ps: Poll, ghost rest: Poll, answers: nat -> bool) returns (ended: bool)
      requires Valid() && HasReceived(ps, answers) && Takes(DeliveredBy(ps + poll + rest), parser.wants, answers)
      modifies Frame()
      ensures Valid() && HasReceived(ps + poll, answers) && fresh(Frame() - old(Frame()))
      ensures ended == HasEnd(poll)
    {
      hide BB.BookBuilder.Valid, BB.BookBuilder.View, EndsSession, HasReceived, Takes, DeliveredBy;
      ended := false;
      assert ps + poll[..0] == ps;
      for i := 0 to |poll|
        invariant Valid() && HasReceived(ps + poll[..i], answers) && fresh(Frame() - old(Frame()))
        invariant ended <==> exists j :: 0 <= j < i && EndsSession(poll[j])
      {
        NextPacket(ps, poll, i, rest, parser.wants, answers);
        var last := OnPacket(poll[i], ps + poll[..i], answers);
        ended := ended || last;
      }
      assert poll[..|poll|] == poll;
    }

    /** The loop on a new receiver, until a session ends or no poll is left. */
    method Loop(polls: seq<Poll>, answers: nat -> bool)
      requires Valid() && HasReceived([], answers) && Takes(DeliveredBy(Heard(polls)), parser.wants, answers)
      modifies Frame()
      ensures Valid() && HasReceived(Heard(polls), answers) && fresh(Frame() - old(Frame()))
      ensures BboIsTop(builder.View()) && EventsTellTop(builder.View())
    {
      hide BB.BookBuilder.Valid, BB.BookBuilder.View, HasEnd, Heard, HasReceived, Takes, DeliveredBy, BboIsTop;
      hide EventsTellTop, Valid;
      var k, running := 0, true;
      ghost var done: seq<seq<u8>> := [];
      assert polls[0..] == polls && [] + Heard(polls) == Heard(polls);
      while running && k < |polls|
        invariant k <= |polls| && Valid() && HasReceived(done, answers) && fresh(Frame() - old(Frame()))
        invariant done + (if running then Heard(polls[k..]) else []) == Heard(polls)
      {
        HeardFrom(polls, k);
        ghost var rest := if HasEnd(polls[k]) then [] else Heard(polls[k + 1..]);
        assert done + polls[k] + rest == Heard(polls);
        var ended := OnPoll(polls[k], done, rest, answers);
        done := done + polls[k];
        if ended { running := false; }
        k := k + 1;
      }
      HeardFrom(polls, k);
      assert done == Heard(polls);
      ShowsTops(done, answers);
    }

    lemma ShowsTops(ps: seq<seq<u8>>, answers: nat -> bool)
      requires Valid() && HasReceived(ps, answers)
      ensures BboIsTop(builder.View()) && EventsTellTop(builder.View())
    {
      hide BB.BookBuilder.Valid, BB.BookBuilder.View, Session, MoldRuns.Run, ParseAll, InputsOf, BboIsTop;
      hide EventsTellTop;
      PublishedTopIsTop(InputsOf(parser.calls, answers));
    }

    /** Everything heard, nothing lost or wrong, nothing left. */
    ghost predicate DayEndsFlat(messages: nat)
      requires Valid()
      reads this, parser, parser.byType, builder, builder.sink, builder.sink.bbo
      reads builder.sink.engine, builder.sink.engine.Repr
      reads builder.engine, builder.engine.Repr
    {
      var c := parser.View().counts;
      && c.messages == messages && c.unknownType == c.badLength == c.empty == c.filtered == 0 && gaps == lost == 0
      && builder.View().engine == Empty() && forall l: u16 :: Shows(builder.View().pub.bbo[l], Top(0, 0, 0, 0))
    }

    lemma StreamIsFlat(packets: seq<seq<u8>>, ps: seq<seq<u8>>, most: nat, answers: nat -> bool)
      requires Valid() && HasReceived(packets, answers) && forall t, l :: parser.wants(t, l)
      requires MoldRuns.Run(Sequencer([], 0), packets).1 == Log(Numbered(ps, 1), [], 0)
      requires Drained(ps, most) && most < TWO_32
      ensures DayEndsFlat(|ps|)
    {
      hide BB.BookBuilder.Valid, BB.BookBuilder.View, WellFormed, Session, InputsOf, MoldRuns.Run, ParseAll;
      hide Drained, Roomy, Numbered;
      MessagesOfNumbered(ps, 1);
      RoomyLeavesNothing(ps, most);
      CleanParse(Start(), ps, parser.wants);
      assert [] + ps == ps;
      StreamEndsFlat(ps, most, answers);
    }
  }

  lemma NothingHeard(wants: Wants, answers: nat -> bool)
    ensures MessagesOf([]) == [] && ParseAll(Start(), [], wants) == Start()
    ensures Session(InputsOf([], answers)) == Opening()
  {
  }

  lemma CanTake(calls: seq<seq<u8>>, call: seq<u8>, answers: nat -> bool)
    requires AllWellFormed(calls) && WellFormed(call) && AcceptableCalls(calls + [call], answers)
    ensures Decoded(call).Some? ==>
      BB.AcceptableInput(Session(InputsOf(calls, answers)), Input(Decoded(call).value, answers(|calls|)))
  {
    hide WellFormed, Decoded, BB.AcceptableInput, Session, InputsOf;
    assert AcceptableCall(calls + [call], |calls|, answers);
    assert (calls + [call])[..|calls|] == calls;
  }

  lemma InputsSnoc(calls: seq<seq<u8>>, call: seq<u8>, answers: nat -> bool)
    requires AllWellFormed(calls) && WellFormed(call)
    ensures AllWellFormed(calls + [call])
    ensures Session(InputsOf(calls + [call], answers)) ==
      match Decoded(call)
      case Some(m) => Handle(Session(InputsOf(calls, answers)), Input(m, answers(|calls|)))
      case None => Session(InputsOf(calls, answers))
  {
    hide WellFormed, Decoded, Session, Handle;
    assert (calls + [call])[..|calls|] == calls;
    var before := InputsOf(calls, answers);
    match Decoded(call)
    case Some(m) => SessionSnoc(before, Input(m, answers(|calls|)));
    case None => assert before + [] == before;
  }

  /** What a new sequencer delivers of the packets. */
  function DeliveredBy(ps: seq<seq<u8>>): seq<seq<u8>> { MessagesOf(MoldRuns.Run(Sequencer([], 0), ps).1.out) }

  lemma StepEnds(s: Sequencer, pkt: seq<u8>)
    ensures Step(s, pkt).1.endOfSession == EndsSession(pkt)
  {
  }

  lemma NoMessages(out: seq<Delivery>)
    ensures MessagesOf(out[..0]) == []
  {
  }

  lemma DeliveriesConcat(ps: seq<seq<u8>>, pkt: seq<u8>, out: seq<Delivery>)
    requires out == Step(MoldRuns.Run(Sequencer([], 0), ps).0, pkt).2
    ensures DeliveredBy(ps + [pkt]) == DeliveredBy(ps) + MessagesOf(out)
  {
    hide Step, MoldRuns.Run;
    RunSnoc(Sequencer([], 0), ps, pkt);
    MessagesConcat(MoldRuns.Run(Sequencer([], 0), ps).1.out, out);
  }

  lemma OneMessage(heard: seq<seq<u8>>, out: seq<Delivery>, i: nat, wants: Wants, answers: nat -> bool)
    requires i < |out| && Takes(heard + MessagesOf(out), wants, answers)
    ensures var now := heard + MessagesOf(out[..i]) + [out[i].message];
      now == heard + MessagesOf(out[..i + 1]) && Takes(now, wants, answers)
  {
    hide Takes;
    var now := heard + MessagesOf(out[..i]) + [out[i].message];
    assert now == heard + MessagesOf(out[..i + 1]);
    assert heard + MessagesOf(out) == now + MessagesOf(out)[i + 1..];
    TakesFirst(now, MessagesOf(out)[i + 1..], wants, answers);
  }

  lemma NextPacket(ps: seq<seq<u8>>, poll: Poll, i: nat, rest: seq<seq<u8>>, wants: Wants, answers: nat -> bool)
    requires i < |poll| && Takes(DeliveredBy(ps + poll + rest), wants, answers)
    ensures ps + poll[..i] + [poll[i]] == ps + poll[..i + 1]
    ensures Takes(DeliveredBy(ps + poll[..i + 1]), wants, answers)
  {
    hide Takes, DeliveredBy;
    assert ps + poll[..i] + [poll[i]] == ps + poll[..i + 1];
    assert ps + poll + rest == (ps + poll[..i + 1]) + (poll[i + 1..] + rest);
    DeliveredByFirst(ps + poll[..i + 1], poll[i + 1..] + rest);
    var a, all := DeliveredBy(ps + poll[..i + 1]), DeliveredBy(ps + poll + rest);
    assert a + all[|a|..] == all;
    TakesFirst(a, all[|a|..], wants, answers);
  }

  lemma DeliveredByFirst(a: seq<seq<u8>>, b: seq<seq<u8>>)
    ensures DeliveredBy(a) <= DeliveredBy(a + b)
  {
    hide MoldRuns.Run;
    var s := Sequencer([], 0);
    RunConcat(s, a, b);
    MessagesConcat(MoldRuns.Run(s, a).1.out, MoldRuns.Run(MoldRuns.Run(s, a).0, b).1.out);
  }

  // ---------- a generated stream over the wire ----------

  function Flat(polls: seq<Poll>): seq<seq<u8>> {
    if polls == [] then [] else polls[0] + Flat(polls[1..])
  }

  /** The loop looks at all packets, or at a first part of them in which a session ends. */
  lemma {:induction false} HeardIsPrefix(polls: seq<Poll>)
    ensures Heard(polls) <= Flat(polls)
    ensures Heard(polls) == Flat(polls) || HasEnd(Heard(polls))
  {
    hide EndsSession;
    if polls != [] {
      HeardIsPrefix(polls[1..]);
      if HasEnd(polls[0]) {
        var i :| 0 <= i < |polls[0]| && EndsSession(polls[0][i]);
        assert EndsSession(Heard(polls)[i]);
      } else if HasEnd(Heard(polls[1..])) {
        var i :| 0 <= i < |Heard(polls[1..])| && EndsSession(Heard(polls[1..])[i]);
        assert EndsSession(Heard(polls)[|polls[0]| + i]);
      }
    }
  }

  lemma {:induction false} EndsAreQuiet(s: Sequencer, ps: seq<seq<u8>>)
    requires AllEnd(ps)
    ensures MoldRuns.Run(s, ps).1 == Log([], [], 0)
    decreases |ps|
  {
    hide Step, MoldRuns.Run, ParseHeader;
    RunSteps(s, ps);
    if ps != [] {
      EndOfSessionStep(s, ps[0]);
      EndsAreQuiet(s, ps[1..]);
    }
  }

  lemma DataEndsNothing(ps: seq<seq<u8>>, mtu: int)
    requires AllWellPacked(ps, mtu)
    ensures forall i :: 0 <= i < |ps| ==> !EndsSession(ps[i])
  {
    hide ParseHeader;
    forall i | 0 <= i < |ps| ensures !EndsSession(ps[i]) { assert WellPacked(ps[i], mtu); }
  }

  /** However a sender's packets are cut into polls, the loop hears all that they deliver. */
  lemma SentIsHeard(polls: seq<Poll>, data: nat, mtu: int)
    requires var sent := Flat(polls); data <= |sent| && AllWellPacked(sent[..data], mtu) && AllEnd(sent[data..])
    ensures MoldRuns.Run(Sequencer([], 0), Heard(polls)).1 == MoldRuns.Run(Sequencer([], 0), Flat(polls)).1
  {
    hide MoldRuns.Run, Heard, Flat, EndsSession, AllWellPacked;
    var sent, heard := Flat(polls), Heard(polls);
    HeardIsPrefix(polls);
    DataEndsNothing(sent[..data], mtu);
    if heard != sent {
      var i :| 0 <= i < |heard| && EndsSession(heard[i]);
      assert forall k :: 0 <= k < data ==> !EndsSession(sent[..data][k]);
      assert i >= data;
      var tail := sent[|heard|..];
      assert sent == heard + tail;
      forall k | 0 <= k < |tail| ensures tail[k] == sent[data..][|heard| + k - data] {}
      RunConcat(Sequencer([], 0), heard, tail);
      EndsAreQuiet(MoldRuns.Run(Sequencer([], 0), heard).0, tail);
      AppendNothing(MoldRuns.Run(Sequencer([], 0), heard).1);
    }
  }

  /** A self-consistent stream with fewer than 2^31 orders alive at a time is one that the engine can take. */
  lemma StreamIsTaken(ps: seq<seq<u8>>, most: nat, wants: Wants, answers: nat -> bool)
    requires SelfConsistent(ps) && NeverMore(ps, most) && most < LS.MAX_LEVELS && forall t, l :: wants(t, l)
    ensures Takes(ps, wants, answers)
  {
    hide WellFormed, Decoded, BB.AcceptableInput, Session, InputsOf, ApplyCalls, NamesLive;
    WellFormedStream(ps);
    EverythingIsKept(ps, wants);
    forall k | 0 <= k < |ps| ensures AcceptableCall(ps, k, answers) {
      assert NamesLive(ApplyCalls(Empty(), ps[..k]), ps[k]);
      PrefixOfStream(ps, most, k);
      FewLiveOrdersAreRoomy(ps[..k], most);
      RoomyIsInOrder(ps[..k]);
      SessionAppliesCalls(ps[..k], answers);
      RecordIsAcceptable(Session(InputsOf(ps[..k], answers)), ps[k], answers(k));
    }
  }

  lemma PrefixOfStream(ps: seq<seq<u8>>, most: nat, k: nat)
    requires SelfConsistent(ps) && NeverMore(ps, most) && k <= |ps|
    ensures SelfConsistent(ps[..k]) && NeverMore(ps[..k], most) && |ApplyCalls(Empty(), ps[..k]).orders| <= most
  {
    hide WellFormed, ApplyCalls, NamesLive;
    forall i | 0 <= i < k
      ensures NamesLive(ApplyCalls(Empty(), ps[..k][..i]), ps[..k][i]) { assert ps[..k][..i] == ps[..i]; }
    forall i | 0 <= i <= k
      ensures |ApplyCalls(Empty(), ps[..k][..i]).orders| <= most { assert ps[..k][..i] == ps[..i]; }
  }

  lemma RecordIsAcceptable(s: Feed, p: seq<u8>, answer: bool)
    requires WellFormed(p) && InOrder(s.engine) && NamesLive(s.engine, p) && |s.engine.orders| < LS.MAX_LEVELS
    ensures Decoded(p).Some? ==> BB.AcceptableInput(s, Input(Decoded(p).value, answer))
  {
    hide WellFormed, LocateOf, Decoded, Consistent, BE.Storable;
    match Decoded(p)
    case Some(BookMessage(m)) => BE.FewOrdersAreStorable(s.engine, EventOf(m));
    case _ =>
  }

  /**
   From the generator's draws to the published tops, over the objects: the generator writes a file, the sender packs it
   into packets, which arrive in polls of any size, and the live loop runs on a new receiver.  Everything is heard,
   nothing is lost or wrong, and the day ends flat.
   */
  method GenerateSendReceive(
      feed: SyntheticFeed, initial: nat, seeds: (nat, nat) -> OrderDraw, steps: seq<StepDraw>,
      sender: MoldSender, polled: Poll -> seq<Poll>,
      wants: Wants, kernel: Kernel, expected: nat, isa: Isa, chunks: nat, answers: nat -> bool) returns (r: Receiver)
    requires feed.Valid() && feed.nextRef == 1 && feed.messages == 0 && feed.symbols * initial + |steps| < LS.MAX_LEVELS
    requires sender.Initial() && |sender.session| == 10 && expected < OM.LIMIT
    requires (forall ps :: Flat(polled(ps)) == ps) && forall t, l :: wants(t, l)
    modifies feed, sender
    ensures r.Valid() && r.DayEndsFlat(feed.messages)
  {
    hide BB.BookBuilder.Valid, BB.BookBuilder.View, SyntheticFeed.Written, Lockstep, MoldSender.Initial;
    hide Drained, Roomy, LeavesNothing;
    hide Receiver.Valid, Receiver.HasReceived, Receiver.DayEndsFlat, Receiver.Frame, Heard, Takes, DeliveredBy;
    hide Records, Consumed;
    hide MoldRuns.Run, AllWellFormed, AllWellPacked, AllEnd, WellPacked;
    var file := feed.Build(initial, seeds, steps);
    sender.SendFile(file);
    ghost var ps := Records(file);
    var polls := polled(sender.sent);
    SentIsHeard(polls, |sender.sent| - 3, sender.mtu);
    AllIsTaken(Heard(polls), ps, feed.peak, wants, answers);
    r := new Receiver(wants, kernel, expected, isa, chunks, answers);
    r.Loop(polls, answers);
    r.StreamIsFlat(Heard(polls), ps, feed.peak, answers);
  }

  lemma AllIsTaken(packets: seq<seq<u8>>, ps: seq<seq<u8>>, most: nat, wants: Wants, answers: nat -> bool)
    requires MoldRuns.Run(Sequencer([], 0), packets).1 == Log(Numbered(ps, 1), [], 0)
    requires Drained(ps, most) && most < LS.MAX_LEVELS && forall t, l :: wants(t, l)
    ensures Takes(DeliveredBy(packets), wants, answers)
  {
    hide Takes, SelfConsistent, NeverMore, MoldRuns.Run, Numbered;
    MessagesOfNumbered(ps, 1);
    StreamIsTaken(ps, most, wants, answers);
  }
}
