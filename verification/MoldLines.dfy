/**
 Lines that carry one message sequence in order, and the arbitration between two of them
 (include/itch/mold_udp64.hpp:12-16, 59-100).
 */
module MoldLines {
  import opened Machine
  import opened Mold
  import opened MoldRuns

  /** A session's messages, numbered from `base`. */
  datatype Channel = Channel(session: seq<u8>, base: nat, messages: seq<seq<u8>>) {
    ghost predicate Valid() { base > 0 && base + |messages| < TWO_64 }
  }

  /** The messages that a packet adds to its line: none for an end of session. */
  function Adds(pkt: seq<u8>): nat {
    match ParseHeader(pkt)
    case None => 0
    case Some(h) => if h.count == END_OF_SESSION then 0 else h.count
  }

  /**
   A packet of a line that has carried `pos` messages so far: it ends the session, or carries the next messages, or as
   a heartbeat none.
   */
  ghost predicate Fits(c: Channel, pkt: seq<u8>, pos: nat) {
    var n := Adds(pkt);
    match ParseHeader(pkt)
    case None => false
    case Some(h) =>
      h.count == END_OF_SESSION ||
      (&& h.session == c.session && h.sequence == c.base + pos && pos + n <= |c.messages|
       && Blocks(pkt[HEADER_LENGTH..], n) == c.messages[pos..pos + n])
  }

  /** The packets carry the messages from `pos` to `end`, in order, split into packets in any way. */
  ghost predicate Carries(c: Channel, ps: seq<seq<u8>>, pos: nat, end: nat)
    decreases |ps|
  {
    if ps == [] then pos == end else Fits(c, ps[0], pos) && Carries(c, ps[1..], pos + Adds(ps[0]), end)
  }

  lemma {:induction false} CarriesForward(c: Channel, ps: seq<seq<u8>>, pos: nat, end: nat)
    requires Carries(c, ps, pos, end) && pos <= |c.messages|
    ensures pos <= end <= |c.messages|
    decreases |ps|
  {
    if ps != [] {
      CarriesForward(c, ps[1..], pos + Adds(ps[0]), end);
    }
  }

  lemma {:induction false} CarriesAppend(c: Channel, ps: seq<seq<u8>>, pos: nat, end: nat, p: seq<u8>)
    requires Carries(c, ps, pos, end) && Fits(c, p, end)
    ensures Carries(c, ps + [p], pos, end + Adds(p))
    decreases |ps|
  {
    hide Fits, Adds;
    if ps == [] {
      assert [p][1..] == [] && [] + [p] == [p];
    } else {
      CarriesAppend(c, ps[1..], pos + Adds(ps[0]), end, p);
      assert (ps + [p])[1..] == ps[1..] + [p] && (ps + [p])[0] == ps[0];
    }
  }

  /** Packets in their order of arrival, each tagged with its line. */
  type Arrivals = seq<(bool, seq<u8>)>

  function Packets(merged: Arrivals): seq<seq<u8>> {
    seq(|merged|, i requires 0 <= i < |merged| => merged[i].1)
  }

  function Line(merged: Arrivals, tag: bool): seq<seq<u8>> {
    if merged == [] then [] else (if merged[0].0 == tag then [merged[0].1] else []) + Line(merged[1..], tag)
  }

  /** The sequencer stands right after message `top`, or has not begun and nothing has arrived. */
  ghost predicate Stands(c: Channel, s: Sequencer, top: nat) {
    (s.next == 0 && top == 0) || (s.session == c.session && s.next == c.base + top)
  }

  /** One packet that fits at a place already reached delivers just what lies beyond it. */
  lemma FittingStep(c: Channel, s: Sequencer, pkt: seq<u8>, pos: nat, top: nat)
    requires c.Valid() && Fits(c, pkt, pos) && pos <= top <= |c.messages| && Stands(c, s, top)
    ensures var (t, r, out) := Step(s, pkt); var now := Max(top, pos + Adds(pkt));
      && Stands(c, t, now) && now <= |c.messages|
      && r.gapCount == 0 && !r.malformed
      && out == Numbered(c.messages[top..now], c.base + top)
  {
    hide Step, Blocks, ParseHeader, Wrap, Numbered;
    var h := ParseHeader(pkt).value;
    if h.count == END_OF_SESSION {
      EndOfSessionStep(s, pkt);
      NumberedNone(c.base + top);
      assert c.messages[top..top] == [];
    } else {
      if s.next == 0 { FirstPacketSetsBaseline(s, pkt); }
      GenuineStep(c, Sequencer(c.session, c.base + top), pkt, top);
    }
  }

  lemma EndOfSessionStep(s: Sequencer, pkt: seq<u8>)
    requires ParseHeader(pkt).Some? && ParseHeader(pkt).value.count == END_OF_SESSION
    ensures Step(s, pkt) == (s, NOTHING.(endOfSession := true), [])
  {
  }

  lemma NumberedConcat(ms: seq<seq<u8>>, a: nat, b: nat, d: nat, base: nat)
    requires a <= b <= d <= |ms|
    ensures Numbered(ms[a..b], base + a) + Numbered(ms[b..d], base + b) == Numbered(ms[a..d], base + a)
  {
  }

  lemma LineSteps(merged: Arrivals)
    ensures merged == [] ==> Packets(merged) == [] && Line(merged, true) == [] && Line(merged, false) == []
    ensures merged != [] ==>
      var (tag, pkt) := merged[0];
      && Packets(merged) == [pkt] + Packets(merged[1..])
      && Line(merged, tag) == [pkt] + Line(merged[1..], tag) && Line(merged, !tag) == Line(merged[1..], !tag)
  {
  }

  lemma CarriesSteps(c: Channel, ps: seq<seq<u8>>, pos: nat, end: nat)
    requires Carries(c, ps, pos, end)
    ensures ps == [] ==> pos == end
    ensures ps != [] ==> Fits(c, ps[0], pos) && Carries(c, ps[1..], pos + Adds(ps[0]), end)
  {
  }

  /**
   Two lines of one session, each in order but packed in its own way and each ending where it likes, merged in any
   order of arrival: every message that either line brings is delivered once, in order, with no gap reported.
   */
  lemma {:induction false} Arbitration(c: Channel, s: Sequencer, merged: Arrivals, a: nat, b: nat, endA: nat, endB: nat)
    requires c.Valid() && a <= |c.messages| && b <= |c.messages| && Stands(c, s, Max(a, b))
    requires Carries(c, Line(merged, true), a, endA) && Carries(c, Line(merged, false), b, endB)
    ensures Max(a, b) <= Max(endA, endB) <= |c.messages|
    ensures var (t, log) := Run(s, Packets(merged));
      && log == Log(Numbered(c.messages[Max(a, b)..Max(endA, endB)], c.base + Max(a, b)), [], 0)
      && Stands(c, t, Max(endA, endB))
    decreases |merged|
  {
    hide Step, Run, Fits, Adds, Numbered, Stands, Carries, Line, Packets, Append, LogOf;
    RunSteps(s, Packets(merged));
    LineSteps(merged);
    CarriesSteps(c, Line(merged, true), a, endA);
    CarriesSteps(c, Line(merged, false), b, endB);
    CarriesForward(c, Line(merged, true), a, endA);
    CarriesForward(c, Line(merged, false), b, endB);
    var top := Max(a, b);
    if merged == [] {
      assert c.messages[top..top] == [];
      NumberedNone(c.base + top);
    } else {
      var (tag, pkt) := merged[0];
      var rest := merged[1..];
      FittingStep(c, s, pkt, if tag then a else b, top);
      var t, r, out := Step(s, pkt).0, Step(s, pkt).1, Step(s, pkt).2;
      var a', b' := if tag then a + Adds(pkt) else a, if tag then b else b + Adds(pkt);
      Arbitration(c, t, rest, a', b', endA, endB);
      CleanAppend(r, out, Numbered(c.messages[Max(a', b')..Max(endA, endB)], c.base + Max(a', b')));
      NumberedConcat(c.messages, top, Max(a', b'), Max(endA, endB), c.base);
    }
  }

  lemma CleanAppend(r: Result, out: seq<Delivery>, more: seq<Delivery>)
    requires r.gapCount == 0 && !r.malformed
    ensures Append(LogOf(r, out), Log(more, [], 0)) == Log(out + more, [], 0)
  {
  }

  /** Two complete lines into a new sequencer: the whole session, once. */
  lemma RedundantLinesDeliverOnce(c: Channel, merged: Arrivals)
    requires c.Valid()
    requires Carries(c, Line(merged, true), 0, |c.messages|) && Carries(c, Line(merged, false), 0, |c.messages|)
    ensures Run(Sequencer([], 0), Packets(merged)).1 == Log(Numbered(c.messages, c.base), [], 0)
  {
    hide Run, Carries, Line, Packets, Numbered;
    assert Stands(c, Sequencer([], 0), 0);
    Arbitration(c, Sequencer([], 0), merged, 0, 0, |c.messages|, |c.messages|);
    assert c.messages[0..|c.messages|] == c.messages;
  }

  // ---------- any genuine packets ----------

  /** A packet that the channel's sender could have sent, wherever it stands in the stream. */
  ghost predicate Genuine(c: Channel, pkt: seq<u8>) {
    match ParseHeader(pkt)
    case None => false
    case Some(h) => h.count == END_OF_SESSION || (h.sequence >= c.base && Fits(c, pkt, h.sequence - c.base))
  }

  ghost predicate AllGenuine(c: Channel, ps: seq<seq<u8>>) {
    forall i :: 0 <= i < |ps| ==> Genuine(c, ps[i])
  }

  /** Where the packet's messages start; an end of session starts nowhere. */
  ghost function PlaceOf(c: Channel, pkt: seq<u8>): nat
    requires Genuine(c, pkt)
  {
    var h := ParseHeader(pkt).value;
    if h.count == END_OF_SESSION then 0 else h.sequence - c.base
  }

  lemma UnseenPart(ms: seq<seq<u8>>, from: nat, to: nat, top: nat)
    requires from <= to <= |ms| && top <= |ms|
    ensures Unseen(ms[from..to], Max(top, from) - from) == ms[Max(top, from)..Max(top, to)]
  {
  }

  /** One genuine packet: a gap up to its start, if it starts further on, and then its own messages from there. */
  lemma GenuineStep(c: Channel, s: Sequencer, pkt: seq<u8>, top: nat)
    requires c.Valid() && Genuine(c, pkt) && top <= |c.messages| && s == Sequencer(c.session, c.base + top)
    ensures var (t, r, out) := Step(s, pkt); var p := PlaceOf(c, pkt);
      var first, now := Max(top, p), Max(top, p + Adds(pkt));
      && first <= now <= |c.messages| && t == Sequencer(c.session, c.base + now)
      && r.gapCount == first - top && !r.malformed
      && out == Numbered(c.messages[first..now], c.base + first)
  {
    hide Blocks, ParseHeader, Wrap, Numbered, Unseen;
    var h := ParseHeader(pkt).value;
    if h.count == END_OF_SESSION {
      NumberedNone(c.base + top);
      assert c.messages[top..top] == [];
    } else {
      hide Step;
      HeaderRoom(pkt);
      StepInSession(s, pkt);
      var p := h.sequence - c.base;
      var first, now := Max(top, p), Max(top, p + h.count);
      WrapSmall(c.base + now);
      UnseenPart(c.messages, p, p + h.count, top);
    }
  }

  /** No packet starts beyond what the packets before it have reached. */
  ghost predicate InReach(c: Channel, ps: seq<seq<u8>>, top: nat)
    requires AllGenuine(c, ps)
    decreases |ps|
  {
    ps != [] ==> PlaceOf(c, ps[0]) <= top && InReach(c, ps[1..], Max(top, PlaceOf(c, ps[0]) + Adds(ps[0])))
  }

  ghost function Reach(c: Channel, ps: seq<seq<u8>>, top: nat): nat
    requires AllGenuine(c, ps)
    decreases |ps|
  {
    if ps == [] then top else Reach(c, ps[1..], Max(top, PlaceOf(c, ps[0]) + Adds(ps[0])))
  }

  ghost predicate Own(c: Channel, d: Delivery) {
    c.base <= d.seqNo < c.base + |c.messages| && d.message == c.messages[d.seqNo - c.base]
  }

  lemma NumberedIsOwn(c: Channel, from: nat, to: nat)
    requires c.Valid() && from <= to <= |c.messages|
    ensures var ds := Numbered(c.messages[from..to], c.base + from); forall i :: 0 <= i < |ds| ==> Own(c, ds[i])
  {
    hide Wrap;
    var ds := Numbered(c.messages[from..to], c.base + from);
    forall i | 0 <= i < |ds| ensures Own(c, ds[i]) { WrapSmall(c.base + from + i); }
  }

  /**
   For genuine packets of a channel, whichever get lost, repeated or overtaken: each delivery carries the channel's own
   message of that number; no gap is reported if and only if no packet starts beyond the reach of those before it, so
   that what one line loses another line has brought already; and then everything up to the reach is delivered, in
   order.
   */
  lemma {:induction false} GenuinePackets(c: Channel, s: Sequencer, ps: seq<seq<u8>>, top: nat)
    requires c.Valid() && AllGenuine(c, ps) && top <= |c.messages| && s == Sequencer(c.session, c.base + top)
    ensures var (t, log) := Run(s, ps);
      && top <= Reach(c, ps, top) <= |c.messages| && t == Sequencer(c.session, c.base + Reach(c, ps, top))
      && log.malformed == 0
      && (forall i :: 0 <= i < |log.out| ==> Own(c, log.out[i]))
      && (log.gaps == [] <==> InReach(c, ps, top))
      && (InReach(c, ps, top) ==> log.out == Numbered(c.messages[top..Reach(c, ps, top)], c.base + top))
    decreases |ps|
  {
    hide Step, Run, Genuine, Adds, PlaceOf, Numbered, Own;
    RunSteps(s, ps);
    if ps == [] {
      assert c.messages[top..top] == [];
      NumberedNone(c.base + top);
    } else {
      assert Genuine(c, ps[0]);
      var p, n := PlaceOf(c, ps[0]), Adds(ps[0]);
      var first, now := Max(top, p), Max(top, p + n);
      var end := Reach(c, ps[1..], now);
      GenuineStep(c, s, ps[0], top);
      GenuinePackets(c, Step(s, ps[0]).0, ps[1..], now);
      NumberedIsOwn(c, first, now);
      if p <= top { NumberedConcat(c.messages, top, now, end, c.base); }
    }
  }

  /** Where a new sequencer comes in: at the first packet that is no end of session. */
  ghost function JoinsAt(c: Channel, ps: seq<seq<u8>>): nat
    requires AllGenuine(c, ps)
    decreases |ps|
  {
    if ps == [] then 0
    else if Carrier(ps[0]) then PlaceOf(c, ps[0])
    else JoinsAt(c, ps[1..])
  }

  lemma PlaceIs(c: Channel, pkt: seq<u8>)
    requires c.Valid() && Genuine(c, pkt)
    ensures PlaceOf(c, pkt) <= |c.messages|
    ensures if Carrier(pkt)
      then ParseHeader(pkt) == Some(Header(c.session, c.base + PlaceOf(c, pkt), ParseHeader(pkt).value.count))
      else ParseHeader(pkt).Some? && ParseHeader(pkt).value.count == END_OF_SESSION
  {
    hide ParseHeader, Blocks;
  }

  lemma {:induction false} JoinsWithin(c: Channel, ps: seq<seq<u8>>)
    requires c.Valid() && AllGenuine(c, ps)
    ensures JoinsAt(c, ps) <= |c.messages|
    decreases |ps|
  {
    hide Genuine, PlaceOf, Carrier;
    if ps != [] {
      assert Genuine(c, ps[0]);
      PlaceIs(c, ps[0]);
      JoinsWithin(c, ps[1..]);
    }
  }

  /** A new sequencer takes any genuine packets as one does that expects the first of them. */
  lemma {:induction false} NewSequencerJoins(c: Channel, s: Sequencer, ps: seq<seq<u8>>)
    requires c.Valid() && AllGenuine(c, ps) && s.next == 0
    ensures JoinsAt(c, ps) <= |c.messages|
    ensures Run(s, ps).1 == Run(Sequencer(c.session, c.base + JoinsAt(c, ps)), ps).1
    decreases |ps|
  {
    hide Step, Run, Genuine, PlaceOf, ParseHeader;
    JoinsWithin(c, ps);
    var t := Sequencer(c.session, c.base + JoinsAt(c, ps));
    RunSteps(s, ps);
    RunSteps(t, ps);
    if ps != [] {
      assert Genuine(c, ps[0]);
      PlaceIs(c, ps[0]);
      if Carrier(ps[0]) {
        FirstPacketSetsBaseline(s, ps[0]);
      } else {
        EndOfSessionStep(s, ps[0]);
        EndOfSessionStep(t, ps[0]);
        NewSequencerJoins(c, s, ps[1..]);
      }
    }
  }

  // ---------- one line ----------

  function Alone(ps: seq<seq<u8>>): Arrivals {
    seq(|ps|, i requires 0 <= i < |ps| => (true, ps[i]))
  }

  lemma {:induction false} AloneIsItsLine(ps: seq<seq<u8>>)
    ensures Packets(Alone(ps)) == ps && Line(Alone(ps), true) == ps && Line(Alone(ps), false) == []
  {
    if ps != [] {
      AloneIsItsLine(ps[1..]);
      assert Alone(ps)[1..] == Alone(ps[1..]);
    }
  }

  lemma OneLineDelivers(c: Channel, ps: seq<seq<u8>>)
    requires c.Valid() && Carries(c, ps, 0, |c.messages|)
    ensures Run(Sequencer([], 0), ps).1 == Log(Numbered(c.messages, c.base), [], 0)
  {
    hide Run, Line, Packets, Alone, Numbered;
    AloneIsItsLine(ps);
    assert Stands(c, Sequencer([], 0), 0);
    Arbitration(c, Sequencer([], 0), Alone(ps), 0, 0, |c.messages|, 0);
    assert c.messages[0..|c.messages|] == c.messages;
  }
}
