/**
 Whole runs of the sequencer: the books of one session, and two redundant lines (include/itch/mold_udp64.hpp:12-16,
 59-100).
 */
module MoldRuns {
  import opened Machine
  import opened Mold

  datatype Gap = Gap(first: u64, count: u64)

  datatype Log = Log(out: seq<Delivery>, gaps: seq<Gap>, malformed: nat)

  function GapOf(r: Result): seq<Gap> {
    if r.gapCount > 0 then [Gap(r.gapFirst, r.gapCount)] else []
  }

  /** What one packet contributes. */
  function LogOf(r: Result, out: seq<Delivery>): Log { Log(out, GapOf(r), if r.malformed then 1 else 0) }

  function Append(a: Log, b: Log): Log { Log(a.out + b.out, a.gaps + b.gaps, a.malformed + b.malformed) }

  function Run(s: Sequencer, ps: seq<seq<u8>>): (Sequencer, Log)
    decreases |ps|
  {
    if ps == [] then (s, Log([], [], 0)) else
      var (t, r, out) := Step(s, ps[0]);
      var (u, log) := Run(t, ps[1..]);
      (u, Append(LogOf(r, out), log))
  }

  lemma RunSteps(s: Sequencer, ps: seq<seq<u8>>)
    ensures ps == [] ==> Run(s, ps) == (s, Log([], [], 0))
    ensures ps != [] ==>
      var (t, r, out) := Step(s, ps[0]); var (u, log) := Run(t, ps[1..]);
      Run(s, ps) == (u, Append(LogOf(r, out), log))
  {
    hide Step;
  }

  lemma AppendAssoc(a: Log, b: Log, c: Log)
    ensures Append(Append(a, b), c) == Append(a, Append(b, c))
  {
  }

  lemma AppendNothing(a: Log)
    ensures Append(a, Log([], [], 0)) == a == Append(Log([], [], 0), a)
  {
  }

  lemma {:induction false} RunConcat(s: Sequencer, ps: seq<seq<u8>>, qs: seq<seq<u8>>)
    ensures var t, u := Run(s, ps), Run(Run(s, ps).0, qs); Run(s, ps + qs) == (u.0, Append(t.1, u.1))
    decreases |ps|
  {
    hide Step, Run, Append, LogOf;
    RunSteps(s, ps);
    RunSteps(s, ps + qs);
    var u := Run(Run(s, ps).0, qs);
    if ps == [] {
      assert ps + qs == qs;
      AppendNothing(u.1);
    } else {
      var t, r, out := Step(s, ps[0]).0, Step(s, ps[0]).1, Step(s, ps[0]).2;
      assert (ps + qs)[1..] == ps[1..] + qs;
      RunConcat(t, ps[1..], qs);
      AppendAssoc(LogOf(r, out), Run(t, ps[1..]).1, u.1);
    }
  }

  lemma RunSnoc(s: Sequencer, ps: seq<seq<u8>>, p: seq<u8>)
    ensures var (t, r, out) := Step(Run(s, ps).0, p); Run(s, ps + [p]) == (t, Append(Run(s, ps).1, LogOf(r, out)))
  {
    hide Step, LogOf, Append;
    var t := Run(s, ps).0;
    RunConcat(s, ps, [p]);
    RunSteps(t, [p]);
    assert [p][1..] == [];
    RunSteps(Step(t, p).0, []);
    AppendNothing(LogOf(Step(t, p).1, Step(t, p).2));
  }

  function GapTotal(gaps: seq<Gap>): nat {
    if gaps == [] then 0 else gaps[0].count + GapTotal(gaps[1..])
  }

  /** Short packets and end-of-session packets belong to any session. */
  predicate InSession(session: seq<u8>, pkt: seq<u8>) {
    var h := ParseHeader(pkt);
    h.Some? && h.value.count != END_OF_SESSION ==> h.value.session == session
  }

  ghost predicate AllInSession(session: seq<u8>, ps: seq<seq<u8>>) {
    forall i :: 0 <= i < |ps| ==> InSession(session, ps[i])
  }

  /** One packet of the session moves the expected number over what it reports as lost and over what it delivers. */
  lemma StepLedger(s: Sequencer, pkt: seq<u8>)
    requires s.next > 0 && InSession(s.session, pkt)
    ensures var (t, r, out) := Step(s, pkt);
      && t.session == s.session && r.delivered == |out|
      && t.next == Wrap(s.next + r.gapCount + |out|)
      && (r.gapCount > 0 ==> r.gapFirst == s.next)
      && (forall i :: 0 <= i < |out| ==> out[i].seqNo == Wrap(s.next + r.gapCount + i))
  {
    hide Blocks, Unseen, ParseHeader;
  }

  lemma {:induction false} GapTotalSnoc(gaps: seq<Gap>, r: Result)
    ensures GapTotal(gaps + GapOf(r)) == GapTotal(gaps) + r.gapCount
    decreases |gaps|
  {
    if gaps == [] {
      assert gaps + GapOf(r) == GapOf(r);
      assert GapOf(r) + [] == GapOf(r);
      GapTotalConcat(r, []);
    } else {
      assert (gaps + GapOf(r))[1..] == gaps[1..] + GapOf(r);
      GapTotalSnoc(gaps[1..], r);
    }
  }

  lemma GapTotalConcat(r: Result, gaps: seq<Gap>)
    ensures GapTotal(GapOf(r) + gaps) == r.gapCount + GapTotal(gaps)
  {
    if r.gapCount > 0 {
      assert (GapOf(r) + gaps)[1..] == gaps;
    } else {
      assert GapOf(r) + gaps == gaps;
    }
  }

  ghost predicate Delivered(out: seq<Delivery>, n: int) {
    exists i :: 0 <= i < |out| && out[i].seqNo == n
  }

  ghost predicate Lost(gaps: seq<Gap>, n: int) {
    exists i :: 0 <= i < |gaps| && gaps[i].first <= n < gaps[i].first + gaps[i].count
  }

  /** The numbers from `lo` to `hi` are each either delivered or reported lost, never both, and no other number is. */
  ghost predicate Partition(log: Log, lo: nat, hi: nat) {
    forall n: int :: (Delivered(log.out, n) || Lost(log.gaps, n) <==> lo <= n < hi)
      && !(Delivered(log.out, n) && Lost(log.gaps, n))
  }

  ghost predicate Increasing(out: seq<Delivery>) {
    forall i, j :: 0 <= i < j < |out| ==> out[i].seqNo < out[j].seqNo
  }

  /** What a run must look like between two expected numbers. */
  ghost predicate Orderly(log: Log, lo: nat, hi: nat) {
    && hi == lo + |log.out| + GapTotal(log.gaps)
    && Increasing(log.out)
    && Partition(log, lo, hi)
  }

  lemma StepIsOrderly(s: Sequencer, pkt: seq<u8>)
    requires s.next > 0 && InSession(s.session, pkt)
    requires var (t, r, out) := Step(s, pkt); s.next + r.gapCount + |out| < TWO_64
    ensures var (t, r, out) := Step(s, pkt); Orderly(LogOf(r, out), s.next, t.next)
  {
    hide Step, InSession;
    StepLedger(s, pkt);
    var (t, r, out) := Step(s, pkt);
    var log := LogOf(r, out);
    var mid := s.next + r.gapCount;
    assert GapOf(r) + [] == GapOf(r);
    GapTotalConcat(r, []);
    forall n: int ensures Delivered(out, n) <==> mid <= n < t.next {
      if mid <= n < t.next { assert out[n - mid].seqNo == n; }
    }
    forall n: int ensures Lost(log.gaps, n) <==> s.next <= n < mid {
      if s.next <= n < mid { assert log.gaps[0].first <= n; }
    }
  }

  lemma LogConcat(a: Log, b: Log, n: int)
    ensures Delivered(a.out + b.out, n) <==> Delivered(a.out, n) || Delivered(b.out, n)
    ensures Lost(a.gaps + b.gaps, n) <==> Lost(a.gaps, n) || Lost(b.gaps, n)
  {
    var out, gaps := a.out + b.out, a.gaps + b.gaps;
    if Delivered(a.out, n) {
      var i :| 0 <= i < |a.out| && a.out[i].seqNo == n;
      assert out[i].seqNo == n;
    }
    if Delivered(b.out, n) {
      var i :| 0 <= i < |b.out| && b.out[i].seqNo == n;
      assert out[|a.out| + i].seqNo == n;
    }
    if Lost(a.gaps, n) {
      var i :| 0 <= i < |a.gaps| && a.gaps[i].first <= n < a.gaps[i].first + a.gaps[i].count;
      assert gaps[i] == a.gaps[i];
    }
    if Lost(b.gaps, n) {
      var i :| 0 <= i < |b.gaps| && b.gaps[i].first <= n < b.gaps[i].first + b.gaps[i].count;
      assert gaps[|a.gaps| + i] == b.gaps[i];
    }
  }

  lemma OrderlyConcat(a: Log, b: Log, lo: nat, mid: nat, hi: nat)
    requires Orderly(a, lo, mid) && Orderly(b, mid, hi)
    requires GapTotal(a.gaps + b.gaps) == GapTotal(a.gaps) + GapTotal(b.gaps)
    ensures Orderly(Append(a, b), lo, hi)
  {
    hide Delivered, Lost, GapTotal;
    var log := Append(a, b);
    forall n: int
      ensures (Delivered(log.out, n) || Lost(log.gaps, n) <==> lo <= n < hi)
        && !(Delivered(log.out, n) && Lost(log.gaps, n))
    {
      LogConcat(a, b, n);
    }
    forall i | 0 <= i < |a.out| ensures a.out[i].seqNo < mid { DeliveredAt(a.out, i); }
    forall i | 0 <= i < |b.out| ensures b.out[i].seqNo >= mid { DeliveredAt(b.out, i); }
  }

  lemma DeliveredAt(out: seq<Delivery>, i: nat)
    requires i < |out|
    ensures Delivered(out, out[i].seqNo)
  {
  }

  predicate Carrier(pkt: seq<u8>) {
    var h := ParseHeader(pkt);
    h.Some? && h.value.count != END_OF_SESSION
  }

  /** The number after the packet's last complete message, as it would be without the 64-bit limit. */
  function EndOf(pkt: seq<u8>): nat
    requires Carrier(pkt)
  {
    HeaderRoom(pkt);
    var h := ParseHeader(pkt).value;
    h.sequence + |Blocks(pkt[HEADER_LENGTH..], h.count)|
  }

  predicate BelowLimit(pkt: seq<u8>) { Carrier(pkt) ==> EndOf(pkt) < TWO_64 }

  ghost predicate AllBelowLimit(ps: seq<seq<u8>>) {
    forall i :: 0 <= i < |ps| ==> BelowLimit(ps[i])
  }

  /** One packet of the session takes the expected number to its own end, if that is further on. */
  lemma StepReaches(s: Sequencer, pkt: seq<u8>)
    requires s.next > 0 && InSession(s.session, pkt)
    ensures var (t, r, out) := Step(s, pkt);
      s.next + r.gapCount + |out| == if Carrier(pkt) then Max(s.next, EndOf(pkt)) else s.next
  {
    hide Blocks, ParseHeader, Wrap, Numbered;
  }

  function Moved(s: Sequencer, ps: seq<seq<u8>>): nat {
    var log := Run(s, ps).1;
    s.next + |log.out| + GapTotal(log.gaps)
  }

  /** The count of a run stays below 2^64 if and only if each of its packets does. */
  lemma {:induction false} CountStaysBelowIff(s: Sequencer, ps: seq<seq<u8>>)
    requires s.next > 0 && AllInSession(s.session, ps)
    ensures Moved(s, ps) < TWO_64 <==> AllBelowLimit(ps)
    decreases |ps|
  {
    hide Step, InSession, BelowLimit, Carrier, EndOf, Run;
    RunSteps(s, ps);
    if ps != [] {
      var t, r, out := Step(s, ps[0]).0, Step(s, ps[0]).1, Step(s, ps[0]).2;
      var rest := Run(t, ps[1..]).1;
      StepLedger(s, ps[0]);
      StepReaches(s, ps[0]);
      GapTotalConcat(r, rest.gaps);
      LimitOfFirst(ps);
      LimitIs(s, ps[0]);
      assert AllInSession(s.session, ps[1..]);
      if BelowLimit(ps[0]) { CountStaysBelowIff(t, ps[1..]); }
    }
  }

  lemma LimitOfFirst(ps: seq<seq<u8>>)
    requires ps != []
    ensures AllBelowLimit(ps) <==> BelowLimit(ps[0]) && AllBelowLimit(ps[1..])
  {
    hide BelowLimit;
    assert ps == [ps[0]] + ps[1..];
  }

  lemma LimitIs(s: Sequencer, pkt: seq<u8>)
    ensures BelowLimit(pkt) <==> (if Carrier(pkt) then Max(s.next, EndOf(pkt)) else s.next) < TWO_64
  {
  }

  /**
   For any packets of one session, lost, repeated, cut short or out of order as they may be: the expected number
   has moved by what was delivered plus what was reported lost, if and only if every packet stays below number 2^64;
   and then the delivered numbers strictly increase, and each number passed is delivered or reported lost, not both.
   */
  lemma {:induction false} Accounting(s: Sequencer, ps: seq<seq<u8>>)
    requires s.next > 0 && AllInSession(s.session, ps)
    ensures var (t, log) := Run(s, ps);
      && (t.next == s.next + |log.out| + GapTotal(log.gaps) <==> AllBelowLimit(ps))
      && (AllBelowLimit(ps) ==> Orderly(log, s.next, t.next))
    decreases |ps|
  {
    hide Step, InSession, Orderly, BelowLimit, Carrier, EndOf, Run;
    RunSteps(s, ps);
    CountStaysBelowIff(s, ps);
    if ps == [] {
      NothingIsOrderly(s.next);
    } else {
      var t, r, out := Step(s, ps[0]).0, Step(s, ps[0]).1, Step(s, ps[0]).2;
      var u, rest := Run(t, ps[1..]).0, Run(t, ps[1..]).1;
      StepLedger(s, ps[0]);
      GapTotalConcat(r, rest.gaps);
      GapTotalOf(r);
      LimitOfFirst(ps);
      if AllBelowLimit(ps) {
        assert AllInSession(s.session, ps[1..]);
        StepIsOrderly(s, ps[0]);
        Accounting(t, ps[1..]);
        OrderlyConcat(LogOf(r, out), rest, s.next, t.next, u.next);
      }
    }
  }

  lemma GapTotalOf(r: Result)
    ensures GapTotal(GapOf(r)) == r.gapCount
  {
    GapTotalConcat(r, []);
    assert GapOf(r) + [] == GapOf(r);
  }

  lemma NothingIsOrderly(n: nat)
    ensures Orderly(Log([], [], 0), n, n)
  {
  }

  // ---------- where one session ends ----------

  /** The first packet sets the baseline to its own number. */
  lemma FirstPacketSetsBaseline(s: Sequencer, pkt: seq<u8>)
    requires s.next == 0 && ParseHeader(pkt).Some? && ParseHeader(pkt).value.count != END_OF_SESSION
    ensures var h := ParseHeader(pkt).value; Step(s, pkt) == Step(Sequencer(h.session, h.sequence), pkt)
  {
    hide Blocks, Unseen, Numbered, Wrap, ParseHeader;
  }

  lemma RunOfTwo(s: Sequencer, p: seq<u8>, q: seq<u8>)
    ensures var (t, r, out) := Step(s, p); Run(s, [p, q]).1.out == out + Step(t, q).2
  {
    hide Step, Run;
    RunSteps(s, []);
    RunSnoc(s, [], p);
    RunSnoc(s, [p], q);
    assert [] + [p] == [p] && [p] + [q] == [p, q];
  }

  predicate Data(pkt: seq<u8>) {
    var h := ParseHeader(pkt);
    h.Some? && h.value.count != END_OF_SESSION && h.value.count != HEARTBEAT
  }

  /** A data packet of the session with at least one complete message. */
  predicate Deliverable(session: seq<u8>, pkt: seq<u8>) {
    Data(pkt) && ParseHeader(pkt).value.session == session && EndOf(pkt) > ParseHeader(pkt).value.sequence
  }

  /** Within the session a deliverable packet delivers something, unless all of it lies in the past. */
  lemma DeliveredAgain(s: Sequencer, session: seq<u8>, pkt: seq<u8>)
    requires Deliverable(session, pkt) && BelowLimit(pkt)
    requires s.next > 0 && s.session == session
    ensures Step(s, pkt).2 == [] <==> EndOf(pkt) <= s.next
  {
    hide ParseHeader, Blocks, Wrap;
  }

  /** After a baseline in another session, or none, it is delivered in full. */
  lemma DeliveredAfresh(s: Sequencer, session: seq<u8>, pkt: seq<u8>)
    requires Deliverable(session, pkt) && (s.next == 0 || s.session != session)
    ensures |Step(s, pkt).2| == EndOf(pkt) - ParseHeader(pkt).value.sequence > 0
  {
    hide ParseHeader, Blocks, Wrap;
  }

  lemma StepSession(s: Sequencer, pkt: seq<u8>)
    requires s.next > 0
    ensures var t := Step(s, pkt).0;
      if InSession(s.session, pkt)
      then t.session == s.session && t.next == Wrap(if Carrier(pkt) then Max(s.next, EndOf(pkt)) else s.next)
      else t.session != s.session
  {
    hide ParseHeader, Blocks, Numbered, Wrap;
    WrapSmall(s.next);
  }

  lemma WrapTo(end: nat)
    requires end < 2 * TWO_64
    ensures Wrap(end) == if end < TWO_64 then end else end - TWO_64
  {
  }

  /** Where the expected number stands after a packet of the session. */
  lemma NextAfter(s: Sequencer, pkt: seq<u8>)
    requires s.next > 0 && InSession(s.session, pkt)
    ensures var t := Step(s, pkt).0;
      && t.session == s.session
      && (BelowLimit(pkt) ==> t.next >= s.next)
      && (!BelowLimit(pkt) ==> t.next == EndOf(pkt) - TWO_64)
  {
    hide Step, InSession, ParseHeader, Blocks, EndOf, Wrap;
    StepSession(s, pkt);
    if Carrier(pkt) {
      EndIsNear(pkt);
      WrapTo(Max(s.next, EndOf(pkt)));
    } else {
      WrapTo(s.next);
    }
  }

  /**
   A packet already seen is delivered again after one late packet, heartbeats included, if and only if that packet is of
   another session, or takes the expected number over 2^64 and to a place before the end of the seen one.
   */
  lemma LatePacketReplaysIff(s: Sequencer, late: seq<u8>, pkt: seq<u8>)
    requires s.next > 0 && Deliverable(s.session, pkt) && EndOf(pkt) <= s.next
    ensures Step(s, pkt).2 == []
    ensures Step(Step(s, late).0, pkt).2 == [] <==>
      InSession(s.session, late) && (BelowLimit(late) || EndOf(pkt) <= EndOf(late) - TWO_64)
    ensures !InSession(s.session, late) ==>
      |Step(Step(s, late).0, pkt).2| == EndOf(pkt) - ParseHeader(pkt).value.sequence
  {
    hide Step, ParseHeader, Blocks, Deliverable, InSession, EndOf;
    DeliveredAgain(s, s.session, pkt);
    StepSession(s, late);
    var t := Step(s, late).0;
    DeliverableEnds(s.session, pkt);
    if InSession(s.session, late) {
      NextAfter(s, late);
      if t.next > 0 {
        DeliveredAgain(t, s.session, pkt);
      } else {
        DeliveredAfresh(t, s.session, pkt);
      }
    } else {
      DeliveredAfresh(t, s.session, pkt);
    }
  }

  lemma DeliverableEnds(session: seq<u8>, pkt: seq<u8>)
    requires Deliverable(session, pkt)
    ensures EndOf(pkt) > ParseHeader(pkt).value.sequence >= 0
  {
  }

  /** So a packet already seen stays dropped through any further packets of the session that keep below number 2^64. */
  lemma {:induction false} SeenStaysDropped(s: Sequencer, ps: seq<seq<u8>>, pkt: seq<u8>)
    requires s.next > 0 && Deliverable(s.session, pkt) && EndOf(pkt) <= s.next
    requires AllInSession(s.session, ps) && AllBelowLimit(ps)
    ensures Step(Run(s, ps).0, pkt).2 == []
    decreases |ps|
  {
    hide Step, Run, ParseHeader, Blocks, Deliverable, InSession, EndOf, BelowLimit;
    RunSteps(s, ps);
    if ps == [] {
      LatePacketReplaysIff(s, pkt, pkt);
    } else {
      LimitOfFirst(ps);
      NextAfter(s, ps[0]);
      assert AllInSession(s.session, ps[1..]);
      SeenStaysDropped(Step(s, ps[0]).0, ps[1..], pkt);
    }
  }

  /** Where the expected number is after a deliverable packet, wrap included. */
  lemma DeliverableStep(s: Sequencer, pkt: seq<u8>)
    requires s.next > 0 && Deliverable(s.session, pkt)
    ensures var t := Step(s, pkt).0;
      t.session == s.session && t.next == Wrap(Max(s.next, EndOf(pkt)))
  {
    hide ParseHeader, Blocks, Wrap, Numbered;
  }

  /** The duplicate of a packet is dropped if and only if the packet stays below number 2^64. */
  lemma DuplicateDroppedIff(s: Sequencer, pkt: seq<u8>)
    requires s.next > 0 && Deliverable(s.session, pkt)
    ensures Step(Step(s, pkt).0, pkt).2 == [] <==> BelowLimit(pkt)
  {
    hide Step, ParseHeader, Blocks, Wrap, EndOf;
    DeliverableStep(s, pkt);
    var t := Step(s, pkt).0;
    if BelowLimit(pkt) {
      WrapSmall(Max(s.next, EndOf(pkt)));
      DeliveredAgain(t, s.session, pkt);
    } else {
      EndIsNear(pkt);
      EndWraps(EndOf(pkt), ParseHeader(pkt).value.sequence, ParseHeader(pkt).value.count);
      DeliveredBehind(t, s.session, pkt);
    }
  }

  lemma EndIsNear(pkt: seq<u8>)
    requires Carrier(pkt)
    ensures EndOf(pkt) <= ParseHeader(pkt).value.sequence + ParseHeader(pkt).value.count
  {
    hide ParseHeader, Blocks;
  }

  /** A deliverable packet ahead of the expected number is delivered. */
  lemma DeliveredBehind(s: Sequencer, session: seq<u8>, pkt: seq<u8>)
    requires Deliverable(session, pkt) && s.next < ParseHeader(pkt).value.sequence
    ensures Step(s, pkt).2 != []
  {
    hide ParseHeader, Blocks, Wrap;
  }

  lemma EndWraps(end: nat, sequence: u64, count: u16)
    requires TWO_64 <= end <= sequence + count
    ensures Wrap(end) == end - TWO_64 < TWO_16 && Wrap(end) < sequence
  {
  }

  /** A packet of one complete message with the highest number of all. */
  predicate IsLastNumber(session: seq<u8>, pkt: seq<u8>) {
    && ParseHeader(pkt) == Some(Header(session, TWO_64 - 1, 1))
    && |Blocks(pkt[HEADER_LENGTH..], 1)| == 1
  }

  lemma LastNumberStep(s: Sequencer, pkt: seq<u8>)
    requires IsLastNumber(s.session, pkt) && (s.next == TWO_64 - 1 || s.next == 0)
    ensures Step(s, pkt).0 == Sequencer(s.session, 0)
    ensures Step(s, pkt).2 == Numbered(Blocks(pkt[HEADER_LENGTH..], 1), TWO_64 - 1)
  {
    hide Blocks, ParseHeader, Numbered;
    HeaderRoom(pkt);
    var ms := Blocks(pkt[HEADER_LENGTH..], 1);
    assert Unseen(ms, 0) == ms;
  }

  lemma OneLastNumber(session: seq<u8>, pkt: seq<u8>)
    requires IsLastNumber(session, pkt)
    ensures |pkt| >= HEADER_LENGTH && |Blocks(pkt[HEADER_LENGTH..], 1)| == 1
  {
  }

  /**
   At an input: the message numbered 2^64-1 takes the expected number back to 0, which stands for no baseline, and is
   delivered twice.
   */
  lemma WrapDeliversTwice(s: Sequencer, pkt: seq<u8>)
    requires s.next == TWO_64 - 1 && IsLastNumber(s.session, pkt)
    ensures var log := Run(s, [pkt, pkt]).1; |log.out| == 2 && log.out[0] == log.out[1]
  {
    hide Step, Run, IsLastNumber, Numbered, Blocks;
    OneLastNumber(s.session, pkt);
    LastNumberStep(s, pkt);
    LastNumberStep(Step(s, pkt).0, pkt);
    RunOfTwo(s, pkt, pkt);
  }
}
