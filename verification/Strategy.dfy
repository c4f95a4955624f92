/**
 What the strategy thread sees of the books through the event ring (tools/feed_handler_main.cpp:218-237, 293-307,
 include/itch/spsc_ring.hpp:39-81).
 */
module Strategy {
  import opened Machine
  import opened Books
  import opened Publishing
  import Ring = SpscRing

  type RingState = Ring.State<BookEvent>

  /** The push that the publisher makes on one input, if any, with the ring's answer. */
  function Announced(s: Feed, i: Input): seq<(BookEvent, bool)>
    requires Sized(s)
  {
    match i.message
    case BookMessage(m) =>
      var (e, u) := Apply(s.engine, EventOf(m));
      if u.Update? && u.topChanged
      then [(BookEventOf(m, u, TopOf(e.books[u.locate]), s.pub.recvTsc), i.accepted)]
      else []
    case _ => []
  }

  /** All pushes of a session. */
  function Calls(ms: seq<Input>): seq<(BookEvent, bool)> {
    if ms == [] then [] else
      var n := |ms| - 1;
      Calls(ms[..n]) + Announced(Session(ms[..n]), ms[n])
  }

  lemma AnnouncedIsKept(s: Feed, i: Input)
    requires Sized(s)
    ensures var t, calls := Handle(s, i), Announced(s, i);
      && |calls| <= 1
      && t.pub.events == s.pub.events + Ring.Taken(calls) && t.pub.dropped == s.pub.dropped + Ring.Refused(calls)
  {
    hide Apply, TopOf;
    assert s.pub.events + [] == s.pub.events;
  }

  /** The publisher's events are its accepted pushes, and its drop counter counts the refused ones. */
  lemma {:induction false} EventsAreTaken(ms: seq<Input>)
    ensures var p := Session(ms).pub; p.events == Ring.Taken(Calls(ms)) && p.dropped == Ring.Refused(Calls(ms))
  {
    hide Handle, Announced;
    if ms != [] {
      var n := |ms| - 1;
      EventsAreTaken(ms[..n]);
      AnnouncedIsKept(Session(ms[..n]), ms[n]);
      Ring.TakenSnoc(Calls(ms[..n]), Announced(Session(ms[..n]), ms[n]));
    }
  }

  /** The first `n` events are those of an earlier moment of the session. */
  lemma {:induction false} MomentOf(ms: seq<Input>, n: nat) returns (j: nat)
    requires n <= |Session(ms).pub.events|
    ensures j <= |ms| && (n == |Session(ms).pub.events| ==> j == |ms|)
    ensures var p := Session(ms[..j]).pub;
      p.events == Session(ms).pub.events[..n] && p.dropped <= Session(ms).pub.dropped
  {
    hide Handle, Announced;
    SessionStep(ms);
    if n == |Session(ms).pub.events| {
      j := |ms|;
      assert ms[..j] == ms;
    } else {
      var front := ms[..|ms| - 1];
      AnnouncedIsKept(Session(front), ms[|ms| - 1]);
      j := MomentOf(front, n);
      assert front[..j] == ms[..j];
    }
  }

  /**
   A publisher and a strategy around the ring, in every interleaving: what the strategy has consumed is a prefix of the
   publisher's events, and all of them once its loop has ended.
   */
  lemma ConsumedIsAnnounced(ms: seq<Input>, run: seq<RingState>, i: nat)
    requires Ring.Execution(run) && i < |run| && Ring.Pushes(run[..i + 1]) == Calls(ms)
    ensures run[i].consumed <= Session(ms).pub.events
    ensures run[i].consumer.Exited? ==> run[i].consumed == Session(ms).pub.events
  {
    hide Ring.Execution, Ring.Pushes, Session, Calls;
    Ring.AcceptedIsTaken(run, i);
    EventsAreTaken(ms);
    Ring.ConsumedIsPrefix(run, i);
    if run[i].consumer.Exited? { Ring.ExitMeansDrained(run, i); }
  }

  /**
   As long as no push was refused, what the strategy has consumed tells the top of every book as it was at one moment of
   the session; and when its loop has ended, as it is.
   */
  lemma StrategySeesTops(ms: seq<Input>, run: seq<RingState>, i: nat) returns (j: nat)
    requires Ring.Execution(run) && i < |run| && Ring.Pushes(run[..i + 1]) == Calls(ms)
    requires Session(ms).pub.dropped == 0
    ensures j <= |ms| && (run[i].consumer.Exited? ==> j == |ms|)
    ensures forall l: u16 :: Seen(run[i].consumed, l) == TopOf(Session(ms[..j]).engine.books[l])
  {
    hide Ring.Execution, Ring.Pushes, Session, Calls, Seen, TopOf;
    ConsumedIsAnnounced(ms, run, i);
    j := MomentOf(ms, |run[i].consumed|);
    assert Session(ms).pub.events[..|run[i].consumed|] == run[i].consumed;
    PublishedTopIsTop(ms[..j]);
  }
}
