/**
 What the sequencer reads of a packet and what it reports, told from the bytes (include/itch/mold_udp64.hpp:21-109;
 MoldUDP64 Protocol Specification v1.00, section 2).
 */
module MoldReports {
  import opened Machine
  import opened Bytes
  import opened Framing
  import opened Layouts
  import opened Mold

  /** Ten bytes of session, eight of sequence number, two of message count. */
  lemma HeaderLayout(pkt: seq<u8>)
    ensures |pkt| < 20 ==> ParseHeader(pkt) == None
    ensures |pkt| >= 20 ==> ParseHeader(pkt) == Some(Header(pkt[..10], Eight(pkt, 10), Two(pkt, 18)))
  {
    hide Be, Eight, Two;
    if |pkt| >= 20 {
      BeEight(pkt, 10);
      BeTwo(pkt, 18);
    }
  }

  /** A block is a message behind its length, most significant byte first. */
  lemma BlockLayout(m: seq<u8>)
    requires |m| < TWO_16
    ensures Block(m) == [|m| / 256, |m| % 256] + m
  {
    assert BeBytes(|m| / 256, 1) == [|m| / 256];
  }

  /** And so it is read: the first record of a buffer, if it is there in whole. */
  lemma FrontLayout(buf: seq<u8>)
    ensures Front(buf) == if |buf| >= 2 && 2 + Two(buf, 0) <= |buf| then Some(Two(buf, 0) as nat) else None
  {
    hide Be, Two;
    if |buf| >= 2 { BeTwo(buf, 0); }
  }

  /** The blocks of a packet are its first complete records, up to the count of its header. */
  lemma {:induction false} BlocksAreRecords(buf: seq<u8>, count: nat)
    ensures Blocks(buf, count) == Records(buf)[..Min(count, |Records(buf)|)]
    decreases count
  {
    hide Front;
    BlocksStep(buf, count);
    if count > 0 && Front(buf).Some? {
      var n := Front(buf).value;
      BlocksAreRecords(buf[2 + n..], count - 1);
      var rest := Records(buf[2 + n..]);
      assert ([buf[2..2 + n]] + rest)[..Min(count, |rest| + 1)] == [buf[2..2 + n]] + rest[..Min(count - 1, |rest|)];
    }
  }

  lemma DeliveriesAre(ms: seq<seq<u8>>, have: nat, skip: nat, number: nat)
    requires have <= |ms|
    ensures var unseen := Unseen(ms[..have], skip); var out := Numbered(unseen, number + skip);
      && |out| == |unseen| == (if have > skip then have - skip else 0)
      && Wrap(number + skip + |out|) == (number + skip + |out|) % TWO_64
      && forall k :: 0 <= k < |out| ==> out[k] == Delivery((number + skip + k) % TWO_64, ms[skip + k])
  {
    var out, unseen := Numbered(Unseen(ms[..have], skip), number + skip), Unseen(ms[..have], skip);
    forall k | 0 <= k < |out| ensures out[k] == Delivery((number + skip + k) % TWO_64, ms[skip + k]) {
      assert unseen[k] == ms[..have][skip + k];
      assert out[k] == Delivery(Wrap(number + skip + k), unseen[k]);
    }
  }

  /** The whole answer to a packet: where the sequencer stands then, what it delivers, and what it reports. */
  lemma StepReports(s: Sequencer, pkt: seq<u8>)
    ensures var (t, r, out) := Step(s, pkt);
      if |pkt| < 20 then t == s && out == [] && r == Result(0, 0, 0, true, false, false)
      else if Two(pkt, 18) == 0xFFFF then t == s && out == [] && r == Result(0, 0, 0, false, true, false)
      else
        var session, number, count := pkt[..10], Eight(pkt, 10), Two(pkt, 18);
        var switched := s.next != 0 && s.session != session;
        var expected := if s.next == 0 || switched then number else s.next;
        var ms := Records(pkt[20..]);
        var have, skip := Min(count, |ms|), if expected > number then expected - number else 0;
        && t.session == session && t.next == (Max(expected, number) + |out|) % TWO_64
        && r.sessionChanged == switched && !r.endOfSession && r.malformed == (|ms| < count)
        && r.gapCount == (if number > expected then number - expected else 0)
        && r.gapFirst == (if number > expected then expected else 0)
        && r.delivered == |out| == (if have > skip then have - skip else 0)
        && forall k :: 0 <= k < |out| ==> out[k] == Delivery((number + skip + k) % TWO_64, ms[skip + k])
  {
    hide ParseHeader, Eight, Two, Blocks, Records, Step, Numbered, Unseen, Wrap;
    HeaderLayout(pkt);
    StepIs(s, pkt);
    if |pkt| >= 20 && Two(pkt, 18) != 0xFFFF {
      var number, count := Eight(pkt, 10), Two(pkt, 18);
      var ms := Records(pkt[20..]);
      BlocksAreRecords(pkt[20..], count);
      var expected := if s.next == 0 || s.session != pkt[..10] then number else s.next;
      var have, skip := Min(count, |ms|), if expected > number then expected - number else 0;
      DeliveriesAre(ms, have, skip, number);
      assert Max(expected, number) == number + skip;
    }
  }

  lemma StepIs(s: Sequencer, pkt: seq<u8>)
    ensures match ParseHeader(pkt)
      case None => Step(s, pkt) == (s, Result(0, 0, 0, true, false, false), [])
      case Some(h) =>
        if h.count == 0xFFFF then Step(s, pkt) == (s, Result(0, 0, 0, false, true, false), [])
        else
          |pkt| >= 20 &&
          var switched := s.next != 0 && s.session != h.session;
          var expected := if s.next == 0 || switched then h.sequence else s.next;
          var first := Max(expected, h.sequence);
          var ms := Blocks(pkt[20..], h.count);
          var unseen := Unseen(ms, first - h.sequence);
          var gap := first - expected;
          Step(s, pkt) ==
            (Sequencer(h.session, Wrap(first + |unseen|)),
             Result(|unseen|, if gap > 0 then expected else 0, gap, |ms| < h.count, false, switched),
             Numbered(unseen, first))
  {
    hide ParseHeader, Blocks, Unseen, Wrap, Numbered;
    HeaderRoom(pkt);
  }
}
