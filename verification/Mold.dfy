/** MoldUDP64 sequencing: gaps, duplicates, redundant lines (include/itch/mold_udp64.hpp:27-109). */
module Mold {
  import opened Machine
  import opened Arith
  import opened Bytes
  import opened Framing

  const HEADER_LENGTH := 20
  const HEARTBEAT: u16 := 0
  const END_OF_SESSION: u16 := 0xFFFF

  datatype Header = Header(session: seq<u8>, sequence: u64, count: u16)

  datatype Result = Result(
    delivered: nat, gapFirst: u64, gapCount: u64, malformed: bool, endOfSession: bool, sessionChanged: bool)

  const NOTHING := Result(0, 0, 0, false, false, false)

  datatype Delivery = Delivery(seqNo: u64, message: seq<u8>)

  /** `next` is 0 until the first packet sets a baseline. */
  datatype Sequencer = Sequencer(session: seq<u8>, next: u64)

  function ParseHeader(pkt: seq<u8>): Option<Header> {
    if |pkt| < HEADER_LENGTH then None
    else Some(Header(pkt[..10], Load64(pkt[10..18]), Load16(pkt[18..20])))
  }

  /** The messages of the first `count` blocks, or of as many as are complete. */
  function Blocks(buf: seq<u8>, count: nat): (ms: seq<seq<u8>>)
    ensures |ms| <= count
  {
    if count == 0 then [] else
      match Front(buf)
      case None => []
      case Some(n) => [buf[2..2 + n]] + Blocks(buf[2 + n..], count - 1)
  }

  /** 64-bit addition wraps. */
  function Wrap(x: nat): u64 { x % TWO_64 }

  function Numbered(ms: seq<seq<u8>>, first: nat): (ds: seq<Delivery>)
    ensures |ds| == |ms|
  {
    seq(|ms|, i requires 0 <= i < |ms| => Delivery(Wrap(first + i), ms[i]))
  }

  function Baseline(s: Sequencer, h: Header): Sequencer {
    if s.next == 0 || h.session != s.session then Sequencer(h.session, h.sequence) else s
  }

  /** All but the first `skip` messages. */
  function Unseen(ms: seq<seq<u8>>, skip: nat): seq<seq<u8>> { ms[Min(skip, |ms|)..] }

  /** One packet: of its messages, those at or after the expected number are delivered, and missing numbers reported. */
  function Step(s: Sequencer, pkt: seq<u8>): (Sequencer, Result, seq<Delivery>) {
    match ParseHeader(pkt)
    case None => (s, NOTHING.(malformed := true), [])
    case Some(h) =>
      if h.count == END_OF_SESSION then (s, NOTHING.(endOfSession := true), []) else
        var b := Baseline(s, h);
        var first := Max(b.next, h.sequence);
        var gap := first - b.next;
        var ms := Blocks(pkt[HEADER_LENGTH..], h.count);
        var unseen := Unseen(ms, first - h.sequence);
        (b.(next := Wrap(first + |unseen|)),
         Result(|unseen|, if gap > 0 then b.next else 0, gap, |ms| < h.count, false,
                s.next != 0 && h.session != s.session),
         Numbered(unseen, first))
  }

  lemma NumberedNone(first: nat)
    ensures Numbered([], first) == [] && forall skip :: Unseen([], skip) == []
  {
  }

  lemma NumberedSnoc(ms: seq<seq<u8>>, first: nat, m: seq<u8>)
    ensures Numbered(ms + [m], first) == Numbered(ms, first) + [Delivery(Wrap(first + |ms|), m)]
  {
  }

  /** What is delivered of the messages seen so far, when one more is seen. */
  function Due(seen: seq<seq<u8>>, skip: nat, first: nat): seq<Delivery> {
    Numbered(Unseen(seen, skip), first)
  }

  lemma DueIs(seen: seq<seq<u8>>, skip: nat, first: nat)
    ensures Due(seen, skip, first) == Numbered(Unseen(seen, skip), first)
    ensures |Due(seen, skip, first)| == |seen| - Min(skip, |seen|)
  {
  }

  lemma HeaderRoom(pkt: seq<u8>)
    ensures ParseHeader(pkt).Some? ==> |pkt| >= HEADER_LENGTH
  {
  }

  lemma WrapSmall(x: u64)
    ensures Wrap(x) == x
  {
  }

  lemma NextStep(first: nat, k: nat)
    ensures Wrap(Wrap(first + k) + 1) == Wrap(first + k + 1)
  {
    ModAdd(first + k, 1, TWO_64);
  }

  lemma DueStep(seen: seq<seq<u8>>, skip: nat, sequence: nat, m: seq<u8>)
    requires sequence + skip < TWO_64 && |seen| < TWO_16
    ensures var first := sequence + skip; var due := Due(seen, skip, first);
      && |due| == |seen| - Min(skip, |seen|)
      && (Wrap(sequence + |seen|) == Wrap(first + |due|) <==> |seen| >= skip)
      && Due(seen + [m], skip, first) ==
           if |seen| >= skip then due + [Delivery(Wrap(sequence + |seen|), m)] else due
  {
    hide Numbered;
    var first := sequence + skip;
    NumberedNone(first);
    if |seen| >= skip {
      NumberedSnoc(seen[skip..], first, m);
      assert (seen + [m])[skip..] == seen[skip..] + [m];
    } else {
      assert (seen + [m])[|seen| + 1..] == [] == seen[|seen|..];
    }
  }

  lemma BlocksStep(buf: seq<u8>, count: nat)
    ensures count == 0 || Front(buf) == None ==> Blocks(buf, count) == []
    ensures count > 0 && Front(buf).Some? ==>
      var n := Front(buf).value;
      2 + n <= |buf| && Blocks(buf, count) == [buf[2..2 + n]] + Blocks(buf[2 + n..], count - 1)
  {
  }

  /** A packet of the session, heartbeat or data, when a number is expected. */
  lemma StepInSession(s: Sequencer, pkt: seq<u8>)
    requires s.next > 0 && ParseHeader(pkt).Some? && |pkt| >= HEADER_LENGTH
    requires ParseHeader(pkt).value.count != END_OF_SESSION && ParseHeader(pkt).value.session == s.session
    ensures var h := ParseHeader(pkt).value; var (t, r, out) := Step(s, pkt);
      var first := Max(s.next, h.sequence); var ms := Blocks(pkt[HEADER_LENGTH..], h.count);
      var unseen := Unseen(ms, first - h.sequence);
      && t == Sequencer(s.session, Wrap(first + |unseen|)) && out == Numbered(unseen, first)
      && r.gapCount == first - s.next && (r.malformed <==> |ms| < h.count)
  {
    hide ParseHeader, Blocks, Unseen, Wrap, Numbered;
  }

  class MoldSequencer {
    var session: seq<u8>
    var next: u64

    function View(): Sequencer
      reads this
    {
      Sequencer(session, next)
    }

    constructor ()
      ensures View() == Sequencer([], 0)
    {
      session, next := [], 0;
    }

    /** Returns the messages in the order in which they are handed to the receiver. */
    method OnPacket(pkt: seq<u8>) returns (r: Result, out: seq<Delivery>)
      modifies this
      ensures (View(), r, out) == Step(old(View()), pkt)
    {
      hide Blocks, Numbered, Unseen, Wrap, ParseHeader;
      r, out := NOTHING, [];
      var parsed := ParseHeader(pkt);
      if parsed.None? { return r.(malformed := true), []; }
      var h := parsed.value;
      HeaderRoom(pkt);
      if h.count == END_OF_SESSION { return r.(endOfSession := true), []; }
      if next == 0 || h.session != session {
        r := r.(sessionChanged := next != 0);
        session, next := h.session, h.sequence;
      }
      if h.count == HEARTBEAT {
        if h.sequence > next {
          r := r.(gapFirst := next, gapCount := h.sequence - next);
          next := h.sequence;
        }
        BlocksStep(pkt[HEADER_LENGTH..], 0);
        NumberedNone(next);
        WrapSmall(next);
        return;
      }
      if h.sequence > next {
        r := r.(gapFirst := next, gapCount := h.sequence - next);
        next := h.sequence;
      }
      var complete;
      complete, out := DeliverBlocks(pkt, h);
      r := r.(delivered := |out|, malformed := !complete);
    }

    /** The loop over the blocks, with the sequence number compared as the 64-bit sum that it is. */
    method DeliverBlocks(pkt: seq<u8>, h: Header) returns (complete: bool, out: seq<Delivery>)
      requires |pkt| >= HEADER_LENGTH && h.sequence <= next
      modifies this`next
      ensures var ms := Blocks(pkt[HEADER_LENGTH..], h.count);
        var unseen := Unseen(ms, old(next) - h.sequence);
        && complete == (|ms| == h.count)
        && out == Numbered(unseen, old(next))
        && next == Wrap(old(next) + |unseen|)
    {
      hide Blocks, Numbered, Unseen, Front, Due, Wrap;
      WrapSmall(next);
      out := [];
      var off, i := HEADER_LENGTH, 0;
      ghost var first: u64 := next;
      ghost var skip := first - h.sequence;
      ghost var ms := Blocks(pkt[HEADER_LENGTH..], h.count);
      ghost var seen: seq<seq<u8>> := [];
      DueIs(seen, skip, first);
      while i < h.count
        invariant 0 <= i <= h.count && HEADER_LENGTH <= off <= |pkt|
        invariant |seen| == i && ms == seen + Blocks(pkt[off..], h.count - i)
        invariant out == Due(seen, skip, first)
        invariant next == Wrap(first + |out|)
      {
        FrontAt(pkt, off);
        BlocksStep(pkt[off..], h.count - i);
        DueIs(seen, skip, first);
        if off + 2 > |pkt| {
          assert ms == seen;
          return false, out;
        }
        var n := Load16(pkt[off..off + 2]);
        if off + 2 + n > |pkt| {
          assert ms == seen;
          return false, out;
        }
        var message := pkt[off + 2..off + 2 + n];
        var seqNo: u64 := Wrap(h.sequence + i);
        DueStep(seen, skip, h.sequence, message);
        NextStep(first, |out|);
        if seqNo == next {
          out := out + [Delivery(seqNo, message)];
          next := Wrap(next + 1);
        }
        assert ms == (seen + [message]) + Blocks(pkt[off + 2 + n..], h.count - i - 1);
        seen := seen + [message];
        off, i := off + 2 + n, i + 1;
      }
      DueIs(seen, skip, first);
      BlocksStep(pkt[off..], 0);
      assert ms == seen;
      complete := true;
    }
  }
}
