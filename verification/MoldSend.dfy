/** The replay sender that packs a binary file into MoldUDP64 packets (tools/mold_send.py:24-80). */
module MoldSend {
  import opened Machine
  import opened Bytes
  import opened Framing
  import opened Mold
  import opened MoldRuns
  import opened MoldLines

  const MAX_BATCH := 0xFFFE

  function Packet(session: seq<u8>, seqNo: nat, count: nat, body: seq<u8>): seq<u8> {
    session + BeBytes(seqNo, 8) + BeBytes(count, 2) + body
  }

  lemma HeaderOfPacket(session: seq<u8>, seqNo: nat, count: nat, body: seq<u8>)
    requires |session| == 10 && seqNo < TWO_64 && count < TWO_16
    ensures var p := Packet(session, seqNo, count, body);
      |p| == HEADER_LENGTH + |body| && ParseHeader(p) == Some(Header(session, seqNo, count))
        && p[HEADER_LENGTH..] == body
  {
    var p := Packet(session, seqNo, count, body);
    Widths();
    BeOfBytes(seqNo, 8);
    BeOfBytes(count, 2);
    assert p[..10] == session && p[10..18] == BeBytes(seqNo, 8) && p[18..20] == BeBytes(count, 2);
  }

  lemma {:induction false} BlocksOfJoin(ms: seq<seq<u8>>)
    requires Frameable(ms)
    ensures Blocks(Join(ms), |ms|) == ms
  {
    hide Front, Block;
    BlocksStep(Join(ms), |ms|);
    if ms != [] {
      BlockAtFront(ms[0], Join(ms[1..]));
      BlocksOfJoin(ms[1..]);
    }
  }

  /**
   A packet of the sender, read back: not a heartbeat, not an end of session, and within the limit unless it is a
   single record.
   */
  ghost predicate WellPacked(p: seq<u8>, mtu: int) {
    Data(p) && (|p| <= mtu || Adds(p) == 1)
  }

  ghost predicate AllWellPacked(ps: seq<seq<u8>>, mtu: int) {
    forall i :: 0 <= i < |ps| ==> WellPacked(ps[i], mtu)
  }

  ghost predicate AllEnd(ps: seq<seq<u8>>) {
    forall i :: 0 <= i < |ps| ==> ParseHeader(ps[i]).Some? && ParseHeader(ps[i]).value.count == END_OF_SESSION
  }

  lemma BatchFits(c: Channel, pos: nat, batch: seq<seq<u8>>)
    requires c.Valid() && |c.session| == 10 && Frameable(batch) && 0 < |batch| <= MAX_BATCH
    requires pos + |batch| <= |c.messages| && batch == c.messages[pos..pos + |batch|]
    ensures var p := Packet(c.session, c.base + pos, |batch|, Join(batch));
      Fits(c, p, pos) && Data(p) && Adds(p) == |batch| && |p| == HEADER_LENGTH + |Join(batch)|
  {
    hide Packet, ParseHeader, Blocks, Join;
    HeaderOfPacket(c.session, c.base + pos, |batch|, Join(batch));
    BlocksOfJoin(batch);
  }

  /** The first message of a data packet. */
  ghost function FirstOf(p: seq<u8>): seq<u8> {
    if |p| <= HEADER_LENGTH then [] else FirstIn(p[HEADER_LENGTH..])
  }

  ghost function FirstIn(body: seq<u8>): seq<u8> {
    match Front(body)
    case None => []
    case Some(n) => body[2..2 + n]
  }

  /** A packet that a message of `n` bytes would not have fitted into. */
  ghost predicate NoRoomFor(p: seq<u8>, n: nat, mtu: int) { |p| + 2 + n > mtu || Adds(p) == MAX_BATCH }

  /** Each packet is as full as can be: the first message of the next one would not have fitted. */
  ghost predicate AllTight(ps: seq<seq<u8>>, mtu: int) {
    forall i :: 0 <= i < |ps| - 1 ==> NoRoomFor(ps[i], |FirstOf(ps[i + 1])|, mtu)
  }

  lemma FirstOfPacket(session: seq<u8>, seqNo: nat, batch: seq<seq<u8>>)
    requires |session| == 10 && Frameable(batch) && batch != []
    ensures FirstOf(Packet(session, seqNo, |batch|, Join(batch))) == batch[0]
  {
    hide Packet, BeBytes, FirstIn;
    HeadAndBody(session, seqNo, |batch|, Join(batch));
    FirstInJoin(batch);
  }

  lemma HeadAndBody(session: seq<u8>, seqNo: nat, count: nat, body: seq<u8>)
    requires |session| == 10
    ensures var p := Packet(session, seqNo, count, body); |p| == HEADER_LENGTH + |body| && p[HEADER_LENGTH..] == body
  {
    hide BeBytes;
  }

  lemma FirstInJoin(batch: seq<seq<u8>>)
    requires Frameable(batch) && batch != []
    ensures |Join(batch)| >= 2 && FirstIn(Join(batch)) == batch[0]
  {
    hide Front, Block;
    BlockAtFront(batch[0], Join(batch[1..]));
  }

  lemma TightSnoc(ps: seq<seq<u8>>, p: seq<u8>, mtu: int)
    requires AllTight(ps, mtu) && (ps != [] ==> NoRoomFor(ps[|ps| - 1], |FirstOf(p)|, mtu))
    ensures AllTight(ps + [p], mtu)
  {
    hide NoRoomFor, FirstOf;
  }

  class MoldSender {
    const session: seq<u8>
    const mtu: int
    var seqNo: nat
    var batch: seq<seq<u8>>
    var batchBytes: nat
    var sent: seq<seq<u8>>
    var sentPackets: nat
    var sentMsgs: nat

    /** What has been sent carries the first messages of the channel, and the batch holds the ones after them. */
    ghost predicate Valid(c: Channel, taken: nat)
      reads this
    {
      && c.Valid() && c.base == 1 && c.session == session && |session| == 10
      && seqNo == 1 + sentMsgs && |sent| == sentPackets
      && taken <= |c.messages| && sentMsgs + |batch| == taken && batch == c.messages[sentMsgs..taken]
      && |batch| <= MAX_BATCH && Frameable(batch) && batchBytes == |Join(batch)|
      && (batchBytes <= mtu - HEADER_LENGTH || |batch| <= 1)
      && Carries(c, sent, 0, sentMsgs) && AllWellPacked(sent, mtu)
      && AllTight(sent, mtu) && (sent != [] && batch != [] ==> NoRoomFor(sent[|sent| - 1], |batch[0]|, mtu))
    }

    predicate Initial()
      reads this
    {
      seqNo == 1 && batch == [] && batchBytes == 0 && sent == [] && sentPackets == 0 && sentMsgs == 0
    }

    lemma InitialIsValid(c: Channel)
      requires Initial() && c.Valid() && c.base == 1 && c.session == session && |session| == 10
      ensures Valid(c, 0)
    {
    }

    constructor (session: seq<u8>, mtu: int)
      requires |session| == 10
      ensures this.session == session && this.mtu == mtu
      ensures Initial()
    {
      this.session, this.mtu := session, mtu;
      seqNo, batch, batchBytes := 1, [], 0;
      sent, sentPackets, sentMsgs := [], 0, 0;
    }

    method Flush(ghost c: Channel, ghost taken: nat)
      requires Valid(c, taken)
      modifies this
      ensures Valid(c, taken) && batch == [] && sentMsgs == taken
      ensures old(batch) == [] ==> sent == old(sent)
      ensures old(batch) != [] ==>
        && sent == old(sent) + [Packet(session, old(seqNo), |old(batch)|, Join(old(batch)))]
        && |sent[|sent| - 1]| == HEADER_LENGTH + old(batchBytes) && Adds(sent[|sent| - 1]) == |old(batch)|
    {
      hide Packet, Fits, Adds, Data, Join, Carries, AllTight, NoRoomFor, FirstOf;
      if batch == [] { return; }
      ghost var pos := sentMsgs;
      var p := Packet(session, seqNo, |batch|, Join(batch));
      BatchFits(c, pos, batch);
      CarriesAppend(c, sent, 0, pos, p);
      FirstOfPacket(session, seqNo, batch);
      TightSnoc(sent, p, mtu);
      sent := sent + [p];
      seqNo := seqNo + |batch|;
      sentPackets := sentPackets + 1;
      sentMsgs := sentMsgs + |batch|;
      JoinNone();
      batch, batchBytes := [], 0;
    }

    method Take(rec: seq<u8>, ghost c: Channel, ghost taken: nat)
      requires Valid(c, taken) && taken < |c.messages| && rec == c.messages[taken] && |rec| < TWO_16
      requires batch == [] ==> sent == []
      modifies this
      ensures Valid(c, taken + 1)
      ensures if old(batch) != [] && (old(batchBytes) + 2 + |rec| > mtu - 20 || |old(batch)| == 0xFFFE)
        then sent == old(sent) + [Packet(session, old(seqNo), |old(batch)|, Join(old(batch)))] && batch == [rec]
        else sent == old(sent) && batch == old(batch) + [rec]
    {
      hide Packet, Fits, Adds, Data, Join, Carries, WellPacked, AllTight, FirstOf;
      if batchBytes + 2 + |rec| > mtu - HEADER_LENGTH || |batch| == MAX_BATCH { Flush(c, taken); }
      JoinConcat(batch, [rec]);
      JoinOne(rec);
      batch := batch + [rec];
      batchBytes := batchBytes + 2 + |rec|;
    }

    /** The whole program on one file: records, batches, and three packets that end the session. */
    method SendFile(data: seq<u8>)
      requires Initial() && |session| == 10 && |Records(data)| + 1 < TWO_64
      modifies this
      ensures |sent| >= 3 && AllWellPacked(sent[..|sent| - 3], mtu) && AllEnd(sent[|sent| - 3..])
      ensures sentMsgs == |Records(data)| && sentPackets == |sent| - 3 && AllTight(sent[..|sent| - 3], mtu)
      ensures Run(Sequencer([], 0), sent).1 == Log(Numbered(Records(data), 1), [], 0)
      ensures var last := Packet(session, 1 + |Records(data)|, 0xFFFF, []); sent[|sent| - 3..] == [last, last, last]
    {
      hide Valid, Packet, Carries, Front, Records, Frameable, WellPacked, AllTight;
      var ms := Records(data);
      var c := Channel(session, 1, ms);
      RecordsAreABlockSequence(data);
      InitialIsValid(c);
      var off := 0;
      ghost var taken := 0;
      while off + 2 <= |data|
        invariant 0 <= off <= |data| && taken <= |ms| && ms[taken..] == Records(data[off..])
        invariant Valid(c, taken) && (batch == [] ==> sent == [])
        decreases |data| - off
      {
        FrontAt(data, off);
        RecordsStep(data[off..]);
        var n := Load16(data[off..off + 2]);
        if off + 2 + n > |data| { break; }
        var rec := data[off + 2..off + 2 + n];
        assert rec == ms[taken..][0];
        Take(rec, c, taken);
        assert ms[taken + 1..] == ms[taken..][1..];
        off, taken := off + 2 + n, taken + 1;
      }
      FrontAt(data, off);
      RecordsStep(data[off..]);
      Flush(c, taken);
      EndSession(c);
    }

    method EndSession(c: Channel)
      requires Valid(c, |c.messages|) && batch == []
      modifies this`sent
      ensures |sent| == old(|sent|) + 3 && sent[..|sent| - 3] == old(sent) && AllEnd(sent[|sent| - 3..])
      ensures Run(Sequencer([], 0), sent).1 == Log(Numbered(c.messages, 1), [], 0)
      ensures var last := Packet(session, 1 + |c.messages|, 0xFFFF, []); sent[|sent| - 3..] == [last, last, last]
      ensures AllWellPacked(old(sent), mtu) && AllTight(old(sent), mtu) && sentMsgs == |c.messages|
        && sentPackets == |old(sent)|
    {
      hide Packet, Carries, WellPacked, Join, Run, Numbered, AllTight, NoRoomFor, FirstOf;
      ghost var before := sent;
      var last := Packet(session, seqNo, END_OF_SESSION, []);
      HeaderOfPacket(session, seqNo, END_OF_SESSION, []);
      for i := 0 to 3
        invariant |sent| == |before| + i && sent[..|before|] == before && AllEnd(sent[|before|..])
        invariant forall k :: |before| <= k < |sent| ==> sent[k] == last
        invariant Carries(c, sent, 0, |c.messages|)
      {
        CarriesAppend(c, sent, 0, |c.messages|, last);
        assert (sent + [last])[|before|..] == sent[|before|..] + [last];
        sent := sent + [last];
      }
      OneLineDelivers(c, sent);
    }
  }
}
