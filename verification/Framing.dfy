/** Records of a two-byte big-endian length and that many bytes: binary files, and the message blocks of a packet. */
module Framing {
  import opened Machine
  import opened Bytes

  /** The length of the message at the front, when all of its record is there. */
  function Front(buf: seq<u8>): Option<nat> {
    if |buf| < 2 then None else
      var n := Load16(buf[..2]);
      if 2 + n > |buf| then None else Some(n)
  }

  /** The same from an offset into a longer buffer, as the loops read it. */
  lemma FrontAt(buf: seq<u8>, off: nat)
    requires off <= |buf|
    ensures Front(buf[off..]) ==
      if off + 2 > |buf| then None else
        var n := Load16(buf[off..off + 2]); if off + 2 + n > |buf| then None else Some(n)
    ensures var f := Front(buf[off..]);
      f.Some? ==> off + 2 + f.value <= |buf| && buf[off..][2..2 + f.value] == buf[off + 2..off + 2 + f.value]
                  && buf[off..][2 + f.value..] == buf[off + 2 + f.value..]
  {
    if off + 2 <= |buf| { assert buf[off..][..2] == buf[off..off + 2]; }
  }

  lemma FrontSlices(buf: seq<u8>, off: nat)
    requires off <= |buf| && Front(buf[off..]).Some?
    ensures var end := off + 2 + Front(buf[off..]).value; var k := 2 + Front(buf[off..]).value;
      end <= |buf| && buf[off..][2..k] == buf[off + 2..end] && buf[off..][k..] == buf[end..]
  {
    FrontAt(buf, off);
  }

  /** The messages of the complete records at the front of a buffer. */
  function Records(buf: seq<u8>): seq<seq<u8>> {
    match Front(buf)
    case None => []
    case Some(n) => [buf[2..2 + n]] + Records(buf[2 + n..])
  }

  /** The bytes that those records take. */
  function Consumed(buf: seq<u8>): (n: nat)
    ensures n <= |buf|
  {
    match Front(buf)
    case None => 0
    case Some(n) => 2 + n + Consumed(buf[2 + n..])
  }

  /** A message with its length prefix. */
  function Block(m: seq<u8>): (b: seq<u8>)
    ensures |b| == 2 + |m|
  {
    BeBytes(|m|, 2) + m
  }

  function Join(ms: seq<seq<u8>>): seq<u8> {
    if ms == [] then [] else Block(ms[0]) + Join(ms[1..])
  }

  lemma JoinNone()
    ensures Join([]) == []
  {
  }

  lemma JoinStep(ms: seq<seq<u8>>, rest: seq<u8>)
    requires ms != []
    ensures Join(ms) + rest == Block(ms[0]) + (Join(ms[1..]) + rest) && |Join(ms)| == 2 + |ms[0]| + |Join(ms[1..])|
  {
    hide Block;
    Assoc(Block(ms[0]), Join(ms[1..]), rest);
  }

  lemma JoinOne(m: seq<u8>)
    ensures Join([m]) == Block(m)
  {
    assert [m][1..] == [];
  }

  lemma RecordsStep(buf: seq<u8>)
    ensures Front(buf) == None ==> Records(buf) == [] && Consumed(buf) == 0
    ensures Front(buf).Some? ==>
      var n := Front(buf).value;
      && 2 + n <= |buf|
      && Records(buf) == [buf[2..2 + n]] + Records(buf[2 + n..])
      && Consumed(buf) == 2 + n + Consumed(buf[2 + n..])
  {
  }

  /** A loop over the records stands at `off` and has `done` behind it. */
  ghost predicate Streamed(buf: seq<u8>, off: nat, done: seq<seq<u8>>) {
    off <= |buf| && Records(buf) == done + Records(buf[off..]) && Consumed(buf) == off + Consumed(buf[off..])
  }

  lemma StreamStarts(buf: seq<u8>)
    ensures Streamed(buf, 0, [])
  {
    assert buf[0..] == buf;
  }

  lemma RecordsAt(buf: seq<u8>, off: nat)
    requires off <= |buf|
    ensures match Front(buf[off..])
      case None => Records(buf[off..]) == [] && Consumed(buf[off..]) == 0
      case Some(n) =>
        && off + 2 + n <= |buf|
        && Records(buf[off..]) == [buf[off + 2..off + 2 + n]] + Records(buf[off + 2 + n..])
        && Consumed(buf[off..]) == 2 + n + Consumed(buf[off + 2 + n..])
  {
    hide Front, Records, Consumed;
    RecordsStep(buf[off..]);
    if Front(buf[off..]).Some? { FrontSlices(buf, off); }
  }

  lemma StreamStep(buf: seq<u8>, off: nat, done: seq<seq<u8>>)
    requires Streamed(buf, off, done)
    ensures match Front(buf[off..])
      case None => Records(buf) == done && Consumed(buf) == off
      case Some(n) => off + 2 + n <= |buf| && Streamed(buf, off + 2 + n, done + [buf[off + 2..off + 2 + n]])
  {
    hide Front, Records, Consumed;
    RecordsAt(buf, off);
    match Front(buf[off..])
    case None => assert done + [] == done;
    case Some(n) => Assoc(done, [buf[off + 2..off + 2 + n]], Records(buf[off + 2 + n..]));
  }

  ghost predicate Frameable(ms: seq<seq<u8>>) {
    forall i :: 0 <= i < |ms| ==> |ms[i]| < TWO_16
  }

  lemma BlockAtFront(m: seq<u8>, rest: seq<u8>)
    requires |m| < TWO_16
    ensures Front(Block(m) + rest) == Some(|m|)
    ensures (Block(m) + rest)[2..2 + |m|] == m && (Block(m) + rest)[2 + |m|..] == rest
  {
    Widths();
    BeOfBytes(|m|, 2);
    assert (Block(m) + rest)[..2] == BeBytes(|m|, 2);
  }

  lemma FrontIsBlock(buf: seq<u8>)
    requires Front(buf).Some?
    ensures var n := Front(buf).value;
      n < TWO_16 && buf == Block(buf[2..2 + n]) + buf[2 + n..]
  {
    BytesOfBe(buf[..2]);
  }

  /** The consumed bytes are exactly the records, and what is left starts with no complete record. */
  lemma {:induction false} RecordsAreABlockSequence(buf: seq<u8>)
    ensures Frameable(Records(buf)) && buf[..Consumed(buf)] == Join(Records(buf))
    ensures Front(buf[Consumed(buf)..]) == None
  {
    if Front(buf).Some? {
      var n := Front(buf).value;
      var rest := buf[2 + n..];
      FrontIsBlock(buf);
      RecordsAreABlockSequence(rest);
      assert Records(buf)[1..] == Records(rest);
      assert buf[..Consumed(buf)] == Block(buf[2..2 + n]) + rest[..Consumed(rest)];
      assert buf[Consumed(buf)..] == rest[Consumed(rest)..];
    }
  }

  /** And they are the only messages that give these bytes. */
  lemma {:induction false} RecordsOfJoin(ms: seq<seq<u8>>, rest: seq<u8>)
    requires Frameable(ms) && Front(rest) == None
    ensures Records(Join(ms) + rest) == ms && Consumed(Join(ms) + rest) == |Join(ms)|
  {
    hide Front, Records, Consumed, Block, Join;
    if ms == [] {
      JoinNone();
      assert [] + rest == rest;
      RecordsStep(rest);
    } else {
      var tail := Join(ms[1..]) + rest;
      BlockAtFront(ms[0], tail);
      RecordsOfJoin(ms[1..], rest);
      JoinStep(ms, rest);
      RecordsStep(Block(ms[0]) + tail);
      assert ms == [ms[0]] + ms[1..];
    }
  }

  lemma {:induction false} JoinConcat(a: seq<seq<u8>>, b: seq<seq<u8>>)
    ensures Join(a + b) == Join(a) + Join(b)
  {
    hide Block;
    if a == [] {
      assert a + b == b && Join(a) + Join(b) == Join(b);
    } else {
      JoinConcat(a[1..], b);
      assert (a + b)[1..] == a[1..] + b && (a + b)[0] == a[0];
      Assoc(Block(a[0]), Join(a[1..]), Join(b));
    }
  }
}
