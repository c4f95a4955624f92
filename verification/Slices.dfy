/** Replaying a buffer slice by slice (tools/feed_handler_main.cpp:358-381). */
module Slices {
  import opened Machine
  import opened Framing

  const LONGEST_RECORD := 2 + 0xFFFF

  /**
   The records and the bytes consumed when each slice starts where the last one stopped, until one consumes nothing.
   */
  function Sliced(buf: seq<u8>, slice: nat): (r: (seq<seq<u8>>, nat))
    ensures r.1 <= |buf|
    decreases |buf|
  {
    var part := buf[..Min(slice, |buf|)];
    var used := Consumed(part);
    if used == 0 then ([], 0) else
      var (ms, n) := Sliced(buf[used..], slice);
      (Records(part) + ms, used + n)
  }

  /** Where the n-th slice stops. */
  function StopOf(buf: seq<u8>, slice: nat, n: nat): (off: nat)
    ensures off <= |buf|
  {
    if n == 0 then 0 else
      var at := StopOf(buf, slice, n - 1);
      at + Consumed(buf[at..at + Min(slice, |buf| - at)])
  }

  lemma StopStep(buf: seq<u8>, slice: nat, n: nat)
    ensures StopOf(buf, slice, 0) == 0
    ensures var at := StopOf(buf, slice, n);
      StopOf(buf, slice, n + 1) == at + Consumed(buf[at..at + Min(slice, |buf| - at)])
  {
    hide Consumed, Min;
  }

  lemma SameFront(a: seq<u8>, b: seq<u8>)
    requires Front(a).Some?
    ensures Front(a + b) == Front(a)
    ensures var k := 2 + Front(a).value;
      k <= |a| && (a + b)[2..k] == a[2..k] && (a + b)[k..] == a[k..] + b
  {
    assert (a + b)[..2] == a[..2];
  }

  /** The records of a prefix are the first records; the others start where its last complete record ends. */
  lemma {:induction false} PrefixRecords(a: seq<u8>, b: seq<u8>)
    ensures var rest := a[Consumed(a)..] + b;
      && Records(a + b) == Records(a) + Records(rest)
      && Consumed(a + b) == Consumed(a) + Consumed(rest)
    decreases |a|
  {
    hide Front, Records, Consumed;
    RecordsStep(a);
    RecordsStep(a + b);
    if Front(a).Some? {
      var k := 2 + Front(a).value;
      SameFront(a, b);
      PrefixRecords(a[k..], b);
      assert a[Consumed(a)..] == a[k..][Consumed(a[k..])..];
    } else {
      assert a[0..] == a;
    }
  }

  /** A slice that can hold the longest record gets stuck only where the whole buffer does. */
  lemma StuckMeansDone(buf: seq<u8>, n: nat)
    requires n <= |buf| && (n == |buf| || n >= LONGEST_RECORD) && Consumed(buf[..n]) == 0
    ensures Records(buf) == [] && Consumed(buf) == 0
  {
    if n == |buf| { assert buf[..n] == buf; }
  }

  lemma {:induction false} SlicedIsWhole(buf: seq<u8>, slice: nat)
    requires slice >= LONGEST_RECORD
    ensures Sliced(buf, slice) == (Records(buf), Consumed(buf))
    decreases |buf|
  {
    hide Records, Consumed;
    var n := Min(slice, |buf|);
    if Consumed(buf[..n]) == 0 {
      StuckMeansDone(buf, n);
    } else {
      PrefixRecords(buf[..n], buf[n..]);
      assert buf == buf[..n] + buf[n..];
      assert buf[Consumed(buf[..n])..] == buf[..n][Consumed(buf[..n])..] + buf[n..];
      SlicedIsWhole(buf[Consumed(buf[..n])..], slice);
    }
  }

  /** `off` is a record boundary: the records before it end there. */
  ghost predicate Boundary(buf: seq<u8>, off: nat) { off <= |buf| && Consumed(buf[..off]) == off }

  lemma BoundarySplits(buf: seq<u8>, off: nat)
    requires Boundary(buf, off)
    ensures Records(buf) == Records(buf[..off]) + Records(buf[off..]) && Consumed(buf) == off + Consumed(buf[off..])
  {
    hide Records, Consumed;
    PrefixRecords(buf[..off], buf[off..]);
    assert buf == buf[..off] + buf[off..];
    assert buf[..off][off..] + buf[off..] == buf[off..];
  }

  lemma ConsumedPart(part: seq<u8>)
    ensures var used := Consumed(part); Records(part[..used]) == Records(part) && Consumed(part[..used]) == used
  {
    hide Records, Consumed, Join;
    RecordsAreABlockSequence(part);
    RecordsOfJoin(Records(part), []);
    assert Join(Records(part)) + [] == part[..Consumed(part)];
  }

  /** A slice that starts at a boundary ends its records at the next one. */
  lemma BoundaryStep(buf: seq<u8>, off: nat, n: nat)
    requires Boundary(buf, off) && off + n <= |buf|
    ensures var part := buf[off..off + n]; var end := off + Consumed(part);
      Boundary(buf, end) && Records(buf[..end]) == Records(buf[..off]) + Records(part)
  {
    hide Records, Consumed;
    var part := buf[off..off + n];
    var b := part[..Consumed(part)];
    ConsumedPart(part);
    PrefixRecords(buf[..off], b);
    assert buf[..off][off..] + b == b;
    assert buf[..off] + b == buf[..off + |b|];
  }

  /** One turn of the slice loop. */
  lemma SlicedStep(buf: seq<u8>, off: nat, slice: nat)
    requires off <= |buf|
    ensures var n := Min(slice, |buf| - off); var used := Consumed(buf[off..off + n]);
      && off + used <= |buf|
      && Sliced(buf[off..], slice) ==
           if used == 0 then ([], 0)
           else
             var (ms, more) := Sliced(buf[off + used..], slice);
             (Records(buf[off..off + n]) + ms, used + more)
  {
    hide Front, Records, Consumed;
    var rest := buf[off..];
    var part := buf[off..off + Min(slice, |rest|)];
    SlicedUnfolds(rest, part, slice);
    assert rest[Consumed(part)..] == buf[off + Consumed(part)..];
  }

  lemma SlicedUnfolds(rest: seq<u8>, part: seq<u8>, slice: nat)
    requires part == rest[..Min(slice, |rest|)]
    ensures Consumed(part) == 0 ==> Sliced(rest, slice) == ([], 0)
    ensures Consumed(part) != 0 ==>
      var (ms, more) := Sliced(rest[Consumed(part)..], slice);
      Sliced(rest, slice) == (Records(part) + ms, Consumed(part) + more)
  {
    hide Front, Records, Consumed, Min;
  }

  /** The slices so far hold the records before `off`, and the others will follow. */
  ghost predicate OnTrack(buf: seq<u8>, slice: nat, off: nat) {
    && Boundary(buf, off)
    && var (ms, n) := Sliced(buf[off..], slice); Sliced(buf, slice) == (Records(buf[..off]) + ms, off + n)
  }

  lemma OnTrackStarts(buf: seq<u8>, slice: nat)
    ensures OnTrack(buf, slice, 0) && Records(buf[..0]) == []
  {
    hide Sliced;
    assert buf[0..] == buf && buf[..0] == [];
    assert [] + Sliced(buf, slice).0 == Sliced(buf, slice).0;
  }

  lemma OnTrackStep(buf: seq<u8>, slice: nat, off: nat)
    requires OnTrack(buf, slice, off)
    ensures var part := buf[off..off + Min(slice, |buf| - off)]; var used := Consumed(part);
      && off + used <= |buf| && OnTrack(buf, slice, off + used)
      && Records(buf[..off + used]) == Records(buf[..off]) + Records(part)
      && (used == 0 ==> Records(part) == [] && Sliced(buf, slice) == (Records(buf[..off]), off))
  {
    hide Sliced, Records, Consumed, Boundary, Min;
    BoundaryWithin(buf, off);
    MinWithin(slice, |buf| - off);
    var part := buf[off..off + Min(slice, |buf| - off)];
    SlicedStep(buf, off, slice);
    BoundaryStep(buf, off, |part|);
    if Consumed(part) == 0 {
      NothingConsumed(part);
      assert Records(buf[..off]) + [] == Records(buf[..off]);
    } else {
      Assoc(Records(buf[..off]), Records(part), Sliced(buf[off + Consumed(part)..], slice).0);
    }
  }

  lemma BoundaryWithin(buf: seq<u8>, off: nat)
    requires Boundary(buf, off)
    ensures off <= |buf|
  {
  }

  lemma MinWithin(a: nat, b: nat)
    ensures Min(a, b) <= b
  {
  }

  lemma OnTrackIsBoundary(buf: seq<u8>, slice: nat, off: nat)
    requires OnTrack(buf, slice, off)
    ensures Boundary(buf, off)
  {
  }

  lemma OnTrackEnds(buf: seq<u8>, slice: nat)
    requires OnTrack(buf, slice, |buf|)
    ensures Sliced(buf, slice) == (Records(buf[..|buf|]), |buf|)
  {
    assert buf[|buf|..] == [];
    assert Records(buf[..|buf|]) + [] == Records(buf[..|buf|]);
  }

  lemma NothingConsumed(buf: seq<u8>)
    requires Consumed(buf) == 0
    ensures Records(buf) == []
  {
  }

  /** The one-record buffer that a smaller slice never gets past. */
  function TooLong(slice: nat): seq<u8> {
    Block(seq(if slice == 0 then 0 else slice - 1, _ => 0))
  }

  lemma ShortSliceIsStuck(slice: nat)
    requires slice < LONGEST_RECORD
    ensures Sliced(TooLong(slice), slice).1 == 0 && Consumed(TooLong(slice)) > 0
  {
    var m: seq<u8> := seq(if slice == 0 then 0 else slice - 1, _ => 0);
    var buf := TooLong(slice);
    BlockAtFront(m, []);
    assert buf + [] == buf;
    var part := buf[..Min(slice, |buf|)];
    if Front(part).Some? {
      assert buf == part + buf[|part|..];
      SameFront(part, buf[|part|..]);
    }
  }

  /**
   Slicing gives what one pass over the whole buffer gives, for every buffer, if and only if a slice can hold the
   longest record.
   */
  lemma SlicingIsExactIff(slice: nat)
    ensures (forall buf: seq<u8> :: Sliced(buf, slice) == (Records(buf), Consumed(buf))) <==> slice >= LONGEST_RECORD
  {
    if slice >= LONGEST_RECORD {
      forall buf: seq<u8> ensures Sliced(buf, slice) == (Records(buf), Consumed(buf)) { SlicedIsWhole(buf, slice); }
    } else {
      ShortSliceIsStuck(slice);
    }
  }
}
