/**
 The parser over its mutable counters, its three walks of a buffer, and the slice loop (include/itch/parser.hpp:59-213,
 tools/feed_handler_main.cpp:358-381).
 */
module Parsers {
  import opened Machine
  import opened Bytes
  import opened Framing
  import opened Messages
  import opened Parsing
  import Slices

  class Parser {
    const wants: Wants
    const byType: array<nat>
    var messages: nat
    var unknownType: nat
    var badLength: nat
    var empty: nat
    var filtered: nat
    /** The messages handed to the handler so far. */
    var calls: seq<seq<u8>>

    ghost predicate Valid()
      reads this, byType
    {
      byType.Length == 256
    }

    ghost function View(): State
      reads this, byType
    {
      State(Counts(messages, unknownType, badLength, empty, filtered, byType[..]), calls)
    }

    constructor (wants: Wants)
      ensures Valid() && fresh(byType) && this.wants == wants
      ensures View() == State(Counts(0, 0, 0, 0, 0, seq(256, _ => 0)), [])
    {
      this.wants := wants;
      byType := new nat[256](_ => 0);
      messages, unknownType, badLength, empty, filtered, calls := 0, 0, 0, 0, 0, [];
    }

    method Parse(msg: seq<u8>)
      requires Valid()
      modifies this, byType
      ensures Valid() && View() == ParseOne(old(View()), msg, wants)
    {
      hide MessageLength;
      if |msg| == 0 {
        empty := empty + 1;
        return;
      }
      var expected := MessageLength(msg[0]);
      if expected != |msg| {
        if expected == 0 { unknownType := unknownType + 1; } else { badLength := badLength + 1; }
        return;
      }
      messages := messages + 1;
      byType[msg[0]] := byType[msg[0]] + 1;
      if !wants(msg[0], LocateOf(msg)) {
        filtered := filtered + 1;
        return;
      }
      calls := calls + [msg];
    }

    method ParseStream(buf: seq<u8>) returns (off: nat)
      requires Valid()
      modifies this, byType
      ensures Valid() && View() == ParseAll(old(View()), Records(buf), wants)
      ensures off == Consumed(buf)
    {
      hide View, ParseOne, ParseAll, Front, Records, Consumed, Streamed, Valid;
      ghost var s := View();
      ghost var done: seq<seq<u8>> := [];
      off := 0;
      Begin(s);
      StreamStarts(buf);
      while off + 2 <= |buf|
        invariant off <= |buf| && Valid() && Sized(s)
        invariant Streamed(buf, off, done) && View() == ParseAll(s, done, wants)
        decreases |buf| - off
      {
        FrontAt(buf, off);
        StreamStep(buf, off, done);
        var n := Load16(buf[off..off + 2]);
        if off + 2 + n > |buf| { break; }
        var msg := buf[off + 2..off + 2 + n];
        Parse(msg);
        OneMore(s, done, msg);
        done := done + [msg];
        off := off + 2 + n;
      }
      FrontAt(buf, off);
      StreamStep(buf, off, done);
    }

    lemma Begin(s: State)
      requires Valid() && s == View()
      ensures Sized(s) && ParseAll(s, [], wants) == s
    {
    }

    lemma OneMore(s: State, done: seq<seq<u8>>, msg: seq<u8>)
      requires Sized(s)
      ensures ParseAll(s, done + [msg], wants) == ParseOne(ParseAll(s, done, wants), msg, wants)
    {
      assert (done + [msg])[..|done|] == done;
    }

    // ---------- lookahead ----------

    /** Hints the record at `ahead`, if it is complete, and moves on to the next one. */
    method PrefetchNext(buf: seq<u8>, ahead: nat) returns (next: nat, hint: seq<Touch>)
      requires ahead <= |buf|
      ensures Prefetches(buf, ahead, next, hint)
    {
      hide OffsetsFrom, Front;
      FrontAt(buf, ahead);
      OffsetsStep(buf, ahead);
      if ahead + 2 > |buf| { return ahead, []; }
      var n := Load16(buf[ahead..ahead + 2]);
      if ahead + 2 + n > |buf| { return ahead, []; }
      next, hint := ahead + 2 + n, [Hinted(ahead)];
    }

    method Prime(buf: seq<u8>, distance: nat) returns (ahead: nat, trace: seq<Touch>)
      ensures Priming(buf, distance, ahead, trace)
    {
      hide Prefetches;
      ahead, trace := 0, [];
      Tail(OffsetsFrom(buf, 0), 0);
      for i := 0 to distance
        invariant ahead <= |buf| && Priming(buf, i, ahead, trace)
      {
        hide Priming;
        var next, hint := PrefetchNext(buf, ahead);
        PrimingStep(buf, i, ahead, trace, next, hint);
        PrefetchesWithin(buf, ahead, next, hint);
        ahead, trace := next, trace + hint;
      }
    }

    lemma PrefetchesWithin(buf: seq<u8>, ahead: nat, next: nat, hint: seq<Touch>)
      requires Prefetches(buf, ahead, next, hint)
      ensures next <= |buf|
    {
    }

    /** The same calls as parse_stream; `trace` tells when each record is hinted and when it is parsed. */
    method ParseStreamPrefetch(buf: seq<u8>, distance: nat) returns (off: nat, trace: seq<Touch>)
      requires Valid()
      modifies this, byType
      ensures Valid() && View() == ParseAll(old(View()), Records(buf), wants)
      ensures off == Consumed(buf)
      ensures var offs := OffsetsFrom(buf, 0); distance > 0 ==> trace == Lookahead(offs, distance, |offs|)
    {
      hide View, ParseOne, ParseAll, Front, Records, Consumed, Streamed, Valid, OffsetsFrom, Lookahead, Looking;
      hide Priming, Prefetches;
      if distance == 0 {
        off := ParseStream(buf);
        return off, [];
      }
      ghost var s := View();
      ghost var done: seq<seq<u8>> := [];
      var ahead: nat;
      ahead, trace := Prime(buf, distance);
      PrimedIsLooking(buf, distance, ahead, trace);
      LookingWithin(buf, distance, 0, 0, ahead, trace);
      off := 0;
      Begin(s);
      StreamStarts(buf);
      while off + 2 <= |buf|
        invariant off <= |buf| && ahead <= |buf| && Valid() && Sized(s)
        invariant Streamed(buf, off, done) && View() == ParseAll(s, done, wants)
        invariant Looking(buf, distance, |done|, off, ahead, trace)
        decreases |buf| - off
      {
        FrontAt(buf, off);
        StreamStep(buf, off, done);
        var n := Load16(buf[off..off + 2]);
        if off + 2 + n > |buf| { break; }
        var msg := buf[off + 2..off + 2 + n];
        Parse(msg);
        OneMore(s, done, msg);
        var next, hint := PrefetchNext(buf, ahead);
        LookingStep(buf, distance, |done|, off, ahead, trace, next, hint);
        trace := trace + [Parsed(off)] + hint;
        done := done + [msg];
        off, ahead := off + 2 + n, next;
        LookingWithin(buf, distance, |done|, off, ahead, trace);
      }
      FrontAt(buf, off);
      StreamStep(buf, off, done);
      LookingEnds(buf, distance, |done|, off, ahead, trace);
    }

    lemma LookingWithin(buf: seq<u8>, d: nat, i: nat, off: nat, ahead: nat, trace: seq<Touch>)
      requires Looking(buf, d, i, off, ahead, trace)
      ensures off <= |buf| && ahead <= |buf|
    {
    }

    // ---------- slices ----------

    /**
     The replay loop; `distance` 0 stands for the plain parse, and `running(i)` for the flag as it is read before slice
     i. A replay that is stopped has parsed just the records up to a boundary, and exactly the others are still to
     come; one that is not, what the slices hold.
     */
    method Replay(buf: seq<u8>, slice: nat, distance: nat, running: nat -> bool)
      returns (off: nat, slices: nat)
      requires Valid()
      modifies this, byType
      ensures Valid() && Slices.Boundary(buf, off) && View() == ParseAll(old(View()), Records(buf[..off]), wants)
      ensures Records(buf) == Records(buf[..off]) + Records(buf[off..])
      ensures off == Slices.StopOf(buf, slice, slices) && forall i :: 0 <= i < slices ==> running(i)
      ensures off == |buf| || !running(slices) || Slices.StopOf(buf, slice, slices + 1) == off
      ensures (forall i :: running(i)) ==> (Records(buf[..off]), off) == Slices.Sliced(buf, slice)
      ensures (forall i :: running(i)) && slice >= Slices.LONGEST_RECORD ==>
        View() == ParseAll(old(View()), Records(buf), wants) && off == Consumed(buf)
    {
      hide View, ParseOne, ParseAll, Records, Consumed, Valid, Slices.Sliced, Slices.Boundary, Slices.OnTrack;
      hide Slices.StopOf;
      hide Lookahead, OffsetsFrom;
      ghost var s := View();
      if slice >= Slices.LONGEST_RECORD { Slices.SlicedIsWhole(buf, slice); }
      off, slices := 0, 0;
      Slices.StopStep(buf, slice, 0);
      Begin(s);
      Slices.OnTrackStarts(buf, slice);
      while off < |buf| && running(slices)
        invariant off <= |buf| && Valid() && Sized(s) && Slices.OnTrack(buf, slice, off)
        invariant View() == ParseAll(s, Records(buf[..off]), wants)
        invariant off == Slices.StopOf(buf, slice, slices) && forall i :: 0 <= i < slices ==> running(i)
        decreases |buf| - off
      {
        var n := Min(slice, |buf| - off);
        Slices.StopStep(buf, slice, slices);
        ghost var done := Records(buf[..off]);
        var part := buf[off..off + n];
        Slices.OnTrackStep(buf, slice, off);
        var used, trace := ParseStreamPrefetch(part, distance);
        ParseAllConcat(s, done, Records(part), wants);
        if used == 0 {
          assert done + [] == done;
          break;
        }
        off, slices := off + used, slices + 1;
      }
      Slices.OnTrackIsBoundary(buf, slice, off);
      Slices.BoundarySplits(buf, off);
      if off == |buf| { Slices.OnTrackEnds(buf, slice); }
    }
  }

  // ---------- frames ----------

  datatype FrameScan = FrameScan(consumed: nat, frames: nat, malformed: nat, empty: nat)

  /** The well-formed messages among some records. */
  function Frames(ms: seq<seq<u8>>): seq<seq<u8>> {
    if ms == [] then [] else
      Frames(ms[..|ms| - 1]) + if WellFormed(ms[|ms| - 1]) then [ms[|ms| - 1]] else []
  }

  function Count(ms: seq<seq<u8>>, p: seq<u8> -> bool): nat {
    if ms == [] then 0 else Count(ms[..|ms| - 1], p) + if p(ms[|ms| - 1]) then 1 else 0
  }

  /** Walks the same records without dispatching; `out` is what the callback receives. */
  method ForEachFrame(buf: seq<u8>) returns (r: FrameScan, out: seq<seq<u8>>)
    ensures out == Frames(Records(buf))
    ensures r.consumed == Consumed(buf) && r.frames == |out|
    ensures r.empty == Count(Records(buf), m => m == [])
    ensures r.malformed == Count(Records(buf), m => m != [] && !WellFormed(m))
  {
    hide Front, Records, Consumed, Streamed, MessageLength, Frames, Count;
    var isEmpty := (m: seq<u8>) => m == [];
    var isMalformed := (m: seq<u8>) => m != [] && !WellFormed(m);
    ghost var done: seq<seq<u8>> := [];
    var off := 0;
    r, out := FrameScan(0, 0, 0, 0), [];
    NoFrames(isEmpty);
    NoFrames(isMalformed);
    StreamStarts(buf);
    while off + 2 <= |buf|
      invariant off <= |buf| && Streamed(buf, off, done)
      invariant out == Frames(done) && r.frames == |out|
      invariant r.empty == Count(done, isEmpty) && r.malformed == Count(done, isMalformed)
      decreases |buf| - off
    {
      FrontAt(buf, off);
      StreamStep(buf, off, done);
      var n := Load16(buf[off..off + 2]);
      if off + 2 + n > |buf| { break; }
      var msg := buf[off + 2..off + 2 + n];
      off := off + 2 + n;
      FramesSnoc(done, msg, isEmpty);
      FramesSnoc(done, msg, isMalformed);
      done := done + [msg];
      if n == 0 {
        r := r.(empty := r.empty + 1);
      } else if MessageLength(msg[0]) != n {
        r := r.(malformed := r.malformed + 1);
      } else {
        r := r.(frames := r.frames + 1);
        out := out + [msg];
      }
    }
    FrontAt(buf, off);
    StreamStep(buf, off, done);
    r := r.(consumed := off);
  }

  lemma NoFrames(p: seq<u8> -> bool)
    ensures Frames([]) == [] && Count([], p) == 0
  {
  }

  lemma FramesSnoc(ms: seq<seq<u8>>, m: seq<u8>, p: seq<u8> -> bool)
    ensures Frames(ms + [m]) == Frames(ms) + if WellFormed(m) then [m] else []
    ensures Count(ms + [m], p) == Count(ms, p) + if p(m) then 1 else 0
  {
    assert (ms + [m])[..|ms|] == ms;
  }

  /** The frame walk and the parser agree: the frames are the parser's messages, and the other counts match too. */
  lemma {:induction false} FramesAgree(s: State, ms: seq<seq<u8>>, wants: Wants)
    requires Parsing.Sized(s)
    ensures var c, d := s.counts, ParseAll(s, ms, wants).counts;
      && d.messages == c.messages + |Frames(ms)|
      && d.empty == c.empty + Count(ms, m => m == [])
      && d.unknownType + d.badLength == c.unknownType + c.badLength + Count(ms, m => m != [] && !WellFormed(m))
    ensures Filter(ms, wants) == Filter(Frames(ms), wants)
  {
    hide MessageLength, Wanted;
    if ms != [] {
      var n := |ms| - 1;
      FramesAgree(s, ms[..n], wants);
      FilterFrames(ms, wants);
    }
  }

  lemma FilterFrames(ms: seq<seq<u8>>, wants: Wants)
    requires ms != [] && Filter(ms[..|ms| - 1], wants) == Filter(Frames(ms[..|ms| - 1]), wants)
    ensures Filter(ms, wants) == Filter(Frames(ms), wants)
  {
    hide MessageLength;
    var n := |ms| - 1;
    if WellFormed(ms[n]) {
      assert Frames(ms)[..|Frames(ms)| - 1] == Frames(ms[..n]);
      assert Frames(ms)[|Frames(ms)| - 1] == ms[n];
    } else {
      assert Frames(ms) == Frames(ms[..n]) && !Wanted(ms[n], wants);
    }
  }
}
