/**
 Validating, counting and dispatching records (include/itch/parser.hpp:59-213, tools/feed_handler_main.cpp:358-381).
 */
module Parsing {
  import opened Machine
  import opened Bytes
  import opened Framing
  import opened Messages

  datatype Counts = Counts(messages: nat, unknownType: nat, badLength: nat, empty: nat, filtered: nat, byType: seq<nat>)

  /** The counters, and the messages that were handed to the handler, in order. */
  datatype State = State(counts: Counts, calls: seq<seq<u8>>)

  /** Which (type, locate) pairs the handler wants. */
  type Wants = (u8, u16) -> bool

  predicate WellFormed(msg: seq<u8>) { msg != [] && MessageLength(msg[0]) == |msg| }

  /** The locate at bytes 1 and 2, which every well-formed message has. */
  function LocateOf(msg: seq<u8>): u16
    requires WellFormed(msg)
  {
    AllTablesTile(msg[0]);
    Load16(msg[1..3])
  }

  predicate Wanted(msg: seq<u8>, wants: Wants) { WellFormed(msg) && wants(msg[0], LocateOf(msg)) }

  predicate Sized(s: State) { |s.counts.byType| == 256 }

  function CountOne(c: Counts, msg: seq<u8>, wants: Wants): (d: Counts)
    requires |c.byType| == 256
    ensures |d.byType| == 256
  {
    if msg == [] then c.(empty := c.empty + 1)
    else if MessageLength(msg[0]) == 0 then c.(unknownType := c.unknownType + 1)
    else if !WellFormed(msg) then c.(badLength := c.badLength + 1)
    else
      c.(messages := c.messages + 1, byType := c.byType[msg[0] := c.byType[msg[0]] + 1],
         filtered := c.filtered + if Wanted(msg, wants) then 0 else 1)
  }

  function ParseOne(s: State, msg: seq<u8>, wants: Wants): (t: State)
    requires Sized(s)
    ensures Sized(t)
  {
    State(CountOne(s.counts, msg, wants), if Wanted(msg, wants) then s.calls + [msg] else s.calls)
  }

  function ParseAll(s: State, ms: seq<seq<u8>>, wants: Wants): (t: State)
    requires Sized(s)
    ensures Sized(t)
  {
    if ms == [] then s else ParseOne(ParseAll(s, ms[..|ms| - 1], wants), ms[|ms| - 1], wants)
  }

  lemma {:induction false} ParseAllConcat(s: State, a: seq<seq<u8>>, b: seq<seq<u8>>, wants: Wants)
    requires Sized(s)
    ensures ParseAll(s, a + b, wants) == ParseAll(ParseAll(s, a, wants), b, wants)
  {
    hide ParseOne;
    if b == [] {
      assert a + b == a;
    } else {
      ParseAllConcat(s, a, b[..|b| - 1], wants);
      assert (a + b)[..|a + b| - 1] == a + b[..|b| - 1];
    }
  }

  // ---------- what the counters say ----------

  function Sum(ns: seq<nat>): nat {
    if ns == [] then 0 else Sum(ns[..|ns| - 1]) + ns[|ns| - 1]
  }

  lemma {:induction false} SumUpdate(ns: seq<nat>, i: nat, v: nat)
    requires i < |ns|
    ensures Sum(ns[i := v]) == Sum(ns) - ns[i] + v
  {
    var n := |ns| - 1;
    if i == n {
      assert ns[i := v][..n] == ns[..n];
    } else {
      SumUpdate(ns[..n], i, v);
      assert ns[i := v][..n] == ns[..n][i := v];
    }
  }

  function Filter(ms: seq<seq<u8>>, wants: Wants): seq<seq<u8>> {
    if ms == [] then [] else
      Filter(ms[..|ms| - 1], wants) + (if Wanted(ms[|ms| - 1], wants) then [ms[|ms| - 1]] else [])
  }

  /** Every record lands in exactly one counter, and the sums behind the counters move together. */
  ghost predicate Balanced(s: State, t: State, records: int)
    requires Sized(s) && Sized(t)
  {
    var c, d := s.counts, t.counts;
    && d.messages + d.unknownType + d.badLength + d.empty ==
      c.messages + c.unknownType + c.badLength + c.empty + records
    && Sum(d.byType) - d.messages == Sum(c.byType) - c.messages
    && d.messages - d.filtered - |t.calls| == c.messages - c.filtered - |s.calls|
  }

  lemma OneRecordCountedOnce(s: State, msg: seq<u8>, wants: Wants)
    requires Sized(s)
    ensures Balanced(s, ParseOne(s, msg, wants), 1)
  {
    if WellFormed(msg) { SumUpdate(s.counts.byType, msg[0], s.counts.byType[msg[0]] + 1); }
  }

  /**
   The handler is called with the wanted well-formed messages, in order; each record is counted in exactly one of
   four ways; the per-type counts add up to the messages; and each message is either handed over or counted as filtered.
   */
  lemma {:induction false} EveryRecordCountedOnce(s: State, ms: seq<seq<u8>>, wants: Wants)
    requires Sized(s)
    ensures var t := ParseAll(s, ms, wants); t.calls == s.calls + Filter(ms, wants) && Balanced(s, t, |ms|)
  {
    hide Wanted, CountOne;
    if ms != [] {
      var n := |ms| - 1;
      EveryRecordCountedOnce(s, ms[..n], wants);
      OneRecordCountedOnce(ParseAll(s, ms[..n], wants), ms[n], wants);
    }
  }

  // ---------- each counter ----------

  predicate OfUnknownType(msg: seq<u8>) { msg != [] && TableOf(msg[0]).None? }

  predicate OfBadLength(msg: seq<u8>) { msg != [] && TableOf(msg[0]).Some? && |msg| != TableOf(msg[0]).value.length }

  predicate OfType(msg: seq<u8>, b: u8) {
    msg != [] && msg[0] == b && TableOf(b).Some? && |msg| == TableOf(b).value.length
  }

  function HowMany(ms: seq<seq<u8>>, p: seq<u8> -> bool): nat {
    if ms == [] then 0 else HowMany(ms[..|ms| - 1], p) + if p(ms[|ms| - 1]) then 1 else 0
  }

  function HowManyOf(ms: seq<seq<u8>>, b: u8): nat { HowMany(ms, m => OfType(m, b)) }

  /** Each counter has moved by the number of the records that it is named after. */
  ghost predicate Counted(c: Counts, d: Counts, ms: seq<seq<u8>>, wants: Wants) {
    && d.empty == c.empty + HowMany(ms, m => m == [])
    && d.unknownType == c.unknownType + HowMany(ms, OfUnknownType)
    && d.badLength == c.badLength + HowMany(ms, OfBadLength)
    && d.messages == c.messages + HowMany(ms, m => exists b: u8 :: OfType(m, b))
    && d.filtered == c.filtered + HowMany(ms, m => WellFormed(m) && !wants(m[0], LocateOf(m)))
    && |c.byType| == |d.byType| == 256
    && forall b: u8 :: d.byType[b] == c.byType[b] + HowManyOf(ms, b)
  }

  lemma OneCounted(c: Counts, d: Counts, ms: seq<seq<u8>>, wants: Wants)
    requires |c.byType| == 256 && ms != [] && Counted(c, d, ms[..|ms| - 1], wants)
    ensures Counted(c, CountOne(d, ms[|ms| - 1], wants), ms, wants)
  {
    var m := ms[|ms| - 1];
    assert WellFormed(m) ==> OfType(m, m[0]) by { if WellFormed(m) { AllTablesTile(m[0]); } }
    assert (exists b: u8 :: OfType(m, b)) ==> WellFormed(m);
  }

  lemma NothingCounted(c: Counts, wants: Wants)
    requires |c.byType| == 256
    ensures Counted(c, c, [], wants)
  {
    forall b: u8 ensures HowManyOf([], b) == 0 {}
  }

  lemma {:induction false} CountersCount(s: State, ms: seq<seq<u8>>, wants: Wants)
    requires Sized(s)
    ensures Counted(s.counts, ParseAll(s, ms, wants).counts, ms, wants)
  {
    hide CountOne, Counted;
    if ms == [] {
      NothingCounted(s.counts, wants);
    } else {
      CountersCount(s, ms[..|ms| - 1], wants);
      OneCounted(s.counts, ParseAll(s, ms[..|ms| - 1], wants).counts, ms, wants);
    }
  }

  // ---------- the lookahead ----------

  /** A record, by its offset: hinted ahead of time, or parsed. */
  datatype Touch = Hinted(offset: nat) | Parsed(offset: nat)

  function OffsetsFrom(buf: seq<u8>, off: nat): seq<nat>
    requires off <= |buf|
    decreases |buf| - off
  {
    match Front(buf[off..])
    case None => []
    case Some(n) => [off] + OffsetsFrom(buf, off + 2 + n)
  }

  /** Parse record 0, hint record d; parse record 1, hint record d + 1; and so on for i rounds. */
  function Rounds(offs: seq<nat>, d: nat, i: nat): seq<Touch>
    requires i <= |offs|
  {
    if i == 0 then [] else
      Rounds(offs, d, i - 1) + [Parsed(offs[i - 1])] + (if i - 1 + d < |offs| then [Hinted(offs[i - 1 + d])] else [])
  }

  function Primed(offs: seq<nat>, n: nat): seq<Touch>
    requires n <= |offs|
  {
    seq(n, i requires 0 <= i < n => Hinted(offs[i]))
  }

  /** The lookahead by d records, as a sequence of touches. */
  function Lookahead(offs: seq<nat>, d: nat, i: nat): seq<Touch>
    requires i <= |offs|
  {
    Primed(offs, Min(d, |offs|)) + Rounds(offs, d, i)
  }

  function Hints(ts: seq<Touch>): seq<nat> {
    if ts == [] then [] else
      var t := ts[|ts| - 1];
      Hints(ts[..|ts| - 1]) + if t.Hinted? then [t.offset] else []
  }

  function Parses(ts: seq<Touch>): seq<nat> {
    if ts == [] then [] else
      var t := ts[|ts| - 1];
      Parses(ts[..|ts| - 1]) + if t.Parsed? then [t.offset] else []
  }

  lemma Snoc(ts: seq<Touch>, t: Touch)
    ensures Hints(ts + [t]) == Hints(ts) + if t.Hinted? then [t.offset] else []
    ensures Parses(ts + [t]) == Parses(ts) + if t.Parsed? then [t.offset] else []
  {
    assert (ts + [t])[..|ts|] == ts;
  }

  lemma {:induction false} PrimedTouches(offs: seq<nat>, n: nat)
    requires n <= |offs|
    ensures Hints(Primed(offs, n)) == offs[..n] && Parses(Primed(offs, n)) == []
  {
    if n > 0 {
      PrimedTouches(offs, n - 1);
      Snoc(Primed(offs, n - 1), Hinted(offs[n - 1]));
      assert Primed(offs, n) == Primed(offs, n - 1) + [Hinted(offs[n - 1])];
    }
  }

  lemma LookaheadStep(offs: seq<nat>, d: nat, i: nat)
    requires i < |offs|
    ensures var parsed := Lookahead(offs, d, i) + [Parsed(offs[i])];
      Lookahead(offs, d, i + 1) == if i + d < |offs| then parsed + [Hinted(offs[i + d])] else parsed
  {
  }

  /** After i rounds, i records are parsed and the next d of them, as far as there are any, are hinted. */
  lemma {:induction false} LookaheadTouches(offs: seq<nat>, d: nat, i: nat)
    requires i <= |offs|
    ensures Hints(Lookahead(offs, d, i)) == offs[..Min(i + d, |offs|)] && Parses(Lookahead(offs, d, i)) == offs[..i]
  {
    hide Lookahead, Hints, Parses;
    if i == 0 {
      assert Lookahead(offs, d, 0) == Primed(offs, Min(d, |offs|)) by { LookaheadStart(offs, d); }
      PrimedTouches(offs, Min(d, |offs|));
    } else {
      LookaheadTouches(offs, d, i - 1);
      LookaheadStep(offs, d, i - 1);
      var parsed := Lookahead(offs, d, i - 1) + [Parsed(offs[i - 1])];
      Snoc(Lookahead(offs, d, i - 1), Parsed(offs[i - 1]));
      if i - 1 + d < |offs| { Snoc(parsed, Hinted(offs[i - 1 + d])); }
    }
  }

  lemma LookaheadStart(offs: seq<nat>, d: nat)
    ensures Lookahead(offs, d, 0) == Primed(offs, Min(d, |offs|))
  {
  }

  lemma PrimedIsHints(offs: seq<nat>, n: nat, p: nat)
    requires n <= |offs| && p < |Primed(offs, n)|
    ensures Primed(offs, n)[p].Hinted?
  {
  }

  /** What one more round adds, place by place. */
  lemma LookaheadPlace(offs: seq<nat>, d: nat, i: nat, p: nat)
    requires i < |offs| && p < |Lookahead(offs, d, i + 1)|
    ensures var before := Lookahead(offs, d, i); var now := Lookahead(offs, d, i + 1);
      if p < |before| then now[p] == before[p] && now[..p] == before[..p]
      else if p == |before| then now[..p] == before
      else now[p].Hinted?
  {
    hide Lookahead;
    LookaheadStep(offs, d, i);
  }

  /** Whenever a record is about to be parsed, the cursor is min(d, remaining) records ahead of it. */
  lemma {:induction false} CursorIsAhead(offs: seq<nat>, d: nat, i: nat, p: nat)
    requires i <= |offs| && p < |Lookahead(offs, d, i)| && Lookahead(offs, d, i)[p].Parsed?
    ensures var before := Lookahead(offs, d, i)[..p];
      |Parses(before)| < |offs| && |Hints(before)| == |Parses(before)| + Min(d, |offs| - |Parses(before)|)
  {
    hide Lookahead, Hints, Parses, Primed;
    if i == 0 {
      LookaheadStart(offs, d);
      PrimedIsHints(offs, Min(d, |offs|), p);
    } else {
      LookaheadPlace(offs, d, i - 1, p);
      if p < |Lookahead(offs, d, i - 1)| {
        CursorIsAhead(offs, d, i - 1, p);
      } else {
        LookaheadTouches(offs, d, i - 1);
      }
    }
  }

  /** Where the loop stands after i rounds: the record to parse, the record to hint, and the trace so far. */
  ghost predicate Looking(buf: seq<u8>, d: nat, i: nat, off: nat, ahead: nat, trace: seq<Touch>) {
    var offs := OffsetsFrom(buf, 0);
    && off <= |buf| && ahead <= |buf| && i <= |offs|
    && OffsetsFrom(buf, off) == offs[i..]
    && OffsetsFrom(buf, ahead) == offs[Min(i + d, |offs|)..]
    && trace == Lookahead(offs, d, i)
  }

  /** What prefetch_next does at `ahead`. */
  ghost predicate Prefetches(buf: seq<u8>, ahead: nat, next: nat, hint: seq<Touch>) {
    && ahead <= next <= |buf|
    && var offs := OffsetsFrom(buf, ahead);
       if offs == [] then next == ahead && hint == []
       else hint == [Hinted(offs[0])] && offs[0] == ahead && OffsetsFrom(buf, next) == offs[1..]
  }

  lemma OffsetsStep(buf: seq<u8>, off: nat)
    requires off <= |buf|
    ensures var f := Front(buf[off..]);
      if f == None then OffsetsFrom(buf, off) == []
      else off + 2 + f.value <= |buf| && OffsetsFrom(buf, off) == [off] + OffsetsFrom(buf, off + 2 + f.value)
  {
  }

  lemma Tail(offs: seq<nat>, n: nat)
    requires n <= |offs|
    ensures n < |offs| ==> offs[n..][0] == offs[n] && offs[n..][1..] == offs[n + 1..]
    ensures n == 0 ==> offs[n..] == offs
  {
  }

  lemma LookingStep(buf: seq<u8>, d: nat, i: nat, off: nat, ahead: nat, trace: seq<Touch>, next: nat, hint: seq<Touch>)
    requires Looking(buf, d, i, off, ahead, trace) && Front(buf[off..]).Some? && Prefetches(buf, ahead, next, hint)
    ensures Looking(buf, d, i + 1, off + 2 + Front(buf[off..]).value, next, trace + [Parsed(off)] + hint)
  {
    hide Lookahead, OffsetsFrom, Front;
    var offs := OffsetsFrom(buf, 0);
    OffsetsStep(buf, off);
    Tail(offs, i);
    Tail(offs, Min(i + d, |offs|));
    LookaheadStep(offs, d, i);
  }

  lemma LookingEnds(buf: seq<u8>, d: nat, i: nat, off: nat, ahead: nat, trace: seq<Touch>)
    requires Looking(buf, d, i, off, ahead, trace) && Front(buf[off..]) == None
    ensures var offs := OffsetsFrom(buf, 0); trace == Lookahead(offs, d, |offs|)
  {
    hide Lookahead;
    OffsetsStep(buf, off);
  }

  /** Priming the cursor with n hints. */
  ghost predicate Priming(buf: seq<u8>, n: nat, ahead: nat, trace: seq<Touch>) {
    var offs := OffsetsFrom(buf, 0);
    && ahead <= |buf| && OffsetsFrom(buf, ahead) == offs[Min(n, |offs|)..]
    && trace == Primed(offs, Min(n, |offs|))
  }

  lemma PrimingStep(buf: seq<u8>, n: nat, ahead: nat, trace: seq<Touch>, next: nat, hint: seq<Touch>)
    requires Priming(buf, n, ahead, trace) && Prefetches(buf, ahead, next, hint)
    ensures Priming(buf, n + 1, next, trace + hint)
  {
    hide OffsetsFrom, Primed;
    var offs := OffsetsFrom(buf, 0);
    var k := Min(n, |offs|);
    Tail(offs, k);
    if k < |offs| { PrimedSnoc(offs, k); }
  }

  lemma PrimedSnoc(offs: seq<nat>, n: nat)
    requires n < |offs|
    ensures Primed(offs, n + 1) == Primed(offs, n) + [Hinted(offs[n])]
  {
  }

  lemma PrimedIsLooking(buf: seq<u8>, d: nat, ahead: nat, trace: seq<Touch>)
    requires Priming(buf, d, ahead, trace)
    ensures Looking(buf, d, 0, 0, ahead, trace)
  {
    hide Lookahead, OffsetsFrom, Primed;
    LookaheadStart(OffsetsFrom(buf, 0), d);
    Tail(OffsetsFrom(buf, 0), 0);
  }

  /** Over a whole buffer every complete record is hinted once and parsed once, in order. */
  lemma WholeLookahead(offs: seq<nat>, d: nat)
    ensures Hints(Lookahead(offs, d, |offs|)) == offs && Parses(Lookahead(offs, d, |offs|)) == offs
  {
    LookaheadTouches(offs, d, |offs|);
    assert offs[..|offs|] == offs;
  }
}
