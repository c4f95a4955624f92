/**
 The seqlock top-of-book cache as a step system (include/itch/bbo_cache.hpp:38-74): one writer, any
 number of readers, one atomic access per step.

 The field stores of one write become visible in any order between its two sequence stores.  A load may
 return a stale value, as far as the C++ memory orders allow:
 - no thread reads an older value of a location than one it has read before;
 - an acquire load that reads an even sequence 2n sees the fields of store n, or newer ones;
 - a reader that has read a field of store n sees, after its acquire fence, the sequence store 2n-1 or newer.
 The sequence counter does not wrap.
 */
module BboCache {
  import opened Machine

  datatype Snapshot = Snapshot(bidPrice: u32, askPrice: u32, bidQty: u64, askQty: u64, timestamp: u64)

  const ZERO := Snapshot(0, 0, 0, 0, 0)

  /** The four fields: packed prices, bid quantity, ask quantity, timestamp. */
  type FieldId = f: int | 0 <= f < 4

  function Pack(lo: u32, hi: u32): u64 { lo + hi * TWO_32 }

  function FieldOf(s: Snapshot, f: FieldId): u64 {
    match f
    case 0 => Pack(s.bidPrice, s.askPrice)
    case 1 => s.bidQty
    case 2 => s.askQty
    case _ => s.timestamp
  }

  /** What try_load puts together from four loaded values. */
  function Assemble(v: seq<u64>): Snapshot
    requires |v| == 4
  {
    Snapshot(v[0] % TWO_32, v[0] / TWO_32, v[1], v[2], v[3])
  }

  lemma AssembleFields(s: Snapshot)
    ensures Assemble([FieldOf(s, 0), FieldOf(s, 1), FieldOf(s, 2), FieldOf(s, 3)]) == s
  {
  }

  // ---------- states ----------

  datatype ReaderPc = Start | Loading(s1: nat, got: map<FieldId, nat>)

  /**
   What a reader has seen bounds what it may still read; `accepted` lists the store numbers and snapshots try_load
   returned.
   */
  datatype Reader = Reader(seenSeq: nat, seen: seq<nat>, pc: ReaderPc, accepted: seq<(nat, Snapshot)>)

  /**
   `stores[n - 1]` is what store number n writes, the last one possibly in progress; `field[f]` is the number of the
   store that field f shows.
   */
  datatype State = State(stores: seq<Snapshot>, seqNo: nat, field: seq<nat>, readers: seq<Reader>)

  datatype Action =
    | Begin(s: Snapshot) | StoreField(f: FieldId) | End
    | LoadSeq(r: nat, v: nat) | LoadField(r: nat, f: FieldId, v: nat) | Recheck(r: nat, v: nat)

  function Store(s: State, n: nat): Snapshot {
    if 0 < n <= |s.stores| then s.stores[n - 1] else ZERO
  }

  ghost predicate Init(s: State) {
    && s.stores == [] && s.seqNo == 0 && s.field == [0, 0, 0, 0]
    && forall r :: 0 <= r < |s.readers| ==> s.readers[r] == Reader(0, [0, 0, 0, 0], Start, [])
  }

  // ---------- the writer ----------

  ghost predicate WriterStep(s: State, a: Action, t: State) {
    match a
    case Begin(x) => s.seqNo % 2 == 0 && t == s.(stores := s.stores + [x], seqNo := s.seqNo + 1)
    case StoreField(f) =>
      s.seqNo % 2 == 1 && |s.field| == 4 && s.field[f] != |s.stores| && t == s.(field := s.field[f := |s.stores|])
    case End =>
      s.seqNo % 2 == 1 && (forall f :: 0 <= f < |s.field| ==> s.field[f] == |s.stores|) && t == s.(seqNo := s.seqNo + 1)
    case _ => false
  }

  // ---------- a reader: one try_load ----------

  function Newer(seen: seq<nat>, n: nat): (r: seq<nat>)
    ensures |r| == |seen|
    ensures forall f :: 0 <= f < |seen| ==> r[f] == if seen[f] < n then n else seen[f]
  {
    seq(|seen|, f requires 0 <= f < |seen| => if seen[f] < n then n else seen[f])
  }

  /** The first, acquire, load: an odd value ends the attempt. */
  ghost predicate FirstLoad(s: State, q: Reader, v: nat, q': Reader) {
    && q.pc == Start && q.seenSeq <= v <= s.seqNo
    && q' == if v % 2 == 1 then q.(seenSeq := v)
             else q.(seenSeq := v, seen := Newer(q.seen, v / 2), pc := Loading(v, map[]))
  }

  ghost predicate FieldLoad(s: State, q: Reader, f: FieldId, v: nat, q': Reader) {
    && q.pc.Loading? && f !in q.pc.got && |q.seen| == 4 == |s.field|
    && q.seen[f] <= v <= s.field[f]
    && q' == q.(seen := q.seen[f := v], pc := q.pc.(got := q.pc.got[f := v]))
  }

  /** Having read a field of store n, the fence lets no sequence before 2n-1 through. */
  ghost predicate Fenced(got: map<FieldId, nat>, v: nat) {
    forall f: FieldId :: f in got && got[f] > 0 ==> v >= 2 * got[f] - 1
  }

  function Loaded(s: State, got: map<FieldId, nat>): Snapshot
    requires forall f: FieldId :: f in got
  {
    Assemble([FieldOf(Store(s, got[0]), 0), FieldOf(Store(s, got[1]), 1), FieldOf(Store(s, got[2]), 2),
              FieldOf(Store(s, got[3]), 3)])
  }

  ghost predicate SecondLoad(s: State, q: Reader, v: nat, q': Reader) {
    && q.pc.Loading? && (forall f: FieldId :: f in q.pc.got)
    && q.seenSeq <= v <= s.seqNo && Fenced(q.pc.got, v)
    && q' == q.(seenSeq := v, pc := Start,
                accepted := if q.pc.s1 == v then q.accepted + [(v / 2, Loaded(s, q.pc.got))] else q.accepted)
  }

  ghost predicate ReaderStep(s: State, a: Action, t: State) {
    && !a.Begin? && !a.StoreField? && !a.End? && a.r < |s.readers| == |t.readers|
    && t == s.(readers := s.readers[a.r := t.readers[a.r]])
    && match a
       case LoadSeq(r, v) => FirstLoad(s, s.readers[r], v, t.readers[r])
       case LoadField(r, f, v) => FieldLoad(s, s.readers[r], f, v, t.readers[r])
       case Recheck(r, v) => SecondLoad(s, s.readers[r], v, t.readers[r])
  }

  ghost predicate Next(s: State, t: State) {
    exists a :: WriterStep(s, a, t) || ReaderStep(s, a, t)
  }

  ghost predicate Execution(run: seq<State>) {
    && run != [] && Init(run[0])
    && forall i :: 0 <= i < |run| - 1 ==> Next(run[i], run[i + 1])
  }

  // ---------- the invariant ----------

  /** Completed stores. */
  function Completed(s: State): nat { s.seqNo / 2 }

  ghost predicate WriterInv(s: State) {
    && |s.field| == 4 && |s.stores| == (s.seqNo + 1) / 2
    && forall f :: 0 <= f < 4 ==> Completed(s) <= s.field[f] <= |s.stores|
  }

  ghost predicate LoadingOk(s: State, q: Reader) {
    q.pc.Loading? ==>
      && q.pc.s1 % 2 == 0 && q.pc.s1 <= q.seenSeq
      && (forall f :: 0 <= f < |q.seen| ==> q.pc.s1 / 2 <= q.seen[f])
      && (forall f: FieldId :: f in q.pc.got ==> q.pc.s1 / 2 <= q.pc.got[f] <= |s.stores|)
  }

  ghost predicate AcceptedOk(s: State, q: Reader) {
    && (forall i :: 0 <= i < |q.accepted| ==>
          2 * q.accepted[i].0 <= q.seenSeq && q.accepted[i].1 == Store(s, q.accepted[i].0))
    && (forall i, j :: 0 <= i < j < |q.accepted| ==> q.accepted[i].0 <= q.accepted[j].0)
  }

  ghost predicate ReaderInv(s: State, q: Reader) {
    && |q.seen| == 4 && q.seenSeq <= s.seqNo
    && (forall f :: 0 <= f < |q.seen| && f < |s.field| ==> q.seen[f] <= s.field[f])
    && LoadingOk(s, q)
    && AcceptedOk(s, q)
  }

  ghost predicate Inv(s: State) {
    WriterInv(s) && forall r :: 0 <= r < |s.readers| ==> ReaderInv(s, s.readers[r])
  }

  /** The heart of the seqlock: equal even sequences around the loads pin every field to the same store. */
  lemma SameStore(s: State, q: Reader, v: nat, q': Reader)
    requires WriterInv(s) && ReaderInv(s, q) && SecondLoad(s, q, v, q') && q.pc.s1 == v
    ensures forall f: FieldId :: q.pc.got[f] == v / 2
    ensures Loaded(s, q.pc.got) == Store(s, v / 2) && v / 2 <= Completed(s)
  {
    forall f: FieldId ensures q.pc.got[f] == v / 2 {
      assert q.pc.s1 / 2 <= q.pc.got[f];
      assert q.pc.got[f] > 0 ==> v >= 2 * q.pc.got[f] - 1;
    }
    AssembleFields(Store(s, v / 2));
  }

  lemma SecondLoadKeepsInv(s: State, q: Reader, v: nat, q': Reader)
    requires WriterInv(s) && ReaderInv(s, q) && SecondLoad(s, q, v, q')
    ensures ReaderInv(s, q')
  {
    if q.pc.s1 == v {
      SameStore(s, q, v, q');
      hide Loaded;
    }
  }

  lemma ReaderKeepsInv(s: State, a: Action, t: State)
    requires Inv(s) && ReaderStep(s, a, t)
    ensures Inv(t)
  {
    hide Store, Loaded;
    var q, q' := s.readers[a.r], t.readers[a.r];
    assert ReaderInv(s, q);
    if a.Recheck? { SecondLoadKeepsInv(s, q, a.v, q'); }
    assert ReaderInv(s, q');
    forall r | 0 <= r < |t.readers| ensures ReaderInv(t, t.readers[r]) {
      assert r != a.r ==> ReaderInv(s, s.readers[r]);
      SameShared(s, t, t.readers[r]);
    }
  }

  lemma SameShared(s: State, t: State, q: Reader)
    requires s.stores == t.stores && s.seqNo == t.seqNo && s.field == t.field
    ensures ReaderInv(s, q) <==> ReaderInv(t, q)
  {
  }

  lemma WriterKeepsInv(s: State, a: Action, t: State)
    requires Inv(s) && WriterStep(s, a, t)
    ensures Inv(t)
  {
    forall r | 0 <= r < |t.readers| ensures ReaderInv(t, t.readers[r]) {
      assert ReaderInv(s, s.readers[r]);
      AcceptedLater(s, t, s.readers[r]);
    }
  }

  /** Finished stores keep their contents. */
  lemma AcceptedLater(s: State, t: State, q: Reader)
    requires WriterInv(s) && ReaderInv(s, q) && s.stores <= t.stores && s.seqNo <= t.seqNo
    ensures AcceptedOk(t, q)
  {
    forall i | 0 <= i < |q.accepted| ensures Store(s, q.accepted[i].0) == Store(t, q.accepted[i].0) {
      assert 2 * q.accepted[i].0 <= q.seenSeq;
    }
  }

  lemma InitInv(s: State)
    requires Init(s)
    ensures Inv(s)
  {
  }

  lemma {:induction false} RunKeepsInv(run: seq<State>, i: nat)
    requires Execution(run) && i < |run|
    ensures Inv(run[i])
  {
    hide Inv, WriterStep, ReaderStep;
    if i == 0 {
      InitInv(run[0]);
    } else {
      RunKeepsInv(run, i - 1);
      assert Next(run[i - 1], run[i]);
      var a :| WriterStep(run[i - 1], a, run[i]) || ReaderStep(run[i - 1], a, run[i]);
      if WriterStep(run[i - 1], a, run[i]) {
        WriterKeepsInv(run[i - 1], a, run[i]);
      } else {
        ReaderKeepsInv(run[i - 1], a, run[i]);
      }
    }
  }

  // ---------- what every interleaving guarantees ----------

  /** Every accepted snapshot is one completed store in all five values, and a reader never goes back in time. */
  lemma AcceptedSnapshots(run: seq<State>, i: nat, r: nat, j: nat)
    requires Execution(run) && i < |run| && r < |run[i].readers| && j < |run[i].readers[r].accepted|
    ensures var (n, x) := run[i].readers[r].accepted[j];
      n <= Completed(run[i]) && x == Store(run[i], n)
    ensures forall k :: j < k < |run[i].readers[r].accepted| ==>
      run[i].readers[r].accepted[j].0 <= run[i].readers[r].accepted[k].0
  {
    RunKeepsInv(run, i);
    assert ReaderInv(run[i], run[i].readers[r]);
  }

  /** A reader is never stuck: whatever it loads next, the current value is among those it may get. */
  lemma CurrentIsReadable(run: seq<State>, i: nat, r: nat)
    requires Execution(run) && i < |run| && r < |run[i].readers|
    ensures var s := run[i]; var q := s.readers[r];
      && q.seenSeq <= s.seqNo && |q.seen| == |s.field| == 4
      && (forall f :: 0 <= f < 4 ==> q.seen[f] <= s.field[f])
      && (q.pc.Loading? ==> Fenced(q.pc.got, s.seqNo))
  {
    RunKeepsInv(run, i);
    var q := run[i].readers[r];
    assert ReaderInv(run[i], q);
  }

  /**
   version() read in a quiet moment or not: half the current sequence is the number of completed stores; a stale read
   never exceeds it, nor drops below an accepted store.
   */
  lemma VersionCounts(run: seq<State>, i: nat, r: nat, v: nat)
    requires Execution(run) && i < |run| && r < |run[i].readers|
    requires run[i].readers[r].seenSeq <= v <= run[i].seqNo
    ensures var s := run[i];
      && Completed(s) == (if s.seqNo % 2 == 0 then |s.stores| else |s.stores| - 1)
      && v / 2 <= Completed(s) && (v == s.seqNo ==> v / 2 == Completed(s))
      && forall j :: 0 <= j < |s.readers[r].accepted| ==> s.readers[r].accepted[j].0 <= v / 2
  {
    RunKeepsInv(run, i);
    assert ReaderInv(run[i], run[i].readers[r]);
  }

  // ---------- when a read is accepted ----------

  /** An attempt that ends appends one snapshot if both sequence loads gave the same number, and none otherwise. */
  lemma AttemptEnds(run: seq<State>, i: nat, r: nat, v: nat)
    requires Execution(run) && i + 1 < |run| && ReaderStep(run[i], Recheck(r, v), run[i + 1])
    ensures var s := run[i]; var q, q' := s.readers[r], run[i + 1].readers[r];
      && q.pc.Loading? && q'.pc == Start
      && q'.accepted == q.accepted + if v == q.pc.s1 then [(v / 2, Store(s, v / 2))] else []
  {
    RunKeepsInv(run, i);
    var s := run[i];
    var q, q' := s.readers[r], run[i + 1].readers[r];
    assert ReaderInv(s, q);
    if v == q.pc.s1 { SameStore(s, q, v, q'); }
  }

  /** No other step of a reader returns a snapshot; an attempt begins if and only if the first load is even. */
  lemma AttemptGoesOn(s: State, a: Action, t: State)
    requires ReaderStep(s, a, t) && !a.Recheck?
    ensures var q, q' := s.readers[a.r], t.readers[a.r];
      && q'.accepted == q.accepted
      && (a.LoadSeq? ==> if a.v % 2 == 0 then q'.pc == Loading(a.v, map[]) else q'.pc == Start)
      && (a.LoadField? ==> q.pc.Loading? && q'.pc == Loading(q.pc.s1, q.pc.got[a.f := a.v]))
  {
  }

  /** The states from the i-th to the k-th show the same to a reader: the writer has been quiet. */
  ghost predicate Quiet(run: seq<State>, i: nat, k: nat)
    requires i <= k < |run|
  {
    forall j :: i <= j <= k ==> run[j].seqNo == run[i].seqNo && run[j].stores == run[i].stores
  }

  /**
   An attempt between whose two sequence loads the writer is quiet, and whose loads read what is current, ends with the
   number of completed stores and the last of them.
   */
  lemma QuietAttemptIsAccepted(run: seq<State>, i: nat, k: nat, r: nat)
    requires Execution(run) && i < k && k + 1 < |run| && Quiet(run, i, k)
    requires ReaderStep(run[k], Recheck(r, run[k].seqNo), run[k + 1]) && run[k].readers[r].pc.s1 == run[i].seqNo
    ensures var s := run[k]; var n := |s.stores|;
      && Completed(s) == n
      && run[k + 1].readers[r].accepted ==
           s.readers[r].accepted + [(n, if n == 0 then ZERO else s.stores[n - 1])]
  {
    RunKeepsInv(run, k);
    assert ReaderInv(run[k], run[k].readers[r]);
    AttemptEnds(run, k, r, run[k].seqNo);
    assert run[k].seqNo == run[i].seqNo;
  }

  /** The next access of reader `r`, reading what is current; field `f` while there are fields to load. */
  ghost function NextOfLoad(s: State, r: nat, f: FieldId): Action
    requires r < |s.readers| && |s.field| == 4
  {
    match s.readers[r].pc
    case Start => LoadSeq(r, s.seqNo)
    case Loading(_, got) => if forall g: FieldId :: g in got then Recheck(r, s.seqNo) else LoadField(r, f, s.field[f])
  }

  /** A reader is never stuck: it can always go on with what is current, so a load spins only while stores interfere. */
  lemma ReaderGoesOn(run: seq<State>, i: nat, r: nat, f: FieldId)
    requires Execution(run) && i < |run| && r < |run[i].readers|
    requires var got := run[i].readers[r].pc; got.Loading? ==> f !in got.got || forall g: FieldId :: g in got.got
    ensures |run[i].field| == 4 && exists t :: ReaderStep(run[i], NextOfLoad(run[i], r, f), t)
  {
    hide Loaded, Newer;
    RunKeepsInv(run, i);
    CurrentIsReadable(run, i, r);
    var s := run[i];
    var q := s.readers[r];
    assert ReaderInv(s, q);
    var q' := match q.pc
      case Start =>
        if s.seqNo % 2 == 1 then q.(seenSeq := s.seqNo)
        else q.(seenSeq := s.seqNo, seen := Newer(q.seen, s.seqNo / 2), pc := Loading(s.seqNo, map[]))
      case Loading(s1, got) =>
        if forall g: FieldId :: g in got then
          q.(seenSeq := s.seqNo, pc := Start,
             accepted := if s1 == s.seqNo then q.accepted + [(s.seqNo / 2, Loaded(s, got))] else q.accepted)
        else q.(seen := q.seen[f := s.field[f]], pc := q.pc.(got := got[f := s.field[f]]));
    assert ReaderStep(s, NextOfLoad(s, r, f), s.(readers := s.readers[r := q']));
  }

  /**
   A store can begin when none is in progress, and one that has begun can be finished, whatever the order of its
   fields.
   */
  lemma StoreGoesOn(run: seq<State>, i: nat, x: Snapshot)
    requires Execution(run) && i < |run|
    ensures var s := run[i]; var n := |s.stores|;
      && |s.field| == 4
      && (s.seqNo % 2 == 0 ==> WriterStep(s, Begin(x), s.(stores := s.stores + [x], seqNo := s.seqNo + 1)))
      && (s.seqNo % 2 == 1 ==>
            if s.field == [n, n, n, n] then WriterStep(s, End, s.(seqNo := s.seqNo + 1))
            else forall f: FieldId :: s.field[f] != n ==> WriterStep(s, StoreField(f), s.(field := s.field[f := n])))
  {
    RunKeepsInv(run, i);
  }

  /**
   A store makes the sequence odd and adds its snapshot, writes the fields one by one, and makes the sequence even
   again.
   */
  lemma StoreStep(s: State, a: Action, t: State)
    requires WriterInv(s) && WriterStep(s, a, t)
    ensures t.readers == s.readers
    ensures match a
      case Begin(x) => Completed(t) == Completed(s) && t.stores == s.stores + [x] && t.field == s.field
      case End => Completed(t) == Completed(s) + 1 == |t.stores| && t.stores == s.stores && t.field == s.field
      case StoreField(f) => t == s.(field := s.field[f := |s.stores|])
      case _ => true
  {
  }
}
