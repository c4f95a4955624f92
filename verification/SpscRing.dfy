/**
 The single-producer single-consumer ring as a step system (include/itch/spsc_ring.hpp:40-81), with
 the consumer loop and the feed_done hand-off around it (tools/feed_handler_main.cpp:293-307, 521-522).

 One step is one access to shared memory.  An acquire load of the other side's index may return any
 value that it has had, from the last one this thread has seen to the current one.  Indices do not wrap.
 */
module SpscRing {
  import opened Machine
  import opened Arith

  datatype Producer<T> = Idle | Reloading(item: T) | Ready(item: T) | Stored(item: T) | Finished

  datatype Consumer = Calm | Refilling(max: nat) | Reading(max: nat, avail: nat, i: nat) | GotNone | Sizing | Exited

  /**
   `slots[k]` is None until it is first written; `accepted` and `consumed` record the pushes that succeeded and the
   items handed to the consumer; `heads` lists the values that head has had.
   */
  datatype State<T> = State(
    n: nat,
    slots: seq<Option<T>>,
    tail: nat, cachedHead: nat, producer: Producer<T>, done: bool,
    head: nat, heads: seq<nat>, cachedTail: nat, seenTail: nat, consumer: Consumer,
    accepted: seq<T>, consumed: seq<T>)

  datatype Action<T> =
    | Push(item: T) | ReloadHead(v: nat) | WriteSlot | PublishTail | SetDone
    | Pop(max: nat) | ReloadTail(v: nat) | ReadSlot | PublishHead | LoadDone(seen: bool) | LoadSize(v: nat)

  ghost predicate Init<T>(s: State<T>) {
    && s.n >= 2 && |s.slots| == s.n
    && s.tail == s.cachedHead == s.head == s.cachedTail == s.seenTail == 0
    && s.producer == Idle && s.consumer == Calm && !s.done
    && s.heads == [0] && s.accepted == [] && s.consumed == []
  }

  // ---------- the producer: try_push, and the release store of feed_done at the end ----------

  ghost predicate ProducerStep<T>(s: State<T>, a: Action<T>, t: State<T>) {
    match a
    case Push(item) =>
      s.producer == Idle && t == s.(producer := if s.tail - s.cachedHead == s.n then Reloading(item) else Ready(item))
    case ReloadHead(v) =>
      && s.producer.Reloading? && s.cachedHead <= v && v in s.heads
      && t == s.(cachedHead := v, producer := if s.tail - v == s.n then Idle else Ready(s.producer.item))
    case WriteSlot =>
      && s.producer.Ready? && |s.slots| == s.n > 0
      && t == s.(slots := s.slots[s.tail % s.n := Some(s.producer.item)], producer := Stored(s.producer.item))
    case PublishTail =>
      s.producer.Stored? && t == s.(tail := s.tail + 1, accepted := s.accepted + [s.producer.item], producer := Idle)
    case SetDone =>
      s.producer == Idle && t == s.(producer := Finished, done := true)
    case _ => false
  }

  // ---------- the consumer: pop_batch (try_pop is a batch of one), and the loop's exit test ----------

  function Batch<T>(s: State<T>, cachedTail: nat, max: nat): Consumer
    requires s.head <= cachedTail
  {
    Reading(max, if cachedTail - s.head > max then max else cachedTail - s.head, 0)
  }

  ghost predicate ConsumerStep<T>(s: State<T>, a: Action<T>, t: State<T>) {
    match a
    case Pop(max) =>
      && s.consumer == Calm && s.head <= s.cachedTail
      && t == s.(consumer := if s.head == s.cachedTail then Refilling(max) else Batch(s, s.cachedTail, max))
    case ReloadTail(v) =>
      && s.consumer.Refilling? && s.head <= s.seenTail <= v <= s.tail
      && t == s.(cachedTail := v, seenTail := v, consumer := Batch(s, v, s.consumer.max))
    case ReadSlot =>
      && s.consumer.Reading? && s.consumer.i < s.consumer.avail && |s.slots| == s.n > 0
      && s.slots[(s.head + s.consumer.i) % s.n].Some?
      && t == s.(consumed := s.consumed + [s.slots[(s.head + s.consumer.i) % s.n].value],
                 consumer := s.consumer.(i := s.consumer.i + 1))
    case PublishHead =>
      && s.consumer.Reading? && s.consumer.i == s.consumer.avail
      && t == s.(head := s.head + s.consumer.avail, heads := s.heads + [s.head + s.consumer.avail],
                 consumer := if s.consumer.avail == 0 then GotNone else Calm)
    case LoadDone(seen) =>
      // the acquire load that sees `true` also sees every push before it
      && s.consumer == GotNone && (seen ==> s.done)
      && t == s.(consumer := if seen then Sizing else Calm, seenTail := if seen then s.tail else s.seenTail)
    case LoadSize(v) =>
      && s.consumer == Sizing && s.seenTail <= v <= s.tail
      && t == s.(seenTail := v, consumer := if v - s.head == 0 then Exited else Calm)
    case _ => false
  }

  ghost predicate Next<T(!new)>(s: State<T>, t: State<T>) {
    exists a: Action<T> :: ProducerStep(s, a, t) || ConsumerStep(s, a, t)
  }

  /** Any interleaving of the two threads. */
  ghost predicate Execution<T(!new)>(run: seq<State<T>>) {
    && run != [] && Init(run[0])
    && forall i :: 0 <= i < |run| - 1 ==> Next(run[i], run[i + 1])
  }

  // ---------- the invariant ----------

  function InBatch(c: Consumer): nat { if c.Reading? then c.i else 0 }

  ghost predicate Indices<T>(s: State<T>) {
    && s.n >= 2 && |s.slots| == s.n
    && s.cachedHead <= s.head <= s.cachedTail <= s.seenTail <= s.tail
    && s.tail - s.cachedHead <= s.n
    && |s.accepted| == s.tail
    && s.head in s.heads && s.cachedHead in s.heads && forall h :: h in s.heads ==> h <= s.head
  }

  ghost predicate Pcs<T>(s: State<T>) {
    && (s.producer.Reloading? ==> s.tail - s.cachedHead == s.n)
    && (s.producer.Ready? || s.producer.Stored? ==> s.tail - s.cachedHead < s.n)
    && (s.producer.Finished? <==> s.done)
    && (s.consumer.Reading? ==>
          && s.head <= s.cachedTail
          && s.consumer.i <= s.consumer.avail == Min(s.consumer.max, s.cachedTail - s.head))
    && (s.consumer.Sizing? ==> s.done && s.seenTail == s.tail)
    && (s.consumer.Exited? ==> s.done && s.head == s.tail)
  }

  /** Every published item that has not been released is still in its slot. */
  ghost predicate Slots<T>(s: State<T>)
    requires Indices(s)
  {
    && (forall k :: s.head <= k < s.tail ==> s.slots[k % s.n] == Some(s.accepted[k]))
    && (s.producer.Stored? ==> s.slots[s.tail % s.n] == Some(s.producer.item))
  }

  ghost predicate Inv<T>(s: State<T>) {
    && Indices(s) && Pcs(s) && Slots(s)
    && s.head + InBatch(s.consumer) <= s.tail
    && s.consumed == s.accepted[..s.head + InBatch(s.consumer)]
  }

  /** Indices less than a lap apart use different slots. */
  lemma DifferentSlots(a: nat, b: nat, n: nat)
    requires a < b < a + n
    ensures a % n != b % n
  {
    if a % n == b % n {
      var q := CongruentDifference(a, b, n);
      if q > 0 { MulGrows(q, n); }
    }
  }

  lemma ProducerKeepsInv<T>(s: State<T>, a: Action<T>, t: State<T>)
    requires Inv(s) && ProducerStep(s, a, t)
    ensures Inv(t)
  {
    if a.WriteSlot? {
      WriteKeepsInv(s, t);
    } else if a.PublishTail? {
      PublishKeepsInv(s, t);
    } else {
      hide Slots;
      assert Slots(s) && t.slots == s.slots && t.head == s.head && t.tail == s.tail && t.accepted == s.accepted;
      SameSlots(s, t);
    }
  }

  lemma SameSlots<T>(s: State<T>, t: State<T>)
    requires Indices(s) && Indices(t) && Slots(s) && !t.producer.Stored?
    requires t.n == s.n && t.slots == s.slots && t.head == s.head && t.tail == s.tail && t.accepted == s.accepted
    ensures Slots(t)
  {
  }

  lemma WriteKeepsInv<T>(s: State<T>, t: State<T>)
    requires Inv(s) && ProducerStep(s, WriteSlot, t)
    ensures Inv(t)
  {
    forall k | s.head <= k < s.tail ensures k % s.n != s.tail % s.n { DifferentSlots(k, s.tail, s.n); }
  }

  lemma PublishKeepsInv<T>(s: State<T>, t: State<T>)
    requires Inv(s) && ProducerStep(s, PublishTail, t)
    ensures Inv(t)
  {
    assert t.accepted[..t.head + InBatch(t.consumer)] == s.accepted[..s.head + InBatch(s.consumer)];
  }

  lemma ReadKeepsInv<T>(s: State<T>, t: State<T>)
    requires Inv(s) && ConsumerStep(s, ReadSlot, t)
    ensures Inv(t)
  {
    var k := s.head + s.consumer.i;
    assert s.slots[k % s.n] == Some(s.accepted[k]);
    assert s.accepted[..k + 1] == s.accepted[..k] + [s.accepted[k]];
  }

  /** The other consumer steps hand over nothing: position in the stream, slots and log stand still. */
  lemma QuietConsumerStep<T>(s: State<T>, a: Action<T>, t: State<T>)
    requires Inv(s) && ConsumerStep(s, a, t) && !a.ReadSlot?
    ensures Indices(t) && Pcs(t) && t.head >= s.head
    ensures t.head + InBatch(t.consumer) == s.head + InBatch(s.consumer)
    ensures t.(head := s.head, heads := s.heads, cachedTail := s.cachedTail, seenTail := s.seenTail,
      consumer := s.consumer) == s
  {
    hide Slots;
  }

  lemma ConsumerKeepsInv<T>(s: State<T>, a: Action<T>, t: State<T>)
    requires Inv(s) && ConsumerStep(s, a, t)
    ensures Inv(t)
  {
    if a.ReadSlot? {
      ReadKeepsInv(s, t);
    } else {
      hide ConsumerStep, Pcs;
      QuietConsumerStep(s, a, t);
    }
  }

  lemma {:induction false} RunKeepsInv<T(!new)>(run: seq<State<T>>, i: nat)
    requires Execution(run) && i < |run|
    ensures Inv(run[i])
  {
    hide Inv, ProducerStep, ConsumerStep;
    if i == 0 {
      InitInv(run[0]);
    } else {
      RunKeepsInv(run, i - 1);
      assert Next(run[i - 1], run[i]);
      var a :| ProducerStep(run[i - 1], a, run[i]) || ConsumerStep(run[i - 1], a, run[i]);
      if ProducerStep(run[i - 1], a, run[i]) {
        ProducerKeepsInv(run[i - 1], a, run[i]);
      } else {
        ConsumerKeepsInv(run[i - 1], a, run[i]);
      }
    }
  }

  lemma InitInv<T>(s: State<T>)
    requires Init(s)
    ensures Inv(s)
  {
  }

  // ---------- what every interleaving guarantees ----------

  /** First in, first out, nothing lost or made up: what the consumer got is a prefix of what was accepted. */
  lemma ConsumedIsPrefix<T(!new)>(run: seq<State<T>>, i: nat)
    requires Execution(run) && i < |run|
    ensures run[i].consumed <= run[i].accepted
    ensures run[i].tail - run[i].head <= run[i].n
  {
    RunKeepsInv(run, i);
  }

  /** The slot the producer is about to write holds no unread item, so in particular not the one being read. */
  lemma NoOverwrite<T(!new)>(run: seq<State<T>>, i: nat, k: nat)
    requires Execution(run) && i < |run| && run[i].producer.Ready? && run[i].head <= k < run[i].tail
    ensures run[i].n > 0 && k % run[i].n != run[i].tail % run[i].n
  {
    RunKeepsInv(run, i);
    DifferentSlots(k, run[i].tail, run[i].n);
  }

  /** A batch in progress only reads slots whose items were published, and reads exactly those items. */
  lemma NoUnwrittenRead<T(!new)>(run: seq<State<T>>, i: nat)
    requires Execution(run) && i < |run|
    requires run[i].consumer.Reading? && run[i].consumer.i < run[i].consumer.avail
    ensures var s := run[i]; var k := s.head + s.consumer.i;
      k < s.tail == |s.accepted| && s.n > 0 && |s.slots| == s.n && s.slots[k % s.n] == Some(s.accepted[k])
    ensures run[i].producer.Ready? ==> (run[i].head + run[i].consumer.i) % run[i].n != run[i].tail % run[i].n
  {
    RunKeepsInv(run, i);
    if run[i].producer.Ready? { NoOverwrite(run, i, run[i].head + run[i].consumer.i); }
  }

  /** When the consumer loop exits, every accepted push has been consumed, and no push can follow. */
  lemma ExitMeansDrained<T(!new)>(run: seq<State<T>>, i: nat)
    requires Execution(run) && i < |run| && run[i].consumer.Exited?
    ensures run[i].consumed == run[i].accepted && run[i].producer.Finished?
  {
    RunKeepsInv(run, i);
  }

  // ---------- when a push is refused, and what a batch hands over ----------

  /** Every value that head has had is the head of some state of the run. */
  lemma {:induction false} HeadsAreHeads<T(!new)>(run: seq<State<T>>, i: nat, h: nat) returns (j: nat)
    requires Execution(run) && i < |run| && h in run[i].heads
    ensures j <= i && run[j].head == h
  {
    hide Next;
    if i == 0 {
      j := 0;
    } else {
      OneMoreHead(run[i - 1], run[i]);
      if h in run[i - 1].heads {
        j := HeadsAreHeads(run, i - 1, h);
      } else {
        j := i;
      }
    }
  }

  lemma OneMoreHead<T(!new)>(s: State<T>, t: State<T>)
    requires Next(s, t)
    ensures forall h :: h in t.heads ==> h in s.heads || h == t.head
  {
  }

  /** A refused push found the ring full: with the tail as it is, and the head as it was at some moment up to then. */
  lemma RefusedMeansFull<T(!new)>(run: seq<State<T>>, i: nat, x: T) returns (j: nat)
    requires Execution(run) && i + 1 < |run| && Returned(run[i], run[i + 1]) == [(x, false)]
    ensures j <= i && run[i].tail - run[j].head == run[i].n && run[j].head >= run[i].cachedHead
  {
    hide ConsumerStep;
    RunKeepsInv(run, i);
    assert Next(run[i], run[i + 1]);
    OnlyReloadRefuses(run[i], run[i + 1], x);
    j := HeadsAreHeads(run, i, run[i + 1].cachedHead);
  }

  lemma OnlyReloadRefuses<T(!new)>(s: State<T>, t: State<T>, x: T)
    requires Next(s, t) && Returned(s, t) == [(x, false)]
    ensures s.tail - t.cachedHead == s.n && t.cachedHead in s.heads && t.cachedHead >= s.cachedHead
  {
  }

  /**
   A push returns at the end of its write with true, or at its reload, and then with false if and only if the ring is
   full of what the reload read.
   */
  lemma PushAnswers<T>(s: State<T>, a: Action<T>, t: State<T>)
    requires ProducerStep(s, a, t)
    ensures match a
      case Push(x) => Returned(s, t) == []
        && t.producer == (if s.tail - s.cachedHead == s.n then Reloading(x) else Ready(x))
      case ReloadHead(v) =>
        var x := s.producer.item;
        if s.tail - v == s.n then Returned(s, t) == [(x, false)] else Returned(s, t) == [] && t.producer == Ready(x)
      case WriteSlot => Returned(s, t) == [] && t.producer == Stored(s.producer.item)
      case PublishTail => Returned(s, t) == [(s.producer.item, true)] && t.accepted == s.accepted + [s.producer.item]
      case _ => Returned(s, t) == []
  {
  }

  /** A reload that reads the current head refuses the push if and only if the ring is full. */
  lemma CurrentHeadDecides<T(!new)>(run: seq<State<T>>, i: nat)
    requires Execution(run) && i + 1 < |run| && ProducerStep(run[i], ReloadHead(run[i].head), run[i + 1])
    ensures Returned(run[i], run[i + 1]) == [(run[i].producer.item, false)] <==> run[i].tail - run[i].head == run[i].n
  {
    PushAnswers(run[i], ReloadHead(run[i].head), run[i + 1]);
  }

  /** The tail that decides a batch: the cached one, or the one just loaded when that was used up. */
  lemma BatchBegins<T>(s: State<T>, a: Action<T>, t: State<T>)
    requires Inv(s) && ConsumerStep(s, a, t)
    ensures match a
      case Pop(max) =>
        if s.head < s.cachedTail then t.consumer == Reading(max, Min(max, s.cachedTail - s.head), 0)
        else t.consumer == Refilling(max)
      case ReloadTail(v) => s.head <= v && t.consumer == Reading(s.consumer.max, Min(s.consumer.max, v - s.head), 0)
      case _ => true
  {
    hide Slots;
  }

  /**
   A batch that ends has handed over the next min(max, tail - head) items, with the tail that it went by: none if and
   only if max is 0 or that tail was the head.  The consumer then goes to the exit test if and only if it got none.
   */
  lemma BatchEnds<T(!new)>(run: seq<State<T>>, i: nat)
    requires Execution(run) && i + 1 < |run| && ConsumerStep(run[i], PublishHead, run[i + 1])
    ensures var s, t := run[i], run[i + 1]; var n := s.consumer.avail;
      && s.head <= s.cachedTail <= s.tail && n == Min(s.consumer.max, s.cachedTail - s.head)
      && t.head == s.head + n <= |s.accepted| && t.consumed == s.consumed == s.accepted[..s.head + n]
      && (n == 0 <==> s.consumer.max == 0 || s.cachedTail == s.head)
      && t.consumer == (if n == 0 then GotNone else Calm)
  {
    RunKeepsInv(run, i);
  }

  /** The loop ends if and only if the producer was seen done and the ring then empty. */
  lemma ExitTest<T>(s: State<T>, a: Action<T>, t: State<T>)
    requires ConsumerStep(s, a, t)
    ensures match a
      case LoadDone(seen) => t.consumer == if seen then Sizing else Calm
      case LoadSize(v) => t.consumer == if v == s.head then Exited else Calm
      case _ => t.consumer != Exited
  {
  }

  /** The next access of a push of `x`, reading what is current. */
  function NextOfPush<T>(s: State<T>, x: T): Action<T>
    requires s.producer != Finished
  {
    match s.producer
    case Idle => Push(x)
    case Reloading(_) => ReloadHead(s.head)
    case Ready(_) => WriteSlot
    case Stored(_) => PublishTail
  }

  /** The next access of the consumer loop with batches of `max`, reading what is current. */
  function NextOfLoop<T>(s: State<T>, max: nat): Action<T>
    requires s.consumer != Exited
  {
    match s.consumer
    case Calm => Pop(max)
    case Refilling(_) => ReloadTail(s.tail)
    case Reading(_, avail, k) => if k < avail then ReadSlot else PublishHead
    case GotNone => LoadDone(s.done)
    case Sizing => LoadSize(s.tail)
  }

  /**
   Neither thread is ever stuck: until the producer has finished it can go on with any push, and the consumer with its
   loop.
   */
  lemma NeverStuck<T(!new)>(run: seq<State<T>>, i: nat, x: T, max: nat)
    requires Execution(run) && i < |run|
    ensures run[i].producer != Finished ==> exists t :: ProducerStep(run[i], NextOfPush(run[i], x), t)
    ensures run[i].consumer != Exited ==> exists t :: ConsumerStep(run[i], NextOfLoop(run[i], max), t)
  {
    RunKeepsInv(run, i);
    if run[i].producer != Finished { ProducerCanStep(run[i], x); }
    if run[i].consumer != Exited { ConsumerCanStep(run[i], max); }
  }

  lemma ProducerCanStep<T(!new)>(s: State<T>, x: T)
    requires Inv(s) && s.producer != Finished
    ensures exists t :: ProducerStep(s, NextOfPush(s, x), t)
  {
    var t :=
      match s.producer
      case Idle => s.(producer := if s.tail - s.cachedHead == s.n then Reloading(x) else Ready(x))
      case Reloading(y) => s.(cachedHead := s.head, producer := if s.tail - s.head == s.n then Idle else Ready(y))
      case Ready(y) => s.(slots := s.slots[s.tail % s.n := Some(y)], producer := Stored(y))
      case Stored(y) => s.(tail := s.tail + 1, accepted := s.accepted + [y], producer := Idle);
    assert ProducerStep(s, NextOfPush(s, x), t);
  }

  lemma ConsumerCanStep<T(!new)>(s: State<T>, max: nat)
    requires Inv(s) && s.consumer != Exited
    ensures exists t :: ConsumerStep(s, NextOfLoop(s, max), t)
  {
    var t :=
      match s.consumer
      case Calm => s.(consumer := if s.head == s.cachedTail then Refilling(max) else Batch(s, s.cachedTail, max))
      case Refilling(most) => s.(cachedTail := s.tail, seenTail := s.tail, consumer := Batch(s, s.tail, most))
      case Reading(_, avail, k) => if k < avail then Handed(s) else Released(s)
      case GotNone =>
        s.(consumer := if s.done then Sizing else Calm, seenTail := if s.done then s.tail else s.seenTail)
      case Sizing => s.(seenTail := s.tail, consumer := if s.tail - s.head == 0 then Exited else Calm);
    assert ConsumerStep(s, NextOfLoop(s, max), t);
  }

  ghost function Handed<T>(s: State<T>): State<T>
    requires Inv(s) && s.consumer.Reading? && s.consumer.i < s.consumer.avail
  {
    var k := s.consumer.i;
    assert s.slots[(s.head + k) % s.n] == Some(s.accepted[s.head + k]);
    s.(consumed := s.consumed + [s.accepted[s.head + k]], consumer := s.consumer.(i := k + 1))
  }

  ghost function Released<T>(s: State<T>): State<T>
    requires s.consumer.Reading?
  {
    var now := s.head + s.consumer.avail;
    s.(head := now, heads := s.heads + [now], consumer := if s.consumer.avail == 0 then GotNone else Calm)
  }

  // ---------- the pushes and their answers ----------

  /** The call of try_push that returns in this step, if one does, with its answer. */
  function Returned<T>(s: State<T>, t: State<T>): seq<(T, bool)> {
    if t.producer != Idle then []
    else if s.producer.Stored? then [(s.producer.item, true)]
    else if s.producer.Reloading? then [(s.producer.item, false)]
    else []
  }

  function Pushes<T>(run: seq<State<T>>): seq<(T, bool)> {
    if |run| <= 1 then [] else Pushes(run[..|run| - 1]) + Returned(run[|run| - 2], run[|run| - 1])
  }

  function Taken<T>(pushes: seq<(T, bool)>): seq<T> {
    if pushes == [] then [] else
      var n := |pushes| - 1;
      Taken(pushes[..n]) + if pushes[n].1 then [pushes[n].0] else []
  }

  function Refused<T>(pushes: seq<(T, bool)>): nat {
    if pushes == [] then 0 else
      var n := |pushes| - 1;
      Refused(pushes[..n]) + if pushes[n].1 then 0 else 1
  }

  lemma TakenSnoc<T>(pushes: seq<(T, bool)>, more: seq<(T, bool)>)
    requires |more| <= 1
    ensures Taken(pushes + more) == Taken(pushes) + Taken(more)
      && Refused(pushes + more) == Refused(pushes) + Refused(more)
  {
    if more == [] {
      assert pushes + more == pushes;
    } else {
      assert (pushes + more)[..|pushes|] == pushes && more[..0] == [];
    }
  }

  lemma StepTakes<T(!new)>(s: State<T>, t: State<T>)
    requires Next(s, t)
    ensures t.accepted == s.accepted + Taken(Returned(s, t))
  {
    var a :| ProducerStep(s, a, t) || ConsumerStep(s, a, t);
    if !(s.producer.Stored? && t.producer == Idle) { assert s.accepted + [] == s.accepted; }
  }

  /** In every interleaving the items accepted are those of the pushes that were answered with true, in order. */
  lemma {:induction false} AcceptedIsTaken<T(!new)>(run: seq<State<T>>, i: nat)
    requires Execution(run) && i < |run|
    ensures run[i].accepted == Taken(Pushes(run[..i + 1]))
  {
    hide Next, Init;
    if i == 0 {
      assert run[0].accepted == [] by { StartsEmpty(run[0]); }
    } else {
      AcceptedIsTaken(run, i - 1);
      var front := run[..i + 1];
      assert front[..i] == run[..i];
      StepTakes(run[i - 1], run[i]);
      TakenSnoc(Pushes(run[..i]), Returned(run[i - 1], run[i]));
    }
  }

  lemma StartsEmpty<T>(s: State<T>)
    requires Init(s)
    ensures s.accepted == []
  {
  }
}
