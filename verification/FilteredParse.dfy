/**
 A parser whose handler wants some locates only, from bytes to books (include/itch/parser.hpp:21-23, 85-87,
 include/itch/book_builder.hpp:13-18).
 */
module FilteredParse {
  import opened Machine
  import opened Parsing
  import opened Books
  import F = Filter
  import opened Dispatch
  import opened Streams

  /** The record's event, if it has one, uses fresh references and carries the locate of its order. */
  ghost predicate GoodRecord(e: Engine, p: seq<u8>)
    requires WellFormed(p)
  {
    var ev := EventIn(p);
    ev.Some? ==> F.Carries(e, F.Message(LocateOf(p), ev.value)) && Fresh(e, ev.value)
  }

  ghost predicate GoodRecords(ps: seq<seq<u8>>)
    requires AllWellFormed(ps)
  {
    forall i :: 0 <= i < |ps| ==> GoodRecord(ApplyCalls(Empty(), ps[..i]), ps[i])
  }

  lemma GoodPrefix(ps: seq<seq<u8>>)
    requires AllWellFormed(ps) && GoodRecords(ps) && ps != []
    ensures var n := |ps| - 1;
      AllWellFormed(ps[..n]) && GoodRecords(ps[..n]) && GoodRecord(ApplyCalls(Empty(), ps[..n]), ps[n])
  {
    hide GoodRecord, WellFormed, ApplyCalls;
    var n := |ps| - 1;
    forall i | 0 <= i < n ensures GoodRecord(ApplyCalls(Empty(), ps[..n][..i]), ps[..n][i]) {
      assert ps[..n][..i] == ps[..i];
    }
  }

  lemma FilterStep(ps: seq<seq<u8>>, wants: Wants, wanted: set<u16>)
    requires ps != [] && WellFormed(ps[|ps| - 1]) && forall t, l :: wants(t, l) <==> l in wanted
    ensures var n := |ps| - 1;
      Filter(ps, wants) == Filter(ps[..n], wants) + if LocateOf(ps[n]) in wanted then [ps[n]] else []
  {
  }

  lemma NoCalls()
    ensures ApplyCalls(Empty(), []) == Empty()
  {
  }

  lemma CallsSnoc(ps: seq<seq<u8>>, p: seq<u8>)
    requires AllWellFormed(ps) && WellFormed(p)
    ensures AllWellFormed(ps + [p]) && ApplyCalls(Empty(), ps + [p]) == Effect(ApplyCalls(Empty(), ps), p)
  {
    hide Effect, WellFormed;
    assert (ps + [p])[..|ps|] == ps;
  }

  /**
   Filtering at the parser leaves the wanted books as the unfiltered run has them, no other book, and only the wanted
   orders.
   */
  lemma {:induction false} WellFormedSimulates(ps: seq<seq<u8>>, wants: Wants, wanted: set<u16>)
    requires AllWellFormed(ps) && GoodRecords(ps) && forall t, l :: wants(t, l) <==> l in wanted
    ensures AllWellFormed(Filter(ps, wants))
    ensures F.Simulates(ApplyCalls(Empty(), ps), ApplyCalls(Empty(), Filter(ps, wants)), wanted)
  {
    hide WellFormed, F.Simulates, Effect, GoodRecord, GoodRecords, ApplyCalls, LocateOf;
    if ps == [] {
      NoCalls();
      F.FilterFromEmpty([], wanted);
    } else {
      var n := |ps| - 1;
      GoodPrefix(ps);
      WellFormedSimulates(ps[..n], wants, wanted);
      var kept := Filter(ps[..n], wants);
      FilteredRecord(ApplyCalls(Empty(), ps[..n]), ApplyCalls(Empty(), kept), ps[n], wanted);
      FilterStep(ps, wants, wanted);
      CallsSnoc(ps[..n], ps[n]);
      assert ps == ps[..n] + [ps[n]];
      if LocateOf(ps[n]) in wanted {
        CallsSnoc(kept, ps[n]);
      } else {
        assert kept + [] == kept;
      }
    }
  }

  ghost predicate Everything(w: Wants) { forall t, l :: w(t, l) }

  lemma {:induction false} FilterTwice(ps: seq<seq<u8>>, all: Wants, wants: Wants)
    requires Everything(all)
    ensures AllWellFormed(Filter(ps, all)) && Filter(Filter(ps, all), wants) == Filter(ps, wants)
  {
    hide WellFormed, LocateOf;
    if ps != [] {
      var n := |ps| - 1;
      FilterTwice(ps[..n], all, wants);
      var kept := Filter(ps[..n], all);
      if WellFormed(ps[n]) {
        assert Filter(ps, all) == kept + [ps[n]] by { NotEmpty(ps[n]); }
        assert (kept + [ps[n]])[..|kept|] == kept;
      } else {
        assert Filter(ps, all) == kept + [] == kept;
      }
    }
  }

  lemma NotEmpty(p: seq<u8>)
    requires WellFormed(p)
    ensures p != []
  {
  }

  /**
   The same for any records: whatever the parser skips as empty, unknown or of the wrong length, it skips in both runs.
   */
  lemma FilteredParseSimulates(ps: seq<seq<u8>>, all: Wants, wants: Wants, wanted: set<u16>)
    requires Everything(all) && forall t, l :: wants(t, l) <==> l in wanted
    requires AllWellFormed(Filter(ps, all)) ==> GoodRecords(Filter(ps, all))
    ensures AllWellFormed(Filter(ps, all)) && AllWellFormed(Filter(ps, wants))
    ensures F.Simulates(ApplyCalls(Empty(), Filter(ps, all)), ApplyCalls(Empty(), Filter(ps, wants)), wanted)
  {
    hide WellFormed, F.Simulates, ApplyCalls, GoodRecords;
    FilterTwice(ps, all, wants);
    WellFormedSimulates(Filter(ps, all), wants, wanted);
  }

  lemma FilteredRecord(e: Engine, f: Engine, p: seq<u8>, wanted: set<u16>)
    requires Shaped(e) && Shaped(f) && WellFormed(p) && F.Simulates(e, f, wanted) && GoodRecord(e, p)
    ensures F.Simulates(Effect(e, p), if LocateOf(p) in wanted then Effect(f, p) else f, wanted)
  {
    hide WellFormed, F.Simulates, Apply, F.Carries, Fresh, EventIn;
    match EventIn(p)
    case None =>
    case Some(ev) =>
      var m := F.Message(LocateOf(p), ev);
      if m.locate in wanted { F.WantedStep(e, f, m, wanted); } else { F.UnwantedStep(e, f, m, wanted); }
  }

  /** Every stream that the generator can write may be filtered so. */
  lemma GeneratedStreamsFilter(ps: seq<seq<u8>>, wants: Wants, wanted: set<u16>)
    requires SelfConsistent(ps) && forall t, l :: wants(t, l) <==> l in wanted
    ensures AllWellFormed(Filter(ps, wants))
    ensures F.Simulates(ApplyCalls(Empty(), ps), ApplyCalls(Empty(), Filter(ps, wants)), wanted)
  {
    hide WellFormed, F.Simulates, ApplyCalls, EventIn, LocateOf;
    forall i | 0 <= i < |ps| ensures GoodRecord(ApplyCalls(Empty(), ps[..i]), ps[i]) {
      assert NamesLive(ApplyCalls(Empty(), ps[..i]), ps[i]);
    }
    WellFormedSimulates(ps, wants, wanted);
  }
}
