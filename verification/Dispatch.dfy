/**
 From a well-formed record to the handler call it makes (include/itch/parser.hpp:142-165,
 include/itch/book_builder.hpp:53-87).
 */
module Dispatch {
  import opened Machine
  import opened Bytes
  import opened Messages
  import opened Codec
  import opened Parsing
  import opened Books
  import opened Publishing

  // ---------- fields of a decoded message ----------

  function FieldAt(t: Table, p: seq<u8>, i: nat, kind: FieldKind): (v: nat)
    requires InBounds(t, p) && i < |t.fields| && t.fields[i].kind == kind && !kind.Alpha?
    ensures v < Pow256(Width(kind)) && Codec.Decode(t, p).values[i] == Num(v)
  {
    var f := t.fields[i];
    BytesRoundTrip(kind, p[f.offset..f.offset + Width(kind)]);
    Codec.Decode(t, p).values[i].n
  }

  function U64At(t: Table, p: seq<u8>, i: nat): (v: u64)
    requires InBounds(t, p) && i < |t.fields| && t.fields[i].kind == U64
    ensures Codec.Decode(t, p).values[i] == Num(v)
  {
    Widths();
    FieldAt(t, p, i, U64)
  }

  function U32At(t: Table, p: seq<u8>, i: nat): (v: u32)
    requires InBounds(t, p) && i < |t.fields| && t.fields[i].kind == U32
    ensures Codec.Decode(t, p).values[i] == Num(v)
  {
    Widths();
    FieldAt(t, p, i, U32)
  }

  function CharAt(t: Table, p: seq<u8>, i: nat): (v: u8)
    requires InBounds(t, p) && i < |t.fields| && t.fields[i].kind == Char
    ensures Codec.Decode(t, p).values[i] == Num(v)
  {
    Widths();
    FieldAt(t, p, i, Char)
  }

  lemma WellFormedInBounds(p: seq<u8>)
    requires WellFormed(p)
    ensures TableOf(p[0]).Some? && |p| == TableOf(p[0]).value.length && InBounds(TableOf(p[0]).value, p)
  {
    AllTablesTile(p[0]);
    TilesInBounds(TableOf(p[0]).value, p, 0, MSG_HEADER);
  }

  /** The call on the book builder with the publisher as its sink; None where neither handles the type. */
  function Decoded(p: seq<u8>): Option<FeedMessage>
    requires WellFormed(p)
  {
    WellFormedInBounds(p);
    var t := TableOf(p[0]).value;
    var h := Codec.Decode(t, p).header;
    match p[0]
    case 65 => Some(BookMessage(AddMsg(h.locate, h.timestamp, U64At(t, p, 0), CharAt(t, p, 1), U32At(t, p, 2),
      U32At(t, p, 4))))
    case 70 => Some(BookMessage(AddMpidMsg(h.locate, h.timestamp, U64At(t, p, 0), CharAt(t, p, 1), U32At(t, p, 2),
      U32At(t, p, 4))))
    case 69 => Some(BookMessage(ExecutedMsg(h.locate, h.timestamp, U64At(t, p, 0), U32At(t, p, 1))))
    case 67 => Some(BookMessage(ExecutedWithPriceMsg(h.locate, h.timestamp, U64At(t, p, 0), U32At(t, p, 1))))
    case 88 => Some(BookMessage(CancelMsg(h.locate, h.timestamp, U64At(t, p, 0), U32At(t, p, 1))))
    case 68 => Some(BookMessage(DeleteMsg(h.locate, h.timestamp, U64At(t, p, 0))))
    case 85 =>
      Some(BookMessage(ReplaceMsg(h.locate, h.timestamp, U64At(t, p, 0), U64At(t, p, 1), U32At(t, p, 2),
        U32At(t, p, 3))))
    case 83 => Some(SystemEvent(CharAt(t, p, 0)))
    case 82 => Some(StockDirectory(h.locate))
    case _ => None
  }

  /** The book event that a record stands for, if any. */
  function EventIn(p: seq<u8>): Option<Event>
    requires WellFormed(p)
  {
    match Decoded(p)
    case Some(BookMessage(m)) => Some(EventOf(m))
    case _ => None
  }

  function Effect(e: Engine, p: seq<u8>): (f: Engine)
    requires Shaped(e) && WellFormed(p)
    ensures Shaped(f)
  {
    match EventIn(p)
    case Some(ev) => Apply(e, ev).0
    case None => e
  }

  ghost predicate AllWellFormed(ps: seq<seq<u8>>) { forall i :: 0 <= i < |ps| ==> WellFormed(ps[i]) }

  /** What a sequence of parser calls does to an engine. */
  function ApplyCalls(e: Engine, calls: seq<seq<u8>>): (f: Engine)
    requires Shaped(e) && AllWellFormed(calls)
    ensures Shaped(f)
  {
    if calls == [] then e else
      var n := |calls| - 1;
      Effect(ApplyCalls(e, calls[..n]), calls[n])
  }

  /** With a handler that wants everything, well-formed records are all dispatched, and no error is counted. */
  lemma {:induction false} CleanParse(s: State, ps: seq<seq<u8>>, wants: Wants)
    requires Parsing.Sized(s) && AllWellFormed(ps) && forall t, l :: wants(t, l)
    ensures var t := ParseAll(s, ps, wants); var c, d := s.counts, t.counts;
      && t.calls == s.calls + ps && d.messages == c.messages + |ps|
      && d.unknownType == c.unknownType && d.badLength == c.badLength && d.empty == c.empty && d.filtered == c.filtered
  {
    hide MessageLength;
    if ps != [] {
      var n := |ps| - 1;
      CleanParse(s, ps[..n], wants);
      OneCleanParse(ParseAll(s, ps[..n], wants), ps[n], wants);
    }
  }

  lemma OneCleanParse(s: State, p: seq<u8>, wants: Wants)
    requires Parsing.Sized(s) && WellFormed(p) && forall t, l :: wants(t, l)
    ensures var t := ParseOne(s, p, wants); var c, d := s.counts, t.counts;
      && t.calls == s.calls + [p] && d.messages == c.messages + 1
      && d.unknownType == c.unknownType && d.badLength == c.badLength && d.empty == c.empty && d.filtered == c.filtered
  {
    WellFormedInBounds(p);
    AllTablesTile(p[0]);
  }

  /** A wire image is a well-formed record, and reads back as what was written, the timestamp modulo 2^48. */
  lemma WireIsRead(t: Table, m: Message)
    requires TableOf(t.typeByte) == Some(t) && Typed(t, m)
    ensures var p := Wire(t, m);
      && WellFormed(p) && p[0] == t.typeByte && |p| < TWO_16 && InBounds(t, p)
      && Codec.Decode(t, p) == m.(header := m.header.(timestamp := m.header.timestamp % TWO_48))
      && LocateOf(p) == m.header.locate
  {
    hide EncodeValue, FitsKind, Body;
    AllTablesTile(t.typeByte);
    BodyLength(t, m, 0, MSG_HEADER);
    EncodeThenDecode(t, m, []);
    assert Wire(t, m) + [] == Wire(t, m);
    WireIs(t, m);
    FirstByte(t.typeByte, m.header);
  }

  lemma FirstByte(typeByte: u8, h: MsgHeader)
    ensures Head(typeByte, h)[0] == typeByte
  {
  }
}
