/**
 The messages that the generator writes, as field values, and what each means to a book
 (include/itch/sim/synthetic_feed.hpp:120-259).
 */
module SyntheticWires {
  import opened Machine
  import opened Bytes
  import opened Messages
  import opened Codec
  import opened Parsing
  import opened Books
  import opened Dispatch
  import opened LiveLists
  import opened Publishing

  const SPACE: u8 := 32

  function Digits(n: nat): seq<u8> {
    if n < 10 then [48 + n] else Digits(n / 10) + [48 + n % 10]
  }

  /** "S" and the symbol's number, padded with spaces or cut to eight characters. */
  function StockOf(sym: nat): (a: seq<u8>)
    ensures |a| == 8
  {
    var name := [83] + Digits(sym);
    seq(8, i requires 0 <= i < 8 => if i < |name| then name[i] else SPACE)
  }

  const MPID: seq<u8> := [77, 80, 73, 68]

  /** The first symbol is "S0      ", the last "S65534  ". */
  lemma StockNames()
    ensures StockOf(0) == ['S' as u8, '0' as u8, SPACE, SPACE, SPACE, SPACE, SPACE, SPACE]
    ensures StockOf(65534) == ['S' as u8, '6' as u8, '5' as u8, '5' as u8, '3' as u8, '4' as u8, SPACE, SPACE]
    ensures SPACE == ' ' as u8 && MPID == ['M' as u8, 'P' as u8, 'I' as u8, 'D' as u8]
  {
    assert Digits(0) == [48];
    assert Digits(65534) == [54, 53, 53, 51, 52] by {
      assert Digits(65) == [54, 53];
      assert Digits(655) == [54, 53, 53] && Digits(6553) == [54, 53, 53, 51];
    }
  }

  function AddMessage(h: MsgHeader, o: Live, sym: nat): Message {
    Message(h, [Num(o.ref), Num(o.side), Num(o.shares), Text(StockOf(sym)), Num(o.price)])
  }

  function AddMpidMessage(h: MsgHeader, o: Live, sym: nat): Message {
    Message(h, [Num(o.ref), Num(o.side), Num(o.shares), Text(StockOf(sym)), Num(o.price), Text(MPID)])
  }

  function DeleteMessage(h: MsgHeader, ref: u64): Message { Message(h, [Num(ref)]) }

  function ReplaceMessage(h: MsgHeader, ref: u64, newRef: u64, shares: u32, price: u32): Message {
    Message(h, [Num(ref), Num(newRef), Num(shares), Num(price)])
  }

  function CancelMessage(h: MsgHeader, ref: u64, shares: u32): Message { Message(h, [Num(ref), Num(shares)]) }

  function ExecuteMessage(h: MsgHeader, ref: u64, shares: u32, matchNo: u64): Message {
    Message(h, [Num(ref), Num(shares), Num(matchNo)])
  }

  function ExecutePricedMessage(h: MsgHeader, ref: u64, shares: u32, matchNo: u64, price: u32): Message {
    Message(h, [Num(ref), Num(shares), Num(matchNo), Num(89), Num(price)])
  }

  function TradeMessage(h: MsgHeader, shares: u32, sym: nat, price: u32, matchNo: u64): Message {
    Message(h, [Num(0), Num(BUY), Num(shares), Text(StockOf(sym)), Num(price), Num(matchNo)])
  }

  function SystemMessage(h: MsgHeader, code: u8): Message { Message(h, [Num(code)]) }

  function DirectoryMessage(h: MsgHeader, sym: nat): Message {
    Message(h, [Text(StockOf(sym)), Num(81), Num(78), Num(100), Num(78), Num(67), Text([90, SPACE]), Num(80),
                Num(78), Num(78), Num(49), Num(78), Num(0), Num(78)])
  }

  /** The record of a message. */
  ghost function RecordOf(t: Table, m: Message): seq<u8> { if Typed(t, m) then Wire(t, m) else [] }

  /** The i-th record is a system event. */
  ghost predicate SystemAt(ps: seq<seq<u8>>, i: nat, code: u8) {
    i < |ps| && WellFormed(ps[i]) && Decoded(ps[i]) == Some(SystemEvent(code))
  }

  // ---------- what they read back as ----------

  ghost predicate ReadsAs(t: Table, m: Message, ev: Option<Event>) {
    && TableOf(t.typeByte) == Some(t) && Typed(t, m)
    && WellFormed(Wire(t, m)) && EventIn(Wire(t, m)) == ev
    && |Wire(t, m)| < TWO_16 && LocateOf(Wire(t, m)) == m.header.locate
  }

  lemma AddReads(h: MsgHeader, o: Live, sym: nat)
    ensures ReadsAs(ADD_ORDER, AddMessage(h, o, sym), Some(Add(h.locate, o.ref, o.side, o.shares, o.price)))
    ensures ReadsAs(ADD_ORDER_MPID, AddMpidMessage(h, o, sym), Some(Add(h.locate, o.ref, o.side, o.shares, o.price)))
  {
    hide Wire, WellFormed, Codec.Decode, InBounds, LocateOf;
    Widths();
    WireIsRead(ADD_ORDER, AddMessage(h, o, sym));
    WireIsRead(ADD_ORDER_MPID, AddMpidMessage(h, o, sym));
  }

  lemma DeleteReads(h: MsgHeader, ref: u64)
    ensures ReadsAs(ORDER_DELETE, DeleteMessage(h, ref), Some(Remove(ref)))
  {
    hide Wire, WellFormed, Codec.Decode, InBounds, LocateOf;
    Widths();
    WireIsRead(ORDER_DELETE, DeleteMessage(h, ref));
  }

  lemma ReplaceReads(h: MsgHeader, ref: u64, newRef: u64, shares: u32, price: u32)
    ensures ReadsAs(ORDER_REPLACE, ReplaceMessage(h, ref, newRef, shares, price),
      Some(Replace(ref, newRef, shares, price)))
  {
    hide Wire, WellFormed, Codec.Decode, InBounds, LocateOf;
    Widths();
    WireIsRead(ORDER_REPLACE, ReplaceMessage(h, ref, newRef, shares, price));
  }

  lemma CancelReads(h: MsgHeader, ref: u64, shares: u32)
    ensures ReadsAs(ORDER_CANCEL, CancelMessage(h, ref, shares), Some(Reduce(ref, shares)))
  {
    hide Wire, WellFormed, Codec.Decode, InBounds, LocateOf;
    Widths();
    WireIsRead(ORDER_CANCEL, CancelMessage(h, ref, shares));
  }

  lemma ExecuteReads(h: MsgHeader, ref: u64, shares: u32, matchNo: u64, price: u32)
    ensures ReadsAs(ORDER_EXECUTED, ExecuteMessage(h, ref, shares, matchNo), Some(Reduce(ref, shares)))
    ensures ReadsAs(ORDER_EXECUTED_WITH_PRICE, ExecutePricedMessage(h, ref, shares, matchNo, price),
      Some(Reduce(ref, shares)))
  {
    hide Wire, WellFormed, Codec.Decode, InBounds, LocateOf;
    Widths();
    WireIsRead(ORDER_EXECUTED, ExecuteMessage(h, ref, shares, matchNo));
    WireIsRead(ORDER_EXECUTED_WITH_PRICE, ExecutePricedMessage(h, ref, shares, matchNo, price));
  }

  lemma TradeReads(h: MsgHeader, shares: u32, sym: nat, price: u32, matchNo: u64)
    ensures ReadsAs(TRADE, TradeMessage(h, shares, sym, price, matchNo), None)
  {
    hide Wire, WellFormed, Codec.Decode, InBounds, LocateOf;
    Widths();
    WireIsRead(TRADE, TradeMessage(h, shares, sym, price, matchNo));
  }

  lemma SystemReads(h: MsgHeader, code: u8)
    ensures ReadsAs(SYSTEM_EVENT, SystemMessage(h, code), None)
    ensures SystemAt([RecordOf(SYSTEM_EVENT, SystemMessage(h, code))], 0, code)
  {
    hide Wire, WellFormed, Codec.Decode, InBounds, LocateOf;
    Widths();
    WireIsRead(SYSTEM_EVENT, SystemMessage(h, code));
  }

  lemma DirectoryReads(h: MsgHeader, sym: nat)
    ensures ReadsAs(STOCK_DIRECTORY, DirectoryMessage(h, sym), None)
  {
    hide Wire, WellFormed, Codec.Decode, InBounds, LocateOf, Pow256;
    Widths();
    WireIsRead(STOCK_DIRECTORY, DirectoryMessage(h, sym));
  }
}
