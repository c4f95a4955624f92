/** The field tables of the 23 ITCH 5.0 messages (include/itch/messages.hpp:43-346, 352-433). */
module Messages {
  import opened Machine

  const MSG_HEADER := 11

  datatype FieldKind = Char | U16 | U32 | U64 | Alpha(n: nat)

  function Width(k: FieldKind): nat {
    match k
    case Char => 1
    case U16 => 2
    case U32 => 4
    case U64 => 8
    case Alpha(n) => n
  }

  datatype Field = Field(kind: FieldKind, offset: nat)

  datatype Table = Table(typeByte: u8, length: nat, fields: seq<Field>)

  const SYSTEM_EVENT := Table(83, 12, [Field(Char, 11)])
  const STOCK_DIRECTORY := Table(82, 39, [
    Field(Alpha(8), 11), Field(Char, 19), Field(Char, 20), Field(U32, 21), Field(Char, 25), Field(Char, 26),
    Field(Alpha(2), 27), Field(Char, 29), Field(Char, 30), Field(Char, 31), Field(Char, 32), Field(Char, 33),
    Field(U32, 34), Field(Char, 38)])
  const STOCK_TRADING_ACTION := Table(72, 25, [
    Field(Alpha(8), 11), Field(Char, 19), Field(Char, 20), Field(Alpha(4), 21)])
  const REG_SHO_RESTRICTION := Table(89, 20, [Field(Alpha(8), 11), Field(Char, 19)])
  const MARKET_PARTICIPANT_POSITION := Table(76, 26, [
    Field(Alpha(4), 11), Field(Alpha(8), 15), Field(Char, 23), Field(Char, 24), Field(Char, 25)])
  const MWCB_DECLINE_LEVEL := Table(86, 35, [Field(U64, 11), Field(U64, 19), Field(U64, 27)])
  const MWCB_STATUS := Table(87, 12, [Field(Char, 11)])
  const IPO_QUOTING_PERIOD_UPDATE := Table(75, 28, [
    Field(Alpha(8), 11), Field(U32, 19), Field(Char, 23), Field(U32, 24)])
  const LULD_AUCTION_COLLAR := Table(74, 35, [
    Field(Alpha(8), 11), Field(U32, 19), Field(U32, 23), Field(U32, 27), Field(U32, 31)])
  const OPERATIONAL_HALT := Table(104, 21, [Field(Alpha(8), 11), Field(Char, 19), Field(Char, 20)])
  const ADD_ORDER := Table(65, 36, [
    Field(U64, 11), Field(Char, 19), Field(U32, 20), Field(Alpha(8), 24), Field(U32, 32)])
  const ADD_ORDER_MPID := Table(70, 40, [
    Field(U64, 11), Field(Char, 19), Field(U32, 20), Field(Alpha(8), 24), Field(U32, 32), Field(Alpha(4), 36)])
  const ORDER_EXECUTED := Table(69, 31, [Field(U64, 11), Field(U32, 19), Field(U64, 23)])
  const ORDER_EXECUTED_WITH_PRICE := Table(67, 36, [
    Field(U64, 11), Field(U32, 19), Field(U64, 23), Field(Char, 31), Field(U32, 32)])
  const ORDER_CANCEL := Table(88, 23, [Field(U64, 11), Field(U32, 19)])
  const ORDER_DELETE := Table(68, 19, [Field(U64, 11)])
  const ORDER_REPLACE := Table(85, 35, [Field(U64, 11), Field(U64, 19), Field(U32, 27), Field(U32, 31)])
  const TRADE := Table(80, 44, [
    Field(U64, 11), Field(Char, 19), Field(U32, 20), Field(Alpha(8), 24), Field(U32, 32), Field(U64, 36)])
  const CROSS_TRADE := Table(81, 40, [
    Field(U64, 11), Field(Alpha(8), 19), Field(U32, 27), Field(U64, 31), Field(Char, 39)])
  const BROKEN_TRADE := Table(66, 19, [Field(U64, 11)])
  const NOII := Table(73, 50, [
    Field(U64, 11), Field(U64, 19), Field(Char, 27), Field(Alpha(8), 28), Field(U32, 36), Field(U32, 40),
    Field(U32, 44), Field(Char, 48), Field(Char, 49)])
  const RETAIL_INTEREST := Table(78, 20, [Field(Alpha(8), 11), Field(Char, 19)])
  const DIRECT_LISTING := Table(79, 48, [
    Field(Alpha(8), 11), Field(Char, 19), Field(U32, 20), Field(U32, 24), Field(U32, 28), Field(U64, 32),
    Field(U32, 40), Field(U32, 44)])

  function TableOf(typeByte: u8): Option<Table> {
    match typeByte
    case 83 => Some(SYSTEM_EVENT)
    case 82 => Some(STOCK_DIRECTORY)
    case 72 => Some(STOCK_TRADING_ACTION)
    case 89 => Some(REG_SHO_RESTRICTION)
    case 76 => Some(MARKET_PARTICIPANT_POSITION)
    case 86 => Some(MWCB_DECLINE_LEVEL)
    case 87 => Some(MWCB_STATUS)
    case 75 => Some(IPO_QUOTING_PERIOD_UPDATE)
    case 74 => Some(LULD_AUCTION_COLLAR)
    case 104 => Some(OPERATIONAL_HALT)
    case 65 => Some(ADD_ORDER)
    case 70 => Some(ADD_ORDER_MPID)
    case 69 => Some(ORDER_EXECUTED)
    case 67 => Some(ORDER_EXECUTED_WITH_PRICE)
    case 88 => Some(ORDER_CANCEL)
    case 68 => Some(ORDER_DELETE)
    case 85 => Some(ORDER_REPLACE)
    case 80 => Some(TRADE)
    case 81 => Some(CROSS_TRADE)
    case 66 => Some(BROKEN_TRADE)
    case 73 => Some(NOII)
    case 78 => Some(RETAIL_INTEREST)
    case 79 => Some(DIRECT_LISTING)
    case _ => None
  }

  /** The length that the parser checks a message against; 0 for types that ITCH 5.0 does not define. */
  function MessageLength(typeByte: u8): nat {
    match TableOf(typeByte)
    case None => 0
    case Some(t) => t.length
  }

  /** The lengths of the ITCH 5.0 messages, type byte by type byte. */
  lemma KnownLengths(b: u8)
    ensures MessageLength(b) ==
      if b == 'S' as u8 then 12
      else if b == 'R' as u8 then 39
      else if b == 'H' as u8 then 25
      else if b == 'Y' as u8 then 20
      else if b == 'L' as u8 then 26
      else if b == 'V' as u8 then 35
      else if b == 'W' as u8 then 12
      else if b == 'K' as u8 then 28
      else if b == 'J' as u8 then 35
      else if b == 'h' as u8 then 21
      else if b == 'A' as u8 then 36
      else if b == 'F' as u8 then 40
      else if b == 'E' as u8 then 31
      else if b == 'C' as u8 then 36
      else if b == 'X' as u8 then 23
      else if b == 'D' as u8 then 19
      else if b == 'U' as u8 then 35
      else if b == 'P' as u8 then 44
      else if b == 'Q' as u8 then 40
      else if b == 'B' as u8 then 19
      else if b == 'I' as u8 then 50
      else if b == 'N' as u8 then 20
      else if b == 'O' as u8 then 48
      else 0
  {
  }

  /** The fields from the i-th on follow each other from `next` without gap or overlap, and end at `end`. */
  ghost predicate TileFrom(fields: seq<Field>, i: nat, next: nat, end: nat)
    requires i <= |fields|
    decreases |fields| - i
  {
    if i == |fields| then next == end
    else fields[i].offset == next && TileFrom(fields, i + 1, next + Width(fields[i].kind), end)
  }

  ghost predicate Tiles(t: Table) { TileFrom(t.fields, 0, MSG_HEADER, t.length) }

  /** The compile-time fold that guards every encode and decode. */
  method FieldsTileMessage(t: Table) returns (ok: bool)
    ensures ok == Tiles(t)
  {
    var next: nat := MSG_HEADER;
    ok := true;
    for i := 0 to |t.fields|
      invariant ok ==> (Tiles(t) <==> TileFrom(t.fields, i, next, t.length))
      invariant !ok ==> !Tiles(t)
    {
      ok := ok && t.fields[i].offset == next;
      next := t.fields[i].offset + Width(t.fields[i].kind);
    }
    ok := ok && next == t.length;
  }

  lemma AdminTablesTile()
    ensures Tiles(SYSTEM_EVENT)
    ensures Tiles(STOCK_DIRECTORY)
    ensures Tiles(STOCK_TRADING_ACTION)
    ensures Tiles(REG_SHO_RESTRICTION)
    ensures Tiles(MARKET_PARTICIPANT_POSITION)
    ensures Tiles(MWCB_DECLINE_LEVEL)
  {
  }

  lemma MarketTablesTile()
    ensures Tiles(MWCB_STATUS)
    ensures Tiles(IPO_QUOTING_PERIOD_UPDATE)
    ensures Tiles(LULD_AUCTION_COLLAR)
    ensures Tiles(OPERATIONAL_HALT)
  {
  }

  lemma OrderTablesTile()
    ensures Tiles(ADD_ORDER)
    ensures Tiles(ADD_ORDER_MPID)
    ensures Tiles(ORDER_EXECUTED)
    ensures Tiles(ORDER_EXECUTED_WITH_PRICE)
    ensures Tiles(ORDER_CANCEL)
    ensures Tiles(ORDER_DELETE)
    ensures Tiles(ORDER_REPLACE)
  {
  }

  lemma TradeTablesTile()
    ensures Tiles(TRADE)
    ensures Tiles(CROSS_TRADE)
    ensures Tiles(BROKEN_TRADE)
    ensures Tiles(NOII)
    ensures Tiles(RETAIL_INTEREST)
    ensures Tiles(DIRECT_LISTING)
  {
  }

  /** Every message type tiles, carries its own type byte, and is long enough for the header loads. */
  lemma AllTablesTile(typeByte: u8)
    requires TableOf(typeByte).Some?
    ensures var t := TableOf(typeByte).value;
      Tiles(t) && t.typeByte == typeByte && MSG_HEADER < t.length <= 50
  {
    hide Tiles;
    AdminTablesTile();
    MarketTablesTile();
    OrderTablesTile();
    TradeTablesTile();
  }
}
