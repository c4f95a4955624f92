/**
 Where the fields of the book-changing messages lie, byte by byte (include/itch/messages.hpp:43-66, 177-250,
 include/itch/bytes.hpp:17-50; Nasdaq TotalView-ITCH 5.0 Specification, section 1).
 */
module Layouts {
  import opened Machine
  import opened Bytes
  import opened Messages
  import opened Codec
  import opened Parsing
  import opened Books
  import opened Publishing
  import opened Dispatch

  // ---------- big-endian numbers, most significant byte first ----------

  function Two(p: seq<u8>, i: nat): u16
    requires i + 2 <= |p|
  {
    0x100 * (p[i] as int) + p[i + 1] as int
  }

  function Four(p: seq<u8>, i: nat): u32
    requires i + 4 <= |p|
  {
    0x1_0000 * (Two(p, i) as int) + Two(p, i + 2) as int
  }

  function Six(p: seq<u8>, i: nat): (v: nat)
    requires i + 6 <= |p|
    ensures v < TWO_48
  {
    0x1_0000_0000 * (Two(p, i) as int) + Four(p, i + 2) as int
  }

  function Eight(p: seq<u8>, i: nat): u64
    requires i + 8 <= |p|
  {
    0x1_0000_0000 * (Four(p, i) as int) + Four(p, i + 4) as int
  }

  lemma BeTwo(p: seq<u8>, i: nat)
    requires i + 2 <= |p|
    ensures Be(p[i..i + 2]) == Two(p, i)
  {
    var s := p[i..i + 2];
    assert s[..1][..0] == [];
    assert Be(s[..1]) == p[i];
  }

  lemma BeFour(p: seq<u8>, i: nat)
    requires i + 4 <= |p|
    ensures Be(p[i..i + 4]) == Four(p, i)
  {
    hide Be;
    assert p[i..i + 4] == p[i..i + 2] + p[i + 2..i + 4];
    BeConcat(p[i..i + 2], p[i + 2..i + 4]);
    BeTwo(p, i);
    BeTwo(p, i + 2);
    Widths();
  }

  lemma BeSix(p: seq<u8>, i: nat)
    requires i + 6 <= |p|
    ensures Be(p[i..i + 6]) == Six(p, i)
  {
    hide Be;
    assert p[i..i + 6] == p[i..i + 2] + p[i + 2..i + 6];
    BeConcat(p[i..i + 2], p[i + 2..i + 6]);
    BeTwo(p, i);
    BeFour(p, i + 2);
    Widths();
  }

  lemma BeEight(p: seq<u8>, i: nat)
    requires i + 8 <= |p|
    ensures Be(p[i..i + 8]) == Eight(p, i)
  {
    hide Be;
    assert p[i..i + 8] == p[i..i + 4] + p[i + 4..i + 8];
    BeConcat(p[i..i + 4], p[i + 4..i + 8]);
    BeFour(p, i);
    BeFour(p, i + 4);
    Widths();
  }

  // ---------- the fields of a well-formed record ----------

  lemma Numbers(t: Table, p: seq<u8>, i: nat)
    requires InBounds(t, p) && i < |t.fields|
    ensures var f := t.fields[i];
      && (f.kind == U64 ==> f.offset + 8 <= |p| && U64At(t, p, i) == Eight(p, f.offset))
      && (f.kind == U32 ==> f.offset + 4 <= |p| && U32At(t, p, i) == Four(p, f.offset))
      && (f.kind == Char ==> f.offset + 1 <= |p| && CharAt(t, p, i) == p[f.offset])
  {
    hide Be, LoadBe;
    var f := t.fields[i];
    if f.kind == U64 { LoadIsBigEndian(p[f.offset..f.offset + 8]); BeEight(p, f.offset); }
    if f.kind == U32 { LoadIsBigEndian(p[f.offset..f.offset + 4]); BeFour(p, f.offset); }
  }

  lemma HeaderAt(t: Table, p: seq<u8>)
    requires InBounds(t, p) && |p| >= 11
    ensures var h := Codec.Decode(t, p).header;
      h.locate == Two(p, 1) && h.tracking == Two(p, 3) && h.timestamp == Six(p, 5)
    ensures WellFormed(p) ==> LocateOf(p) == Two(p, 1)
  {
    hide Be, LoadBe;
    BeTwo(p, 1);
    BeTwo(p, 3);
    BeSix(p, 5);
    OverreadIsPlain(p);
    LoadIsBigEndian(p[3..11]);
  }

  /** Add order, 'A' and 'F': reference, side, shares, stock, price. */
  lemma AddLayout(p: seq<u8>)
    requires WellFormed(p) && (p[0] == 65 || p[0] == 70)
    ensures |p| == (if p[0] == 65 then 36 else 40)
    ensures Decoded(p) == Some(BookMessage(
      if p[0] == 65
      then AddMsg(Two(p, 1), Six(p, 5), Eight(p, 11), p[19], Four(p, 20), Four(p, 32))
      else AddMpidMsg(Two(p, 1), Six(p, 5), Eight(p, 11), p[19], Four(p, 20), Four(p, 32))))
  {
    hide Codec.Decode, InBounds, WellFormed, Six, Eight, Four, Two;
    Known(p);
    var t := TableOf(p[0]).value;
    HeaderAt(t, p);
    Numbers(t, p, 0);
    Numbers(t, p, 1);
    Numbers(t, p, 2);
    Numbers(t, p, 4);
  }

  lemma Known(p: seq<u8>)
    requires WellFormed(p)
    ensures TableOf(p[0]).Some? && InBounds(TableOf(p[0]).value, p) && |p| == TableOf(p[0]).value.length >= 11
  {
    WellFormedInBounds(p);
    AllTablesTile(p[0]);
  }

  /** Order executed, with and without a price, and order cancel, 'E', 'C' and 'X': reference and shares. */
  lemma ReduceLayout(p: seq<u8>)
    requires WellFormed(p) && (p[0] == 69 || p[0] == 67 || p[0] == 88)
    ensures |p| == (if p[0] == 69 then 31 else if p[0] == 67 then 36 else 23)
    ensures Decoded(p) == Some(BookMessage(
      if p[0] == 69 then ExecutedMsg(Two(p, 1), Six(p, 5), Eight(p, 11), Four(p, 19))
      else if p[0] == 67 then ExecutedWithPriceMsg(Two(p, 1), Six(p, 5), Eight(p, 11), Four(p, 19))
      else CancelMsg(Two(p, 1), Six(p, 5), Eight(p, 11), Four(p, 19))))
  {
    hide Codec.Decode, InBounds, WellFormed, Six, Eight, Four, Two;
    Known(p);
    var t := TableOf(p[0]).value;
    HeaderAt(t, p);
    Numbers(t, p, 0);
    Numbers(t, p, 1);
  }

  /** Order delete and order replace, 'D' and 'U': the reference; the new reference, shares and price. */
  lemma ReplaceLayout(p: seq<u8>)
    requires WellFormed(p) && (p[0] == 68 || p[0] == 85)
    ensures |p| == (if p[0] == 68 then 19 else 35)
    ensures Decoded(p) == Some(BookMessage(
      if p[0] == 68 then DeleteMsg(Two(p, 1), Six(p, 5), Eight(p, 11))
      else ReplaceMsg(Two(p, 1), Six(p, 5), Eight(p, 11), Eight(p, 19), Four(p, 27), Four(p, 31))))
  {
    hide Codec.Decode, InBounds, WellFormed, Six, Eight, Four, Two;
    Known(p);
    var t := TableOf(p[0]).value;
    HeaderAt(t, p);
    Numbers(t, p, 0);
    if p[0] == 85 {
      Numbers(t, p, 1);
      Numbers(t, p, 2);
      Numbers(t, p, 3);
    }
  }

  /** System event and stock directory, 'S' and 'R'; no other record makes a call. */
  lemma OtherLayout(p: seq<u8>)
    requires WellFormed(p) && p[0] !in {65, 70, 69, 67, 88, 68, 85}
    ensures p[0] == 83 ==> |p| == 12
    ensures Decoded(p) ==
      if p[0] == 83 then Some(SystemEvent(p[11]))
      else if p[0] == 82 then Some(StockDirectory(LocateOf(p)))
      else None
    ensures |p| >= 11 && LocateOf(p) == Two(p, 1)
  {
    hide Codec.Decode, InBounds, WellFormed, LocateOf, Six, Eight, Four, Two;
    Known(p);
    var t := TableOf(p[0]).value;
    HeaderAt(t, p);
    if p[0] == 83 { Numbers(t, p, 0); }
  }

  /** So what a record means to the books can be read off its bytes; all multi-byte numbers are big-endian. */
  lemma EventIsRead(p: seq<u8>)
    requires WellFormed(p)
    ensures |p| >= 11 && LocateOf(p) == Two(p, 1)
    ensures match p[0]
      case 65 => |p| == 36 && EventIn(p) == Some(Add(Two(p, 1), Eight(p, 11), p[19], Four(p, 20), Four(p, 32)))
      case 70 => |p| == 40 && EventIn(p) == Some(Add(Two(p, 1), Eight(p, 11), p[19], Four(p, 20), Four(p, 32)))
      case 69 => |p| == 31 && EventIn(p) == Some(Reduce(Eight(p, 11), Four(p, 19)))
      case 67 => |p| == 36 && EventIn(p) == Some(Reduce(Eight(p, 11), Four(p, 19)))
      case 88 => |p| == 23 && EventIn(p) == Some(Reduce(Eight(p, 11), Four(p, 19)))
      case 68 => |p| == 19 && EventIn(p) == Some(Remove(Eight(p, 11)))
      case 85 => |p| == 35 && EventIn(p) == Some(Replace(Eight(p, 11), Eight(p, 19), Four(p, 27), Four(p, 31)))
      case _ => EventIn(p) == None
  {
    hide Decoded, WellFormed, LocateOf, Six, Eight, Four, Two;
    Known(p);
    HeaderAt(TableOf(p[0]).value, p);
    if p[0] == 65 || p[0] == 70 { AddLayout(p); }
    else if p[0] == 69 || p[0] == 67 || p[0] == 88 { ReduceLayout(p); }
    else if p[0] == 68 || p[0] == 85 { ReplaceLayout(p); }
    else { OtherLayout(p); }
  }
}
