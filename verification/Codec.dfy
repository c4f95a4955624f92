/** Encode and decode from a field table (include/itch/messages.hpp:43-48, 352-424, include/itch/bytes.hpp:35-70). */
module Codec {
  import opened Machine
  import opened Arith
  import opened Bytes
  import opened Messages

  datatype MsgHeader = MsgHeader(locate: u16, tracking: u16, timestamp: u64)

  /** A field's value: a number, or the characters of an Alpha field. */
  datatype Value = Num(n: nat) | Text(chars: seq<u8>)

  datatype Message = Message(header: MsgHeader, values: seq<Value>)

  predicate FitsKind(k: FieldKind, v: Value) {
    match k
    case Alpha(n) => v.Text? && |v.chars| == n
    case _ => v.Num? && v.n < Pow256(Width(k))
  }

  function EncodeValue(k: FieldKind, v: Value): (b: seq<u8>)
    requires FitsKind(k, v)
    ensures |b| == Width(k)
  {
    match k
    case Char => Widths(); [v.n]
    case Alpha(_) => v.chars
    case _ => StoreBe(v.n, Width(k))
  }

  function DecodeValue(k: FieldKind, p: seq<u8>): Value
    requires |p| == Width(k)
  {
    match k
    case Char => Num(p[0])
    case Alpha(_) => Text(p)
    case _ => Num(LoadBe(p))
  }

  lemma ValueRoundTrip(k: FieldKind, v: Value)
    requires FitsKind(k, v)
    ensures DecodeValue(k, EncodeValue(k, v)) == v
  {
    hide LoadBe, StoreBe, Be, BeBytes;
    if !k.Alpha? && !k.Char? {
      StoreIsBigEndian(v.n, Width(k));
      LoadIsBigEndian(StoreBe(v.n, Width(k)));
      BeOfBytes(v.n, Width(k));
    }
  }

  lemma BytesRoundTrip(k: FieldKind, p: seq<u8>)
    requires |p| == Width(k)
    ensures FitsKind(k, DecodeValue(k, p)) && EncodeValue(k, DecodeValue(k, p)) == p
  {
    hide LoadBe, StoreBe, Be, BeBytes;
    Widths();
    if !k.Alpha? && !k.Char? {
      LoadIsBigEndian(p);
      BeBound(p);
      BytesOfBe(p);
      StoreIsBigEndian(Be(p), Width(k));
    }
  }

  // ---------- encode ----------

  ghost predicate Typed(t: Table, m: Message) {
    |m.values| == |t.fields| && forall i :: 0 <= i < |t.fields| ==> FitsKind(t.fields[i].kind, m.values[i])
  }

  /** The 48-bit store: the low 16 bits of the upper half, then the lower half. */
  function StoreBe48(v: u64): (b: seq<u8>)
    ensures |b| == 6
  {
    StoreBe(v / TWO_32 % TWO_16, 2) + StoreBe(v % TWO_32, 4)
  }

  function Head(typeByte: u8, h: MsgHeader): (b: seq<u8>)
    ensures |b| == MSG_HEADER
  {
    [typeByte] + StoreBe(h.locate, 2) + StoreBe(h.tracking, 2) + StoreBe48(h.timestamp)
  }

  function Body(t: Table, m: Message, i: nat): seq<u8>
    requires Typed(t, m) && i <= |t.fields|
    decreases |t.fields| - i
  {
    if i == |t.fields| then [] else EncodeValue(t.fields[i].kind, m.values[i]) + Body(t, m, i + 1)
  }

  /** The wire image: header and fields one after the other. */
  function Wire(t: Table, m: Message): seq<u8>
    requires Typed(t, m)
  {
    Head(t.typeByte, m.header) + Body(t, m, 0)
  }

  lemma {:induction false} BodyLength(t: Table, m: Message, i: nat, next: nat)
    requires Typed(t, m) && i <= |t.fields| && TileFrom(t.fields, i, next, t.length)
    ensures next + |Body(t, m, i)| == t.length
    decreases |t.fields| - i
  {
    if i < |t.fields| { BodyLength(t, m, i + 1, next + Width(t.fields[i].kind)); }
  }

  /** A buffer with some of its bytes overwritten. */
  function Splice(s: seq<u8>, at: nat, bytes: seq<u8>): (r: seq<u8>)
    requires at + |bytes| <= |s|
    ensures |r| == |s|
  {
    s[..at] + bytes + s[at + |bytes|..]
  }

  method StoreBytes(out: array<u8>, at: nat, bytes: seq<u8>)
    requires at + |bytes| <= out.Length
    modifies out
    ensures out[..] == Splice(old(out[..]), at, bytes)
  {
    hide Splice;
    ghost var was := out[..];
    SpliceNone(was, at);
    for i := 0 to |bytes|
      invariant out[..] == Splice(was, at, bytes[..i])
    {
      ghost var before := out[..];
      out[at + i] := bytes[i];
      SpliceOne(before, at + i, bytes[i]);
      SpliceTwice(was, at, bytes[..i], [bytes[i]]);
      assert bytes[..i] + [bytes[i]] == bytes[..i + 1];
    }
    assert bytes[..|bytes|] == bytes;
  }

  lemma SpliceNone(s: seq<u8>, at: nat)
    requires at <= |s|
    ensures Splice(s, at, []) == s
  {
  }

  lemma SpliceOne(s: seq<u8>, at: nat, b: u8)
    requires at < |s|
    ensures Splice(s, at, [b]) == s[at := b]
  {
  }

  lemma SpliceTwice(s: seq<u8>, at: nat, a: seq<u8>, b: seq<u8>)
    requires at + |a| + |b| <= |s|
    ensures Splice(Splice(s, at, a), at + |a|, b) == Splice(s, at, a + b)
  {
  }

  lemma WireIs(t: Table, m: Message)
    requires Typed(t, m)
    ensures Wire(t, m) == Head(t.typeByte, m.header) + Body(t, m, 0)
    ensures Body(t, m, |t.fields|) == []
  {
  }

  /** Writes each field at its own offset; where the fields tile, the result is the wire image. */
  method Encode(t: Table, m: Message, out: array<u8>, at: nat) returns (n: nat)
    requires Tiles(t) && Typed(t, m) && at + t.length <= out.Length
    modifies out
    ensures n == t.length == |Wire(t, m)|
    ensures out[..] == Splice(old(out[..]), at, Wire(t, m))
  {
    hide EncodeValue, FitsKind, Head, Wire, Splice;
    ghost var before := out[..];
    BodyLength(t, m, 0, MSG_HEADER);
    WireIs(t, m);
    StoreBytes(out, at, Head(t.typeByte, m.header));
    ghost var next: nat := MSG_HEADER;
    ghost var done := Head(t.typeByte, m.header);
    for i := 0 to |t.fields|
      invariant TileFrom(t.fields, i, next, t.length) && next + |Body(t, m, i)| == t.length && |done| == next
      invariant done + Body(t, m, i) == Wire(t, m)
      invariant out[..] == Splice(before, at, done)
    {
      var f := t.fields[i];
      BodyLength(t, m, i + 1, next + Width(f.kind));
      var bytes := EncodeValue(f.kind, m.values[i]);
      StoreBytes(out, at + f.offset, bytes);
      SpliceTwice(before, at, done, bytes);
      assert (done + bytes) + Body(t, m, i + 1) == done + Body(t, m, i);
      done := done + bytes;
      next := next + |bytes|;
    }
    n := t.length;
    assert done + [] == done;
  }

  // ---------- decode ----------

  function DecodeField(f: Field, p: seq<u8>): Value
    requires f.offset + Width(f.kind) <= |p|
  {
    DecodeValue(f.kind, p[f.offset..f.offset + Width(f.kind)])
  }

  ghost predicate InBounds(t: Table, p: seq<u8>) {
    |p| >= MSG_HEADER && forall i :: 0 <= i < |t.fields| ==> t.fields[i].offset + Width(t.fields[i].kind) <= |p|
  }

  lemma {:induction false} TilesInBounds(t: Table, p: seq<u8>, i: nat, next: nat)
    requires i <= |t.fields| && TileFrom(t.fields, i, next, t.length) && t.length <= |p|
    ensures next <= t.length && forall j :: i <= j < |t.fields| ==> t.fields[j].offset + Width(t.fields[j].kind) <= |p|
    decreases |t.fields| - i
  {
    if i < |t.fields| { TilesInBounds(t, p, i + 1, next + Width(t.fields[i].kind)); }
  }

  /** Reads the timestamp with the 8-byte load. */
  function Decode(t: Table, p: seq<u8>): Message
    requires InBounds(t, p)
  {
    Message(
      MsgHeader(Load16(p[1..3]), Load16(p[3..5]), Load64(p[3..11]) % TWO_48),
      seq(|t.fields|, i requires 0 <= i < |t.fields| => DecodeField(t.fields[i], p)))
  }

  // ---------- round trips ----------

  lemma {:induction false} FieldAt(t: Table, m: Message, i: nat, j: nat, next: nat, pre: seq<u8>, rest: seq<u8>)
    requires Typed(t, m) && i <= j < |t.fields| && TileFrom(t.fields, i, next, t.length) && |pre| == next
    ensures var f := t.fields[j]; var p := pre + Body(t, m, i) + rest;
      f.offset + Width(f.kind) <= |p| && p[f.offset..f.offset + Width(f.kind)] == EncodeValue(f.kind, m.values[j])
    decreases |t.fields| - i
  {
    hide EncodeValue, FitsKind;
    var bytes := EncodeValue(t.fields[i].kind, m.values[i]);
    var p := pre + Body(t, m, i) + rest;
    Assoc(pre, bytes, Body(t, m, i + 1));
    if i < j {
      FieldAt(t, m, i + 1, j, next + |bytes|, pre + bytes, rest);
    } else {
      assert (pre + bytes + Body(t, m, i + 1))[next..next + |bytes|] == bytes;
      assert p[next..next + |bytes|] == bytes;
    }
  }

  lemma HeadRoundTrip(typeByte: u8, h: MsgHeader, rest: seq<u8>)
    ensures var p := Head(typeByte, h) + rest;
      Load16(p[1..3]) == h.locate && Load16(p[3..5]) == h.tracking && Load64(p[3..11]) % TWO_48 == h.timestamp % TWO_48
  {
    hide LoadBe, StoreBe, Be, BeBytes;
    var p := Head(typeByte, h) + rest;
    Widths();
    assert p[1..3] == StoreBe(h.locate, 2) && p[3..5] == StoreBe(h.tracking, 2);
    assert p[5..7] == StoreBe(h.timestamp / TWO_32 % TWO_16, 2) && p[7..11] == StoreBe(h.timestamp % TWO_32, 4);
    StoreLoads(h.locate, 2);
    StoreLoads(h.tracking, 2);
    StoreLoads(h.timestamp / TWO_32 % TWO_16, 2);
    StoreLoads(h.timestamp % TWO_32, 4);
    LoadIsBigEndian(p[3..11]);
    LoadIsBigEndian(p[1..3]);
    LoadIsBigEndian(p[3..5]);
    OverreadIsPlain(p);
    Split48(h.timestamp);
  }

  lemma StoreLoads(v: nat, n: nat)
    requires v < Pow256(n)
    ensures LoadBe(StoreBe(v, n)) == v
  {
    StoreIsBigEndian(v, n);
    LoadIsBigEndian(StoreBe(v, n));
    BeOfBytes(v, n);
  }

  lemma Split48(v: nat)
    ensures v / TWO_32 % TWO_16 * TWO_32 + v % TWO_32 == v % TWO_48
  {
    var q := v / TWO_32;
    DivModUnique(v, q / TWO_16, TWO_48, q % TWO_16 * TWO_32 + v % TWO_32);
  }

  /**
   Encode, then decode: every field comes back, and the timestamp modulo 2^48; so the message does if and only if its
   timestamp fits.
   */
  lemma EncodeThenDecode(t: Table, m: Message, rest: seq<u8>)
    requires Tiles(t) && Typed(t, m)
    ensures var p := Wire(t, m) + rest;
      InBounds(t, p) && (Decode(t, p) == m <==> m.header.timestamp < TWO_48)
    ensures var d := Decode(t, Wire(t, m) + rest);
      d == m.(header := m.header.(timestamp := m.header.timestamp % TWO_48))
  {
    hide EncodeValue, DecodeValue, FitsKind, Head, Body;
    var p := Wire(t, m) + rest;
    BodyLength(t, m, 0, MSG_HEADER);
    TilesInBounds(t, p, 0, MSG_HEADER);
    assert p == Head(t.typeByte, m.header) + (Body(t, m, 0) + rest);
    HeadRoundTrip(t.typeByte, m.header, Body(t, m, 0) + rest);
    forall j | 0 <= j < |t.fields| ensures DecodeField(t.fields[j], p) == m.values[j] {
      FieldAt(t, m, 0, j, MSG_HEADER, Head(t.typeByte, m.header), rest);
      ValueRoundTrip(t.fields[j].kind, m.values[j]);
    }
  }

  lemma {:induction false} BodyOfDecoded(t: Table, p: seq<u8>, i: nat, next: nat)
    requires InBounds(t, p) && Typed(t, Decode(t, p)) && |p| == t.length
    requires i <= |t.fields| && TileFrom(t.fields, i, next, t.length)
    ensures next <= |p| && Body(t, Decode(t, p), i) == p[next..]
    decreases |t.fields| - i
  {
    hide EncodeValue, DecodeValue, FitsKind;
    if i < |t.fields| {
      var f := t.fields[i];
      BodyOfDecoded(t, p, i + 1, next + Width(f.kind));
      BytesRoundTrip(f.kind, p[next..next + Width(f.kind)]);
      assert p[next..] == p[next..next + Width(f.kind)] + p[next + Width(f.kind)..];
    }
  }

  lemma HeadOfDecoded(t: Table, p: seq<u8>)
    requires InBounds(t, p)
    ensures Head(p[0], Decode(t, p).header) == p[..MSG_HEADER]
  {
    hide LoadBe, StoreBe, Be, BeBytes, DecodeField;
    var h := Decode(t, p).header;
    Widths();
    LoadIsBigEndian(p[3..11]);
    OverreadIsPlain(p);
    var hi, lo := LoadBe(p[5..7]), LoadBe(p[7..11]);
    LoadStores(p[1..3]);
    LoadStores(p[3..5]);
    LoadStores(p[5..7]);
    LoadStores(p[7..11]);
    LoadIsBigEndian(p[1..3]);
    LoadIsBigEndian(p[3..5]);
    DivModUnique(h.timestamp, hi, TWO_32, lo);
    assert p[..MSG_HEADER] == [p[0]] + p[1..3] + p[3..5] + (p[5..7] + p[7..11]);
  }

  lemma LoadStores(p: seq<u8>)
    ensures LoadBe(p) < Pow256(|p|) && StoreBe(LoadBe(p), |p|) == p
  {
    LoadIsBigEndian(p);
    BeBound(p);
    BytesOfBe(p);
    StoreIsBigEndian(Be(p), |p|);
  }

  /** Decode, then encode: a wire image with the right type byte comes back byte for byte. */
  lemma DecodeThenEncode(t: Table, p: seq<u8>)
    requires Tiles(t) && |p| == t.length && p != [] && p[0] == t.typeByte
    ensures InBounds(t, p) && Typed(t, Decode(t, p)) && Wire(t, Decode(t, p)) == p
  {
    hide EncodeValue, DecodeValue, FitsKind, Head, Body;
    TilesInBounds(t, p, 0, MSG_HEADER);
    forall j | 0 <= j < |t.fields| ensures FitsKind(t.fields[j].kind, DecodeField(t.fields[j], p)) {
      var f := t.fields[j];
      BytesRoundTrip(f.kind, p[f.offset..f.offset + Width(f.kind)]);
    }
    BodyOfDecoded(t, p, 0, MSG_HEADER);
    HeadOfDecoded(t, p);
    assert p == p[..MSG_HEADER] + p[MSG_HEADER..];
  }
}
