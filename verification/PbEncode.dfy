/** The nanopb encoder, run against its specification: every routine appends exactly the
    bytes of PbFormat or fails, on sizing streams as on memory streams. */
module PbEncode {
  import opened Bits
  import opened Common
  import opened PbTypes
  import opened PbWire
  import opened PbFormat
  import opened PbStreams

  // ------------------------------------------------------------------- primitives

  /** Seven more bits of a varint whose first groups are written. */
  lemma NextGroup(n: nat, before: seq<byte>, value: nat)
    requires value != 0 && EncVarint(n) == before + EncVarint(value)
    ensures if value / 128 != 0 then EncVarint(n) == before + [value % 128 + 128] + EncVarint(value / 128)
            else EncVarint(n) == before + [value % 128]
  {
    if value / 128 != 0 {
      assert EncVarint(value) == [value % 128 + 128] + EncVarint(value / 128);
    } else {
      assert EncVarint(value) == [value % 128];
    }
  }

  /** The loop of pb_encode_varint. */
  method FillVarint(buffer: array<byte>, n: nat) returns (i: nat)
    requires buffer.Length == 10 && 0 < n < U64
    modifies buffer
    ensures i <= 10 && buffer[..i] == EncVarint(n)
  {
    var value: nat := n;
    i := 0;
    VarintAtMostTen(n);
    assert EncVarint(n) == [] + EncVarint(n);
    hide EncVarint;
    while value != 0
      invariant 0 <= i <= 10 && value < U64
      invariant value != 0 ==> EncVarint(n) == buffer[..i] + EncVarint(value)
      invariant value == 0 ==> i > 0 && buffer[i - 1] >= 128 && EncVarint(n) == buffer[..i - 1] + [buffer[i - 1] - 128]
      decreases value
    {
      ghost var before := buffer[..i];
      NextGroup(n, before, value);
      buffer[i] := value % 128 + 128;
      assert buffer[..i] == before && buffer[..i + 1] == before + [buffer[i]];
      value := value / 128;
      i := i + 1;
    }
    buffer[i - 1] := buffer[i - 1] - 128;
    assert buffer[..i] == EncVarint(n);
  }

  /** pb_encode_varint */
  method EncodeVarint(s: OStream, n: nat) returns (ok: bool)
    requires s.Valid() && n < U64
    modifies s, s.buf
    ensures s.Valid() && s.Emitted(ok, Some(EncVarint(n)))
  {
    if n <= 0x7f {
      ok := s.Write([n]);
      return;
    }
    var buffer := new byte[10];
    var len := FillVarint(buffer, n);
    ok := s.Write(buffer[..len]);
  }

  /** pb_encode_svarint */
  method EncodeSvarint(s: OStream, n: int) returns (ok: bool)
    requires s.Valid() && -Half(8) <= n < Half(8)
    modifies s, s.buf
    ensures s.Valid() && s.Emitted(ok, Some(EncVarint(ZigZag(n))))
  {
    ok := EncodeVarint(s, ZigZag(n));
  }

  /** pb_encode_fixed32, pb_encode_fixed64: k bytes, least significant first. */
  method EncodeFixed(s: OStream, n: nat, k: nat) returns (ok: bool)
    requires s.Valid()
    modifies s, s.buf
    ensures s.Valid() && s.Emitted(ok, Some(EncFixed(n, k)))
  {
    var bytes, v, i := [], n, 0;
    while i < k
      invariant i <= k && EncFixed(n, k) == bytes + EncFixed(v, k - i)
    {
      bytes, v, i := bytes + [v % 256], v / 256, i + 1;
    }
    assert bytes == EncFixed(n, k);
    ok := s.Write(bytes);
  }

  /** pb_encode_tag */
  method EncodeTag(s: OStream, wt: nat, tag: nat) returns (ok: bool)
    requires s.Valid() && wt < 8 && tag < U32
    modifies s, s.buf
    ensures s.Valid() && s.Emitted(ok, Some(EncTag(wt, tag)))
  {
    TagWord(wt, tag);
    ok := EncodeVarint(s, Or(wt, Shl(tag, 3)));
  }

  /** pb_encode_tag_for_field */
  method EncodeTagForField(s: OStream, f: Field) returns (ok: bool)
    requires s.Valid() && f.tag < U32
    modifies s, s.buf
    ensures s.Valid() && s.Emitted(ok, Some(EncTag(WireType(f.ltype), f.tag)))
  {
    var wt;
    match f.ltype {
      case Varint | UVarint | SVarint => wt := WT_VARINT;
      case Fixed32 => wt := WT_32BIT;
      case Fixed64 => wt := WT_64BIT;
      case Bytes | String | Submessage | FixedLengthBytes => wt := WT_STRING;
    }
    ok := EncodeTag(s, wt, f.tag);
  }

  /** pb_encode_string */
  method EncodeString(s: OStream, b: seq<byte>) returns (ok: bool)
    requires s.Valid()
    modifies s, s.buf
    ensures s.Valid() && s.Emitted(ok, Some(EncString(b)))
  {
    ok := EncodeVarint(s, |b| % U64);
    if !ok { return; }
    ghost var k1 := s.Snap();
    ok := s.Write(b);
    EmitsThen(old(s.Snap()), k1, s.Snap(), s.buf == null, s.max, EncVarint(|b| % U64), ok, Some(b), Some(EncString(b)));
  }

  /** The strnlen loop of pb_enc_string. */
  method StringLength(b: seq<byte>, max: nat) returns (size: nat)
    ensures size <= |b| && b[..size] == CString(b, max)
  {
    size := 0;
    while size < max && size < |b| && b[size] != 0
      invariant size <= max && size <= |b|
      invariant CString(b, max) == b[..size] + CString(b[size..], max - size)
    {
      ghost var from := b[size..];
      assert from[1..] == b[size + 1..] && CString(from, max - size) == [b[size]] + CString(from[1..], max - size - 1);
      assert b[..size] + [b[size]] == b[..size + 1];
      size := size + 1;
    }
    assert CString(b[size..], max - size) == [];
  }

  // ----------------------------------------------------------------------- values

  /** The encoder for the field's type, from PB_ENCODERS. */
  method EncodeData(s: OStream, f: Field, v: Value) returns (ok: bool)
    requires s.Valid() && FieldOk(f) && Shaped(f, v)
    modifies s, s.buf
    ensures s.Valid() && s.Emitted(ok, EncodeValue(f, v))
    decreases v, 0
  {
    match f.ltype {
      case Varint =>
        if !WidthOk(f.dataSize) { return false; }
        ok := EncodeVarint(s, ToU64(v.n));
      case UVarint =>
        if !WidthOk(f.dataSize) { return false; }
        ok := EncodeVarint(s, v.n);
      case SVarint =>
        if !WidthOk(f.dataSize) { return false; }
        ok := EncodeSvarint(s, v.n);
      case Fixed32 =>
        ok := EncodeFixed(s, v.n, 4);
      case Fixed64 =>
        ok := EncodeFixed(s, v.n, 8);
      case Bytes =>
        if |v.b| + BYTES_HEADER > f.dataSize { return false; }
        ok := EncodeString(s, v.b);
      case String =>
        var size := StringLength(v.b, f.dataSize);
        ok := EncodeString(s, v.b[..size]);
      case FixedLengthBytes =>
        ok := EncodeString(s, v.b);
      case Submessage =>
        ok := EncodeSubmessage(s, f.ptr.fields, v.slots);
    }
  }

  /** pb_encode_submessage: measure with a sizing stream, write the length, then write into
      a substream with exactly that much room. The size cannot change between the passes. */
  method EncodeSubmessage(s: OStream, fs: seq<Field>, slots: seq<Slot>) returns (ok: bool)
    requires s.Valid() && WellFormed(fs) && MessageShaped(fs, slots)
    modifies s, s.buf
    ensures s.Valid()
    ensures var e := Encode(fs, slots);
            s.Emitted(ok, if e.Some? then Some(EncString(e.value)) else None)
    decreases slots, 7
  {
    hide EncVarint, Encode;
    ghost var e := Encode(fs, slots);
    ghost var k := s.Snap();
    var size;
    ok, size := GetEncodedSize(fs, slots);
    if !ok { return; }
    ok := EncodeVarint(s, size % U64);
    if !ok { return; }
    ghost var k1 := s.Snap();
    ghost var head := EncVarint(size % U64);
    if s.buf == null {
      ok := s.Count(size, e.value);
    } else {
      if s.written + size > s.max { return false; }
      var sub := new OStream.Within(s, size);
      ok := EncodeMessage(sub, fs, slots);
      s.written := s.written + sub.written;
      s.pos := sub.pos;
      if sub.written != size { return false; }
    }
    EmitsThen(k, k1, s.Snap(), s.buf == null, s.max, head, ok, e, Some(EncString(e.value)));
  }

  // ----------------------------------------------------------------------- fields

  method EncodeWithTag(s: OStream, f: Field, v: Value) returns (ok: bool)
    requires s.Valid() && FieldOk(f) && Shaped(f, v)
    modifies s, s.buf
    ensures s.Valid() && s.Emitted(ok, EncodeTagged(f, v))
    decreases v, 1
  {
    ok := EncodeTagForField(s, f);
    if !ok { return; }
    ghost var k1 := s.Snap();
    ok := EncodeData(s, f, v);
    EmitsThen(old(s.Snap()), k1, s.Snap(), s.buf == null, s.max, EncTag(WireType(f.ltype), f.tag), ok,
              EncodeValue(f, v), EncodeTagged(f, v));
  }

  /** The loops over array entries in encode_array. */
  method EncodeEntries(s: OStream, f: Field, items: seq<Value>, tagged: bool) returns (ok: bool)
    requires s.Valid() && FieldOk(f)
    requires forall j :: 0 <= j < |items| ==> Shaped(f, items[j])
    modifies s, s.buf
    ensures s.Valid() && s.Emitted(ok, EncodeItems(f, items, tagged, 0))
    decreases items, 2, 0
  {
    hide After, Emits, EncodeValue, EncodeTagged, Shaped, FieldOk;
    ghost var k, sizing, head, whole := s.Snap(), s.buf == null, [], EncodeItems(f, items, tagged, 0);
    EmitsNothing(k, sizing, s.max);
    CatAssoc(whole, None, None);
    for i := 0 to |items|
      invariant s.Valid() && Emits(k, s.Snap(), sizing, s.max, true, Some(head))
      invariant whole == Cat(Some(head), EncodeItems(f, items, tagged, i))
    {
      ghost var k1 := s.Snap();
      ghost var e := if tagged then EncodeTagged(f, items[i]) else EncodeValue(f, items[i]);
      if tagged {
        ok := EncodeWithTag(s, f, items[i]);
      } else {
        ok := EncodeData(s, f, items[i]);
      }
      EmitsThen(k, k1, s.Snap(), sizing, s.max, head, ok, e, Cat(Some(head), e));
      ghost var tail := EncodeItems(f, items, tagged, i + 1);
      CatAssoc(Some(head), e, tail);
      if !ok { EmitsFails(k, s.Snap(), sizing, s.max, Cat(Some(head), e), tail); return; }
      head := head + e.value;
    }
    CatAssoc(Some(head), None, None);
    return true;
  }

  /** encode_array */
  method EncodeRepeated(s: OStream, f: Field, items: seq<Value>) returns (ok: bool)
    requires s.Valid() && FieldOk(f)
    requires forall j :: 0 <= j < |items| ==> Shaped(f, items[j])
    modifies s, s.buf
    ensures s.Valid() && s.Emitted(ok, EncodeArray(f, items))
    decreases items, 3
  {
    hide After, Emits, EncodeValue, EncodeTagged, Shaped, EncVarint;
    ghost var k, sizing, whole := s.Snap(), s.buf == null, EncodeArray(f, items);
    if items == [] { EmitsNothing(k, sizing, s.max); return true; }
    if |items| > f.arraySize { EmitsNone(k, s.Snap(), sizing, s.max); return false; }
    if !f.ltype.Packable() {
      ok := EncodeEntries(s, f, items, true);
      return;
    }
    ghost var body := EncodeItems(f, items, false, 0);
    ghost var tag := EncTag(WT_STRING, f.tag);
    ok := EncodeTag(s, WT_STRING, f.tag);
    if !ok {
      EmitsFails(k, s.Snap(), sizing, s.max, Some(tag), if body.Some? then Some(EncString(body.value)) else None);
      return;
    }
    ghost var k1 := s.Snap();
    var size;
    if f.ltype.Fixed32? {
      size := 4 * |items|;
      FixedItems(f, items, 4, 0);
    } else if f.ltype.Fixed64? {
      size := 8 * |items|;
      FixedItems(f, items, 8, 0);
    } else {
      ok, size := SizeOfEntries(f, items);
      if !ok { EmitsNone(k, s.Snap(), sizing, s.max); return; }
    }
    ok := EncodeVarint(s, size % U64);
    ghost var k2, length := s.Snap(), EncVarint(size % U64);
    EmitsThen(k, k1, k2, sizing, s.max, tag, ok, Some(length), Some(tag + length));
    assert tag + EncString(body.value) == (tag + length) + body.value;
    if !ok { EmitsFails(k, k2, sizing, s.max, Some(tag + length), body); return; }
    if s.buf == null {
      ok := s.Count(size, body.value);
    } else {
      ok := EncodeEntries(s, f, items, false);
    }
    EmitsThen(k, k2, s.Snap(), sizing, s.max, tag + length, ok, body, whole);
  }

  /** The sizing pass over a packed array. */
  method SizeOfEntries(f: Field, items: seq<Value>) returns (ok: bool, size: nat)
    requires FieldOk(f) && forall j :: 0 <= j < |items| ==> Shaped(f, items[j])
    ensures var e := EncodeItems(f, items, false, 0); ok == e.Some? && (ok ==> size == |e.value|)
    decreases items, 2, 1
  {
    var sizer := new OStream.Sizing();
    ok := EncodeEntries(sizer, f, items, false);
    size := sizer.written;
  }

  lemma {:induction false} FixedItems(f: Field, items: seq<Value>, size: nat, k: nat)
    requires k <= |items| && ((f.ltype.Fixed32? && size == 4) || (f.ltype.Fixed64? && size == 8))
    requires forall j :: 0 <= j < |items| ==> Shaped(f, items[j])
    ensures var e := EncodeItems(f, items, false, k); e.Some? && |e.value| == size * (|items| - k)
    decreases |items| - k
  {
    if k < |items| { FixedItems(f, items, size, k + 1); }
  }

  /** which_ of the union that entry i belongs to: the tag of its active member, or zero. */
  function Which(fs: seq<Field>, slots: seq<Slot>, i: nat, j: nat): nat
    requires |slots| == |fs| && i < |fs| && j <= |fs|
    decreases |fs| - j
  {
    if j == |fs| then 0
    else if SameUnion(fs, i, j) && Active(slots[j]) then fs[j].tag
    else Which(fs, slots, i, j + 1)
  }

  lemma {:induction false} WhichIsActive(fs: seq<Field>, slots: seq<Slot>, i: nat, j: nat)
    requires WellFormed(fs) && |slots| == |fs| && i < |fs| && j <= |fs|
    ensures Which(fs, slots, i, j) != 0 <==> exists k :: j <= k < |fs| && SameUnion(fs, i, k) && Active(slots[k])
    decreases |fs| - j
  {
    if j < |fs| {
      WhichIsActive(fs, slots, i, j + 1);
      assert FieldOk(fs[j]);
    }
  }

  /** pb_check_proto3_default_value */
  method CheckProto3Default(f: Field, s: Slot, which: nat) returns (zero: bool)
    requires FieldOk(f) && SlotShaped(f, s)
    ensures zero == if f.htype.Oneof? then which == 0 else EmptySlot(f, s)
    decreases s, 1
  {
    match s {
      case Single(v) =>
        if f.htype.Required? { return false; }
        match f.ltype {
          case Bytes => return v.b == [];
          case String => return v.b == [] || v.b[0] == 0;
          case FixedLengthBytes => return f.dataSize == 0;
          case Submessage =>
            zero := CheckMessageEmpty(f.ptr.fields, v.slots);
          case _ => return v.n == 0;
        }
      case Opt(has, _) => return !has;
      case Rep(items) => return items == [];
      case Member(_) => return which == 0;
    }
  }

  /** Its loop over the fields of a submessage. */
  method CheckMessageEmpty(fs: seq<Field>, slots: seq<Slot>) returns (zero: bool)
    requires WellFormed(fs) && MessageShaped(fs, slots)
    ensures zero == EmptyMessage(fs, slots)
    decreases slots, 2
  {
    var iter := new FieldIter(fs);
    if fs == [] { return true; }
    while true
      invariant iter.Valid() && iter.start == fs && iter.pos < |fs| && fresh(iter)
      invariant forall j :: 0 <= j < iter.pos ==> EmptySlot(fs[j], slots[j])
      decreases |fs| - iter.pos
    {
      var which := Which(fs, slots, iter.pos, 0);
      WhichIsActive(fs, slots, iter.pos, 0);
      zero := CheckProto3Default(fs[iter.pos], slots[iter.pos], which);
      if !zero { return; }
      var more := iter.Next();
      if !more { return true; }
    }
  }

  /** encode_basic_field */
  method EncodeField(s: OStream, f: Field, slot: Slot) returns (ok: bool)
    requires s.Valid() && FieldOk(f) && SlotShaped(f, slot)
    modifies s, s.buf
    ensures s.Valid() && s.Emitted(ok, EncodeSlot(f, slot))
    decreases slot, 4
  {
    EmitsNothing(s.Snap(), s.buf == null, s.max);
    match slot {
      case Single(v) =>
        var implicitHas := true;
        if f.htype.Optional? {
          var zero := CheckProto3Default(f, slot, 0);
          implicitHas := !zero;
        }
        if implicitHas { ok := EncodeWithTag(s, f, v); } else { ok := true; }
      case Opt(has, w) =>
        if has { ok := EncodeWithTag(s, f, w); } else { ok := true; }
      case Rep(items) =>
        ok := EncodeRepeated(s, f, items);
      case Member(m) =>
        if m.Some? { ok := EncodeWithTag(s, f, m.value); } else { ok := true; }
    }
  }

  /** pb_encode */
  method EncodeMessage(s: OStream, fs: seq<Field>, slots: seq<Slot>) returns (ok: bool)
    requires s.Valid() && WellFormed(fs) && MessageShaped(fs, slots)
    modifies s, s.buf
    ensures s.Valid() && s.Emitted(ok, Encode(fs, slots))
    decreases slots, 6, 0
  {
    hide After, Emits, EncodeSlot, SlotShaped, FieldOk;
    ghost var k, sizing, head, whole := s.Snap(), s.buf == null, [], Encode(fs, slots);
    EmitsNothing(k, sizing, s.max);
    CatAssoc(whole, None, None);
    var iter := new FieldIter(fs);
    if fs == [] { return true; }
    while true
      invariant iter.Valid() && iter.start == fs && iter.pos < |fs| && fresh(iter)
      invariant s.Valid() && Emits(k, s.Snap(), sizing, s.max, true, Some(head))
      invariant whole == Cat(Some(head), EncodeFrom(fs, slots, iter.pos))
      decreases |fs| - iter.pos
    {
      ghost var k1, e := s.Snap(), EncodeSlot(fs[iter.pos], slots[iter.pos]);
      ok := EncodeField(s, fs[iter.pos], slots[iter.pos]);
      EmitsThen(k, k1, s.Snap(), sizing, s.max, head, ok, e, Cat(Some(head), e));
      ghost var tail := EncodeFrom(fs, slots, iter.pos + 1);
      CatAssoc(Some(head), e, tail);
      if !ok { EmitsFails(k, s.Snap(), sizing, s.max, Cat(Some(head), e), tail); return; }
      head := head + e.value;
      var more := iter.Next();
      if !more { CatAssoc(Some(head), None, None); return true; }
    }
  }

  /** pb_encode_nullterminated */
  method EncodeNullTerminated(s: OStream, fs: seq<Field>, slots: seq<Slot>) returns (ok: bool)
    requires s.Valid() && WellFormed(fs) && MessageShaped(fs, slots)
    modifies s, s.buf
    ensures s.Valid() && s.Emitted(ok, Cat(Encode(fs, slots), Some([0])))
  {
    ok := EncodeMessage(s, fs, slots);
    if !ok { return; }
    ghost var k1 := s.Snap();
    ok := s.Write([0]);
    EmitsThen(old(s.Snap()), k1, s.Snap(), s.buf == null, s.max, Encode(fs, slots).value, ok, Some([0]),
              Cat(Encode(fs, slots), Some([0])));
  }

  /** pb_get_encoded_size is exact: it fails only when encoding must fail, and reports the
      room a memory stream needs. */
  method GetEncodedSize(fs: seq<Field>, slots: seq<Slot>) returns (ok: bool, size: nat)
    requires WellFormed(fs) && MessageShaped(fs, slots)
    ensures ok == Encode(fs, slots).Some?
    ensures ok ==> size == |Encode(fs, slots).value|
    decreases slots, 6, 1
  {
    var s := new OStream.Sizing();
    ok := EncodeMessage(s, fs, slots);
    size := s.written;
  }

  /** Sizing against writing: with the reported size as room the bytes fit, with less they
      do not, and writing appends exactly that many. */
  method EncodeIntoBuffer(fs: seq<Field>, slots: seq<Slot>, buf: array<byte>, room: nat)
    returns (sized: bool, size: nat, ok: bool, written: nat)
    requires WellFormed(fs) && MessageShaped(fs, slots) && room <= buf.Length
    modifies buf
    ensures ok == (sized && size <= room)
    ensures ok ==> Encode(fs, slots).Some? && written == size && size <= buf.Length
                   && buf[..] == Encode(fs, slots).value + old(buf[..])[size..]
  {
    sized, size := GetEncodedSize(fs, slots);
    var s := new OStream.FromBuffer(buf, room);
    ok := EncodeMessage(s, fs, slots);
    written := s.written;
  }
}
