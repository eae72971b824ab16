/** Promises of the format to programs of different ages and to other writers: arrays in either form, fields in
    any order, repeated and split fields, unknown fields, and tables with fewer or more entries. */
module PbVersions {
  import opened Bits
  import opened Common
  import opened PbTypes
  import opened PbWire
  import opened PbFormat
  import opened PbParse
  import opened PbMerge
  import opened PbRoundTrip
  import opened PbSpelling
  import opened PbRecords
  import opened PbReading

  // --------------------------------------------------------------------- arrays

  /** What is written for a number is stored as that number. */
  lemma StoresOwn(f: Field, v: Value)
    requires FieldOk(f) && Shaped(f, v) && f.ltype.Packable() && Fits(f, v)
    ensures Shaped(f, DefaultValue(f)) && PayloadOk(PayloadOf(f, v)) && Own(f, PayloadOf(f, v))
    ensures Stored(f, PayloadOf(f, v), DefaultValue(f)) == Some(v)
  {
    DefaultShaped(f);
    if f.ltype.Integer() {
      IntPayload(f, v);
      OwnMeaning(f, v);
      hide IntMeaning, InRange, PayloadOf;
    } else {
      FixedPayload(f, v);
      LittleOwn(v.n, if f.ltype.Fixed32? then 4 else 8);
      hide LittleEndian, Little;
    }
  }

  lemma LittleOwn(n: nat, k: nat)
    requires (k == 4 && n < U32) || (k == 8 && n < U64)
    ensures LittleEndian(Little(n, k)) == n
  {
    Powers();
    hide Pow2;
    LittleIsFixed(n, k);
    FixedRoundTrip(n, k);
  }

  lemma OwnMeaning(f: Field, v: Value)
    requires Shaped(f, v) && f.ltype.Integer() && WidthOk(f.dataSize)
    ensures var w := PayloadOf(f, v);
            w.Word? && w.n < U64 && IntMeaning(f, w.n) == v.n && InRange(f, v.n)
  {
    if f.ltype.Varint? && f.dataSize != 8 {
      if v.n < 0 { ModUnique(v.n + U64, U32, 0xffff_ffff, U32 + v.n); } else { ModUnique(v.n, U32, 0, v.n); }
    } else if f.ltype.SVarint? {
      if v.n < 0 { ModUnique(-2 * v.n - 1, 2, -v.n - 1, 1); } else { ModUnique(2 * v.n, 2, v.n, 0); }
    }
  }

  /** An unpacked entry of an array that could be packed is appended. */
  lemma UnpackedAppends(f: Field, wt: nat, v: Value, items: seq<Value>, t: seq<byte>)
    requires FieldOk(f) && f.htype.Repeated? && f.ltype.Packable() && SlotShaped(f, Rep(items)) && Shaped(f, v)
    requires wt != WT_STRING && |items| < f.arraySize && EncodeValue(f, v).Some?
    ensures DecodeSlot(f, wt, EncodeValue(f, v).value + t, Rep(items)) == Ok(Rep(items + [v]), t)
  {
    if f.ltype.Integer() { IntRoundTrip(f, v, t); } else { FixedValueRoundTrip(f, v, t); }
    hide EncodeValue, DecodeValue, DefaultValue;
  }

  function Payloads(f: Field, items: seq<Value>): (ps: seq<Payload>)
    requires forall j :: 0 <= j < |items| ==> Shaped(f, items[j])
    ensures |ps| == |items|
  {
    seq(|items|, k requires 0 <= k < |items| => PayloadOf(f, items[k]))
  }

  lemma {:induction false} AppendedAll(f: Field, items: seq<Value>, k: nat, cur: seq<Value>)
    requires FieldOk(f) && f.htype.Repeated? && f.ltype.Packable() && SlotShaped(f, Rep(cur)) && k <= |items|
    requires forall j :: 0 <= j < |items| ==> Shaped(f, items[j]) && Fits(f, items[j])
    requires |cur| + |items| - k <= f.arraySize
    ensures AllOwn(f, Payloads(f, items)) && Appended(f, Payloads(f, items)[k..], cur) == Some(cur + items[k..])
    decreases |items| - k
  {
    hide Stored, PayloadOf, Fits, PayloadOk, Shaped, FieldOk, DefaultValue;
    var ps := Payloads(f, items);
    forall j | 0 <= j < |items| ensures Own(f, ps[j]) && PayloadOk(ps[j]) { StoresOwn(f, items[j]); }
    if k < |items| {
      StoresOwn(f, items[k]);
      assert ps[k..][0] == ps[k] && ps[k..][1..] == ps[k + 1..];
      AppendedAll(f, items, k + 1, cur + [items[k]]);
      assert cur + [items[k]] + items[k + 1..] == cur + items[k..];
    } else {
      assert cur + items[k..] == cur;
    }
  }

  lemma {:induction false} PackedChains(f: Field, items: seq<Value>, k: nat)
    requires k <= |items| && forall j :: 0 <= j < |items| ==> Shaped(f, items[j])
    ensures Packed(f, items, k) == Chained(Payloads(f, items)[k..])
    decreases |items| - k
  {
    if k < |items| {
      PackedChains(f, items, k + 1);
      assert Payloads(f, items)[k..][1..] == Payloads(f, items)[k + 1..];
    }
  }

  /** Both forms of an array, item by item as older writers put it and packed, decode to the same: the items
      after those that are there. */
  lemma ArrayForms(fs: seq<Field>, i: nat, items: seq<Value>, t: seq<byte>, slots: seq<Slot>, seen: set<nat>)
    requires WellFormed(fs) && MessageShaped(fs, slots) && i < |fs| && fs[i].htype.Repeated? && fs[i].ltype.Packable()
    requires slots[i].Rep? && |slots[i].items| + |items| <= fs[i].arraySize
    requires forall j :: 0 <= j < |items| ==> Shaped(fs[i], items[j])
    requires EncodeItems(fs[i], items, true, 0).Some? && |EncodeItems(fs[i], items, true, 0).value| < U32
    requires EncodeItems(fs[i], items, false, 0).Some? && |EncodeItems(fs[i], items, false, 0).value| < U32
    ensures var single := EncodeItems(fs[i], items, true, 0).value;
            var packed := EncTag(WT_STRING, fs[i].tag) + EncString(EncodeItems(fs[i], items, false, 0).value);
            var all := slots[i := Rep(slots[i].items + items)];
            && MessageShaped(fs, all)
            && DecodeFields(fs, single + t, slots, seen) == DecodeFields(fs, t, all, seen)
            && DecodeFields(fs, packed + t, slots, seen) == DecodeFields(fs, t, all, seen)
  {
    var f, ps := fs[i], Payloads(fs[i], items);
    assert FieldOk(f) && SlotShaped(f, slots[i]);
    ArrayWritten(f, items);
    AppendedAll(f, items, 0, slots[i].items) by { ItemsFit(f, items); }
    assert ps[0..] == ps && items[0..] == items;
    SetPlain(fs, slots, i, Rep(slots[i].items + items)) by { assert forall v :: v in items ==> Shaped(f, v); }
    PackedOrNot(fs, i, ps, t, slots, seen);
    hide Appended, Singles, Written, Chained, EncodeItems, EncTag, EncString, FieldOk, SlotShaped, MessageShaped;
  }

  lemma ItemsFit(f: Field, items: seq<Value>)
    requires FieldOk(f) && f.ltype.Packable() && forall j :: 0 <= j < |items| ==> Shaped(f, items[j])
    requires EncodeItems(f, items, false, 0).Some?
    ensures forall j :: 0 <= j < |items| ==> Fits(f, items[j])
  {
    PackedWrites(f, items, 0);
  }

  /** The two forms of an array as records. */
  lemma ArrayWritten(f: Field, items: seq<Value>)
    requires FieldOk(f) && f.ltype.Packable() && forall j :: 0 <= j < |items| ==> Shaped(f, items[j])
    requires EncodeItems(f, items, true, 0).Some? && |EncodeItems(f, items, true, 0).value| < U32
    requires EncodeItems(f, items, false, 0).Some? && |EncodeItems(f, items, false, 0).value| < U32
    ensures var ps := Payloads(f, items);
            && EncodeItems(f, items, true, 0).value == Written(Singles(f.tag, ps))
            && EncodeItems(f, items, false, 0).value == Chained(ps)
            && EncTag(WT_STRING, f.tag) + EncString(Chained(ps)) == RecordBytes(Record(f.tag, Text(Chained(ps))))
  {
    var ps := Payloads(f, items);
    assert ps[0..] == ps;
    assert ItemRecords(f, items)[0..] == Singles(f.tag, ps);
    PackedWrites(f, items, 0);
    ItemsWrite(f, items, 0);
    PackedChains(f, items, 0);
    EncTagSpells(WT_STRING, f.tag);
    hide EncodeItems, Packed, PayloadOf, Chained, Singles, Payloads, Written, EncVarint, EncTag, EncString;
    StringBytes(Chained(ps));
  }

  // ----------------------------------------------------- fields that come again

  /** What a record of a known field does to the slots. */
  lemma KnownReads(fs: seq<Field>, i: nat, p: Payload, t: seq<byte>, slots: seq<Slot>, seen: set<nat>)
    requires WellFormed(fs) && MessageShaped(fs, slots) && i < |fs| && Own(fs[i], p) && PayloadOk(p)
    ensures FieldOk(fs[i]) && SlotShaped(fs[i], slots[i])
    ensures var s, bs := SlotStored(fs[i], p, slots[i]), RecordBytes(Record(fs[i].tag, p)) + t;
            DecodeFields(fs, bs, slots, seen) ==
              if s.None? then Failed
              else DecodeFields(fs, t, SetSlot(fs, slots, i, s.value), if MustSee(fs, i) then seen + {i} else seen)
  {
    assert FieldOk(fs[i]) && SlotShaped(fs[i], slots[i]);
    FindUnique(fs, i);
    RecordReads(fs, Record(fs[i].tag, p), t, slots, seen);
    hide SlotStored, SetSlot, DecodeFields, RecordBytes, MustSee;
  }

  /** A singular number, string or byte array that comes again: the last one counts. */
  lemma LastWins(fs: seq<Field>, i: nat, p: Payload, q: Payload, t: seq<byte>, slots: seq<Slot>, seen: set<nat>)
    requires WellFormed(fs) && MessageShaped(fs, slots) && i < |fs| && Own(fs[i], p) && Own(fs[i], q)
    requires PayloadOk(p) && PayloadOk(q) && !fs[i].ltype.Submessage?
    requires fs[i].htype.Required? || fs[i].htype.Optional?
    requires FieldOk(fs[i]) && SlotShaped(fs[i], slots[i]) && SlotStored(fs[i], p, slots[i]).Some?
    ensures var r, x := RecordBytes(Record(fs[i].tag, p)), RecordBytes(Record(fs[i].tag, q));
            DecodeFields(fs, r + (x + t), slots, seen) == DecodeFields(fs, x + t, slots, seen)
  {
    var x := RecordBytes(Record(fs[i].tag, q));
    var s := SlotStored(fs[i], p, slots[i]).value;
    var next, seen' := SetSlot(fs, slots, i, s), if MustSee(fs, i) then seen + {i} else seen;
    KnownReads(fs, i, p, x + t, slots, seen);
    KnownReads(fs, i, q, t, slots, seen);
    KnownReads(fs, i, q, t, next, seen');
    StoredAnew(fs[i], q, slots[i], s);
    SetPlain(fs, slots, i, s);
    var z := SlotStored(fs[i], q, s);
    hide SlotStored, SetSlot, DecodeFields, RecordBytes, MustSee, FieldOk, SlotShaped;
    if z.Some? {
      SetPlain(fs, slots, i, z.value);
      SetPlain(fs, next, i, z.value);
      assert next[i := z.value] == slots[i := z.value];
    }
    assert (if MustSee(fs, i) then seen' + {i} else seen') == seen';
  }

  /** Except for messages the old contents do not matter. */
  lemma StoredAnew(f: Field, p: Payload, s: Slot, s': Slot)
    requires FieldOk(f) && SlotShaped(f, s) && SlotShaped(f, s') && Own(f, p) && PayloadOk(p)
    requires !f.ltype.Submessage? && (f.htype.Required? || f.htype.Optional?)
    ensures SlotStored(f, p, s) == SlotStored(f, p, s')
  {
    hide IntMeaning, InRange, LittleEndian, BlobFits, Zeros;
  }

  /** A member of a oneof replaces whichever member was there. */
  lemma LastMemberWins(
    fs: seq<Field>, i: nat, j: nat, p: Payload, q: Payload, t: seq<byte>, slots: seq<Slot>, seen: set<nat>)
    requires WellFormed(fs) && MessageShaped(fs, slots) && i < |fs| && j < |fs| && SameUnion(fs, i, j)
    requires Own(fs[i], p) && Own(fs[j], q) && PayloadOk(p) && PayloadOk(q)
    requires FieldOk(fs[i]) && SlotShaped(fs[i], slots[i]) && SlotStored(fs[i], p, slots[i]).Some?
    ensures var r, x := RecordBytes(Record(fs[i].tag, p)), RecordBytes(Record(fs[j].tag, q));
            DecodeFields(fs, r + (x + t), slots, seen) == DecodeFields(fs, x + t, slots, seen)
  {
    var x := RecordBytes(Record(fs[j].tag, q));
    var s := SlotStored(fs[i], p, slots[i]).value;
    var next := SetSlot(fs, slots, i, s);
    KnownReads(fs, i, p, x + t, slots, seen);
    KnownReads(fs, j, q, t, slots, seen);
    KnownReads(fs, j, q, t, next, seen);
    MemberStored(fs[j], q, slots[j], next[j]);
    var z := SlotStored(fs[j], q, slots[j]);
    if z.Some? { SetMembers(fs, slots, i, j, s, z.value); }
    hide SlotStored, SetSlot, DecodeFields, RecordBytes, FieldOk, SlotShaped, SameUnion;
    BothOneof(fs, i, j);
  }

  lemma BothOneof(fs: seq<Field>, i: nat, j: nat)
    requires i < |fs| && j < |fs| && SameUnion(fs, i, j)
    ensures fs[i].htype.Oneof? && fs[j].htype.Oneof?
  {
  }

  lemma SetMembers(fs: seq<Field>, slots: seq<Slot>, i: nat, j: nat, s: Slot, z: Slot)
    requires MessageShaped(fs, slots) && i < |fs| && j < |fs| && SameUnion(fs, i, j)
    requires SlotShaped(fs[i], s) && SlotShaped(fs[j], z)
    ensures SetSlot(fs, SetSlot(fs, slots, i, s), j, z) == SetSlot(fs, slots, j, z)
  {
    var a, b := SetSlot(fs, SetSlot(fs, slots, i, s), j, z), SetSlot(fs, slots, j, z);
    hide MessageShaped, SlotShaped;
    forall k | 0 <= k < |fs| ensures a[k] == b[k] {
    }
  }

  lemma MemberStored(f: Field, p: Payload, s: Slot, s': Slot)
    requires FieldOk(f) && SlotShaped(f, s) && SlotShaped(f, s') && Own(f, p) && PayloadOk(p) && f.htype.Oneof?
    ensures SlotStored(f, p, s) == SlotStored(f, p, s')
  {
    hide Stored;
  }

  /** What a singular message field holds. */
  function Nested(f: Field, s: Slot): (slots: seq<Slot>)
    requires FieldOk(f) && SlotShaped(f, s) && f.ltype.Submessage? && (f.htype.Required? || f.htype.Optional?)
    ensures WellFormed(f.ptr.fields) && MessageShaped(f.ptr.fields, slots)
  {
    match s
    case Single(v) => assert Shaped(f, v); v.slots
    case Opt(_, w) => assert Shaped(f, w); w.slots
  }

  /** A singular message that comes in two parts is their merge: it reads as one with both parts in it. */
  lemma PartsMerge(fs: seq<Field>, i: nat, a: seq<byte>, b: seq<byte>, t: seq<byte>, slots: seq<Slot>, seen: set<nat>)
    requires WellFormed(fs) && MessageShaped(fs, slots) && i < |fs| && fs[i].ltype.Submessage? && |a + b| < U32
    requires fs[i].htype.Required? || fs[i].htype.Optional?
    requires FieldOk(fs[i]) && SlotShaped(fs[i], slots[i])
    requires var sub, was := fs[i].ptr.fields, Nested(fs[i], slots[i]);
             && WholeFields(sub, a, was) && DecodeMessage(sub, a, was).Ok?
             && DecodeMessage(sub, b, DecodeMessage(sub, a, was).value).Ok?
    ensures var tag := fs[i].tag;
            var parts := RecordBytes(Record(tag, Text(a))) + (RecordBytes(Record(tag, Text(b))) + t);
            DecodeFields(fs, parts, slots, seen)
              == DecodeFields(fs, RecordBytes(Record(tag, Text(a + b))) + t, slots, seen)
  {
    var f, x := fs[i], RecordBytes(Record(fs[i].tag, Text(b)));
    MergedStored(f, a, b, slots[i]);
    var s := SlotStored(f, Text(a), slots[i]).value;
    var z := SlotStored(f, Text(b), s).value;
    var next, seen' := SetSlot(fs, slots, i, s), if MustSee(fs, i) then seen + {i} else seen;
    KnownReads(fs, i, Text(a), x + t, slots, seen);
    KnownReads(fs, i, Text(b), t, next, seen');
    KnownReads(fs, i, Text(a + b), t, slots, seen);
    hide SlotStored, SetSlot, DecodeFields, RecordBytes, MustSee, FieldOk, SlotShaped, DecodeMessage, WholeFields;
    SetPlain(fs, slots, i, s);
    SetPlain(fs, slots, i, z);
    SetPlain(fs, next, i, z);
    assert next[i := z] == slots[i := z];
    assert (if MustSee(fs, i) then seen' + {i} else seen') == seen';
  }

  lemma MergedStored(f: Field, a: seq<byte>, b: seq<byte>, s: Slot)
    requires FieldOk(f) && SlotShaped(f, s) && f.ltype.Submessage? && |a + b| < U32
    requires f.htype.Required? || f.htype.Optional?
    requires var sub, was := f.ptr.fields, Nested(f, s);
             && WholeFields(sub, a, was) && DecodeMessage(sub, a, was).Ok?
             && DecodeMessage(sub, b, DecodeMessage(sub, a, was).value).Ok?
    ensures var one := SlotStored(f, Text(a), s);
            && one.Some? && SlotStored(f, Text(b), one.value).Some?
            && SlotStored(f, Text(a + b), s) == SlotStored(f, Text(b), one.value)
  {
    MergeByConcatenation(f.ptr.fields, a, b, Nested(f, s));
    hide DecodeMessage, WholeFields, MessageShaped, WellFormed;
  }

  // -------------------------------------------------------------- order of fields

  /** Neighbouring records of different fields, not members of one oneof, can change places. */
  lemma AnyOrder(fs: seq<Field>, i: nat, j: nat, p: Payload, q: Payload, t: seq<byte>, slots: seq<Slot>, seen: set<nat>)
    requires WellFormed(fs) && MessageShaped(fs, slots) && i < |fs| && j < |fs| && i != j && !SameUnion(fs, i, j)
    requires Own(fs[i], p) && Own(fs[j], q) && PayloadOk(p) && PayloadOk(q)
    ensures var r, x := RecordBytes(Record(fs[i].tag, p)), RecordBytes(Record(fs[j].tag, q));
            DecodeFields(fs, r + (x + t), slots, seen) == DecodeFields(fs, x + (r + t), slots, seen)
  {
    var r, x := RecordBytes(Record(fs[i].tag, p)), RecordBytes(Record(fs[j].tag, q));
    KnownReads(fs, i, p, x + t, slots, seen);
    KnownReads(fs, j, q, r + t, slots, seen);
    var s, z := SlotStored(fs[i], p, slots[i]), SlotStored(fs[j], q, slots[j]);
    var si, sj := if MustSee(fs, i) then seen + {i} else seen, if MustSee(fs, j) then seen + {j} else seen;
    if s.Some? { KnownReads(fs, j, q, t, SetSlot(fs, slots, i, s.value), si); }
    if z.Some? { KnownReads(fs, i, p, t, SetSlot(fs, slots, j, z.value), sj); }
    hide SlotStored, DecodeFields, RecordBytes, MustSee;
    if s.Some? && z.Some? {
      SetBoth(fs, slots, i, j, s.value, z.value);
      assert (if MustSee(fs, j) then si + {j} else si) == (if MustSee(fs, i) then sj + {i} else sj);
    }
  }

  lemma SetBoth(fs: seq<Field>, slots: seq<Slot>, i: nat, j: nat, s: Slot, z: Slot)
    requires MessageShaped(fs, slots) && i < |fs| && j < |fs| && i != j && !SameUnion(fs, i, j)
    requires SlotShaped(fs[i], s) && SlotShaped(fs[j], z)
    ensures SetSlot(fs, SetSlot(fs, slots, i, s), j, z) == SetSlot(fs, SetSlot(fs, slots, j, z), i, s)
  {
    var a, b := SetSlot(fs, SetSlot(fs, slots, i, s), j, z), SetSlot(fs, SetSlot(fs, slots, j, z), i, s);
    hide MessageShaped, SlotShaped;
    forall k | 0 <= k < |fs| ensures a[k] == b[k] {
    }
  }

  // -------------------------------------------------- unknown and damaged fields

  /** Every value of every type can be stepped over by its wire type alone. */
  lemma SkipsValue(f: Field, v: Value, t: seq<byte>)
    requires Shaped(f, v) && EncodeValue(f, v).Some? && |EncodeValue(f, v).value| < U32
    ensures SkipField(WireType(f.ltype), EncodeValue(f, v).value + t) == Ok((), t)
  {
    hide EncVarint, EncFixed, EncString, ToU64, ZigZag, CString, EncodeFrom, SkipVarint, DecString;
    match f.ltype
    case Varint => SkipsVarint(ToU64(v.n), t);
    case UVarint => SkipsVarint(v.n, t);
    case SVarint => SkipsVarint(ZigZag(v.n), t);
    case Fixed32 => BytesFirst(EncFixed(v.n, 4), t);
    case Fixed64 => BytesFirst(EncFixed(v.n, 8), t);
    case Bytes | FixedLengthBytes => StringRoundTrip(v.b, t);
    case String => StringRoundTrip(CString(v.b, f.dataSize), t);
    case Submessage => StringRoundTrip(EncodeFrom(f.ptr.fields, v.slots, 0).value, t);
  }

  /** So a value of a field that the table does not list is an unknown field, whatever its type. */
  lemma TaggedIsUnknown(fs: seq<Field>, f: Field, v: Value)
    requires Shaped(f, v) && EncodeTagged(f, v).Some? && |EncodeTagged(f, v).value| < U32
    requires 0 < f.tag < MAX_TAG && Find(fs, f.tag).None?
    ensures UnknownField(fs, EncodeTagged(f, v).value) && DecTag(EncodeTagged(f, v).value).tag == f.tag
  {
    var e := EncodeValue(f, v).value;
    TagRoundTrip(WireType(f.ltype), f.tag, e);
    SkipsValue(f, v, []);
    assert e + [] == e;
  }

  /** A field of wire type 3, 4, 6 or 7 that the table does not list ends decoding with an error. */
  lemma GroupsRefused(fs: seq<Field>, tag: nat, wt: nat, t: seq<byte>, slots: seq<Slot>, seen: set<nat>)
    requires WellFormed(fs) && MessageShaped(fs, slots) && 0 < tag < MAX_TAG && Find(fs, tag).None?
    requires wt == 3 || wt == 4 || wt == 6 || wt == 7
    ensures DecodeFields(fs, EncVarint(8 * tag + wt) + t, slots, seen).Failed?
  {
    EncTagSpells(wt, tag);
    TagRoundTrip(wt, tag, t);
  }

  /** The wire type of a known field is not looked at, except for the packed form. */
  lemma WireTypeIgnored(f: Field, wt: nat, wt': nat, bs: seq<byte>, s: Slot)
    requires FieldOk(f) && SlotShaped(f, s)
    requires f.htype.Repeated? && f.ltype.Packable() ==> wt != WT_STRING && wt' != WT_STRING
    ensures DecodeSlot(f, wt, bs, s) == DecodeSlot(f, wt', bs, s)
  {
    hide DecodeValue;
  }

  /** Cut off anywhere inside a field, known or not, the field is an error. */
  lemma Truncated(fs: seq<Field>, bs: seq<byte>, k: nat, slots: seq<Slot>, seen: set<nat>)
    requires WellFormed(fs) && MessageShaped(fs, slots) && DecTag(bs).Tag?
    requires var Tag(tag, wt, rest) := DecTag(bs);
             DecodeField(fs, tag, wt, rest, slots).Ok? && DecodeField(fs, tag, wt, rest, slots).rest == []
    requires 0 < k < |bs|
    ensures DecodeFields(fs, bs[..k], slots, seen).Failed?
  {
    var cut, t := bs[..k], bs[k..];
    assert bs == cut + t && t != [];
    if !DecTag(cut).TagFail? {
      DecTagAppend(cut, t);
      var Tag(tag, wt, rest) := DecTag(cut);
      if DecodeField(fs, tag, wt, rest, slots).Ok? {
        DecodeFieldAppend(fs, tag, wt, rest, t, slots);
        assert false;
      }
    }
  }

  // ------------------------------------------------------- tables of different ages

  /** Every entry of the smaller table is one of the larger, in the same order. */
  predicate Subtable(small: seq<Field>, large: seq<Field>, pos: seq<nat>) {
    && |pos| == |small|
    && (forall k :: 0 <= k < |pos| ==> pos[k] < |large| && small[k] == large[pos[k]])
    && forall j, k :: 0 <= j < k < |pos| ==> pos[j] < pos[k]
  }

  /** The slots of the entries that the smaller table has. */
  function Picked(slots: seq<Slot>, pos: seq<nat>): (r: seq<Slot>)
    requires forall k :: 0 <= k < |pos| ==> pos[k] < |slots|
    ensures |r| == |pos|
  {
    seq(|pos|, k requires 0 <= k < |pos| => slots[pos[k]])
  }

  /** c entries of the smaller table come before entry i of the larger. */
  predicate At(pos: seq<nat>, c: nat, i: nat) {
    c <= |pos| && (c > 0 ==> pos[c - 1] < i) && (c < |pos| ==> i <= pos[c])
  }

  lemma NotAt(pos: seq<nat>, c: nat, i: nat)
    requires (forall j, k :: 0 <= j < k < |pos| ==> pos[j] < pos[k]) && At(pos, c, i)
    requires c == |pos| || pos[c] != i
    ensures i !in pos
  {
  }

  lemma NotListed(small: seq<Field>, large: seq<Field>, pos: seq<nat>, i: nat)
    requires Subtable(small, large, pos) && WellFormed(large) && i < |large| && i !in pos
    ensures Find(small, large[i].tag).None?
  {
    hide FieldOk;
  }

  /** Records of fields that the table does not list leave no trace. */
  lemma {:induction false} UnknownRead(fs: seq<Field>, rs: seq<Record>, t: seq<byte>, slots: seq<Slot>, seen: set<nat>)
    requires WellFormed(fs) && MessageShaped(fs, slots)
    requires forall r :: r in rs ==> RecordOk(r) && Find(fs, r.tag).None?
    ensures DecodeFields(fs, Written(rs) + t, slots, seen) == DecodeFields(fs, t, slots, seen)
    decreases |rs|
  {
    hide DecodeFields, RecordBytes, RecordOk;
    if rs == [] {
      assert [] + t == t;
    } else {
      assert rs[0] in rs;
      assert Written(rs) + t == RecordBytes(rs[0]) + (Written(rs[1..]) + t);
      RecordReads(fs, rs[0], Written(rs[1..]) + t, slots, seen);
      UnknownRead(fs, rs[1..], t, slots, seen);
    }
  }

  lemma SlotTags(f: Field, s: Slot)
    requires SlotShaped(f, s)
    ensures forall r :: r in SlotRecords(f, s) ==> r.tag == f.tag
  {
    hide PayloadOf, Packed, Silent;
  }

  /** A field that the smaller table does not have leaves no trace. */
  lemma UnlistedRead(
    small: seq<Field>, large: seq<Field>, pos: seq<nat>, slots: seq<Slot>, i: nat, t: seq<byte>, cur: seq<Slot>,
    seen: set<nat>)
    requires WellFormed(small) && WellFormed(large) && Subtable(small, large, pos) && i < |large| && i !in pos
    requires MessageShaped(large, slots) && AllTerminated(large, slots) && MessageShaped(small, cur)
    requires EncodeSlot(large[i], slots[i]).Some? && |EncodeSlot(large[i], slots[i]).value| < U32
    ensures DecodeFields(small, EncodeSlot(large[i], slots[i]).value + t, cur, seen)
         == DecodeFields(small, t, cur, seen)
  {
    NotListed(small, large, pos, i);
    SlotWrites(large[i], slots[i]);
    SlotTags(large[i], slots[i]);
    hide EncodeSlot, SlotRecords, DecodeFields, RecordOk;
    UnknownRead(small, SlotRecords(large[i], slots[i]), t, cur, seen);
  }

  /** A field that the table has fills its slot. */
  lemma ListedRead(fs: seq<Field>, slots: seq<Slot>, i: nat, t: seq<byte>, seen: set<nat>) returns (seen': set<nat>)
    requires WellFormed(fs) && MessageShaped(fs, slots) && i < |fs| && SlotTerminated(fs[i], slots[i])
    requires EncodeSlot(fs[i], slots[i]).Some? && |EncodeSlot(fs[i], slots[i]).value| < U32
    ensures DecodeFields(fs, EncodeSlot(fs[i], slots[i]).value + t, Mix(fs, slots, i), seen)
         == DecodeFields(fs, t, Mix(fs, slots, i + 1), seen')
    ensures seen <= seen' && (MustSee(fs, i) ==> i in seen')
  {
    SlotRoundTrip(fs, slots, i, slots[i], seen);
    var first := EncodeSlot(fs[i], slots[i]).value;
    seen' := DecodeFields(fs, first, Mix(fs, slots, i), seen).seen;
    hide EncodeSlot, DecodeFields, Mix, MustSee;
    FieldsConcat(fs, first, t, Mix(fs, slots, i), seen);
  }

  /** From the c-th entry on the bytes complete the message. */
  ghost predicate Completes(fs: seq<Field>, m: seq<Slot>, c: nat, bs: seq<byte>, seen: set<nat>)
    requires WellFormed(fs) && MessageShaped(fs, m) && c <= |fs|
  {
    var d := DecodeFields(fs, bs, Mix(fs, m, c), seen);
    && d.Done? && d.slots == AbsMessage(fs, m) && d.rest == [] && !d.stopped
    && seen <= d.seen && forall j :: c <= j < |fs| && MustSee(fs, j) ==> j in d.seen
  }

  ghost predicate AlwaysCompletes(fs: seq<Field>, m: seq<Slot>, c: nat, bs: seq<byte>)
    requires WellFormed(fs) && MessageShaped(fs, m) && c <= |fs|
  {
    forall seen :: Completes(fs, m, c, bs, seen)
  }

  /** One more field in front, its slot filled and, if it is required, seen. */
  lemma CompletesListed(
    fs: seq<Field>, m: seq<Slot>, c: nat, bs: seq<byte>, rest: seq<byte>, seen: set<nat>, seen': set<nat>)
    requires WellFormed(fs) && MessageShaped(fs, m) && c < |fs| && Completes(fs, m, c + 1, rest, seen')
    requires seen <= seen' && (MustSee(fs, c) ==> c in seen')
    requires DecodeFields(fs, bs, Mix(fs, m, c), seen) == DecodeFields(fs, rest, Mix(fs, m, c + 1), seen')
    ensures Completes(fs, m, c, bs, seen)
  {
    hide DecodeFields, Mix, MustSee, FieldOk, SlotShaped, AbsMessage;
  }

  lemma AddListed(fs: seq<Field>, m: seq<Slot>, c: nat, rest: seq<byte>)
    requires WellFormed(fs) && MessageShaped(fs, m) && c < |fs| && SlotTerminated(fs[c], m[c])
    requires EncodeSlot(fs[c], m[c]).Some? && |EncodeSlot(fs[c], m[c]).value| < U32
    requires AlwaysCompletes(fs, m, c + 1, rest)
    ensures AlwaysCompletes(fs, m, c, EncodeSlot(fs[c], m[c]).value + rest)
  {
    hide DecodeFields, Mix, EncodeSlot, MustSee, FieldOk, SlotShaped, SlotTerminated, Completes;
    var bs := EncodeSlot(fs[c], m[c]).value + rest;
    forall seen ensures Completes(fs, m, c, bs, seen) {
      var seen' := ListedRead(fs, m, c, rest, seen);
      CompletesListed(fs, m, c, bs, rest, seen, seen');
    }
  }

  lemma AddUnlisted(
    small: seq<Field>, large: seq<Field>, pos: seq<nat>, slots: seq<Slot>, m: seq<Slot>, c: nat, i: nat,
    rest: seq<byte>)
    requires WellFormed(small) && WellFormed(large) && Subtable(small, large, pos) && i < |large| && i !in pos
    requires MessageShaped(large, slots) && AllTerminated(large, slots) && MessageShaped(small, m) && c <= |small|
    requires EncodeSlot(large[i], slots[i]).Some? && |EncodeSlot(large[i], slots[i]).value| < U32
    requires AlwaysCompletes(small, m, c, rest)
    ensures AlwaysCompletes(small, m, c, EncodeSlot(large[i], slots[i]).value + rest)
  {
    hide DecodeFields, Mix, EncodeSlot, MustSee, FieldOk, SlotShaped, SlotTerminated;
    forall seen ensures Completes(small, m, c, EncodeSlot(large[i], slots[i]).value + rest, seen) {
      UnlistedRead(small, large, pos, slots, i, rest, Mix(small, m, c), seen);
      assert Completes(small, m, c, rest, seen);
    }
  }

  lemma {:induction false} OlderFrom(
    small: seq<Field>, large: seq<Field>, pos: seq<nat>, slots: seq<Slot>, c: nat, i: nat)
    requires WellFormed(small) && WellFormed(large) && Subtable(small, large, pos) && i <= |large| && At(pos, c, i)
    requires MessageShaped(large, slots) && AllTerminated(large, slots) && MessageShaped(small, Picked(slots, pos))
    requires EncodeFrom(large, slots, i).Some? && |EncodeFrom(large, slots, i).value| < U32
    ensures AlwaysCompletes(small, Picked(slots, pos), c, EncodeFrom(large, slots, i).value)
    decreases |large| - i
  {
    hide AlwaysCompletes, EncodeFrom, EncodeSlot, SlotTerminated, SlotShaped;
    if i == |large| {
      OlderEnd(small, large, pos, slots, c);
    } else {
      EncodeNext(large, slots, i);
      OlderStep(small, large, pos, slots, c, i);
      var rest := EncodeFrom(large, slots, i + 1).value;
      if c < |pos| && pos[c] == i {
        OlderFrom(small, large, pos, slots, c + 1, i + 1);
        AddListed(small, Picked(slots, pos), c, rest);
      } else {
        OlderFrom(small, large, pos, slots, c, i + 1);
        AddUnlisted(small, large, pos, slots, Picked(slots, pos), c, i, rest);
      }
    }
  }

  lemma OlderEnd(small: seq<Field>, large: seq<Field>, pos: seq<nat>, slots: seq<Slot>, c: nat)
    requires WellFormed(small) && Subtable(small, large, pos) && At(pos, c, |large|)
    requires MessageShaped(large, slots) && MessageShaped(small, Picked(slots, pos))
    ensures EncodeFrom(large, slots, |large|) == Some([]) && c == |small|
    ensures AlwaysCompletes(small, Picked(slots, pos), c, [])
  {
    assert c == |small|;
    EndCompletes(small, Picked(slots, pos));
  }

  lemma EndCompletes(fs: seq<Field>, m: seq<Slot>)
    requires WellFormed(fs) && MessageShaped(fs, m)
    ensures AlwaysCompletes(fs, m, |fs|, [])
  {
    MixEnds(fs, m);
    hide DecodeFields, Mix, AbsMessage, FieldOk, SlotShaped;
    forall seen ensures Completes(fs, m, |fs|, [], seen) { NothingRead(fs, Mix(fs, m, |fs|), seen); }
  }

  /** Where the two tables stand after one more entry of the larger. */
  lemma OlderStep(small: seq<Field>, large: seq<Field>, pos: seq<nat>, slots: seq<Slot>, c: nat, i: nat)
    requires Subtable(small, large, pos) && i < |large| && At(pos, c, i)
    requires MessageShaped(large, slots) && AllTerminated(large, slots)
    ensures c < |pos| && pos[c] == i ==>
              && At(pos, c + 1, i + 1) && small[c] == large[i] && Picked(slots, pos)[c] == slots[i]
              && SlotShaped(large[i], slots[i]) && SlotTerminated(large[i], slots[i])
    ensures !(c < |pos| && pos[c] == i) ==> At(pos, c, i + 1) && i !in pos
  {
    if !(c < |pos| && pos[c] == i) { NotAt(pos, c, i); }
  }

  lemma EncodeNext(fs: seq<Field>, slots: seq<Slot>, i: nat)
    requires MessageShaped(fs, slots) && i < |fs| && EncodeFrom(fs, slots, i).Some?
    ensures EncodeSlot(fs[i], slots[i]).Some? && EncodeFrom(fs, slots, i + 1).Some?
    ensures EncodeFrom(fs, slots, i).value == EncodeSlot(fs[i], slots[i]).value + EncodeFrom(fs, slots, i + 1).value
  {
    hide EncodeSlot;
  }

  /** What a newer program writes an older one reads: the content of the fields that both know. (A table
      that drops entries between two oneofs could join their unions; hence the condition on its slots.) */
  lemma OlderReads(small: seq<Field>, large: seq<Field>, pos: seq<nat>, slots: seq<Slot>)
    requires WellFormed(small) && WellFormed(large) && Subtable(small, large, pos)
    requires MessageShaped(large, slots) && AllTerminated(large, slots) && MessageShaped(small, Picked(slots, pos))
    requires Encode(large, slots).Some? && |Encode(large, slots).value| < U32
    ensures Decode(small, Encode(large, slots).value) == Ok(AbsMessage(small, Picked(slots, pos)), [])
  {
    DefaultsShaped(small);
    MixEnds(small, Picked(slots, pos));
    OlderFrom(small, large, pos, slots, 0, 0);
    assert Completes(small, Picked(slots, pos), 0, Encode(large, slots).value, {});
  }

  lemma {:induction false} NewerFrom(
    small: seq<Field>, large: seq<Field>, pos: seq<nat>, slots: seq<Slot>, c: nat, i: nat)
    requires WellFormed(large) && Subtable(small, large, pos) && i <= |large| && At(pos, c, i)
    requires MessageShaped(large, slots) && MessageShaped(small, Picked(slots, pos))
    requires forall j :: 0 <= j < |large| && j !in pos ==> EncodeSlot(large[j], slots[j]) == Some([])
    ensures EncodeFrom(small, Picked(slots, pos), c) == EncodeFrom(large, slots, i)
    decreases |large| - i
  {
    hide EncodeSlot, SlotShaped;
    if i < |large| {
      if c < |pos| && pos[c] == i {
        NewerFrom(small, large, pos, slots, c + 1, i + 1);
      } else {
        NotAt(pos, c, i);
        NewerFrom(small, large, pos, slots, c, i + 1);
        CatAssoc(EncodeFrom(large, slots, i + 1), None, None);
      }
    }
  }

  /** What an older program writes a newer one reads: the same content, and in the fields that the older one
      did not know what an absent field holds. */
  lemma NewerReads(small: seq<Field>, large: seq<Field>, pos: seq<nat>, slots: seq<Slot>)
    requires WellFormed(large) && Subtable(small, large, pos)
    requires MessageShaped(large, slots) && AllTerminated(large, slots) && MessageShaped(small, Picked(slots, pos))
    requires forall j :: 0 <= j < |large| && j !in pos ==> EncodeSlot(large[j], slots[j]) == Some([])
    requires Encode(small, Picked(slots, pos)).Some? && |Encode(small, Picked(slots, pos)).value| < U32
    ensures Decode(large, Encode(small, Picked(slots, pos)).value) == Ok(AbsMessage(large, slots), [])
    ensures forall j :: 0 <= j < |large| && j !in pos ==> AbsMessage(large, slots)[j] == DefaultSlot(large[j])
  {
    NewerFrom(small, large, pos, slots, 0, 0);
    MessageRoundTrip(large, slots);
    forall j | 0 <= j < |large| && j !in pos ensures AbsMessage(large, slots)[j] == DefaultSlot(large[j]) {
      EmptySlotBytes(large[j], slots[j]);
    }
  }
}
