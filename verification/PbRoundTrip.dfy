/** Message round trip: pb_decode of what pb_encode wrote gives the same message, up to
    storage the message does not use. */
module PbRoundTrip {
  import opened Bits
  import opened Common
  import opened PbTypes
  import opened PbWire
  import opened PbFormat
  import opened PbParse
  import opened PbMerge

  // ------------------------------------------------------------ the abstract value

  /** The content of a value: a string is the bytes before its terminator. */
  function AbsValue(f: Field, v: Value): (r: Value)
    requires FieldOk(f) && Shaped(f, v)
    ensures Shaped(f, r)
    decreases v, 0
  {
    match f.ltype
    case String => Blob(CString(v.b, f.dataSize))
    case Submessage => Msg(AbsMessage(f.ptr.fields, v.slots))
    case _ => v
  }

  function AbsItems(f: Field, items: seq<Value>): (r: seq<Value>)
    requires FieldOk(f) && forall k :: 0 <= k < |items| ==> Shaped(f, items[k])
    ensures |r| == |items| && forall k :: 0 <= k < |r| ==> r[k] == AbsValue(f, items[k]) && Shaped(f, r[k])
    decreases items, 0
  {
    seq(|items|, k requires 0 <= k < |items| => AbsValue(f, items[k]))
  }

  /** The content of a slot: what an absent optional field holds is not content. */
  function AbsSlot(f: Field, s: Slot): (r: Slot)
    requires FieldOk(f) && SlotShaped(f, s)
    ensures SlotShaped(f, r) && Active(r) == Active(s)
    decreases s, 1
  {
    DefaultShaped(f);
    match s
    case Single(v) => Single(AbsValue(f, v))
    case Opt(has, w) => if has then Opt(true, AbsValue(f, w)) else Opt(false, DefaultValue(f))
    case Rep(items) => Rep(AbsItems(f, items))
    case Member(m) => if m.Some? then Member(Some(AbsValue(f, m.value))) else s
  }

  function AbsMessage(fs: seq<Field>, slots: seq<Slot>): (r: seq<Slot>)
    requires WellFormed(fs) && MessageShaped(fs, slots)
    ensures MessageShaped(fs, r)
    ensures forall i :: 0 <= i < |fs| ==> r[i] == AbsSlot(fs[i], slots[i])
    decreases slots, 2
  {
    seq(|slots|, i requires 0 <= i < |slots| => AbsSlot(fs[i], slots[i]))
  }

  /** Every string the encoder emits is NUL-terminated inside its buffer. */
  ghost predicate Terminated(f: Field, v: Value)
    requires Shaped(f, v)
    decreases v, 0
  {
    match f.ltype
    case String => |CString(v.b, f.dataSize)| < f.dataSize
    case Submessage => AllTerminated(f.ptr.fields, v.slots)
    case _ => true
  }

  ghost predicate SlotTerminated(f: Field, s: Slot)
    requires SlotShaped(f, s)
    decreases s, 1
  {
    match s
    case Single(v) => Terminated(f, v)
    case Opt(has, w) => has ==> Terminated(f, w)
    case Rep(items) => forall k :: 0 <= k < |items| ==> Terminated(f, items[k])
    case Member(m) => m.Some? ==> Terminated(f, m.value)
  }

  ghost predicate AllTerminated(fs: seq<Field>, slots: seq<Slot>)
    requires MessageShaped(fs, slots)
    decreases slots, 2
  {
    forall i :: 0 <= i < |fs| ==> SlotTerminated(fs[i], slots[i])
  }

  // ------------------------------------------------------------------ zero values

  /** A proto3 value the encoder leaves out is the default the decoder starts from. */
  lemma {:induction false} ZeroIsDefault(f: Field, v: Value)
    requires FieldOk(f) && f.Proto3() && Shaped(f, v) && ZeroValue(f, v)
    ensures AbsValue(f, v) == DefaultValue(f)
    decreases v, 0
  {
    if f.ltype.Submessage? { EmptyIsDefaults(f.ptr.fields, v.slots); }
  }

  lemma {:induction false} EmptyIsDefaults(fs: seq<Field>, slots: seq<Slot>)
    requires WellFormed(fs) && MessageShaped(fs, slots) && EmptyMessage(fs, slots)
    ensures AbsMessage(fs, slots) == Defaults(fs)
    decreases slots, 2
  {
    forall i | 0 <= i < |fs| ensures AbsSlot(fs[i], slots[i]) == DefaultSlot(fs[i]) {
      EmptySlotIsDefault(fs[i], slots[i]);
    }
  }

  lemma {:induction false} EmptySlotIsDefault(f: Field, s: Slot)
    requires FieldOk(f) && SlotShaped(f, s) && EmptySlot(f, s)
    ensures AbsSlot(f, s) == DefaultSlot(f)
    decreases s, 1
  {
    if s.Single? { ZeroIsDefault(f, s.v); }
  }

  // ------------------------------------------------------------------- the proof

  /** The destination when the first i fields have been decoded. */
  ghost function Mix(fs: seq<Field>, slots: seq<Slot>, i: nat): (r: seq<Slot>)
    requires WellFormed(fs) && MessageShaped(fs, slots) && i <= |fs|
    ensures MessageShaped(fs, r)
    ensures forall j :: 0 <= j < |fs| ==> r[j] == if j < i then AbsSlot(fs[j], slots[j]) else DefaultSlot(fs[j])
  {
    var r := seq(|fs|, j requires 0 <= j < |fs| => if j < i then AbsSlot(fs[j], slots[j]) else DefaultSlot(fs[j]));
    DefaultsShaped(fs);
    assert forall j :: 0 <= j < |fs| ==> SlotShaped(fs[j], Defaults(fs)[j]);
    assert forall j :: i <= j < |fs| ==> !Active(r[j]);
    r
  }

  /** Where no other union member is active, storing a slot changes that slot only. */
  lemma SetSlotAlone(fs: seq<Field>, cur: seq<Slot>, i: nat, s: Slot)
    requires MessageShaped(fs, cur) && i < |fs| && SlotShaped(fs[i], s)
    requires forall j :: 0 <= j < |fs| && j != i && SameUnion(fs, i, j) ==> !Active(cur[j])
    ensures SetSlot(fs, cur, i, s) == cur[i := s]
  {
    var r := SetSlot(fs, cur, i, s);
    forall j | 0 <= j < |fs| ensures r[j] == cur[i := s][j] {
      if j != i && SameUnion(fs, i, j) {
        assert SlotShaped(fs[j], cur[j]);
        assert cur[j] == Member(None);
      }
    }
  }

  lemma MixEnds(fs: seq<Field>, slots: seq<Slot>)
    requires WellFormed(fs) && MessageShaped(fs, slots)
    ensures Mix(fs, slots, 0) == Defaults(fs) && Mix(fs, slots, |fs|) == AbsMessage(fs, slots)
  {
  }

  /** The i-th slot of Mix can be filled without touching another. */
  lemma MixStep(fs: seq<Field>, slots: seq<Slot>, i: nat)
    requires WellFormed(fs) && MessageShaped(fs, slots) && i < |fs|
    requires Active(slots[i]) || !fs[i].htype.Oneof?
    ensures var m, s := Mix(fs, slots, i), AbsSlot(fs[i], slots[i]);
            SetSlot(fs, m, i, s) == m[i := s] == Mix(fs, slots, i + 1)
  {
    var m, s := Mix(fs, slots, i), AbsSlot(fs[i], slots[i]);
    forall j | 0 <= j < |fs| && j != i && SameUnion(fs, i, j) ensures !Active(m[j]) {
      if j < i { assert SameUnion(fs, j, i); }
    }
    SetSlotAlone(fs, m, i, s);
  }

  /** A tag and a payload that DecodeSlot takes in full are one step of the field loop. */
  lemma OneField(fs: seq<Field>, i: nat, wt: nat, payload: seq<byte>, cur: seq<Slot>, s: Slot, seen: set<nat>)
    requires WellFormed(fs) && MessageShaped(fs, cur) && i < |fs| && wt < 8
    requires DecodeSlot(fs[i], wt, payload, cur[i]) == Ok(s, [])
    ensures DecodeFields(fs, EncTag(wt, fs[i].tag) + payload, cur, seen)
         == Done(SetSlot(fs, cur, i, s), SeenWith(fs, fs[i].tag, seen), [], false)
  {
    var bs := EncTag(wt, fs[i].tag) + payload;
    assert FieldOk(fs[i]);
    TagRoundTrip(wt, fs[i].tag, payload);
    FindUnique(fs, i);
    assert DecodeField(fs, fs[i].tag, wt, payload, cur) == Ok(SetSlot(fs, cur, i, s), []);
  }

  /** One value decodes to its content, whatever follows it. */
  lemma {:induction false} ValueRoundTrip(f: Field, v: Value, t: seq<byte>)
    requires FieldOk(f) && Shaped(f, v) && Terminated(f, v)
    requires EncodeValue(f, v).Some? && |EncodeValue(f, v).value| < U32
    ensures Shaped(f, DefaultValue(f))
    ensures DecodeValue(f, EncodeValue(f, v).value + t, DefaultValue(f)) == Ok(AbsValue(f, v), t)
    decreases v, 0
  {
    DefaultShaped(f);
    hide DecodeValue, EncodeValue;
    if f.ltype.Integer() { IntRoundTrip(f, v, t); }
    else if f.ltype.Submessage? { MessageRoundTrip(f.ptr.fields, v.slots); SubmessageRoundTrip(f, v, t); }
    else if f.ltype.Fixed32? || f.ltype.Fixed64? { FixedValueRoundTrip(f, v, t); }
    else { BytesRoundTrip(f, v, t); }
  }

  /** A submessage decodes when its body does. */
  lemma SubmessageRoundTrip(f: Field, v: Value, t: seq<byte>)
    requires FieldOk(f) && Shaped(f, v) && f.ltype.Submessage?
    requires EncodeValue(f, v).Some? && |EncodeValue(f, v).value| < U32
    requires Encode(f.ptr.fields, v.slots).Some?
    requires Decode(f.ptr.fields, Encode(f.ptr.fields, v.slots).value) == Ok(AbsMessage(f.ptr.fields, v.slots), [])
    ensures Encode(f.ptr.fields, v.slots).Some? && |Encode(f.ptr.fields, v.slots).value| < U32
    ensures Shaped(f, DefaultValue(f))
    ensures DecodeValue(f, EncodeValue(f, v).value + t, DefaultValue(f)) == Ok(AbsValue(f, v), t)
  {
    DefaultShaped(f);
    StringRoundTrip(Encode(f.ptr.fields, v.slots).value, t);
  }

  /** The fixed-width types. */
  lemma FixedValueRoundTrip(f: Field, v: Value, t: seq<byte>)
    requires FieldOk(f) && Shaped(f, v) && (f.ltype.Fixed32? || f.ltype.Fixed64?)
    requires EncodeValue(f, v).Some?
    ensures Shaped(f, DefaultValue(f))
    ensures DecodeValue(f, EncodeValue(f, v).value + t, DefaultValue(f)) == Ok(AbsValue(f, v), t)
  {
    DefaultShaped(f);
    hide EncVarint, DecVarint, DecVarint32, EncFixed, Pow2, LittleEndian;
    Powers();
    DecFixedRoundTrip(v.n, if f.ltype.Fixed32? then 4 else 8, t);
  }

  /** Whether bytes of this length fit the field's storage. */
  predicate BlobFits(f: Field, n: nat) {
    match f.ltype
    case Bytes => n + BYTES_HEADER <= f.dataSize
    case String => n < f.dataSize
    case FixedLengthBytes => n == f.dataSize
    case _ => false
  }

  /** What fits is stored as it came. */
  lemma BlobDecodes(f: Field, bs: seq<byte>, was: Value, b: seq<byte>, t: seq<byte>)
    requires FieldOk(f) && Shaped(f, was) && BlobFits(f, |b|) && |b| < U32
    requires DecVarint32(bs) == Ok(|b|, b + t) && DecBytes(b + t, |b|) == Ok(b, t)
    ensures DecodeValue(f, bs, was) == Ok(Blob(b), t)
  {
    hide DecVarint32, DecBytes, Shaped;
  }

  /** Bytes and strings. */
  lemma BytesRoundTrip(f: Field, v: Value, t: seq<byte>)
    requires FieldOk(f) && Shaped(f, v) && Terminated(f, v)
    requires f.ltype.Bytes? || f.ltype.FixedLengthBytes? || f.ltype.String?
    requires EncodeValue(f, v).Some? && |EncodeValue(f, v).value| < U32
    ensures Shaped(f, DefaultValue(f))
    ensures DecodeValue(f, EncodeValue(f, v).value + t, DefaultValue(f)) == Ok(AbsValue(f, v), t)
  {
    DefaultShaped(f);
    var b := if f.ltype.String? then CString(v.b, f.dataSize) else v.b;
    assert EncodeValue(f, v).value == EncString(b) && |b| < U32;
    BlobRoundTrip(b, t);
    BlobDecodes(f, EncString(b) + t, DefaultValue(f), b, t);
  }

  /** The 64-bit word an integer is written as. */
  function IntWord(f: Field, v: Value): (w: nat)
    requires FieldOk(f) && Shaped(f, v) && f.ltype.Integer()
    requires WidthOk(f.dataSize)
    ensures w < U64
  {
    if f.ltype.Varint? then ToU64(v.n)
    else if f.ltype.SVarint? then ZigZag(v.n)
    else v.n
  }

  lemma StoreIntRoundTrip(f: Field, v: Value)
    requires FieldOk(f) && Shaped(f, v) && f.ltype.Integer()
    requires WidthOk(f.dataSize)
    ensures StoreInt(f, IntWord(f, v)) == Some(v)
  {
    hide ToSigned, ToU64, ZigZag, UnZigZag;
    match f.ltype
    case Varint =>
      SignedRoundTrip(v.n, f.dataSize);
      SignedClamp(v.n, f.dataSize);
    case SVarint =>
      ZigZagRoundTrip(v.n);
      SignedClamp(v.n, f.dataSize);
    case _ =>
  }

  lemma IntRoundTrip(f: Field, v: Value, t: seq<byte>)
    requires FieldOk(f) && Shaped(f, v) && f.ltype.Integer()
    requires EncodeValue(f, v).Some?
    ensures Shaped(f, DefaultValue(f))
    ensures DecodeValue(f, EncodeValue(f, v).value + t, DefaultValue(f)) == Ok(v, t)
  {
    DefaultShaped(f);
    hide StoreInt, ToSigned, ToU64, ZigZag, UnZigZag, EncVarint, DecVarint;
    StoreIntRoundTrip(f, v);
    VarintRoundTrip(IntWord(f, v), t);
  }

  lemma BlobRoundTrip(b: seq<byte>, t: seq<byte>)
    requires |b| < U32
    ensures DecVarint32(EncString(b) + t) == Ok(|b|, b + t)
    ensures DecBytes(b + t, |b|) == Ok(b, t)
  {
    assert EncString(b) + t == EncVarint(|b|) + (b + t);
    Varint32RoundTrip(|b|, b + t);
    assert (b + t)[..|b|] == b && (b + t)[|b|..] == t;
  }

  /** A tagged value is one step of the field loop. */
  lemma {:induction false} TaggedRoundTrip(fs: seq<Field>, i: nat, v: Value, cur: seq<Slot>, s: Slot, seen: set<nat>)
    requires WellFormed(fs) && MessageShaped(fs, cur) && i < |fs|
    requires Shaped(fs[i], v) && Terminated(fs[i], v)
    requires EncodeTagged(fs[i], v).Some? && |EncodeTagged(fs[i], v).value| < U32
    requires SlotShaped(fs[i], s)
    requires var a := AbsValue(fs[i], v);
             match cur[i]
             case Single(w) => w == DefaultValue(fs[i]) && s == Single(a)
             case Opt(_, w) => w == DefaultValue(fs[i]) && s == Opt(true, a)
             case Rep(items) => |items| < fs[i].arraySize && !fs[i].ltype.Packable() && s == Rep(items + [a])
             case Member(_) => s == Member(Some(a))
    ensures DecodeFields(fs, EncodeTagged(fs[i], v).value, cur, seen)
         == Done(SetSlot(fs, cur, i, s), SeenWith(fs, fs[i].tag, seen), [], false)
    decreases v, 1
  {
    var f := fs[i];
    var payload := EncodeValue(f, v).value;
    ValueRoundTrip(f, v, []);
    assert payload + [] == payload;
    assert DecodeSlot(f, WireType(f.ltype), payload, cur[i]) == Ok(s, []);
    OneField(fs, i, WireType(f.ltype), payload, cur, s, seen);
  }

  /** The rest of a packed array, from its k-th entry. */
  lemma {:induction false} PackedRoundTrip(f: Field, items: seq<Value>, k: nat)
    requires FieldOk(f) && k <= |items| <= f.arraySize
    requires forall j :: 0 <= j < |items| ==> Shaped(f, items[j]) && Terminated(f, items[j])
    requires EncodeItems(f, items, false, k).Some? && |EncodeItems(f, items, false, k).value| < U32
    ensures DecodePacked(f, EncodeItems(f, items, false, k).value, AbsItems(f, items)[..k]) == Some(AbsItems(f, items))
    decreases items, 2, |items| - k
  {
    hide DecodeValue, EncodeValue, AbsValue, Terminated, FieldOk, Shaped, DefaultValue;
    var a := AbsItems(f, items);
    if k == |items| {
      assert a[..k] == a;
    } else {
      var e := EncodeItems(f, items, false, k + 1).value;
      ValueRoundTrip(f, items[k], e);
      PackedRoundTrip(f, items, k + 1);
      assert a[..k] + [a[k]] == a[..k + 1];
    }
  }

  /** The rest of an unpacked array, from its k-th entry. */
  lemma {:induction false} ItemsRoundTrip(
    fs: seq<Field>, i: nat, items: seq<Value>, k: nat, cur: seq<Slot>, seen: set<nat>)
    requires WellFormed(fs) && MessageShaped(fs, cur) && i < |fs|
    requires fs[i].htype.Repeated? && !fs[i].ltype.Packable() && k <= |items| <= fs[i].arraySize
    requires forall j :: 0 <= j < |items| ==> Shaped(fs[i], items[j]) && Terminated(fs[i], items[j])
    requires EncodeItems(fs[i], items, true, k).Some? && |EncodeItems(fs[i], items, true, k).value| < U32
    requires cur[i] == Rep(AbsItems(fs[i], items)[..k])
    ensures DecodeFields(fs, EncodeItems(fs[i], items, true, k).value, cur, seen)
         == Done(cur[i := Rep(AbsItems(fs[i], items))], seen, [], false)
    decreases items, 2, |items| - k
  {
    var f, a := fs[i], AbsItems(fs[i], items);
    if k == |items| {
      assert a[..k] == a;
      assert cur[i := Rep(a)] == cur;
    } else {
      var first, rest := EncodeTagged(f, items[k]).value, EncodeItems(f, items, true, k + 1).value;
      var s := Rep(a[..k + 1]);
      assert a[..k] + [a[k]] == a[..k + 1];
      TaggedRoundTrip(fs, i, items[k], cur, s, seen);
      SetSlotAlone(fs, cur, i, s);
      FindUnique(fs, i);
      FieldsConcat(fs, first, rest, cur, seen);
      ItemsRoundTrip(fs, i, items, k + 1, cur[i := s], seen);
      assert cur[i := s][i := Rep(a)] == cur[i := Rep(a)];
    }
  }

  /** One slot's encoding takes the destination from Mix(i) to Mix(i + 1). */
  lemma {:induction false} SlotRoundTrip(fs: seq<Field>, slots: seq<Slot>, i: nat, s: Slot, seen: set<nat>)
    requires WellFormed(fs) && MessageShaped(fs, slots) && i < |fs| && s == slots[i]
    requires SlotTerminated(fs[i], s)
    requires EncodeSlot(fs[i], s).Some? && |EncodeSlot(fs[i], s).value| < U32
    ensures exists seen' {:trigger Done(Mix(fs, slots, i + 1), seen', [], false)} ::
              && DecodeFields(fs, EncodeSlot(fs[i], s).value, Mix(fs, slots, i), seen)
                 == Done(Mix(fs, slots, i + 1), seen', [], false)
              && seen <= seen' && (MustSee(fs, i) ==> i in seen')
    decreases s, 4
  {
    var f, m, a, bs := fs[i], Mix(fs, slots, i), AbsSlot(fs[i], s), EncodeSlot(fs[i], s).value;
    FindUnique(fs, i);
    if Active(s) || !f.htype.Oneof? { MixStep(fs, slots, i); }
    if bs == [] {
      EmptySlotBytes(f, s);
      assert a == DefaultSlot(f);
      assert Mix(fs, slots, i + 1) == m;
      assert DecodeFields(fs, bs, m, seen) == Done(Mix(fs, slots, i + 1), seen, [], false);
    } else {
      match s
      case Single(v) => TaggedRoundTrip(fs, i, v, m, a, seen);
      case Opt(_, w) => TaggedRoundTrip(fs, i, w, m, a, seen);
      case Member(x) => TaggedRoundTrip(fs, i, x.value, m, a, seen);
      case Rep(items) => ArrayRoundTrip(fs, i, items, m, seen);
      assert DecodeFields(fs, bs, m, seen) == Done(Mix(fs, slots, i + 1), SeenWith(fs, f.tag, seen), [], false);
    }
  }

  /** What is encoded as nothing is default content, and no required field is. */
  lemma EmptySlotBytes(f: Field, s: Slot)
    requires FieldOk(f) && SlotShaped(f, s) && EncodeSlot(f, s) == Some([])
    ensures !f.htype.Required? && AbsSlot(f, s) == DefaultSlot(f)
  {
    match s
    case Single(v) => if f.htype.Optional? && ZeroValue(f, v) { ZeroIsDefault(f, v); }
    case Rep(items) => if items != [] && !f.ltype.Packable() { ItemsTakeSpace(f, items); }
    case _ =>
  }

  lemma ItemsTakeSpace(f: Field, items: seq<Value>)
    requires items != [] && forall j :: 0 <= j < |items| ==> Shaped(f, items[j])
    ensures EncodeItems(f, items, true, 0) != Some([])
  {
  }

  lemma {:induction false} ArrayRoundTrip(fs: seq<Field>, i: nat, items: seq<Value>, cur: seq<Slot>, seen: set<nat>)
    requires WellFormed(fs) && MessageShaped(fs, cur) && i < |fs| && fs[i].htype.Repeated?
    requires forall j :: 0 <= j < |items| ==> Shaped(fs[i], items[j]) && Terminated(fs[i], items[j])
    requires EncodeArray(fs[i], items).Some? && |EncodeArray(fs[i], items).value| < U32
    requires items != [] && cur[i] == Rep([])
    ensures DecodeFields(fs, EncodeArray(fs[i], items).value, cur, seen)
         == Done(cur[i := Rep(AbsItems(fs[i], items))], seen, [], false)
    decreases items, 3
  {
    var f, a := fs[i], AbsItems(fs[i], items);
    assert a[..0] == [];
    if f.ltype.Packable() {
      var body := EncodeItems(f, items, false, 0).value;
      PackedRoundTrip(f, items, 0);
      StringRoundTrip(body, []);
      assert EncString(body) + [] == EncString(body);
      OneField(fs, i, WT_STRING, EncString(body), cur, Rep(a), seen);
      SetSlotAlone(fs, cur, i, Rep(a));
      FindUnique(fs, i);
    } else {
      ItemsRoundTrip(fs, i, items, 0, cur, seen);
    }
  }

  lemma {:induction false} FromRoundTrip(fs: seq<Field>, slots: seq<Slot>, i: nat, seen: set<nat>)
    requires WellFormed(fs) && MessageShaped(fs, slots) && AllTerminated(fs, slots) && i <= |fs|
    requires EncodeFrom(fs, slots, i).Some? && |EncodeFrom(fs, slots, i).value| < U32
    ensures var d := DecodeFields(fs, EncodeFrom(fs, slots, i).value, Mix(fs, slots, i), seen);
            && d.Done? && d.slots == AbsMessage(fs, slots) && d.rest == [] && !d.stopped
            && seen <= d.seen && forall j :: i <= j < |fs| && MustSee(fs, j) ==> j in d.seen
    decreases slots, 5, |fs| - i
  {
    hide EncodeSlot, AbsSlot, SlotShaped, FieldOk, DecodeField, DecTag, SlotTerminated, MustSee, DefaultSlot,
      SameUnion;
    MixEnds(fs, slots);
    if i < |fs| {
      var first, rest := EncodeSlot(fs[i], slots[i]).value, EncodeFrom(fs, slots, i + 1).value;
      SlotRoundTrip(fs, slots, i, slots[i], seen);
      var d := DecodeFields(fs, first, Mix(fs, slots, i), seen);
      FieldsConcat(fs, first, rest, Mix(fs, slots, i), seen);
      FromRoundTrip(fs, slots, i + 1, d.seen);
    }
  }

  /** The round trip: whatever message pb_encode accepts, pb_decode of its bytes succeeds,
      reads all of them and gives the message's content. */
  lemma {:induction false} MessageRoundTrip(fs: seq<Field>, slots: seq<Slot>)
    requires WellFormed(fs) && MessageShaped(fs, slots) && AllTerminated(fs, slots)
    requires Encode(fs, slots).Some? && |Encode(fs, slots).value| < U32
    ensures Decode(fs, Encode(fs, slots).value) == Ok(AbsMessage(fs, slots), [])
    decreases slots, 6
  {
    MixEnds(fs, slots);
    DefaultsShaped(fs);
    FromRoundTrip(fs, slots, 0, {});
  }

  // -------------------------------------------------- the content is what is encoded

  lemma {:induction false} CStringTwice(b: seq<byte>, max: nat)
    ensures CString(CString(b, max), max) == CString(b, max)
    ensures CString(b, max) == [] <==> b == [] || b[0] == 0 || max == 0
    ensures CString(b, max) != [] ==> CString(b, max)[0] == b[0]
    decreases |b|
  {
    if b != [] && b[0] != 0 && max != 0 {
      CStringTwice(b[1..], max - 1);
      assert CString(b, max)[1..] == CString(b[1..], max - 1);
    }
  }

  lemma {:induction false} AbsValueEncodes(f: Field, v: Value)
    requires FieldOk(f) && Shaped(f, v) && Terminated(f, v)
    ensures EncodeValue(f, AbsValue(f, v)) == EncodeValue(f, v)
    ensures ZeroValue(f, AbsValue(f, v)) == ZeroValue(f, v)
    decreases v, 0
  {
    match f.ltype
    case String => CStringTwice(v.b, f.dataSize);
    case Submessage =>
      AbsFromEncodes(f.ptr.fields, v.slots, 0);
      AbsStaysEmpty(f.ptr.fields, v.slots);
    case _ =>
  }

  lemma {:induction false} AbsStaysEmpty(fs: seq<Field>, slots: seq<Slot>)
    requires WellFormed(fs) && MessageShaped(fs, slots) && AllTerminated(fs, slots)
    ensures EmptyMessage(fs, AbsMessage(fs, slots)) == EmptyMessage(fs, slots)
    decreases slots, 2
  {
    forall i | 0 <= i < |fs|
      ensures EmptySlot(fs[i], AbsMessage(fs, slots)[i]) == EmptySlot(fs[i], slots[i])
    {
      AbsSlotStaysEmpty(fs[i], slots[i]);
    }
  }

  lemma {:induction false} AbsSlotStaysEmpty(f: Field, s: Slot)
    requires FieldOk(f) && SlotShaped(f, s) && SlotTerminated(f, s)
    ensures EmptySlot(f, AbsSlot(f, s)) == EmptySlot(f, s)
    decreases s, 1
  {
    if s.Single? { AbsValueEncodes(f, s.v); }
  }

  lemma {:induction false} AbsItemsEncode(f: Field, items: seq<Value>, tagged: bool, k: nat)
    requires FieldOk(f) && k <= |items|
    requires forall j :: 0 <= j < |items| ==> Shaped(f, items[j]) && Terminated(f, items[j])
    ensures EncodeItems(f, AbsItems(f, items), tagged, k) == EncodeItems(f, items, tagged, k)
    decreases items, 2, |items| - k
  {
    if k < |items| {
      AbsValueEncodes(f, items[k]);
      AbsItemsEncode(f, items, tagged, k + 1);
    }
  }

  lemma {:induction false} AbsSlotEncodes(f: Field, s: Slot)
    requires FieldOk(f) && SlotShaped(f, s) && SlotTerminated(f, s)
    ensures EncodeSlot(f, AbsSlot(f, s)) == EncodeSlot(f, s)
    decreases s, 4
  {
    match s
    case Single(v) => AbsValueEncodes(f, v);
    case Opt(has, w) => if has { AbsValueEncodes(f, w); }
    case Member(m) => if m.Some? { AbsValueEncodes(f, m.value); }
    case Rep(items) =>
      AbsItemsEncode(f, items, true, 0);
      AbsItemsEncode(f, items, false, 0);
  }

  /** Encoding the content of a message gives the message's own bytes. */
  lemma {:induction false} AbsFromEncodes(fs: seq<Field>, slots: seq<Slot>, i: nat)
    requires WellFormed(fs) && MessageShaped(fs, slots) && AllTerminated(fs, slots) && i <= |fs|
    ensures EncodeFrom(fs, AbsMessage(fs, slots), i) == EncodeFrom(fs, slots, i)
    decreases slots, 5, |fs| - i
  {
    if i < |fs| {
      AbsSlotEncodes(fs[i], slots[i]);
      AbsFromEncodes(fs, slots, i + 1);
    }
  }

  /** Two messages have the same encoding exactly when they have the same content. */
  lemma SameBytesSameContent(fs: seq<Field>, m1: seq<Slot>, m2: seq<Slot>)
    requires WellFormed(fs) && MessageShaped(fs, m1) && MessageShaped(fs, m2)
    requires AllTerminated(fs, m1) && AllTerminated(fs, m2)
    requires Encode(fs, m1).Some? && |Encode(fs, m1).value| < U32
    requires Encode(fs, m2).Some? && |Encode(fs, m2).value| < U32
    ensures Encode(fs, m1) == Encode(fs, m2) <==> AbsMessage(fs, m1) == AbsMessage(fs, m2)
  {
    MessageRoundTrip(fs, m1);
    MessageRoundTrip(fs, m2);
    AbsFromEncodes(fs, m1, 0);
    AbsFromEncodes(fs, m2, 0);
  }
}
