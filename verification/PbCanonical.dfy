/** Decoding any bytes and encoding the result again: the outcome is a canonical form. */
module PbCanonical {
  import opened Bits
  import opened Common
  import opened PbTypes
  import opened PbWire
  import opened PbFormat
  import opened PbParse
  import opened PbRoundTrip

  // All storage of a message is as the encoder wants it, also where the message is silent about it:
  // strings are NUL-terminated, sizes and counts are within what the descriptor gives.

  ghost predicate Clean(f: Field, v: Value)
    requires Shaped(f, v)
    decreases v, 0
  {
    match f.ltype
    case Varint | UVarint | SVarint => WidthOk(f.dataSize)
    case Bytes => |v.b| + BYTES_HEADER <= f.dataSize
    case String => |CString(v.b, f.dataSize)| < f.dataSize
    case Submessage => AllClean(f.ptr.fields, v.slots)
    case _ => true
  }

  ghost predicate SlotClean(f: Field, s: Slot)
    requires SlotShaped(f, s)
    decreases s, 1
  {
    match s
    case Single(v) => Clean(f, v)
    case Opt(_, w) => Clean(f, w)
    case Rep(items) => |items| <= f.arraySize && forall k :: 0 <= k < |items| ==> Clean(f, items[k])
    case Member(m) => m.Some? ==> Clean(f, m.value)
  }

  ghost predicate AllClean(fs: seq<Field>, slots: seq<Slot>)
    requires MessageShaped(fs, slots)
    decreases slots, 2
  {
    forall i :: 0 <= i < |fs| ==> SlotClean(fs[i], slots[i])
  }

  /** What the generator promises of a descriptor: integers have a C width, and each string or byte array
      has room for its default. */
  ghost predicate DefaultClean(f: Field)
    requires FieldOk(f)
    decreases f, 0
  {
    DefaultShaped(f);
    if f.ltype.Submessage? then DefaultsClean(f.ptr.fields) else Clean(f, DefaultValue(f))
  }

  ghost predicate DefaultsClean(fs: seq<Field>)
    requires WellFormed(fs)
    decreases fs, 1
  {
    forall i :: 0 <= i < |fs| ==> DefaultClean(fs[i])
  }

  lemma {:induction false} CleanTerminated(f: Field, v: Value)
    requires Shaped(f, v) && Clean(f, v)
    ensures Terminated(f, v)
    decreases v, 0
  {
    if f.ltype.Submessage? { AllCleanTerminated(f.ptr.fields, v.slots); }
  }

  lemma {:induction false} AllCleanTerminated(fs: seq<Field>, slots: seq<Slot>)
    requires MessageShaped(fs, slots) && AllClean(fs, slots)
    ensures AllTerminated(fs, slots)
    decreases slots, 2
  {
    forall i | 0 <= i < |fs| ensures SlotTerminated(fs[i], slots[i]) {
      SlotCleanTerminated(fs[i], slots[i]);
    }
  }

  lemma {:induction false} SlotCleanTerminated(f: Field, s: Slot)
    requires SlotShaped(f, s) && SlotClean(f, s)
    ensures SlotTerminated(f, s)
    decreases s, 1
  {
    match s
    case Single(v) => CleanTerminated(f, v);
    case Opt(_, w) => CleanTerminated(f, w);
    case Rep(items) =>
      forall k | 0 <= k < |items| ensures Terminated(f, items[k]) { CleanTerminated(f, items[k]); }
    case Member(m) => if m.Some? { CleanTerminated(f, m.value); }
  }

  lemma {:induction false} DefaultIsClean(f: Field)
    requires FieldOk(f) && DefaultClean(f)
    ensures Shaped(f, DefaultValue(f)) && Clean(f, DefaultValue(f))
    decreases f, 0
  {
    DefaultShaped(f);
    if f.ltype.Submessage? { DefaultsAreClean(f.ptr.fields); }
  }

  lemma {:induction false} DefaultsAreClean(fs: seq<Field>)
    requires WellFormed(fs) && DefaultsClean(fs)
    ensures MessageShaped(fs, Defaults(fs)) && AllClean(fs, Defaults(fs))
    decreases fs, 1
  {
    DefaultsShaped(fs);
    forall i | 0 <= i < |fs| ensures SlotClean(fs[i], Defaults(fs)[i]) {
      DefaultIsClean(fs[i]);
    }
  }

  // Such a message has an encoding.

  lemma {:induction false} CleanEncodes(f: Field, v: Value)
    requires Shaped(f, v) && Clean(f, v)
    ensures EncodeValue(f, v).Some?
    decreases v, 0
  {
    if f.ltype.Submessage? { AllCleanEncode(f.ptr.fields, v.slots, 0); }
  }

  lemma {:induction false} ItemsEncode(f: Field, items: seq<Value>, tagged: bool, k: nat)
    requires k <= |items|
    requires forall j :: 0 <= j < |items| ==> Shaped(f, items[j]) && Clean(f, items[j])
    ensures EncodeItems(f, items, tagged, k).Some?
    decreases items, 1, |items| - k
  {
    if k < |items| {
      CleanEncodes(f, items[k]);
      ItemsEncode(f, items, tagged, k + 1);
    }
  }

  lemma {:induction false} SlotEncodes(f: Field, s: Slot)
    requires SlotShaped(f, s) && SlotClean(f, s)
    ensures EncodeSlot(f, s).Some?
    decreases s, 2
  {
    match s
    case Single(v) => CleanEncodes(f, v);
    case Opt(_, w) => CleanEncodes(f, w);
    case Rep(items) => ItemsEncode(f, items, !f.ltype.Packable(), 0);
    case Member(m) => if m.Some? { CleanEncodes(f, m.value); }
  }

  lemma {:induction false} AllCleanEncode(fs: seq<Field>, slots: seq<Slot>, i: nat)
    requires MessageShaped(fs, slots) && AllClean(fs, slots) && i <= |fs|
    ensures EncodeFrom(fs, slots, i).Some?
    decreases slots, 3, |fs| - i
  {
    if i < |fs| {
      SlotEncodes(fs[i], slots[i]);
      AllCleanEncode(fs, slots, i + 1);
    }
  }

  // Decoding keeps the storage clean.

  lemma {:induction false} PackedStaysClean(f: Field, bs: seq<byte>, items: seq<Value>)
    requires FieldOk(f) && DefaultClean(f) && f.ltype.Packable() && |items| <= f.arraySize
    requires forall k :: 0 <= k < |items| ==> Shaped(f, items[k]) && Clean(f, items[k])
    ensures var r := DecodePacked(f, bs, items);
      r.Some? ==> |r.value| <= f.arraySize && forall k :: 0 <= k < |r.value| ==> Clean(f, r.value[k])
    decreases |bs|
  {
    DefaultShaped(f);
    if bs != [] && |items| < f.arraySize {
      match DecodeValue(f, bs, DefaultValue(f))
      case Fail =>
      case Ok(v, rest) => PackedStaysClean(f, rest, items + [v]);
    }
  }

  lemma {:induction false} ValueStaysClean(f: Field, bs: seq<byte>, was: Value)
    requires FieldOk(f) && DefaultClean(f) && Shaped(f, was) && Clean(f, was)
    ensures DecodeValue(f, bs, was).Ok? ==> Clean(f, DecodeValue(f, bs, was).value)
    decreases |bs|, 0
  {
    if f.ltype.Submessage? {
      if DecString(bs).Ok? { MessageStaysClean(f.ptr.fields, DecString(bs).value, was.slots); }
      hide DecodeMessage, DecString, AllClean, MessageShaped;
    } else {
      ScalarStaysClean(f, bs, was);
    }
  }

  lemma ScalarStaysClean(f: Field, bs: seq<byte>, was: Value)
    requires FieldOk(f) && DefaultClean(f) && Shaped(f, was) && Clean(f, was) && !f.ltype.Submessage?
    ensures DecodeValue(f, bs, was).Ok? ==> Clean(f, DecodeValue(f, bs, was).value)
  {
    hide DecodeMessage, DecVarint, DecVarint32, DecFixed, WellFormed;
  }

  lemma {:induction false} SlotStaysClean(f: Field, wt: nat, bs: seq<byte>, s: Slot)
    requires FieldOk(f) && DefaultClean(f) && SlotShaped(f, s) && SlotClean(f, s)
    ensures DecodeSlot(f, wt, bs, s).Ok? ==> SlotClean(f, DecodeSlot(f, wt, bs, s).value)
    decreases |bs|, 2
  {
    DefaultIsClean(f);
    match s
    case Single(v) => ValueStaysClean(f, bs, v);
    case Opt(_, w) => ValueStaysClean(f, bs, w);
    case Rep(items) =>
      if wt == WT_STRING && f.ltype.Packable() {
        if DecString(bs).Ok? { PackedStaysClean(f, DecString(bs).value, items); }
      } else {
        ValueStaysClean(f, bs, DefaultValue(f));
      }
    case Member(_) => ValueStaysClean(f, bs, DefaultValue(f));
  }

  lemma {:induction false} FieldsStayClean(fs: seq<Field>, bs: seq<byte>, slots: seq<Slot>, seen: set<nat>)
    requires WellFormed(fs) && DefaultsClean(fs) && MessageShaped(fs, slots) && AllClean(fs, slots)
    ensures var d := DecodeFields(fs, bs, slots, seen); d.Done? ==> AllClean(fs, d.slots)
    decreases |bs|, 4
  {
    if bs != [] && DecTag(bs).Tag? {
      var Tag(tag, wt, rest) := DecTag(bs);
      match DecodeField(fs, tag, wt, rest, slots)
      case Fail =>
      case Ok(slots', rest') =>
        FieldStaysClean(fs, tag, wt, rest, slots);
        FieldsStayClean(fs, rest', slots', SeenWith(fs, tag, seen));
    }
  }

  lemma {:induction false} FieldStaysClean(fs: seq<Field>, tag: nat, wt: nat, bs: seq<byte>, slots: seq<Slot>)
    requires WellFormed(fs) && DefaultsClean(fs) && MessageShaped(fs, slots) && AllClean(fs, slots)
    ensures var r := DecodeField(fs, tag, wt, bs, slots); r.Ok? ==> AllClean(fs, r.value)
    decreases |bs|, 3
  {
    match Find(fs, tag)
    case Some(i) => SlotStaysClean(fs[i], wt, bs, slots[i]);
    case None =>
  }

  lemma {:induction false} MessageStaysClean(fs: seq<Field>, bs: seq<byte>, slots: seq<Slot>)
    requires WellFormed(fs) && DefaultsClean(fs) && MessageShaped(fs, slots) && AllClean(fs, slots)
    ensures DecodeMessage(fs, bs, slots).Ok? ==> AllClean(fs, DecodeMessage(fs, bs, slots).value)
    decreases |bs|, 5
  {
    FieldsStayClean(fs, bs, slots, {});
  }

  /** Whatever bytes decode, the message can be encoded again. If the new encoding is shorter than 2^32
      bytes it decodes to the message's content, and encoding that gives the same bytes: one round of
      decoding and encoding is a canonical form. */
  lemma CanonicalForm(fs: seq<Field>, bs: seq<byte>)
    requires WellFormed(fs) && DefaultsClean(fs) && Decode(fs, bs).Ok?
    ensures
      var m := Decode(fs, bs).value;
      && Encode(fs, m).Some?
      && (|Encode(fs, m).value| < U32 ==>
            && Decode(fs, Encode(fs, m).value) == Ok(AbsMessage(fs, m), [])
            && Encode(fs, AbsMessage(fs, m)) == Encode(fs, m))
  {
    DefaultsAreClean(fs);
    MessageStaysClean(fs, bs, Defaults(fs));
    var m := Decode(fs, bs).value;
    AllCleanTerminated(fs, m);
    AllCleanEncode(fs, m, 0);
    if |Encode(fs, m).value| < U32 {
      MessageRoundTrip(fs, m);
      AbsFromEncodes(fs, m, 0);
    }
  }
}
