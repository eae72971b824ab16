/** Decoding is a fold over the fields on the wire: concatenated encodings merge, and
    fields the descriptor does not know can be inserted anywhere between fields. */
module PbMerge {
  import opened Bits
  import opened Common
  import opened PbTypes
  import opened PbWire
  import opened PbParse

  /** bs is a sequence of whole fields, none of them with a zero tag, and all decode. */
  ghost predicate WholeFields(fs: seq<Field>, bs: seq<byte>, slots: seq<Slot>)
    requires WellFormed(fs) && MessageShaped(fs, slots)
  {
    var d := DecodeFields(fs, bs, slots, {});
    d.Done? && !d.stopped
  }

  /** One field with a tag the descriptor does not list. */
  ghost predicate UnknownField(fs: seq<Field>, u: seq<byte>) {
    match DecTag(u)
    case Tag(tag, wt, rest) => Find(fs, tag).None? && SkipField(wt, rest) == Ok((), [])
    case _ => false
  }

  lemma DecodeValueAppend(f: Field, bs: seq<byte>, t: seq<byte>, was: Value)
    requires FieldOk(f) && Shaped(f, was) && DecodeValue(f, bs, was).Ok?
    ensures DecodeValue(f, bs + t, was) == Ok(DecodeValue(f, bs, was).value, DecodeValue(f, bs, was).rest + t)
  {
    match f.ltype
    case Varint | UVarint | SVarint => DecV64Append(bs, t, 0, 0);
    case Fixed32 => DecBytesAppend(bs, t, 4);
    case Fixed64 => DecBytesAppend(bs, t, 8);
    case Bytes | String | FixedLengthBytes =>
      DecVarint32Append(bs, t);
      var Ok(n, rest) := DecVarint32(bs);
      if DecBytes(rest, n).Ok? { DecBytesAppend(rest, t, n); }
    case Submessage => DecStringAppend(bs, t);
  }

  lemma DecodeFieldAppend(fs: seq<Field>, tag: nat, wt: nat, bs: seq<byte>, t: seq<byte>, slots: seq<Slot>)
    requires WellFormed(fs) && MessageShaped(fs, slots) && DecodeField(fs, tag, wt, bs, slots).Ok?
    ensures var r := DecodeField(fs, tag, wt, bs, slots);
            DecodeField(fs, tag, wt, bs + t, slots) == Ok(r.value, r.rest + t)
  {
    match Find(fs, tag)
    case Some(i) =>
      var f, s := fs[i], slots[i];
      if s.Rep? && wt == WT_STRING && f.ltype.Packable() {
        DecStringAppend(bs, t);
      } else {
        DefaultShaped(f);
        var was := match s case Single(v) => v case Opt(_, w) => w case _ => DefaultValue(f);
        DecodeValueAppend(f, bs, t, was);
      }
    case None => SkipFieldAppend(wt, bs, t);
  }

  /** After whole fields, decoding continues as if it started with what they left. */
  lemma {:induction false} FieldsConcat(fs: seq<Field>, a: seq<byte>, b: seq<byte>, slots: seq<Slot>, seen: set<nat>)
    requires WellFormed(fs) && MessageShaped(fs, slots)
    requires var d := DecodeFields(fs, a, slots, seen); d.Done? && !d.stopped
    ensures var d := DecodeFields(fs, a, slots, seen);
            DecodeFields(fs, a + b, slots, seen) == DecodeFields(fs, b, d.slots, d.seen)
    decreases |a|
  {
    if a == [] {
      assert a + b == b;
    } else {
      DecTagAppend(a, b);
      var Tag(tag, wt, rest) := DecTag(a);
      DecodeFieldAppend(fs, tag, wt, rest, b, slots);
      var Ok(slots', rest') := DecodeField(fs, tag, wt, rest, slots);
      FieldsConcat(fs, rest', b, slots', SeenWith(fs, tag, seen));
    }
  }

  /** A zero tag ends the message: everything after it stays unread. */
  lemma {:induction false} StoppedIgnoresTail(
    fs: seq<Field>, a: seq<byte>, b: seq<byte>, slots: seq<Slot>, seen: set<nat>)
    requires WellFormed(fs) && MessageShaped(fs, slots)
    requires var d := DecodeFields(fs, a, slots, seen); d.Done? && d.stopped
    ensures var d := DecodeFields(fs, a, slots, seen);
            DecodeFields(fs, a + b, slots, seen) == d.(rest := d.rest + b)
    decreases |a|
  {
    DecTagAppend(a, b);
    if DecTag(a).Tag? {
      var Tag(tag, wt, rest) := DecTag(a);
      DecodeFieldAppend(fs, tag, wt, rest, b, slots);
      var Ok(slots', rest') := DecodeField(fs, tag, wt, rest, slots);
      StoppedIgnoresTail(fs, rest', b, slots', SeenWith(fs, tag, seen));
    }
  }

  /** The required entries seen earlier only accumulate. */
  lemma {:induction false} SeenAccumulates(
    fs: seq<Field>, bs: seq<byte>, slots: seq<Slot>, seen: set<nat>, more: set<nat>)
    requires WellFormed(fs) && MessageShaped(fs, slots)
    ensures var d := DecodeFields(fs, bs, slots, seen);
            DecodeFields(fs, bs, slots, seen + more) == if d.Failed? then d else d.(seen := d.seen + more)
    decreases |bs|
  {
    if bs != [] && DecTag(bs).Tag? {
      var Tag(tag, wt, rest) := DecTag(bs);
      match DecodeField(fs, tag, wt, rest, slots)
      case Fail =>
      case Ok(slots', rest') =>
        assert SeenWith(fs, tag, seen + more) == SeenWith(fs, tag, seen) + more;
        SeenAccumulates(fs, rest', slots', SeenWith(fs, tag, seen), more);
    }
  }

  /** Decoding a concatenation in one call and in two: the field loops agree, and the one
      call needs each required field in at least one half. */
  lemma ConcatenationExactly(fs: seq<Field>, a: seq<byte>, b: seq<byte>, slots: seq<Slot>)
    requires WellFormed(fs) && MessageShaped(fs, slots) && WholeFields(fs, a, slots)
    ensures var da := DecodeFields(fs, a, slots, {});
            var db := DecodeFields(fs, b, da.slots, {});
            DecodeMessage(fs, a + b, slots) ==
              if db.Done? && RequiredSeen(fs, da.seen + db.seen) then Ok(db.slots, db.rest) else Fail
  {
    var da := DecodeFields(fs, a, slots, {});
    FieldsConcat(fs, a, b, slots, {});
    SeenAccumulates(fs, b, da.slots, {}, da.seen);
    assert {} + da.seen == da.seen;
    var db := DecodeFields(fs, b, da.slots, {});
    if db.Done? { assert da.seen + db.seen == db.seen + da.seen; }
  }

  /** Merging by concatenation (protobuf encoding guide): if a and then b decode into the
      destination, a ++ b decodes to the same contents. */
  lemma MergeByConcatenation(fs: seq<Field>, a: seq<byte>, b: seq<byte>, slots: seq<Slot>)
    requires WellFormed(fs) && MessageShaped(fs, slots) && WholeFields(fs, a, slots)
    requires DecodeMessage(fs, a, slots).Ok?
    requires DecodeMessage(fs, b, DecodeMessage(fs, a, slots).value).Ok?
    ensures DecodeMessage(fs, a + b, slots) == DecodeMessage(fs, b, DecodeMessage(fs, a, slots).value)
  {
    ConcatenationExactly(fs, a, b, slots);
  }

  lemma UnknownFieldSkipped(fs: seq<Field>, u: seq<byte>, slots: seq<Slot>, seen: set<nat>)
    requires WellFormed(fs) && MessageShaped(fs, slots)
    requires UnknownField(fs, u) && (fs != [] || DecTag(u).tag != 0)
    ensures DecodeFields(fs, u, slots, seen) == Done(slots, seen, [], false)
  {
  }

  /** Forward compatibility: an unknown field between fields changes nothing. */
  lemma UnknownFieldIgnored(fs: seq<Field>, a: seq<byte>, u: seq<byte>, c: seq<byte>, slots: seq<Slot>)
    requires WellFormed(fs) && MessageShaped(fs, slots) && WholeFields(fs, a, slots)
    requires UnknownField(fs, u) && (fs != [] || DecTag(u).tag != 0)
    ensures DecodeMessage(fs, a + u + c, slots) == DecodeMessage(fs, a + c, slots)
  {
    var da := DecodeFields(fs, a, slots, {});
    UnknownFieldSkipped(fs, u, da.slots, da.seen);
    hide DecodeFields, UnknownField, MessageShaped, WellFormed;
    FieldsConcat(fs, u, c, da.slots, da.seen);
    FieldsConcat(fs, a, u + c, slots, {});
    FieldsConcat(fs, a, c, slots, {});
    assert a + u + c == a + (u + c);
  }

  /** The exception, and the only one: a message type without fields rejects the tag number zero at every
      field boundary, because the iterator takes the table's terminator for the field. */
  lemma EmptyTypeRejectsTagZero(a: seq<byte>, u: seq<byte>, c: seq<byte>)
    requires WholeFields([], a, []) && UnknownField([], u) && DecTag(u).tag == 0
    ensures DecodeMessage([], a + u + c, []).Fail?
  {
    var fs: seq<Field> := [];
    var da := DecodeFields(fs, a, [], {});
    FieldsConcat(fs, a, u + c, [], {});
    assert a + u + c == a + (u + c);
    DecTagAppend(u, c);
    var Tag(tag, wt, rest) := DecTag(u + c);
    assert DecodeField(fs, tag, wt, rest, da.slots).Fail?;
    assert DecodeFields(fs, u + c, da.slots, da.seen).Failed?;
  }
}
