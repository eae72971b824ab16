/** What pb_decode makes of records, field by field: which values are stored, what is appended, merged, skipped
    or refused; and what that means for tables of different ages. */
module PbReading {
  import opened Bits
  import opened Common
  import opened PbTypes
  import opened PbWire
  import opened PbFormat
  import opened PbParse
  import opened PbMerge
  import opened PbRoundTrip
  import opened PbSpelling
  import opened PbRecords

  /** The payload is of the kind the field's type has. */
  predicate Own(f: Field, p: Payload) { WireNumber(p) == WireType(f.ltype) }

  /** The value a payload stands for, if the destination can hold it; was is merged into. */
  function Stored(f: Field, p: Payload, was: Value): (r: Option<Value>)
    requires FieldOk(f) && Shaped(f, was) && Own(f, p) && PayloadOk(p)
    ensures r.Some? ==> Shaped(f, r.value)
  {
    match f.ltype
    case Varint | UVarint | SVarint =>
      if InRange(f, IntMeaning(f, p.n)) then Some(Num(IntMeaning(f, p.n))) else None
    case Fixed32 | Fixed64 => Powers(); Some(Num(LittleEndian(p.b)))
    case Bytes | String => if BlobFits(f, |p.b|) then Some(Blob(p.b)) else None
    case FixedLengthBytes =>
      if p.b == [] then Some(Blob(Zeros(f.dataSize))) else if BlobFits(f, |p.b|) then Some(Blob(p.b)) else None
    case Submessage =>
      match DecodeMessage(f.ptr.fields, p.b, was.slots)
      case Fail => None
      case Ok(slots, _) => Some(Msg(slots))
  }

  function Result<T>(r: Option<T>, t: seq<byte>): Parse<T> {
    if r.Some? then Ok(r.value, t) else Fail
  }

  lemma PayloadReads(f: Field, p: Payload, was: Value, t: seq<byte>)
    requires FieldOk(f) && Shaped(f, was) && Own(f, p) && PayloadOk(p)
    ensures DecodeValue(f, PayloadBytes(p) + t, was) == Result(Stored(f, p, was), t)
  {
    match p
    case Word(n) =>
      VarintRoundTrip(n, t);
      StoreIntRange(f, n);
    case Text(b) => TextReads(f, b, was, t);
    case Eight(b) => BytesFirst(b, t);
    case Four(b) => BytesFirst(b, t);
  }

  lemma BytesFirst(b: seq<byte>, t: seq<byte>)
    ensures DecBytes(b + t, |b|) == Ok(b, t) && DecFixed(b + t, |b|) == Ok(LittleEndian(b), t)
  {
    assert (b + t)[..|b|] == b && (b + t)[|b|..] == t;
  }

  lemma TextReads(f: Field, b: seq<byte>, was: Value, t: seq<byte>)
    requires FieldOk(f) && Shaped(f, was) && Own(f, Text(b)) && |b| < U32
    ensures DecodeValue(f, PayloadBytes(Text(b)) + t, was) == Result(Stored(f, Text(b), was), t)
  {
    assert PayloadBytes(Text(b)) == EncString(b);
    BlobRoundTrip(b, t);
    StringRoundTrip(b, t);
    TextDecodes(f, EncString(b) + t, b, was, t);
  }

  lemma TextDecodes(f: Field, bs: seq<byte>, b: seq<byte>, was: Value, t: seq<byte>)
    requires FieldOk(f) && Shaped(f, was) && Own(f, Text(b)) && |b| < U32
    requires DecVarint32(bs) == Ok(|b|, b + t) && DecBytes(b + t, |b|) == Ok(b, t) && DecString(bs) == Ok(b, t)
    ensures DecodeValue(f, bs, was) == Result(Stored(f, Text(b), was), t)
  {
    hide DecVarint32, DecBytes, DecString, DecodeMessage, MessageShaped, Zeros;
  }

  /** What is stored in the slot; the wire type on the wire is not looked at, except that a length-delimited
      payload of a packable array is taken apart. */
  function SlotStored(f: Field, p: Payload, s: Slot): (r: Option<Slot>)
    requires FieldOk(f) && SlotShaped(f, s) && Own(f, p) && PayloadOk(p)
    ensures r.Some? ==> SlotShaped(f, r.value)
  {
    DefaultShaped(f);
    match s
    case Single(was) => var v := Stored(f, p, was); if v.Some? then Some(Single(v.value)) else None
    case Opt(_, was) => var v := Stored(f, p, was); if v.Some? then Some(Opt(true, v.value)) else None
    case Rep(items) =>
      var v := Stored(f, p, DefaultValue(f));
      if |items| < f.arraySize && v.Some? then Some(Rep(items + [v.value])) else None
    case Member(_) =>
      var v := Stored(f, p, DefaultValue(f));
      if v.Some? then Some(Member(Some(v.value))) else None
  }

  lemma SlotReads(f: Field, wt: nat, p: Payload, s: Slot, t: seq<byte>)
    requires FieldOk(f) && SlotShaped(f, s) && Own(f, p) && PayloadOk(p)
    requires wt == WT_STRING && s.Rep? ==> !f.ltype.Packable()
    ensures DecodeSlot(f, wt, PayloadBytes(p) + t, s) == Result(SlotStored(f, p, s), t)
  {
    DefaultShaped(f);
    hide Stored, DecodeValue, PayloadBytes;
    PayloadReads(f, p, match s case Single(v) => v case Opt(_, w) => w case _ => DefaultValue(f), t);
  }

  /** A record of the table's own kind is one step of the field loop, and one the table does not know is
      skipped. */
  lemma RecordReads(fs: seq<Field>, r: Record, t: seq<byte>, slots: seq<Slot>, seen: set<nat>)
    requires WellFormed(fs) && MessageShaped(fs, slots) && RecordOk(r)
    requires Find(fs, r.tag).Some? ==> Own(fs[Find(fs, r.tag).value], r.p)
    ensures DecodeFields(fs, RecordBytes(r) + t, slots, seen) ==
              match Find(fs, r.tag)
              case None => DecodeFields(fs, t, slots, seen)
              case Some(i) =>
                match SlotStored(fs[i], r.p, slots[i])
                case None => Failed
                case Some(s) => DecodeFields(fs, t, SetSlot(fs, slots, i, s), SeenWith(fs, r.tag, seen))
  {
    var rest := PayloadBytes(r.p) + t;
    TagFirst(r, t);
    match Find(fs, r.tag)
    case None =>
      SkipsPayload(r.p, t);
    case Some(i) =>
      SlotReads(fs[i], WireNumber(r.p), r.p, slots[i], t);
  }

  lemma TagFirst(r: Record, t: seq<byte>)
    requires RecordOk(r)
    ensures DecTag(RecordBytes(r) + t) == Tag(r.tag, WireNumber(r.p), PayloadBytes(r.p) + t)
  {
    var tag := EncTag(WireNumber(r.p), r.tag);
    EncTagSpells(WireNumber(r.p), r.tag);
    TagRoundTrip(WireNumber(r.p), r.tag, PayloadBytes(r.p) + t);
    assert RecordBytes(r) + t == tag + (PayloadBytes(r.p) + t);
  }

  /** The decoder can step over every payload, whatever field it belongs to. */
  lemma SkipsPayload(p: Payload, t: seq<byte>)
    requires PayloadOk(p)
    ensures SkipField(WireNumber(p), PayloadBytes(p) + t) == Ok((), t)
  {
    hide EncVarint, SkipVarint, DecString, DecBytes;
    match p
    case Word(n) => SkipsVarint(n, t);
    case Text(b) => StringSkipped(b, t);
    case Eight(b) => BytesFirst(b, t);
    case Four(b) => BytesFirst(b, t);
  }

  lemma StringSkipped(b: seq<byte>, t: seq<byte>)
    requires |b| < U32
    ensures DecString(PayloadBytes(Text(b)) + t) == Ok(b, t)
  {
    StringBytes(b);
    StringRoundTrip(b, t);
  }

  lemma SkipsVarint(n: nat, t: seq<byte>)
    ensures SkipVarint(EncVarint(n) + t) == Ok((), t)
  {
    var e := EncVarint(n);
    EncVarintSpells(n);
    hide EncVarint;
    assert forall i :: 0 <= i < |e| ==> (e + t)[i] == e[i];
    SkipVarintSpells(e + t, |e|);
    assert (e + t)[|e|..] == t;
  }

  // ----------------------------------------------------------------- whole messages

  /** What a sequence of records does to a message. */
  function Read(fs: seq<Field>, rs: seq<Record>, slots: seq<Slot>, seen: set<nat>): Decoded
    requires WellFormed(fs) && MessageShaped(fs, slots) && forall r :: r in rs ==> Readable(fs, r)
    decreases |rs|
  {
    if rs == [] then Done(slots, seen, [], false)
    else
      assert Readable(fs, rs[0]);
      match Find(fs, rs[0].tag)
      case None => Read(fs, rs[1..], slots, seen)
      case Some(i) =>
        match SlotStored(fs[i], rs[0].p, slots[i])
        case None => Failed
        case Some(s) => Read(fs, rs[1..], SetSlot(fs, slots, i, s), SeenWith(fs, rs[0].tag, seen))
  }

  predicate Readable(fs: seq<Field>, r: Record) {
    RecordOk(r) && (Find(fs, r.tag).Some? ==> Own(fs[Find(fs, r.tag).value], r.p))
  }

  /** Any records, in any order and number, known or not: the field loop does what they say. */
  lemma {:induction false} RecordsRead(fs: seq<Field>, rs: seq<Record>, slots: seq<Slot>, seen: set<nat>)
    requires WellFormed(fs) && MessageShaped(fs, slots) && forall r :: r in rs ==> Readable(fs, r)
    ensures DecodeFields(fs, Written(rs), slots, seen) == Read(fs, rs, slots, seen)
    decreases |rs|
  {
    hide SlotStored, SetSlot, SeenWith, RecordBytes, DecodeFields;
    if rs != [] {
      assert Readable(fs, rs[0]);
      RecordReads(fs, rs[0], Written(rs[1..]), slots, seen);
      match Find(fs, rs[0].tag)
      case None => RecordsRead(fs, rs[1..], slots, seen);
      case Some(i) =>
        match SlotStored(fs[i], rs[0].p, slots[i])
        case None =>
        case Some(s) => RecordsRead(fs, rs[1..], SetSlot(fs, slots, i, s), SeenWith(fs, rs[0].tag, seen));
    } else {
      NothingRead(fs, slots, seen);
    }
  }

  predicate Present(fs: seq<Field>, i: nat, rs: seq<Record>)
    requires i < |fs|
  {
    exists k :: 0 <= k < |rs| && rs[k].tag == fs[i].tag
  }

  /** The required fields seen are those that have a record. */
  lemma {:induction false} ReadSees(fs: seq<Field>, rs: seq<Record>, slots: seq<Slot>, seen: set<nat>)
    requires WellFormed(fs) && MessageShaped(fs, slots) && forall r :: r in rs ==> Readable(fs, r)
    ensures var d := Read(fs, rs, slots, seen);
            d.Done? ==>
              && d.rest == [] && !d.stopped
              && forall i :: 0 <= i < |fs| && MustSee(fs, i) ==> (i in d.seen <==> i in seen || Present(fs, i, rs))
    decreases |rs|
  {
    hide SlotStored, SetSlot, MustSee, FieldOk;
    if rs != [] {
      var r, rest := rs[0], rs[1..];
      assert Readable(fs, r);
      forall i | 0 <= i < |fs| ensures Present(fs, i, rs) <==> r.tag == fs[i].tag || Present(fs, i, rest) {
        if Present(fs, i, rest) {
          var k :| 0 <= k < |rest| && rest[k].tag == fs[i].tag;
          assert rs[k + 1].tag == fs[i].tag;
        }
      }
      match Find(fs, r.tag)
      case None => ReadSees(fs, rest, slots, seen);
      case Some(i) =>
        match SlotStored(fs[i], r.p, slots[i])
        case None =>
        case Some(s) => ReadSees(fs, rest, SetSlot(fs, slots, i, s), SeenWith(fs, r.tag, seen));
    }
  }

  /** A message decodes exactly if every record can be stored and each of the first 64 required fields has
      one, and then to what the records say. */
  lemma MessageReads(fs: seq<Field>, rs: seq<Record>, slots: seq<Slot>)
    requires WellFormed(fs) && MessageShaped(fs, slots) && forall r :: r in rs ==> Readable(fs, r)
    ensures var d := Read(fs, rs, slots, {});
            DecodeMessage(fs, Written(rs), slots) ==
              if d.Done? && forall i :: 0 <= i < |fs| && MustSee(fs, i) ==> Present(fs, i, rs)
              then Ok(d.slots, []) else Fail
  {
    RecordsRead(fs, rs, slots, {});
    ReadSees(fs, rs, slots, {});
    hide Read, DecodeFields, Present, MustSee;
  }

  lemma NothingRead(fs: seq<Field>, slots: seq<Slot>, seen: set<nat>)
    requires WellFormed(fs) && MessageShaped(fs, slots)
    ensures DecodeFields(fs, [], slots, seen) == Done(slots, seen, [], false)
  {
  }

  /** Without any record each field has its default. */
  lemma EmptyReads(fs: seq<Field>)
    requires WellFormed(fs)
    ensures Decode(fs, []) == if forall i :: 0 <= i < |fs| ==> !MustSee(fs, i) then Ok(Defaults(fs), []) else Fail
  {
    DefaultsShaped(fs);
    NothingRead(fs, Defaults(fs), {});
  }

  /** The default is what the descriptor says if it gives a value, and otherwise zero, no bytes, zero bytes
      or a message of defaults; a field with a presence flag is absent. */
  lemma DefaultMeaning(f: Field)
    requires FieldOk(f) && (f.htype.Required? || f.htype.Optional?)
    ensures var v := DefaultValue(f);
            && DefaultSlot(f) == (if f.htype.Optional? && f.sizeOffset != 0 then Opt(false, v) else Single(v))
            && (f.ptr.Default? ==> v == f.ptr.v)
            && (f.ltype.Submessage? ==> v == Msg(Defaults(f.ptr.fields)))
            && (!f.ptr.Default? && (f.ltype.Bytes? || f.ltype.String?) ==> v == Blob([]))
            && (!f.ptr.Default? && f.ltype.FixedLengthBytes? ==>
                  v.Blob? && |v.b| == f.dataSize && forall k :: 0 <= k < |v.b| ==> v.b[k] == 0)
            && (!f.ptr.Default? && f.ltype.Packable() ==> v == Num(0))
  {
    hide Defaults, WellFormed;
  }

  // -------------------------------------------------------------------- numbers

  /** A number written in a narrow field reads as the same number in a 64-bit one. */
  lemma NarrowReadsWide(f: Field, v: Value, t: seq<byte>)
    requires FieldOk(f) && Shaped(f, v) && f.ltype.Integer() && WidthOk(f.dataSize)
    ensures var g := f.(dataSize := 8, ptr := Null);
            && FieldOk(g) && EncodeValue(f, v).Some? && Shaped(g, DefaultValue(g))
            && DecodeValue(g, EncodeValue(f, v).value + t, DefaultValue(g)) == Ok(v, t)
  {
    var g := f.(dataSize := 8, ptr := Null);
    var w := PayloadOf(f, v);
    assert FieldOk(g);
    DefaultShaped(g);
    IntPayload(f, v);
    WideMeaning(f, v);
    PayloadReads(g, w, DefaultValue(g), t);
    hide EncodeValue, DecodeValue, PayloadBytes, IntMeaning, InRange, PayloadOf, Half, DefaultValue, FieldOk;
  }

  lemma WideMeaning(f: Field, v: Value)
    requires Shaped(f, v) && f.ltype.Integer() && WidthOk(f.dataSize)
    ensures var g, w := f.(dataSize := 8, ptr := Null), PayloadOf(f, v);
            w.Word? && w.n < U64 && IntMeaning(g, w.n) == v.n && InRange(g, v.n)
  {
  }

  // --------------------------------------------------------------------- arrays

  function Chained(ps: seq<Payload>): seq<byte> {
    if ps == [] then [] else PayloadBytes(ps[0]) + Chained(ps[1..])
  }

  predicate AllOwn(f: Field, ps: seq<Payload>) {
    forall k :: 0 <= k < |ps| ==> Own(f, ps[k]) && PayloadOk(ps[k])
  }

  /** The array with the values of all payloads appended, if they can be stored and there is room. */
  function Appended(f: Field, ps: seq<Payload>, items: seq<Value>): (r: Option<seq<Value>>)
    requires FieldOk(f) && f.htype.Repeated? && SlotShaped(f, Rep(items)) && AllOwn(f, ps)
    ensures r.Some? ==> SlotShaped(f, Rep(r.value)) && |r.value| == |items| + |ps|
    decreases |ps|
  {
    if ps == [] then Some(items)
    else
      match SlotStored(f, ps[0], Rep(items))
      case None => None
      case Some(s) => Appended(f, ps[1..], s.items)
  }

  lemma {:induction false} PackedReads(f: Field, ps: seq<Payload>, items: seq<Value>)
    requires FieldOk(f) && f.htype.Repeated? && f.ltype.Packable() && SlotShaped(f, Rep(items)) && AllOwn(f, ps)
    ensures DecodePacked(f, Chained(ps), items) == Appended(f, ps, items)
    decreases |ps|
  {
    hide Stored, DecodeValue, DefaultValue, FieldOk;
    if ps != [] {
      var rest := Chained(ps[1..]);
      DefaultShaped(f);
      PayloadReads(f, ps[0], DefaultValue(f), rest);
      assert PayloadBytes(ps[0]) != [];
      var v := Stored(f, ps[0], DefaultValue(f));
      if v.Some? && |items| < f.arraySize { PackedReads(f, ps[1..], items + [v.value]); }
    }
  }

  /** One record for each payload. */
  function Singles(tag: nat, ps: seq<Payload>): (rs: seq<Record>)
    ensures |rs| == |ps|
  {
    seq(|ps|, k requires 0 <= k < |ps| => Record(tag, ps[k]))
  }

  lemma SetPlain(fs: seq<Field>, slots: seq<Slot>, i: nat, s: Slot)
    requires MessageShaped(fs, slots) && i < |fs| && SlotShaped(fs[i], s) && !fs[i].htype.Oneof?
    ensures SetSlot(fs, slots, i, s) == slots[i := s]
  {
  }

  /** What the two ways of writing an array come to. */
  function ArrayRead(fs: seq<Field>, i: nat, ps: seq<Payload>, t: seq<byte>, slots: seq<Slot>, seen: set<nat>): Decoded
    requires WellFormed(fs) && MessageShaped(fs, slots) && i < |fs| && fs[i].htype.Repeated? && AllOwn(fs[i], ps)
  {
    assert SlotShaped(fs[i], slots[i]);
    match Appended(fs[i], ps, slots[i].items)
    case None => Failed
    case Some(all) =>
      SetPlain(fs, slots, i, Rep(all));
      DecodeFields(fs, t, slots[i := Rep(all)], seen)
  }

  lemma {:induction false} SinglesRead(
    fs: seq<Field>, i: nat, ps: seq<Payload>, t: seq<byte>, slots: seq<Slot>, seen: set<nat>)
    requires WellFormed(fs) && MessageShaped(fs, slots) && i < |fs| && fs[i].htype.Repeated? && AllOwn(fs[i], ps)
    ensures DecodeFields(fs, Written(Singles(fs[i].tag, ps)) + t, slots, seen) == ArrayRead(fs, i, ps, t, slots, seen)
    decreases |ps|
  {
    var f, rs := fs[i], Singles(fs[i].tag, ps);
    assert SlotShaped(f, slots[i]) && FieldOk(f);
    if ps == [] {
      assert [] + t == t;
      assert slots[i := slots[i]] == slots;
    } else {
      FirstSingle(fs, i, ps, t, slots, seen);
      hide DecodeFields, SetSlot, SlotStored, RecordBytes, FieldOk, SlotShaped, MessageShaped, Singles;
      var s := SlotStored(f, ps[0], slots[i]);
      if s.Some? {
        SetPlain(fs, slots, i, s.value);
        var next := slots[i := s.value];
        SinglesRead(fs, i, ps[1..], t, next, seen);
        var all := Appended(f, ps[1..], s.value.items);
        assert all.Some? ==> next[i := Rep(all.value)] == slots[i := Rep(all.value)];
      }
    }
  }

  lemma FirstSingle(fs: seq<Field>, i: nat, ps: seq<Payload>, t: seq<byte>, slots: seq<Slot>, seen: set<nat>)
    requires WellFormed(fs) && MessageShaped(fs, slots) && i < |fs| && fs[i].htype.Repeated? && AllOwn(fs[i], ps)
    requires ps != [] && SlotShaped(fs[i], slots[i])
    ensures var tag, s := fs[i].tag, SlotStored(fs[i], ps[0], slots[i]);
            && (s.Some? ==> MessageShaped(fs, slots[i := s.value]) && s.value.Rep?)
            && DecodeFields(fs, Written(Singles(tag, ps)) + t, slots, seen) ==
                 if s.None? then Failed
                 else DecodeFields(fs, Written(Singles(tag, ps[1..])) + t, slots[i := s.value], seen)
  {
    var rs := Singles(fs[i].tag, ps);
    var rest := Written(rs[1..]) + t;
    assert rs[1..] == Singles(fs[i].tag, ps[1..]);
    assert Written(rs) + t == RecordBytes(rs[0]) + rest;
    FindUnique(fs, i);
    RecordReads(fs, rs[0], rest, slots, seen);
    var s := SlotStored(fs[i], ps[0], slots[i]);
    hide DecodeFields, RecordBytes;
    if s.Some? { SetPlain(fs, slots, i, s.value); }
  }

  /** An array field reads alike packed into one record and written as a record for each item, the form of
      older writers, also in part or after other items. */
  lemma PackedOrNot(fs: seq<Field>, i: nat, ps: seq<Payload>, t: seq<byte>, slots: seq<Slot>, seen: set<nat>)
    requires WellFormed(fs) && MessageShaped(fs, slots) && i < |fs| && fs[i].htype.Repeated?
    requires fs[i].ltype.Packable() && AllOwn(fs[i], ps) && |Chained(ps)| < U32
    ensures var packed, single := RecordBytes(Record(fs[i].tag, Text(Chained(ps)))), Written(Singles(fs[i].tag, ps));
            && DecodeFields(fs, packed + t, slots, seen) == DecodeFields(fs, single + t, slots, seen)
            && DecodeFields(fs, single + t, slots, seen) == ArrayRead(fs, i, ps, t, slots, seen)
  {
    var f, r, s := fs[i], Record(fs[i].tag, Text(Chained(ps))), slots[i];
    assert SlotShaped(f, s) && FieldOk(f);
    SinglesRead(fs, i, ps, t, slots, seen);
    var all := Appended(f, ps, s.items);
    PackedSlotReads(f, ps, s.items, t);
    TagFirst(r, t);
    FindUnique(fs, i);
    if all.Some? { SetPlain(fs, slots, i, Rep(all.value)); }
    hide Appended, SetSlot, DecodeSlot, Singles, Written, FieldOk, SlotShaped, RecordBytes, PayloadBytes, Chained;
  }

  lemma PackedSlotReads(f: Field, ps: seq<Payload>, items: seq<Value>, t: seq<byte>)
    requires FieldOk(f) && f.htype.Repeated? && f.ltype.Packable() && SlotShaped(f, Rep(items)) && AllOwn(f, ps)
    requires |Chained(ps)| < U32
    ensures var all := Appended(f, ps, items);
            DecodeSlot(f, WT_STRING, PayloadBytes(Text(Chained(ps))) + t, Rep(items))
              == if all.Some? then Ok(Rep(all.value), t) else Fail
  {
    PackedReads(f, ps, items);
    StringSkipped(Chained(ps), t);
    hide Appended, DecodePacked, FieldOk, SlotShaped, PayloadBytes, Chained, DecString;
  }

  lemma StringBytes(b: seq<byte>)
    requires |b| < U32
    ensures PayloadBytes(Text(b)) == EncString(b)
  {
    hide EncVarint;
  }
}
