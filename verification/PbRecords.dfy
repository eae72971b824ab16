/** The wire format of protocol buffers on its own: a message is a sequence of records, each a field number
    and a payload of one of four kinds. What pb_encode writes are the records of the message. */
module PbRecords {
  import opened Bits
  import opened Common
  import opened PbTypes
  import opened PbWire
  import opened PbFormat
  import opened PbRoundTrip
  import opened PbSpelling

  datatype Payload = Word(n: nat) | Eight(b: seq<byte>) | Text(b: seq<byte>) | Four(b: seq<byte>)

  datatype Record = Record(tag: nat, p: Payload)

  function WireNumber(p: Payload): nat {
    match p
    case Word(_) => 0
    case Eight(_) => 1
    case Text(_) => 2
    case Four(_) => 5
  }

  function PayloadBytes(p: Payload): seq<byte> {
    match p
    case Word(n) => EncVarint(n)
    case Text(b) => EncVarint(|b|) + b
    case Eight(b) => b
    case Four(b) => b
  }

  function RecordBytes(r: Record): (bs: seq<byte>)
    ensures bs != []
  {
    EncVarint(8 * r.tag + WireNumber(r.p)) + PayloadBytes(r.p)
  }

  function Written(rs: seq<Record>): seq<byte> {
    if rs == [] then [] else RecordBytes(rs[0]) + Written(rs[1..])
  }

  predicate PayloadOk(p: Payload) {
    match p
    case Word(n) => n < U64
    case Eight(b) => |b| == 8
    case Text(b) => |b| < U32
    case Four(b) => |b| == 4
  }

  predicate RecordOk(r: Record) { 0 < r.tag < MAX_TAG && PayloadOk(r.p) }

  lemma {:induction false} WrittenConcat(a: seq<Record>, b: seq<Record>)
    ensures Written(a + b) == Written(a) + Written(b)
    decreases |a|
  {
    if a == [] {
      assert a + b == b;
    } else {
      assert (a + b)[1..] == a[1..] + b;
      WrittenConcat(a[1..], b);
    }
  }

  lemma WrittenOne(r: Record)
    ensures Written([r]) == RecordBytes(r)
  {
    assert [r][1..] == [];
  }

  // ------------------------------------------------------ the records of a message

  /** The bytes of a number, the least first. */
  function Little(n: nat, k: nat): (b: seq<byte>)
    ensures |b| == k
  {
    seq(k, (i: nat) => ByteAt(n, i))
  }

  /** What stands for one value: signed numbers as 64-bit two's complement or zig-zag, the rest as they are. */
  function PayloadOf(f: Field, v: Value): Payload
    requires Shaped(f, v)
    decreases v, 0
  {
    match f.ltype
    case Varint => Word(if v.n >= 0 then v.n else v.n + U64)
    case UVarint => Word(v.n)
    case SVarint => Word(if v.n >= 0 then 2 * v.n else -2 * v.n - 1)
    case Fixed32 => Four(Little(v.n, 4))
    case Fixed64 => Eight(Little(v.n, 8))
    case Bytes => Text(v.b)
    case String => Text(CString(v.b, f.dataSize))
    case FixedLengthBytes => Text(v.b)
    case Submessage => Text(Written(MessageRecords(f.ptr.fields, v.slots, 0)))
  }

  /** Payloads from the k-th item on, one after the other. */
  function Packed(f: Field, items: seq<Value>, k: nat): seq<byte>
    requires k <= |items| && forall j :: 0 <= j < |items| ==> Shaped(f, items[j])
    decreases items, 1, |items| - k
  {
    if k == |items| then [] else PayloadBytes(PayloadOf(f, items[k])) + Packed(f, items, k + 1)
  }

  /** A proto3 field is silent about zero and about nothing. */
  predicate Silent(p: Payload) {
    match p
    case Word(n) => n == 0
    case Text(b) => b == []
    case Eight(b) => b == Little(0, 8)
    case Four(b) => b == Little(0, 4)
  }

  function SlotRecords(f: Field, s: Slot): seq<Record>
    requires SlotShaped(f, s)
    decreases s, 2
  {
    match f.htype
    case Required => [Record(f.tag, PayloadOf(f, s.v))]
    case Optional =>
      if f.sizeOffset == 0 then (if Silent(PayloadOf(f, s.v)) then [] else [Record(f.tag, PayloadOf(f, s.v))])
      else if s.has then [Record(f.tag, PayloadOf(f, s.w))]
      else []
    case Repeated =>
      if s.items == [] then []
      else if f.ltype.Packable() then [Record(f.tag, Text(Packed(f, s.items, 0)))]
      else seq(|s.items|, k requires 0 <= k < |s.items| => Record(f.tag, PayloadOf(f, s.items[k])))
    case Oneof => if s.m.Some? then [Record(f.tag, PayloadOf(f, s.m.value))] else []
  }

  /** The fields in the order of the table. */
  function MessageRecords(fs: seq<Field>, slots: seq<Slot>, i: nat): seq<Record>
    requires MessageShaped(fs, slots) && i <= |fs|
    decreases slots, 3, |fs| - i
  {
    if i == |fs| then [] else SlotRecords(fs[i], slots[i]) + MessageRecords(fs, slots, i + 1)
  }

  // ------------------------------------------------------- what has an encoding

  /** The encoder refuses integers of no C width, byte arrays beyond their storage and arrays beyond their
      capacity, and nothing else. */
  predicate Fits(f: Field, v: Value)
    requires Shaped(f, v)
    decreases v, 0
  {
    match f.ltype
    case Varint | UVarint | SVarint => WidthOk(f.dataSize)
    case Bytes => |v.b| + BYTES_HEADER <= f.dataSize
    case Submessage => MessageFits(f.ptr.fields, v.slots)
    case _ => true
  }

  predicate SlotFits(f: Field, s: Slot)
    requires SlotShaped(f, s)
    decreases s, 2
  {
    match f.htype
    case Required => Fits(f, s.v)
    case Optional =>
      if f.sizeOffset == 0 then Silent(PayloadOf(f, s.v)) || Fits(f, s.v) else s.has ==> Fits(f, s.w)
    case Repeated =>
      s.items == [] || (|s.items| <= f.arraySize && forall k | 0 <= k < |s.items| :: Fits(f, s.items[k]))
    case Oneof => s.m.Some? ==> Fits(f, s.m.value)
  }

  predicate MessageFits(fs: seq<Field>, slots: seq<Slot>)
    requires MessageShaped(fs, slots)
    decreases slots, 3
  {
    forall i | 0 <= i < |fs| :: SlotFits(fs[i], slots[i])
  }

  // ---------------------------------------------------- the encoder writes them

  lemma {:induction false} LittleIsFixed(n: nat, k: nat)
    ensures EncFixed(n, k) == Little(n, k)
  {
    forall i | 0 <= i < k ensures EncFixed(n, k)[i] == Little(n, k)[i] { EncFixedSpells(n, k, i); }
  }

  /** Only zero is spelled as zero. */
  lemma LittleZero(n: nat, k: nat)
    requires n < Pow2(8 * k)
    ensures Little(n, k) == Little(0, k) <==> n == 0
  {
    LittleIsFixed(n, k);
    LittleIsFixed(0, k);
    FixedRoundTrip(n, k);
    FixedRoundTrip(0, k);
  }

  lemma CStringEmpty(b: seq<byte>, max: nat)
    requires max > 0
    ensures CString(b, max) == [] <==> b == [] || b[0] == 0
  {
  }

  /** The word of an integer, for each of the three types. */
  lemma IntPayload(f: Field, v: Value)
    requires Shaped(f, v) && f.ltype.Integer()
    ensures WidthOk(f.dataSize) ==> EncodeValue(f, v) == Some(PayloadBytes(PayloadOf(f, v)))
    ensures !WidthOk(f.dataSize) ==> EncodeValue(f, v).None?
    ensures PayloadOk(PayloadOf(f, v)) && (PayloadOf(f, v).n == 0 <==> v.n == 0)
  {
    if f.ltype.SVarint? {
      ZigZagRoundTrip(v.n);
      hide ZigZag;
    }
  }

  lemma FixedPayload(f: Field, v: Value)
    requires Shaped(f, v) && (f.ltype.Fixed32? || f.ltype.Fixed64?)
    ensures EncodeValue(f, v) == Some(PayloadBytes(PayloadOf(f, v)))
    ensures PayloadOk(PayloadOf(f, v)) && (Silent(PayloadOf(f, v)) <==> v.n == 0)
  {
    var k := if f.ltype.Fixed32? then 4 else 8;
    Powers();
    hide Pow2;
    LittleIsFixed(v.n, k);
    LittleZero(v.n, k);
  }

  lemma {:induction false} ValueWrites(f: Field, v: Value)
    requires FieldOk(f) && Shaped(f, v) && Terminated(f, v)
    ensures EncodeValue(f, v).Some? <==> Fits(f, v)
    ensures EncodeValue(f, v).Some? && |EncodeValue(f, v).value| < U32 ==>
              EncodeValue(f, v).value == PayloadBytes(PayloadOf(f, v)) && PayloadOk(PayloadOf(f, v))
    ensures ZeroValue(f, v) <==> Silent(PayloadOf(f, v))
    ensures WireNumber(PayloadOf(f, v)) == WireType(f.ltype)
    decreases v, 0
  {
    hide EncodeValue, PayloadOf, Fits, ZeroValue, Silent, PayloadBytes, EncodeFrom, MessageRecords;
    if f.ltype.Submessage? {
      assert WellFormed(f.ptr.fields) && AllTerminated(f.ptr.fields, v.slots);
      MessageWrites(f.ptr.fields, v.slots, 0);
      SubmessageWrites(f, v);
    } else {
      ScalarWrites(f, v);
    }
  }

  /** A nested message is written when its records are. */
  lemma SubmessageWrites(f: Field, v: Value)
    requires Shaped(f, v) && f.ltype.Submessage?
    requires var fs, slots := f.ptr.fields, v.slots;
             && (EncodeFrom(fs, slots, 0).Some? <==> MessageFits(fs, slots))
             && (EncodeFrom(fs, slots, 0).Some? && |EncodeFrom(fs, slots, 0).value| < U32 ==>
                   EncodeFrom(fs, slots, 0).value == Written(MessageRecords(fs, slots, 0)))
             && (MessageRecords(fs, slots, 0) == [] <==> EmptyMessage(fs, slots))
    ensures EncodeValue(f, v).Some? <==> Fits(f, v)
    ensures EncodeValue(f, v).Some? && |EncodeValue(f, v).value| < U32 ==>
              EncodeValue(f, v).value == PayloadBytes(PayloadOf(f, v)) && PayloadOk(PayloadOf(f, v))
    ensures ZeroValue(f, v) <==> Silent(PayloadOf(f, v))
    ensures WireNumber(PayloadOf(f, v)) == WireType(f.ltype)
  {
    var bytes := Written(MessageRecords(f.ptr.fields, v.slots, 0));
    WrittenEmpty(MessageRecords(f.ptr.fields, v.slots, 0));
    NestedParts(f, v);
    TextIsString(bytes);
    hide EncodeValue, PayloadOf, Fits, ZeroValue, Shaped, MessageShaped, PayloadBytes, PayloadOk, Silent, EncString;
    hide EncodeFrom, MessageRecords, Written, MessageFits, EmptyMessage;
  }

  lemma TextIsString(b: seq<byte>)
    ensures |b| < U32 ==> PayloadBytes(Text(b)) == EncString(b) && PayloadOk(Text(b))
    ensures Silent(Text(b)) <==> b == []
  {
    hide EncVarint;
  }

  lemma NestedParts(f: Field, v: Value)
    requires Shaped(f, v) && f.ltype.Submessage?
    ensures var fs, slots := f.ptr.fields, v.slots;
            && EncodeValue(f, v) == (var body := EncodeFrom(fs, slots, 0);
                                     if body.Some? then Some(EncString(body.value)) else None)
            && PayloadOf(f, v) == Text(Written(MessageRecords(fs, slots, 0)))
            && Fits(f, v) == MessageFits(fs, slots) && ZeroValue(f, v) == EmptyMessage(fs, slots)
  {
    hide EncodeFrom, MessageRecords, Written, MessageFits, EmptyMessage, EncString;
  }

  lemma WrittenEmpty(rs: seq<Record>)
    ensures Written(rs) == [] <==> rs == []
  {
  }

  lemma ScalarWrites(f: Field, v: Value)
    requires FieldOk(f) && Shaped(f, v) && Terminated(f, v) && !f.ltype.Submessage?
    ensures EncodeValue(f, v).Some? <==> Fits(f, v)
    ensures EncodeValue(f, v).Some? && |EncodeValue(f, v).value| < U32 ==>
              EncodeValue(f, v).value == PayloadBytes(PayloadOf(f, v)) && PayloadOk(PayloadOf(f, v))
    ensures ZeroValue(f, v) <==> Silent(PayloadOf(f, v))
    ensures WireNumber(PayloadOf(f, v)) == WireType(f.ltype)
  {
    hide EncVarint, EncFixed, Little, ToU64, ZigZag;
    if f.ltype.Integer() { IntPayload(f, v); }
    else if f.ltype.Fixed32? || f.ltype.Fixed64? { FixedPayload(f, v); }
    else if f.ltype.String? { CStringEmpty(v.b, f.dataSize); }
  }

  lemma {:induction false} TaggedWrites(f: Field, v: Value)
    requires FieldOk(f) && Shaped(f, v) && Terminated(f, v)
    ensures EncodeTagged(f, v).Some? <==> Fits(f, v)
    ensures EncodeTagged(f, v).Some? && |EncodeTagged(f, v).value| < U32 ==>
              var r := Record(f.tag, PayloadOf(f, v));
              EncodeTagged(f, v).value == RecordBytes(r) == Written([r]) && RecordOk(r)
    decreases v, 1
  {
    hide EncodeValue, PayloadOf, EncVarint;
    ValueWrites(f, v);
    EncTagSpells(WireType(f.ltype), f.tag);
    WrittenOne(Record(f.tag, PayloadOf(f, v)));
  }

  lemma {:induction false} PackedWrites(f: Field, items: seq<Value>, k: nat)
    requires FieldOk(f) && k <= |items|
    requires forall j :: 0 <= j < |items| ==> Shaped(f, items[j]) && Terminated(f, items[j])
    ensures EncodeItems(f, items, false, k).Some? <==> forall j :: k <= j < |items| ==> Fits(f, items[j])
    ensures EncodeItems(f, items, false, k).Some? && |EncodeItems(f, items, false, k).value| < U32 ==>
              EncodeItems(f, items, false, k).value == Packed(f, items, k)
    decreases items, 2, |items| - k
  {
    hide EncodeValue, PayloadOf, Fits, PayloadBytes;
    if k < |items| {
      ValueWrites(f, items[k]);
      PackedWrites(f, items, k + 1);
    }
  }

  /** Each item as a record of its own. */
  function ItemRecords(f: Field, items: seq<Value>): (rs: seq<Record>)
    requires forall j :: 0 <= j < |items| ==> Shaped(f, items[j])
    ensures |rs| == |items|
  {
    seq(|items|, k requires 0 <= k < |items| => Record(f.tag, PayloadOf(f, items[k])))
  }

  lemma {:induction false} ItemsWrite(f: Field, items: seq<Value>, k: nat)
    requires FieldOk(f) && k <= |items|
    requires forall j :: 0 <= j < |items| ==> Shaped(f, items[j]) && Terminated(f, items[j])
    ensures EncodeItems(f, items, true, k).Some? <==> forall j :: k <= j < |items| ==> Fits(f, items[j])
    ensures EncodeItems(f, items, true, k).Some? && |EncodeItems(f, items, true, k).value| < U32 ==>
              && EncodeItems(f, items, true, k).value == Written(ItemRecords(f, items)[k..])
              && forall j :: k <= j < |items| ==> RecordOk(ItemRecords(f, items)[j])
    decreases items, 2, |items| - k
  {
    hide EncodeTagged, PayloadOf, Fits, RecordBytes;
    var rs := ItemRecords(f, items);
    if k < |items| {
      TaggedWrites(f, items[k]);
      ItemsWrite(f, items, k + 1);
      assert rs[k..][0] == Record(f.tag, PayloadOf(f, items[k])) && rs[k..][1..] == rs[k + 1..];
    }
  }

  lemma {:induction false} ArrayWrites(f: Field, items: seq<Value>)
    requires FieldOk(f) && f.htype.Repeated? && items != []
    requires forall j :: 0 <= j < |items| ==> Shaped(f, items[j]) && Terminated(f, items[j])
    ensures EncodeArray(f, items).Some? <==>
              |items| <= f.arraySize && forall j :: 0 <= j < |items| ==> Fits(f, items[j])
    ensures EncodeArray(f, items).Some? && |EncodeArray(f, items).value| < U32 ==>
              && EncodeArray(f, items).value == Written(SlotRecords(f, Rep(items)))
              && forall r :: r in SlotRecords(f, Rep(items)) ==> RecordOk(r)
    decreases items, 3
  {
    hide EncodeItems, Packed, PayloadOf, Fits, EncVarint;
    if f.ltype.Packable() {
      PackedWrites(f, items, 0);
      EncTagSpells(WT_STRING, f.tag);
      WrittenOne(Record(f.tag, Text(Packed(f, items, 0))));
    } else {
      ItemsWrite(f, items, 0);
      assert ItemRecords(f, items)[0..] == SlotRecords(f, Rep(items));
    }
  }

  lemma {:induction false} SlotWrites(f: Field, s: Slot)
    requires FieldOk(f) && SlotShaped(f, s) && SlotTerminated(f, s)
    ensures EncodeSlot(f, s).Some? <==> SlotFits(f, s)
    ensures EncodeSlot(f, s).Some? && |EncodeSlot(f, s).value| < U32 ==>
              && EncodeSlot(f, s).value == Written(SlotRecords(f, s))
              && forall r :: r in SlotRecords(f, s) ==> RecordOk(r)
    ensures EmptySlot(f, s) <==> SlotRecords(f, s) == []
    decreases s, 4
  {
    assert s.Rep? && s.items == [] ==> EncodeArray(f, s.items) == Some([]);
    hide EncodeTagged, PayloadOf, Fits, ZeroValue, EncodeArray, RecordBytes, Silent;
    match s
    case Single(v) => ValueWrites(f, v); TaggedWrites(f, v);
    case Opt(has, w) => if has { TaggedWrites(f, w); }
    case Rep(items) => if items != [] { ArrayWrites(f, items); }
    case Member(m) => if m.Some? { TaggedWrites(f, m.value); }
  }

  /** The encoder accepts exactly the messages that fit, and writes exactly their records. */
  lemma {:induction false} MessageWrites(fs: seq<Field>, slots: seq<Slot>, i: nat)
    requires WellFormed(fs) && MessageShaped(fs, slots) && AllTerminated(fs, slots) && i <= |fs|
    ensures EncodeFrom(fs, slots, i).Some? <==> forall j :: i <= j < |fs| ==> SlotFits(fs[j], slots[j])
    ensures EncodeFrom(fs, slots, i).Some? && |EncodeFrom(fs, slots, i).value| < U32 ==>
              && EncodeFrom(fs, slots, i).value == Written(MessageRecords(fs, slots, i))
              && forall r :: r in MessageRecords(fs, slots, i) ==> RecordOk(r)
    ensures MessageRecords(fs, slots, i) == [] <==> forall j :: i <= j < |fs| ==> EmptySlot(fs[j], slots[j])
    decreases slots, 5, |fs| - i
  {
    hide EncodeSlot, SlotRecords, SlotFits, EmptySlot, RecordOk, SlotTerminated, SlotShaped, FieldOk;
    if i < |fs| {
      SlotWrites(fs[i], slots[i]);
      MessageWrites(fs, slots, i + 1);
      WrittenConcat(SlotRecords(fs[i], slots[i]), MessageRecords(fs, slots, i + 1));
    }
  }

  /** The encoding of a message: there is one exactly if everything that is present fits, and it is the
      records of the message in the order of the table. */
  lemma EncodesRecords(fs: seq<Field>, slots: seq<Slot>)
    requires WellFormed(fs) && MessageShaped(fs, slots) && AllTerminated(fs, slots)
    ensures Encode(fs, slots).Some? <==> MessageFits(fs, slots)
    ensures Encode(fs, slots).Some? && |Encode(fs, slots).value| < U32 ==>
              && Encode(fs, slots).value == Written(MessageRecords(fs, slots, 0))
              && forall r :: r in MessageRecords(fs, slots, 0) ==> RecordOk(r)
  {
    MessageWrites(fs, slots, 0);
  }

  /** The bytes before the terminator: a prefix without zero that cannot be longer. */
  lemma {:induction false} CStringExactly(b: seq<byte>, max: nat)
    ensures var s := CString(b, max);
            && s <= b && |s| <= max && (forall i :: 0 <= i < |s| ==> s[i] != 0)
            && (|s| == max || |s| == |b| || b[|s|] == 0)
    decreases |b|
  {
    if b != [] && b[0] != 0 && max != 0 { CStringExactly(b[1..], max - 1); }
  }
}
