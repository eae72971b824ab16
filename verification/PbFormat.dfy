/** The bytes pb_encode produces for a message, as a function of descriptor and message.
    None stands for the encoder's error returns other than "stream full". */
module PbFormat {
  import opened Bits
  import opened Common
  import opened PbTypes
  import opened PbWire

  /** strnlen: the bytes before the first NUL, at most max of them. */
  function CString(b: seq<byte>, max: nat): (s: seq<byte>)
    ensures |s| <= |b| && |s| <= max
  {
    if b == [] || b[0] == 0 || max == 0 then [] else [b[0]] + CString(b[1..], max - 1)
  }

  function WireType(l: LType): (wt: nat)
    ensures wt < 8
  {
    match l
    case Varint | UVarint | SVarint => WT_VARINT
    case Fixed32 => WT_32BIT
    case Fixed64 => WT_64BIT
    case Bytes | String | Submessage | FixedLengthBytes => WT_STRING
  }

  function Cat(a: Option<seq<byte>>, b: Option<seq<byte>>): Option<seq<byte>> {
    if a.Some? && b.Some? then Some(a.value + b.value) else None
  }

  lemma CatAssoc(a: Option<seq<byte>>, b: Option<seq<byte>>, c: Option<seq<byte>>)
    ensures Cat(a, Cat(b, c)) == Cat(Cat(a, b), c)
    ensures Cat(Some([]), a) == a == Cat(a, Some([]))
  {
    if a.Some? && b.Some? && c.Some? {
      assert a.value + (b.value + c.value) == (a.value + b.value) + c.value;
    }
    if a.Some? { assert [] + a.value == a.value == a.value + []; }
  }

  /** Payload of one value, without its tag. */
  function EncodeValue(f: Field, v: Value): Option<seq<byte>>
    requires Shaped(f, v)
    decreases v, 0
  {
    match f.ltype
    case Varint => if WidthOk(f.dataSize) then Some(EncVarint(ToU64(v.n))) else None
    case UVarint => if WidthOk(f.dataSize) then Some(EncVarint(v.n)) else None
    case SVarint => if WidthOk(f.dataSize) then Some(EncVarint(ZigZag(v.n))) else None
    case Fixed32 => Some(EncFixed(v.n, 4))
    case Fixed64 => Some(EncFixed(v.n, 8))
    case Bytes => if |v.b| + BYTES_HEADER > f.dataSize then None else Some(EncString(v.b))
    case String => Some(EncString(CString(v.b, f.dataSize)))
    case FixedLengthBytes => Some(EncString(v.b))
    case Submessage =>
      var body := EncodeFrom(f.ptr.fields, v.slots, 0);
      if body.Some? then Some(EncString(body.value)) else None
  }

  function EncodeTagged(f: Field, v: Value): Option<seq<byte>>
    requires Shaped(f, v)
    decreases v, 1
  {
    Cat(Some(EncTag(WireType(f.ltype), f.tag)), EncodeValue(f, v))
  }

  /** The entries of an array from the k-th, each with its tag or bare (packed). */
  function EncodeItems(f: Field, items: seq<Value>, tagged: bool, k: nat): Option<seq<byte>>
    requires k <= |items|
    requires forall j :: 0 <= j < |items| ==> Shaped(f, items[j])
    decreases items, 2, |items| - k
  {
    if k == |items| then Some([])
    else Cat(if tagged then EncodeTagged(f, items[k]) else EncodeValue(f, items[k]),
             EncodeItems(f, items, tagged, k + 1))
  }

  function EncodeArray(f: Field, items: seq<Value>): Option<seq<byte>>
    requires forall j :: 0 <= j < |items| ==> Shaped(f, items[j])
    decreases items, 3
  {
    if items == [] then Some([])
    else if |items| > f.arraySize then None
    else if f.ltype.Packable() then
      var body := EncodeItems(f, items, false, 0);
      if body.Some? then Some(EncTag(WT_STRING, f.tag) + EncString(body.value)) else None
    else EncodeItems(f, items, true, 0)
  }

  /** pb_check_proto3_default_value on the data of a singular field. */
  predicate ZeroValue(f: Field, v: Value)
    requires Shaped(f, v)
    decreases v, 0
  {
    match f.ltype
    case Bytes => v.b == []
    case String => v.b == [] || v.b[0] == 0
    case FixedLengthBytes => f.dataSize == 0
    case Submessage => EmptyMessage(f.ptr.fields, v.slots)
    case _ => v.n == 0
  }

  predicate EmptyMessage(fs: seq<Field>, slots: seq<Slot>)
    requires MessageShaped(fs, slots)
    decreases slots, 2
  {
    forall i | 0 <= i < |fs| :: EmptySlot(fs[i], slots[i])
  }

  /** pb_check_proto3_default_value on one field; for the members of a oneof the
      conjunction over the whole message says that which_ is zero. */
  predicate EmptySlot(f: Field, s: Slot)
    requires SlotShaped(f, s)
    decreases s, 1
  {
    match s
    case Single(v) => !f.htype.Required? && ZeroValue(f, v)
    case Opt(has, _) => !has
    case Rep(items) => items == []
    case Member(m) => m.None?
  }

  function EncodeSlot(f: Field, s: Slot): Option<seq<byte>>
    requires SlotShaped(f, s)
    decreases s, 4
  {
    match s
    case Single(v) => if f.htype.Optional? && ZeroValue(f, v) then Some([]) else EncodeTagged(f, v)
    case Opt(has, w) => if has then EncodeTagged(f, w) else Some([])
    case Rep(items) => EncodeArray(f, items)
    case Member(m) => if m.Some? then EncodeTagged(f, m.value) else Some([])
  }

  /** The fields of a message from the i-th descriptor entry on. */
  function EncodeFrom(fs: seq<Field>, slots: seq<Slot>, i: nat): Option<seq<byte>>
    requires MessageShaped(fs, slots) && i <= |fs|
    decreases slots, 5, |fs| - i
  {
    if i == |fs| then Some([])
    else Cat(EncodeSlot(fs[i], slots[i]), EncodeFrom(fs, slots, i + 1))
  }

  function Encode(fs: seq<Field>, slots: seq<Slot>): Option<seq<byte>>
    requires MessageShaped(fs, slots)
  {
    EncodeFrom(fs, slots, 0)
  }
}
