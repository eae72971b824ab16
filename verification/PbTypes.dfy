/** Field descriptors and message values of nanopb, static allocation only.
    A descriptor is the table generated for a message type without its terminating
    zero-tag entry; a message is one slot per descriptor entry. */
module PbTypes {
  import opened Bits
  import opened Common

  datatype HType = Required | Optional | Repeated | Oneof

  datatype LType = Varint | UVarint | SVarint | Fixed32 | Fixed64
    | Bytes | String | Submessage | FixedLengthBytes
  {
    predicate Integer() { Varint? || UVarint? || SVarint? }

    predicate Packable() { Integer() || Fixed32? || Fixed64? }
  }

  /** The ptr member: submessage descriptor, default value, or null. */
  datatype Ptr = Null | Sub(fields: seq<Field>) | Default(v: Value)

  datatype Field = Field(
    tag: nat,
    htype: HType,
    ltype: LType,
    dataOffset: nat,
    sizeOffset: int,
    dataSize: nat,
    arraySize: nat,
    ptr: Ptr)
  {
    /** Optional without a has_ flag: a proto3 singular field. */
    predicate Proto3() { htype.Optional? && sizeOffset == 0 }
  }

  datatype Value = Num(n: int) | Blob(b: seq<byte>) | Msg(slots: seq<Slot>)

  /** Storage of one field: a bare value, a value with its has_ flag, the counted
      part of an array, or a oneof member (None when which_ names another tag). */
  datatype Slot = Single(v: Value) | Opt(has: bool, w: Value)
    | Rep(items: seq<Value>) | Member(m: Option<Value>)

  const SIZE_MAX := 0xffff_ffff        // pb_size_t with PB_FIELD_32BIT
  const BYTES_HEADER := 4              // offsetof(pb_bytes_array_t, bytes)
  const MAX_TAG := 0x2000_0000         // field numbers of the protobuf language
  const MAX_REQUIRED := 64             // PB_MAX_REQUIRED_FIELDS

  // ---------------------------------------------------------------- descriptors

  /** A descriptor as the generator emits it: non-zero distinct tags, submessages with
      a table, arrays with a count, oneof members with a which_ field, integers with a size. */
  ghost predicate WellFormed(fs: seq<Field>)
    decreases fs
  {
    && (forall i :: 0 <= i < |fs| ==> FieldOk(fs[i]))
    && (forall i, j :: 0 <= i < j < |fs| ==> fs[i].tag != fs[j].tag)
  }

  ghost predicate FieldOk(f: Field)
    decreases f
  {
    && 0 < f.tag < MAX_TAG && f.dataSize <= SIZE_MAX && f.arraySize <= SIZE_MAX
    && (f.htype.Repeated? || f.htype.Oneof? ==> f.sizeOffset != 0)
    && (f.htype.Required? ==> f.sizeOffset == 0)
    && (f.ltype.Submessage? ==> f.ptr.Sub? && WellFormed(f.ptr.fields))
    && (!f.ltype.Submessage? ==> !f.ptr.Sub?)
    && (f.ltype.Integer() ==> f.dataSize > 0)
    && (f.ptr.Default? ==> !f.Proto3() && Shaped(f, f.ptr.v))
  }

  // --------------------------------------------------------------------- values

  predicate WidthOk(size: nat) { size == 1 || size == 2 || size == 4 || size == 8 }

  function Half(size: nat): int {
    if size == 1 then 0x80 else if size == 2 then 0x8000
    else if size == 4 then 0x8000_0000 else 0x8000_0000_0000_0000
  }

  /** The value fits the C member the descriptor entry describes. */
  ghost predicate Shaped(f: Field, v: Value)
    decreases v
  {
    match f.ltype
    case Varint | SVarint => v.Num? && -Half(f.dataSize) <= v.n < Half(f.dataSize)
    case UVarint => v.Num? && 0 <= v.n < 2 * Half(f.dataSize)
    case Fixed32 => v.Num? && 0 <= v.n < U32
    case Fixed64 => v.Num? && 0 <= v.n < U64
    case Bytes => v.Blob? && |v.b| <= SIZE_MAX
    case String => v.Blob?
    case FixedLengthBytes => v.Blob? && |v.b| == f.dataSize
    case Submessage => v.Msg? && f.ptr.Sub? && MessageShaped(f.ptr.fields, v.slots)
  }

  ghost predicate SlotShaped(f: Field, s: Slot)
    decreases s
  {
    match f.htype
    case Required => s.Single? && Shaped(f, s.v)
    case Optional => if f.sizeOffset == 0 then s.Single? && Shaped(f, s.v) else s.Opt? && Shaped(f, s.w)
    case Repeated => s.Rep? && forall k :: 0 <= k < |s.items| ==> Shaped(f, s.items[k])
    case Oneof => s.Member? && (s.m.Some? ==> Shaped(f, s.m.value))
  }

  ghost predicate MessageShaped(fs: seq<Field>, slots: seq<Slot>)
    decreases slots
  {
    && |slots| == |fs|
    && (forall i :: 0 <= i < |fs| ==> SlotShaped(fs[i], slots[i]))
    && (forall i, j :: 0 <= i < j < |fs| && SameUnion(fs, i, j) ==> !(Active(slots[i]) && Active(slots[j])))
  }

  predicate Active(s: Slot) { s.Member? && s.m.Some? }

  /** Entry i stores its data in the union of entry i - 1 (pb_field_iter_next). */
  predicate Joined(fs: seq<Field>, i: nat)
    requires i < |fs|
  {
    i > 0 && fs[i - 1].htype.Oneof? && fs[i].htype.Oneof? && fs[i].dataOffset == SIZE_MAX
  }

  function UnionStart(fs: seq<Field>, i: nat): (u: nat)
    requires i < |fs|
    ensures u <= i
  {
    if Joined(fs, i) then UnionStart(fs, i - 1) else i
  }

  predicate SameUnion(fs: seq<Field>, i: nat, j: nat)
    requires i < |fs| && j < |fs|
  {
    fs[i].htype.Oneof? && fs[j].htype.Oneof? && UnionStart(fs, i) == UnionStart(fs, j)
  }

  // ------------------------------------------------------------------- defaults

  function Zeros(n: nat): (z: seq<byte>)
    ensures |z| == n
  {
    seq(n, _ => 0)
  }

  /** What pb_field_set_to_default leaves in the data of a non-repeated field. */
  function DefaultValue(f: Field): (v: Value)
    decreases f, 0
  {
    match f.ltype
    case Submessage => Msg(if f.ptr.Sub? then Defaults(f.ptr.fields) else [])
    case _ =>
      if f.ptr.Default? then f.ptr.v
      else match f.ltype
        case Bytes | String => Blob([])
        case FixedLengthBytes => Blob(Zeros(f.dataSize))
        case _ => Num(0)
  }

  function DefaultSlot(f: Field): (s: Slot)
    decreases f, 1
  {
    match f.htype
    case Required => Single(DefaultValue(f))
    case Optional => if f.sizeOffset == 0 then Single(DefaultValue(f)) else Opt(false, DefaultValue(f))
    case Repeated => Rep([])
    case Oneof => Member(None)
  }

  function Defaults(fs: seq<Field>): (s: seq<Slot>)
    ensures |s| == |fs|
    ensures forall i :: 0 <= i < |fs| ==> s[i] == DefaultSlot(fs[i])
    decreases fs
  {
    seq(|fs|, i requires 0 <= i < |fs| => DefaultSlot(fs[i]))
  }

  lemma {:induction false} DefaultShaped(f: Field)
    requires FieldOk(f)
    ensures Shaped(f, DefaultValue(f))
    decreases f, 0
  {
    if f.ltype.Submessage? { DefaultsShaped(f.ptr.fields); }
  }

  lemma {:induction false} DefaultsShaped(fs: seq<Field>)
    requires WellFormed(fs)
    ensures MessageShaped(fs, Defaults(fs))
    decreases fs
  {
    var s := Defaults(fs);
    forall i | 0 <= i < |fs| ensures SlotShaped(fs[i], s[i]) {
      DefaultShaped(fs[i]);
    }
  }

  // ------------------------------------------------------------------- iterator

  /** Position of the entry with the given tag. */
  function Find(fs: seq<Field>, tag: nat): (r: Option<nat>)
    ensures r.Some? ==> r.value < |fs| && fs[r.value].tag == tag
    ensures r.None? ==> forall i :: 0 <= i < |fs| ==> fs[i].tag != tag
  {
    FindFrom(fs, tag, 0)
  }

  function FindFrom(fs: seq<Field>, tag: nat, i: nat): (r: Option<nat>)
    requires i <= |fs|
    ensures r.Some? ==> i <= r.value < |fs| && fs[r.value].tag == tag
    ensures r.None? ==> forall k :: i <= k < |fs| ==> fs[k].tag != tag
    decreases |fs| - i
  {
    if i == |fs| then None
    else if fs[i].tag == tag then Some(i)
    else FindFrom(fs, tag, i + 1)
  }

  lemma FindUnique(fs: seq<Field>, i: nat)
    requires WellFormed(fs) && i < |fs|
    ensures Find(fs, fs[i].tag) == Some(i)
  {
  }

  /** Number of required entries before entry i: required_field_index at i. */
  function RequiredIndex(fs: seq<Field>, i: nat): (r: nat)
    requires i <= |fs|
    ensures r <= i
  {
    if i == 0 then 0
    else RequiredIndex(fs, i - 1) + B2N(fs[i - 1].htype.Required?)
  }

  /** The entries decoding must have seen: the first 64 required ones. */
  predicate MustSee(fs: seq<Field>, i: nat)
    requires i < |fs|
  {
    fs[i].htype.Required? && RequiredIndex(fs, i) < MAX_REQUIRED
  }

  predicate RequiredSeen(fs: seq<Field>, seen: set<nat>) {
    forall i | 0 <= i < |fs| && MustSee(fs, i) :: i in seen
  }
}
