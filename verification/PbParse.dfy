/** What pb_decode makes of a byte sequence, as a function: decoding is a fold over the
    fields on the wire, each step updating one slot of the destination. */
module PbParse {
  import opened Bits
  import opened Common
  import opened PbTypes
  import opened PbWire

  /** Outcome of the field loop: the destination, the required entries seen, the unread
      bytes, and whether a zero tag ended the message. */
  datatype Decoded = Failed
    | Done(slots: seq<Slot>, seen: set<nat>, rest: seq<byte>, stopped: bool)

  /** Reading an integer into a member of the described width, rejecting overflow. */
  function StoreInt(f: Field, v: nat): Option<Value>
    requires v < U64
  {
    if !WidthOk(f.dataSize) then None
    else match f.ltype
      case Varint =>
        var sv := ToSigned(v, if f.dataSize == 8 then 8 else 4);
        var clamped := ToSigned(ToU64(sv), f.dataSize);
        if clamped == sv then Some(Num(clamped)) else None
      case SVarint =>
        var sv := UnZigZag(v);
        UnZigZagRoundTrip(v);
        var clamped := ToSigned(ToU64(sv), f.dataSize);
        if clamped == sv then Some(Num(clamped)) else None
      case _ =>
        var clamped := v % (2 * Half(f.dataSize));
        if clamped == v then Some(Num(clamped)) else None
  }

  /** The integer that a word on the wire stands for: the word itself, its zig-zag value, or its two's
      complement value, of which fields of up to 32 bits look at the low 32 bits. */
  function IntMeaning(f: Field, v: nat): int
    requires v < U64
  {
    match f.ltype
    case Varint =>
      if f.dataSize == 8 then (if v < Half(8) then v else v - U64)
      else (if v % U32 < Half(4) then v % U32 else v % U32 - U32)
    case SVarint => if v % 2 == 0 then v / 2 else -(v / 2) - 1
    case _ => v
  }

  /** The values of the C member the field describes. */
  predicate InRange(f: Field, n: int) {
    && WidthOk(f.dataSize)
    && if f.ltype.Varint? || f.ltype.SVarint? then -Half(f.dataSize) <= n < Half(f.dataSize)
       else 0 <= n < 2 * Half(f.dataSize)
  }

  /** A word is stored exactly when what it stands for is in the member's range, and then as that. */
  lemma StoreIntRange(f: Field, v: nat)
    requires v < U64 && f.ltype.Integer()
    ensures StoreInt(f, v) == if InRange(f, IntMeaning(f, v)) then Some(Num(IntMeaning(f, v))) else None
  {
    if WidthOk(f.dataSize) && !f.ltype.UVarint? {
      SignedMeaning(f, v);
      hide ToSigned, UnZigZag, IntMeaning, ToU64;
      ClampKeeps(IntMeaning(f, v), f.dataSize);
    }
  }

  /** The cast to a signed width keeps exactly the values of that width. */
  lemma ClampKeeps(n: int, size: nat)
    requires WidthOk(size) && -Half(8) <= n < Half(8)
    ensures ToSigned(ToU64(n), size) == n <==> -Half(size) <= n < Half(size)
  {
    if -Half(size) <= n < Half(size) {
      SignedClamp(n, size);
    } else {
      SignedBounds(ToU64(n), size);
    }
  }

  lemma SignedMeaning(f: Field, v: nat)
    requires v < U64 && (f.ltype.Varint? || f.ltype.SVarint?) && WidthOk(f.dataSize)
    ensures -Half(8) <= IntMeaning(f, v) < Half(8)
    ensures f.ltype.Varint? ==> ToSigned(v, if f.dataSize == 8 then 8 else 4) == IntMeaning(f, v)
    ensures f.ltype.SVarint? ==> UnZigZag(v) == IntMeaning(f, v)
  {
    if f.ltype.SVarint? {
      UnZigZagMeaning(v);
      hide UnZigZag;
    } else if f.dataSize == 8 {
      ToSignedBelow(v, 8);
      hide ToSigned;
    }
  }

  lemma SignedBounds(n: nat, size: nat)
    requires WidthOk(size)
    ensures -Half(size) <= ToSigned(n, size) < Half(size)
  {
  }

  /** One value of the field's type; was is what the destination held, which matters
      only to submessages: they are merged into it. */
  function DecodeValue(f: Field, bs: seq<byte>, was: Value): (r: Parse<Value>)
    requires FieldOk(f) && Shaped(f, was)
    ensures r.Ok? ==> Shaped(f, r.value) && |r.rest| < |bs|
    decreases |bs|, 0
  {
    match f.ltype
    case Varint | UVarint | SVarint =>
      (match DecVarint(bs)
       case Fail => Fail
       case Ok(n, rest) =>
         var v := StoreInt(f, n);
         if v.Some? then Ok(v.value, rest) else Fail)
    case Fixed32 => Fixed(bs, 4)
    case Fixed64 => Fixed(bs, 8)
    case Bytes =>
      (match DecVarint32(bs)
       case Fail => Fail
       case Ok(n, rest) => if n + BYTES_HEADER > f.dataSize then Fail else Blobbed(DecBytes(rest, n)))
    case String =>
      (match DecVarint32(bs)
       case Fail => Fail
       case Ok(n, rest) =>
         var alloc := (n + 1) % U32;
         if alloc < n || alloc > f.dataSize then Fail else Blobbed(DecBytes(rest, n)))
    case FixedLengthBytes =>
      (match DecVarint32(bs)
       case Fail => Fail
       case Ok(n, rest) =>
         if n == 0 then Ok(Blob(Zeros(f.dataSize)), rest)
         else if n != f.dataSize then Fail
         else Blobbed(DecBytes(rest, n)))
    case Submessage =>
      (match DecString(bs)
       case Fail => Fail
       case Ok(sub, rest) =>
         match DecodeMessage(f.ptr.fields, sub, was.slots)
         case Fail => Fail
         case Ok(slots, _) => Ok(Msg(slots), rest))
  }

  function Fixed(bs: seq<byte>, k: nat): (r: Parse<Value>)
    requires k == 4 || k == 8
    ensures r.Ok? ==> |r.rest| + k == |bs| && r.value.Num? && 0 <= r.value.n < if k == 4 then U32 else U64
  {
    Powers();
    match DecFixed(bs, k)
    case Fail => Fail
    case Ok(n, rest) => Ok(Num(n), rest)
  }

  function Blobbed(r: Parse<seq<byte>>): Parse<Value> {
    match r
    case Fail => Fail
    case Ok(b, rest) => Ok(Blob(b), rest)
  }

  /** The entries of a packed array, read from its substream until it is empty. */
  function DecodePacked(f: Field, bs: seq<byte>, items: seq<Value>): (r: Option<seq<Value>>)
    requires FieldOk(f)
    requires forall k :: 0 <= k < |items| ==> Shaped(f, items[k])
    ensures r.Some? ==> forall k :: 0 <= k < |r.value| ==> Shaped(f, r.value[k])
    decreases |bs|, 1
  {
    if bs == [] then Some(items)
    else if |items| >= f.arraySize then None
    else
      DefaultShaped(f);
      match DecodeValue(f, bs, DefaultValue(f))
      case Fail => None
      case Ok(v, rest) => DecodePacked(f, rest, items + [v])
  }

  /** decode_static_field: the new contents of the field's slot. */
  function DecodeSlot(f: Field, wt: nat, bs: seq<byte>, s: Slot): (r: Parse<Slot>)
    requires FieldOk(f) && SlotShaped(f, s)
    ensures r.Ok? ==> SlotShaped(f, r.value) && |r.rest| <= |bs|
    decreases |bs|, 2
  {
    match s
    case Single(v) =>
      (match DecodeValue(f, bs, v)
       case Fail => Fail
       case Ok(v', rest) => Ok(Single(v'), rest))
    case Opt(_, w) =>
      (match DecodeValue(f, bs, w)
       case Fail => Fail
       case Ok(w', rest) => Ok(Opt(true, w'), rest))
    case Rep(items) =>
      DefaultShaped(f);
      if wt == WT_STRING && f.ltype.Packable() then
        match DecString(bs)
        case Fail => Fail
        case Ok(sub, rest) =>
          var packed := DecodePacked(f, sub, items);
          if packed.Some? then Ok(Rep(packed.value), rest) else Fail
      else if |items| >= f.arraySize then Fail
      else
        (match DecodeValue(f, bs, DefaultValue(f))
         case Fail => Fail
         case Ok(v, rest) => Ok(Rep(items + [v]), rest))
    case Member(_) =>
      DefaultShaped(f);
      (match DecodeValue(f, bs, DefaultValue(f))
       case Fail => Fail
       case Ok(v, rest) => Ok(Member(Some(v)), rest))
  }

  /** Storing a slot; a oneof member takes over the storage of the others. */
  function SetSlot(fs: seq<Field>, slots: seq<Slot>, i: nat, s: Slot): (r: seq<Slot>)
    requires MessageShaped(fs, slots) && i < |fs| && SlotShaped(fs[i], s)
    ensures MessageShaped(fs, r)
    ensures r[i] == s
  {
    seq(|slots|, j requires 0 <= j < |slots| =>
      if j == i then s else if SameUnion(fs, i, j) then Member(None) else slots[j])
  }

  /** One field on the wire, its tag already read. */
  function DecodeField(fs: seq<Field>, tag: nat, wt: nat, bs: seq<byte>, slots: seq<Slot>): (r: Parse<seq<Slot>>)
    requires WellFormed(fs) && MessageShaped(fs, slots)
    ensures r.Ok? ==> MessageShaped(fs, r.value) && |r.rest| <= |bs|
    decreases |bs|, 3
  {
    match Find(fs, tag)
    case Some(i) =>
      (match DecodeSlot(fs[i], wt, bs, slots[i])
       case Fail => Fail
       case Ok(s, rest) => Ok(SetSlot(fs, slots, i, s), rest))
    case None =>
      if fs == [] && tag == 0 then Fail  // the terminator of an empty table is taken for the field
      else match SkipField(wt, bs)
        case Fail => Fail
        case Ok(_, rest) => Ok(slots, rest)
  }

  function SeenWith(fs: seq<Field>, tag: nat, seen: set<nat>): set<nat> {
    match Find(fs, tag)
    case Some(i) => if MustSee(fs, i) then seen + {i} else seen
    case None => seen
  }

  /** The field loop of pb_decode_noinit. */
  function DecodeFields(fs: seq<Field>, bs: seq<byte>, slots: seq<Slot>, seen: set<nat>): (r: Decoded)
    requires WellFormed(fs) && MessageShaped(fs, slots)
    ensures r.Done? ==> MessageShaped(fs, r.slots)
    decreases |bs|, 4
  {
    if bs == [] then Done(slots, seen, [], false)
    else match DecTag(bs)
      case TagFail => Failed
      case TagEof(rest) => Done(slots, seen, rest, true)
      case Tag(tag, wt, rest) =>
        match DecodeField(fs, tag, wt, rest, slots)
        case Fail => Failed
        case Ok(slots', rest') => DecodeFields(fs, rest', slots', SeenWith(fs, tag, seen))
  }

  /** pb_decode_noinit into a destination holding slots. */
  function DecodeMessage(fs: seq<Field>, bs: seq<byte>, slots: seq<Slot>): (r: Parse<seq<Slot>>)
    requires WellFormed(fs) && MessageShaped(fs, slots)
    ensures r.Ok? ==> MessageShaped(fs, r.value)
    decreases |bs|, 5
  {
    match DecodeFields(fs, bs, slots, {})
    case Failed => Fail
    case Done(slots', seen, rest, _) => if RequiredSeen(fs, seen) then Ok(slots', rest) else Fail
  }

  /** pb_decode: the destination starts from the defaults. */
  function Decode(fs: seq<Field>, bs: seq<byte>): (r: Parse<seq<Slot>>)
    requires WellFormed(fs)
    ensures r.Ok? ==> MessageShaped(fs, r.value)
  {
    DefaultsShaped(fs);
    DecodeMessage(fs, bs, Defaults(fs))
  }
}
