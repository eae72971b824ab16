/** The nanopb decoder, run against its specification: every routine reads from the stream
    exactly what PbWire and PbParse say, and leaves the destination they describe. */
module PbDecode {
  import opened Bits
  import opened Common
  import opened PbTypes
  import opened PbWire
  import opened PbParse
  import opened PbStreams
  import opened PbRequired

  /** The outcome of a decoder for the parse r: it succeeds exactly when r does, with r's
      value and r's unread bytes. */
  ghost predicate Reads<T>(r: Parse<T>, ok: bool, v: T, view: seq<byte>) {
    && ok == r.Ok?
    && (ok ==> v == r.value && view == r.rest)
  }

  // ------------------------------------------------------------------- primitives

  /** pb_decode_varint */
  method DecodeVarint(s: IStream) returns (ok: bool, v: nat)
    requires s.Valid()
    modifies s
    ensures s.Valid() && s.End() == old(s.End())
    ensures Reads(DecVarint(old(s.View())), ok, v, s.View())
    ensures v < U64
  {
    hide Or, Low, Shl;
    ghost var r := DecVarint(s.View());
    var bitpos, result := 0, 0;
    while true
      invariant s.Valid() && s.End() == old(s.End())
      invariant DecV64(s.View(), bitpos, result) == r
      decreases s.left
    {
      if bitpos >= 64 { return false, 0; }
      ghost var view := s.View();
      var more, b := s.ReadByte();
      if !more { return false, 0; }
      assert view[0] == b && view[1..] == s.View();
      result := Or(result, Low(Shl(Payload(b), bitpos), 64));
      bitpos := bitpos + 7;
      if b < 128 { return true, result; }
    }
  }

  /** pb_decode_varint32_eof */
  method DecodeVarint32(s: IStream) returns (ok: bool, v: nat, eof: bool)
    requires s.Valid()
    modifies s
    ensures s.Valid() && s.End() == old(s.End())
    ensures Reads(DecVarint32(old(s.View())), ok, v, s.View())
    ensures eof == (old(s.left) == 0) && v < U32
  {
    hide Or, Low, Shl;
    ghost var r := DecVarint32(s.View());
    ghost var view := s.View();
    var more, b := s.ReadByte();
    if !more { return false, 0, true; }
    assert view[0] == b && view[1..] == s.View();
    if b < 128 { return true, b, false; }
    var bitpos, result := 7, Payload(b);
    while true
      invariant s.Valid() && s.End() == old(s.End())
      invariant DecV32(s.View(), bitpos, result) == r
      decreases s.left
    {
      view := s.View();
      more, b := s.ReadByte();
      if !more { return false, 0, false; }
      assert view[0] == b && view[1..] == s.View();
      if bitpos >= 32 {
        var sign := if bitpos < 63 then 0xff else 1;
        if Payload(b) != 0 && (result < 0x8000_0000 || b != sign) { return false, 0, false; }
      } else {
        result := Or(result, Low(Shl(Payload(b), bitpos), 32));
      }
      bitpos := NextPos(bitpos);
      if b < 128 {
        if bitpos == 35 && b >= 16 { return false, 0, false; }
        return true, result, false;
      }
    }
  }

  /** pb_decode_tag: a zero tag is reported as the end. */
  method DecodeTag(s: IStream) returns (ok: bool, wt: nat, tag: nat, eof: bool)
    requires s.Valid()
    modifies s
    ensures s.Valid() && s.End() == old(s.End())
    ensures match DecTag(old(s.View()))
            case TagFail => !ok && eof == (old(s.left) == 0)
            case TagEof(rest) => !ok && eof && s.View() == rest
            case Tag(t, w, rest) => ok && t == tag && w == wt && s.View() == rest
  {
    var temp;
    ok, temp, eof := DecodeVarint32(s);
    if !ok { return false, 0, 0, eof; }
    if temp == 0 { return false, 0, 0, true; }
    return true, temp % 8, temp / 8, false;
  }

  /** pb_skip_varint */
  method SkipVarintField(s: IStream) returns (ok: bool)
    requires s.Valid()
    modifies s
    ensures s.Valid() && s.End() == old(s.End())
    ensures Reads(SkipVarint(old(s.View())), ok, (), s.View())
  {
    ghost var r := SkipVarint(s.View());
    while true
      invariant s.Valid() && s.End() == old(s.End()) && SkipVarint(s.View()) == r
      decreases s.left
    {
      ghost var view := s.View();
      var data;
      ok, data := s.Read(1);
      if !ok { return; }
      assert view[0] == data[0] && view[1..] == s.View();
      if data[0] < 128 { return true; }
    }
  }

  /** pb_skip_string, and the length-prefixed reads of pb_dec_bytes and pb_dec_string. */
  method SkipString(s: IStream) returns (ok: bool)
    requires s.Valid()
    modifies s
    ensures s.Valid() && s.End() == old(s.End())
    ensures ok == DecString(old(s.View())).Ok?
    ensures ok ==> s.View() == DecString(old(s.View())).rest
  {
    var n, eof, data;
    ok, n, eof := DecodeVarint32(s);
    if !ok { return; }
    ok, data := s.Read(n);
  }

  /** pb_skip_field */
  method Skip(s: IStream, wt: nat) returns (ok: bool)
    requires s.Valid()
    modifies s
    ensures s.Valid() && s.End() == old(s.End())
    ensures Reads(SkipField(wt, old(s.View())), ok, (), s.View())
  {
    var data;
    if wt == WT_VARINT { ok := SkipVarintField(s); }
    else if wt == WT_64BIT { ok, data := s.Read(8); }
    else if wt == WT_STRING { ok := SkipString(s); }
    else if wt == WT_32BIT { ok, data := s.Read(4); }
    else { ok := false; }
  }

  /** pb_make_string_substream: the bytes move from the parent's budget to the substream's. */
  method MakeSubstream(s: IStream) returns (ok: bool, sub: IStream?)
    requires s.Valid()
    modifies s
    ensures s.Valid()
    ensures var r := DecString(old(s.View()));
            && ok == r.Ok?
            && (ok ==> && sub != null && fresh(sub) && sub.Valid() && sub.buf == s.buf
                       && sub.View() == r.value
                       && s.pos == sub.pos && s.left == |r.rest|
                       && sub.End() + s.left == old(s.End())
                       && s.buf[sub.End()..sub.End() + s.left] == r.rest)
    ensures !ok ==> s.End() == old(s.End())
  {
    var size, eof;
    ok, size, eof := DecodeVarint32(s);
    if !ok { return false, null; }
    if s.left < size { return false, null; }
    ghost var rest := s.View();
    sub := new IStream.Copy(s, size);
    s.left := s.left - size;
    assert rest[..size] == sub.View() && rest[size..] == s.buf[sub.End()..sub.End() + s.left];
  }

  /** pb_close_string_substream: skip what is left of it and take over its position. */
  method CloseSubstream(s: IStream, sub: IStream)
    requires s != sub && s.buf == sub.buf && sub.Valid() && sub.End() + s.left <= |s.buf|
    modifies s, sub
    ensures s.Valid() && s.pos == old(sub.End()) && s.left == old(s.left)
    ensures s.View() == s.buf[old(sub.End())..old(sub.End() + s.left)]
  {
    if sub.left != 0 {
      var ok, _ := sub.Read(sub.left);
    }
    s.pos := sub.pos;
  }

  /** pb_decode_fixed32, pb_decode_fixed64: the bytes shifted into place and or-ed together. */
  method DecodeFixed(s: IStream, k: nat) returns (ok: bool, v: nat)
    requires s.Valid()
    modifies s
    ensures s.Valid() && s.End() == old(s.End())
    ensures Reads(DecFixed(old(s.View()), k), ok, v, s.View())
  {
    var bytes;
    ok, bytes := s.Read(k);
    if !ok { return false, 0; }
    v := 0;
    ghost var rest := s.View();
    for i := 0 to k
      invariant s.Valid() && s.End() == old(s.End()) && s.View() == rest
      invariant v == LittleEndian(bytes[..i])
    {
      LittleEndianSnoc(bytes[..i], bytes[i]);
      assert bytes[..i] + [bytes[i]] == bytes[..i + 1];
      v := Or(v, Shl(bytes[i], 8 * i));
    }
    assert bytes[..k] == bytes;
  }

  lemma {:induction false} LittleEndianSnoc(bs: seq<byte>, b: byte)
    ensures LittleEndian(bs + [b]) == Or(LittleEndian(bs), Shl(b, 8 * |bs|))
    decreases |bs|
  {
    OrShl(LittleEndian(bs), b, 8 * |bs|);
    LittleEndianAdds(bs, b);
  }

  lemma {:induction false} LittleEndianAdds(bs: seq<byte>, b: byte)
    ensures LittleEndian(bs + [b]) == LittleEndian(bs) + Shl(b, 8 * |bs|)
    decreases |bs|
  {
    assert (bs + [b])[1..] == if bs == [] then [] else bs[1..] + [b];
    if bs != [] {
      LittleEndianAdds(bs[1..], b);
      Shl8(b, 8 * |bs[1..]|);
    }
  }

  lemma Shl8(b: nat, s: nat)
    ensures Shl(b, s + 8) == 256 * Shl(b, s)
  {
    ShlIsTimes(b, s);
    ShlIsTimes(b, s + 8);
    Pow2Sum(8, s, s + 8);
    Powers16();
    assert b * (256 * Pow2(s)) == 256 * (b * Pow2(s));
  }

  // ----------------------------------------------------------------------- values

  /** The destination structure of a message. */
  class Message {
    var slots: seq<Slot>

    constructor (slots: seq<Slot>)
      ensures fresh(this) && this.slots == slots
    {
      this.slots := slots;
    }
  }

  /** pb_field_set_to_default */
  method FieldDefault(f: Field) returns (s: Slot)
    requires FieldOk(f)
    ensures s == DefaultSlot(f)
    decreases f
  {
    if f.htype.Repeated? { return Rep([]); }
    if f.htype.Oneof? { return Member(None); }
    var v;
    if f.ltype.Submessage? {
      var d := new Message([]);
      SetToDefaults(f.ptr.fields, d);
      v := Msg(d.slots);
    } else if f.ptr.Default? {
      v := f.ptr.v;
    } else if f.ltype.Bytes? || f.ltype.String? {
      v := Blob([]);
    } else if f.ltype.FixedLengthBytes? {
      v := Blob(Zeros(f.dataSize));
    } else {
      v := Num(0);
    }
    if f.htype.Optional? && f.sizeOffset != 0 { return Opt(false, v); }
    return Single(v);
  }

  /** pb_message_set_to_defaults */
  method SetToDefaults(fs: seq<Field>, d: Message)
    requires WellFormed(fs)
    modifies d
    ensures d.slots == Defaults(fs)
    decreases fs
  {
    d.slots := [];
    var iter := new FieldIter(fs);
    if fs == [] { return; }
    hide DefaultSlot, Defaults, FieldIter.Valid;
    while true
      invariant iter.Valid() && iter.start == fs && iter.pos < |fs| && fresh(iter)
      invariant d.slots == Defaults(fs)[..iter.pos]
      decreases |fs| - iter.pos
    {
      var s := FieldDefault(fs[iter.pos]);
      d.slots := d.slots + [s];
      ghost var all := Defaults(fs);
      assert all[..iter.pos] + [s] == all[..iter.pos + 1];
      var more := iter.Next();
      if !more { return; }
    }
  }

  /** The overflow checks of pb_dec_varint, pb_dec_uvarint and pb_dec_svarint. */
  method StoreInteger(f: Field, n: nat) returns (ok: bool, v: Value)
    requires n < U64 && f.ltype.Integer()
    ensures ok == StoreInt(f, n).Some? && (ok ==> v == StoreInt(f, n).value)
    ensures ok == InRange(f, IntMeaning(f, n)) && (ok ==> v == Num(IntMeaning(f, n)))
  {
    StoreIntRange(f, n);
    hide IntMeaning, InRange;
    if !WidthOk(f.dataSize) { return false, Num(0); }
    if f.ltype.UVarint? {
      var clamped := n % (2 * Half(f.dataSize));
      return clamped == n, Num(clamped);
    }
    var sv;
    if f.ltype.SVarint? {
      UnZigZagRoundTrip(n);
      sv := UnZigZag(n);
    } else {
      sv := ToSigned(n, if f.dataSize == 8 then 8 else 4);
    }
    var clamped := ToSigned(ToU64(sv), f.dataSize);
    return clamped == sv, Num(clamped);
  }

  /** pb_dec_bytes, pb_dec_string, pb_dec_fixed_length_bytes */
  method DecodeBlob(s: IStream, f: Field, ghost was: Value) returns (ok: bool, v: Value)
    requires s.Valid() && FieldOk(f) && Shaped(f, was)
    requires f.ltype.Bytes? || f.ltype.String? || f.ltype.FixedLengthBytes?
    modifies s
    ensures s.Valid() && s.End() == old(s.End())
    ensures Reads(DecodeValue(f, old(s.View()), was), ok, v, s.View())
  {
    var size, eof, data;
    ok, size, eof := DecodeVarint32(s);
    if !ok { return false, Blob([]); }
    if f.ltype.Bytes? {
      if size + BYTES_HEADER > f.dataSize { return false, Blob([]); }
    } else if f.ltype.String? {
      var alloc := (size + 1) % U32;
      if alloc < size || alloc > f.dataSize { return false, Blob([]); }
    } else {
      if size == 0 { return true, Blob(Zeros(f.dataSize)); }
      if size != f.dataSize { return false, Blob([]); }
    }
    ok, data := s.Read(size);
    return ok, Blob(data);
  }

  /** The decoder for the field's type, from PB_DECODERS; was is what the destination holds. */
  method DecodeData(s: IStream, f: Field, was: Value) returns (ok: bool, v: Value)
    requires s.Valid() && FieldOk(f) && Shaped(f, was)
    requires f.htype.Repeated? ==> was == DefaultValue(f)
    modifies s
    ensures s.Valid() && s.End() <= old(s.End()) && (ok ==> s.End() == old(s.End()))
    ensures Reads(DecodeValue(f, old(s.View()), was), ok, v, s.View())
    decreases s.left, 1
  {
    match f.ltype {
      case Varint | UVarint | SVarint =>
        var n;
        ok, n := DecodeVarint(s);
        v := Num(0);
        if ok { ok, v := StoreInteger(f, n); }
      case Fixed32 =>
        var n;
        ok, n := DecodeFixed(s, 4);
        v := Num(n);
      case Fixed64 =>
        var n;
        ok, n := DecodeFixed(s, 8);
        v := Num(n);
      case Bytes | String | FixedLengthBytes =>
        ok, v := DecodeBlob(s, f, was);
      case Submessage =>
        ok, v := DecodeSubmessage(s, f, was);
    }
  }

  /** A nested message is its own message within its length. */
  lemma SubmessageParse(f: Field, bs: seq<byte>, was: Value)
    requires FieldOk(f) && f.ltype.Submessage? && Shaped(f, was)
    requires f.htype.Repeated? ==> was == DefaultValue(f)
    ensures was.Msg? && WellFormed(f.ptr.fields) && MessageShaped(f.ptr.fields, was.slots)
    ensures f.htype.Repeated? ==> was.slots == Defaults(f.ptr.fields)
    ensures DecodeValue(f, bs, was) ==
              match DecString(bs)
              case Fail => Fail
              case Ok(sub, rest) =>
                match DecodeMessage(f.ptr.fields, sub, was.slots)
                case Fail => Fail
                case Ok(slots, _) => Ok(Msg(slots), rest)
  {
  }

  /** pb_dec_submessage: merge into the destination, except that a new array entry starts
      from the defaults. */
  method DecodeSubmessage(s: IStream, f: Field, was: Value) returns (ok: bool, v: Value)
    requires s.Valid() && FieldOk(f) && f.ltype.Submessage? && Shaped(f, was)
    requires f.htype.Repeated? ==> was == DefaultValue(f)
    modifies s
    ensures s.Valid() && s.End() <= old(s.End()) && (ok ==> s.End() == old(s.End()))
    ensures Reads(DecodeValue(f, old(s.View()), was), ok, v, s.View())
    decreases s.left, 0
  {
    SubmessageParse(f, s.View(), was);
    hide DecodeValue, DecodeMessage, DecString, Shaped, FieldOk, MessageShaped, WellFormed, Defaults, IStream.View;
    var sub;
    v := was;
    ok, sub := MakeSubstream(s);
    if !ok { return; }
    var d := new Message(was.slots);
    if f.htype.Repeated? {
      ok := DecodeInit(sub, f.ptr.fields, d);
    } else {
      ok := DecodeNoInit(sub, f.ptr.fields, d);
    }
    CloseSubstream(s, sub);
    v := Msg(d.slots);
  }

  // ----------------------------------------------------------------------- fields

  /** The packed branch of decode_static_field. */
  method DecodePackedArray(s: IStream, f: Field, was: seq<Value>) returns (ok: bool, items: seq<Value>)
    requires s.Valid() && FieldOk(f) && f.htype.Repeated? && f.ltype.Packable()
    requires forall k :: 0 <= k < |was| ==> Shaped(f, was[k])
    modifies s
    ensures s.Valid() && s.End() <= old(s.End()) && (ok ==> s.End() == old(s.End()))
    ensures Reads(DecodeSlot(f, WT_STRING, old(s.View()), Rep(was)), ok, Rep(items), s.View())
    decreases s.left, 2
  {
    var sub, status;
    items := was;
    ok, sub := MakeSubstream(s);
    if !ok { return; }
    status := true;
    DefaultShaped(f);
    hide DecodeValue, Shaped, DefaultValue, DecString, IStream.View;
    ghost var r := DecodePacked(f, sub.View(), items);
    ghost var end, left, pos := sub.End(), s.left, s.pos;
    while sub.left > 0 && |items| < f.arraySize
      invariant fresh(sub) && sub.Valid() && sub.End() == end
      invariant s.Valid() && s.left == left && s.pos == pos && end == old(s.End()) - left
      invariant forall k :: 0 <= k < |items| ==> Shaped(f, items[k])
      invariant DecodePacked(f, sub.View(), items) == r
      decreases sub.left
    {
      var v;
      status, v := DecodeData(sub, f, DefaultValue(f));
      if !status { break; }
      items := items + [v];
    }
    if sub.left != 0 { return false, items; }
    CloseSubstream(s, sub);
    return status, items;
  }

  /** A member that becomes active starts from cleared memory, a submessage from its defaults. */
  method Cleared(f: Field) returns (v: Value)
    requires FieldOk(f)
    ensures v == DefaultValue(f) && Shaped(f, v)
  {
    DefaultShaped(f);
    v := DefaultValue(f);
    if f.ltype.Submessage? {
      var sub := new Message([]);
      SetToDefaults(f.ptr.fields, sub);
      v := Msg(sub.slots);
    }
  }

  /** decode_static_field for the entry under the iterator. */
  method DecodeStatic(s: IStream, wt: nat, fs: seq<Field>, i: nat, d: Message) returns (ok: bool)
    requires s.Valid() && WellFormed(fs) && i < |fs| && MessageShaped(fs, d.slots)
    modifies s, d
    ensures s.Valid() && s.End() <= old(s.End()) && (ok ==> s.End() == old(s.End()))
    ensures match DecodeSlot(fs[i], wt, old(s.View()), old(d.slots[i]))
            case Fail => !ok
            case Ok(slot, rest) => ok && d.slots == SetSlot(fs, old(d.slots), i, slot) && s.View() == rest
    decreases s.left, 3
  {
    var f := fs[i];
    var slot := d.slots[i];
    assert FieldOk(f) && SlotShaped(f, slot);
    hide DecodeValue, DecodePacked, SetSlot, WellFormed, MessageShaped, Shaped, DefaultValue;
    match slot {
      case Single(was) =>
        var v;
        ok, v := DecodeData(s, f, was);
        slot := Single(v);
      case Opt(_, was) =>
        var v;
        ok, v := DecodeData(s, f, was);
        slot := Opt(true, v);
      case Rep(items) =>
        if wt == WT_STRING && f.ltype.Packable() {
          var all;
          ok, all := DecodePackedArray(s, f, items);
          slot := Rep(all);
        } else {
          if |items| >= f.arraySize { return false; }
          DefaultShaped(f);
          var v;
          ok, v := DecodeData(s, f, DefaultValue(f));
          slot := Rep(items + [v]);
        }
      case Member(_) =>
        var cleared, v;
        cleared := Cleared(f);
        ok, v := DecodeData(s, f, cleared);
        slot := Member(Some(v));
    }
    if ok { d.slots := SetSlot(fs, d.slots, i, slot); }
  }

  /** The number of required entries, by stepping the iterator to the end of the table. */
  method CountRequired(iter: FieldIter) returns (count: nat)
    requires iter.Valid()
    modifies iter
    ensures count == RequiredIndex(iter.start, |iter.start|)
  {
    var lastRequired := true;
    count := iter.required;
    if iter.start == [] { return; }
    while true
      invariant iter.Valid()
      decreases |iter.start| - iter.pos
    {
      count := iter.required;
      lastRequired := iter.start[iter.pos].htype.Required?;
      var more := iter.Next();
      if !more { break; }
    }
    if lastRequired { count := count + 1; }
  }

  /** The fields_seen update for the entry under the iterator. */
  method MarkSeen(words: array<nat>, iter: FieldIter, ghost seen: set<nat>)
    requires iter.Valid() && WellFormed(iter.start) && iter.pos < |iter.start|
    requires words.Length == 2 && Tracks(words[..], iter.start, seen)
    modifies words
    ensures Tracks(words[..], iter.start, SeenWith(iter.start, iter.start[iter.pos].tag, seen))
  {
    hide Tracks, Or, Shl;
    FindUnique(iter.start, iter.pos);
    if iter.start[iter.pos].htype.Required? && iter.required < MAX_REQUIRED {
      TracksSet(words[..], iter.start, seen, iter.pos);
      ghost var w := SetFlag(words[..], iter.required);
      words[iter.required / 32] := Or(words[iter.required / 32], Shl(1, iter.required % 32));
      assert words[..] == w;
    }
  }

  /** The body of the field loop once the tag is read: find the entry, note that it was
      seen and decode into it, or skip the field. */
  method DecodeTagged(
    s: IStream, wt: nat, tag: nat, iter: FieldIter, words: array<nat>, d: Message, ghost seen: set<nat>)
    returns (ok: bool)
    requires s.Valid() && iter.Valid() && WellFormed(iter.start) && MessageShaped(iter.start, d.slots)
    requires words.Length == 2 && Tracks(words[..], iter.start, seen)
    modifies s, iter, words, d
    ensures s.Valid() && s.End() <= old(s.End()) && (ok ==> s.End() == old(s.End()))
    ensures iter.Valid() && Reads(DecodeField(iter.start, tag, wt, old(s.View()), old(d.slots)), ok, d.slots, s.View())
    ensures ok ==> Tracks(words[..], iter.start, SeenWith(iter.start, tag, seen))
    decreases s.left, 4
  {
    var fs := iter.start;
    assert forall i :: 0 <= i < |fs| ==> fs[i].tag != 0;
    hide DecodeSlot, SetSlot, Tracks, SkipField, FieldOk, SlotShaped, MustSee, SameUnion, RequiredIndex;
    var found := iter.FindTag(tag);
    if !found {
      ok := Skip(s, wt);
      return;
    }
    if fs == [] {
      var n;
      ok, n := DecodeVarint(s);
      return false;
    }
    FindUnique(fs, iter.pos);
    MarkSeen(words, iter, seen);
    ok := DecodeStatic(s, wt, fs, iter.pos, d);
  }

  /** pb_decode_noinit */
  method DecodeNoInit(s: IStream, fs: seq<Field>, d: Message) returns (ok: bool)
    requires s.Valid() && WellFormed(fs) && MessageShaped(fs, d.slots)
    modifies s, d
    ensures s.Valid() && s.End() <= old(s.End()) && (ok ==> s.End() == old(s.End()))
    ensures Reads(DecodeMessage(fs, old(s.View()), old(d.slots)), ok, d.slots, s.View())
    decreases s.left, 5
  {
    hide DecodeField, Tracks, SeenWith, RequiredSeen, SlotShaped, FieldOk, SameUnion;
    ghost var whole, seen := DecodeFields(fs, s.View(), d.slots, {}), {};
    var words := new nat[2](_ => 0);
    var iter := new FieldIter(fs);
    assert words[..] == [0, 0];
    TracksNothing(fs);
    while s.left > 0
      invariant s.Valid() && s.End() == old(s.End()) && MessageShaped(fs, d.slots)
      invariant iter.Valid() && iter.start == fs && fresh(iter) && fresh(words) && words.Length == 2
      invariant Tracks(words[..], fs, seen)
      invariant DecodeFields(fs, s.View(), d.slots, seen) == whole
      decreases s.left
    {
      var wt, tag, eof;
      ok, wt, tag, eof := DecodeTag(s);
      if !ok {
        if eof { break; }
        return false;
      }
      ok := DecodeTagged(s, wt, tag, iter, words, d, seen);
      if !ok { return false; }
      seen := SeenWith(fs, tag, seen);
    }
    var required := CountRequired(iter);
    ok := CheckRequired(words[..], fs, seen, required);
  }

  /** pb_decode */
  method DecodeInit(s: IStream, fs: seq<Field>, d: Message) returns (ok: bool)
    requires s.Valid() && WellFormed(fs)
    modifies s, d
    ensures s.Valid() && s.End() <= old(s.End()) && (ok ==> s.End() == old(s.End()))
    ensures Reads(Decode(fs, old(s.View())), ok, d.slots, s.View())
    decreases s.left, 6
  {
    DefaultsShaped(fs);
    SetToDefaults(fs, d);
    ok := DecodeNoInit(s, fs, d);
  }

  /** pb_decode_delimited: a length and a message. */
  method DecodeDelimited(s: IStream, fs: seq<Field>, d: Message) returns (ok: bool)
    requires s.Valid() && WellFormed(fs)
    modifies s, d
    ensures s.Valid()
    ensures match DecString(old(s.View()))
            case Fail => !ok
            case Ok(body, rest) =>
              && ok == Decode(fs, body).Ok?
              && (ok ==> d.slots == Decode(fs, body).value && s.View() == rest)
              && s.left == |rest| && s.pos <= old(s.End()) - |rest|
  {
    var sub;
    ok, sub := MakeSubstream(s);
    if !ok { return; }
    ok := DecodeInit(sub, fs, d);
    CloseSubstream(s, sub);
  }
}
