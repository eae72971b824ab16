/** Handshake fragments of DTLS (section 4.2.2 of RFC 6347): their wire form, the bitmask
    of received bytes, and the buffer one message is reassembled in. */
module DtlsFragment {
  import opened Bits
  import opened Common

  const HEADER_LENGTH := 12
  const FLIGHT := 7   // SSL_MAX_HANDSHAKE_FLIGHT

  /** A handshake message; its sequence number is fixed when it is queued. */
  datatype HsMsg = HsMsg(typ: byte, body: seq<byte>)

  /** A fragment: bytes off, ... of the message with the given number, type and length. */
  datatype Frag = Frag(typ: byte, msgLen: nat, seqNo: nat, off: nat, body: seq<byte>)

  datatype Parsed = Malformed | Fragment(f: Frag, rest: seq<byte>)

  ghost predicate FragOk(f: Frag) {
    f.msgLen < U24 && f.seqNo < U16 && f.off < U24 && |f.body| < U24
  }

  // ------------------------------------------------------------------ wire format

  function BE24(n: nat): (b: seq<byte>)
    requires n < U24
    ensures |b| == 3
  {
    [n / 0x1_0000, n / 0x100 % 0x100, n % 0x100]
  }

  function BE16(n: nat): (b: seq<byte>)
    requires n < U16
    ensures |b| == 2
  {
    [n / 0x100, n % 0x100]
  }

  function HeaderBytes(typ: byte, msgLen: nat, seqNo: nat, off: nat, len: nat): (b: seq<byte>)
    requires msgLen < U24 && seqNo < U16 && off < U24 && len < U24
    ensures |b| == HEADER_LENGTH
  {
    [typ] + BE24(msgLen) + BE16(seqNo) + BE24(off) + BE24(len)
  }

  function FragBytes(f: Frag): (b: seq<byte>)
    requires FragOk(f)
  {
    HeaderBytes(f.typ, f.msgLen, f.seqNo, f.off, |f.body|) + f.body
  }

  /** A message as it is queued and as it is handed to the handshake: one whole fragment. */
  function MessageBytes(m: HsMsg, seqNo: nat): (b: seq<byte>)
    requires |m.body| < U24 && seqNo < U16
  {
    HeaderBytes(m.typ, |m.body|, seqNo, 0, |m.body|) + m.body
  }

  function Get24(b: seq<byte>, i: nat): (n: nat)
    requires i + 3 <= |b|
    ensures n < U24
  {
    b[i] as nat * 0x1_0000 + b[i + 1] as nat * 0x100 + b[i + 2]
  }

  /** dtls1_parse_fragment */
  function ParseFragment(b: seq<byte>): (r: Parsed)
    ensures r.Fragment? ==> FragOk(r.f) && |r.rest| + HEADER_LENGTH <= |b|
  {
    if |b| < HEADER_LENGTH then Malformed
    else
      var len := Get24(b, 9);
      if |b| < HEADER_LENGTH + len then Malformed
      else Fragment(Frag(b[0], Get24(b, 1), b[4] as nat * 0x100 + b[5], Get24(b, 6), b[12..12 + len]), b[12 + len..])
  }

  lemma ParseRoundTrip(f: Frag, t: seq<byte>)
    requires FragOk(f)
    ensures ParseFragment(FragBytes(f) + t) == Fragment(f, t)
  {
    var h := HeaderBytes(f.typ, f.msgLen, f.seqNo, f.off, |f.body|);
    var b := FragBytes(f) + t;
    HeaderFields(h, f.typ, f.msgLen, f.seqNo, f.off, |f.body|);
    assert forall i :: 0 <= i < 12 ==> b[i] == h[i];
    assert b[12..12 + |f.body|] == f.body && b[12 + |f.body|..] == t;
  }

  lemma HeaderFields(h: seq<byte>, typ: byte, msgLen: nat, seqNo: nat, off: nat, len: nat)
    requires msgLen < U24 && seqNo < U16 && off < U24 && len < U24
    requires h == HeaderBytes(typ, msgLen, seqNo, off, len)
    ensures h[0] == typ && Get24(h, 1) == msgLen && Get24(h, 6) == off && Get24(h, 9) == len
    ensures h[4] as nat * 0x100 + h[5] == seqNo
  {
    assert h[1..4] == BE24(msgLen) && h[4..6] == BE16(seqNo) && h[6..9] == BE24(off) && h[9..12] == BE24(len);
  }

  // ---------------------------------------------------------------------- bitmask

  /** bit_range: bits start to end - 1 of a byte, by 32-bit arithmetic. */
  function BitRange(start: nat, end: nat): (b: byte)
    requires start <= 8 && end <= 8
  {
    RangeSmall(start, end);
    Low(And(Not(Ones(start), 32), Ones(end)), 8)
  }

  lemma RangeSmall(start: nat, end: nat)
    requires start <= 8 && end <= 8
    ensures Ones(start) < Pow2(32)
    ensures Low(And(Not(Ones(start), 32), Ones(end)), 8) < 256
  {
    Pow2Monotone(start, 32);
    LowBound(And(Not(Ones(start), 32), Ones(end)), 8);
    Powers16();
  }

  lemma BitRangeBits(start: nat, end: nat, k: nat)
    requires start <= 8 && end <= 8
    ensures Bit(BitRange(start, end), k) <==> start <= k < end
  {
    hide Bit, Pow2, Ones, Not, And, Low;
    RangeSmall(start, end);
    var a := And(Not(Ones(start), 32), Ones(end));
    BitLow(a, 8, k);
    BitAnd(Not(Ones(start), 32), Ones(end), k);
    BitNot(Ones(start), 32, k);
    BitOnes(start, k);
    BitOnes(end, k);
  }

  /** Byte i of the message is marked as received. */
  predicate Marked(mask: seq<byte>, i: nat)
    requires i / 8 < |mask|
  {
    Bit(mask[i / 8], i % 8)
  }

  /** mask marks exactly the message bytes in have. */
  ghost predicate Mirrors(mask: seq<byte>, msgLen: nat, have: set<nat>) {
    && |mask| == (msgLen + 7) / 8
    && (forall i: nat :: i < 8 * |mask| ==> (Marked(mask, i) <==> i in have))
    && (forall i :: i in have ==> i < msgLen)
  }

  lemma MirrorsLength(mask: seq<byte>, msgLen: nat, have: set<nat>)
    requires Mirrors(mask, msgLen, have)
    ensures |mask| == (msgLen + 7) / 8 && forall i :: i in have ==> i < msgLen
  {
  }

  /** The offsets lo, ..., hi - 1. */
  function Span(lo: nat, hi: nat): (s: set<nat>)
    ensures forall i :: i in s <==> lo <= i < hi
    decreases hi - lo
  {
    if lo >= hi then {} else {lo} + Span(lo + 1, hi)
  }

  function At(off: nat, body: seq<byte>, i: nat): byte
    requires off <= i < off + |body|
  {
    body[i - off]
  }

  /** The bytes a fragment body provides, by offset in the message. */
  function Chunk(off: nat, body: seq<byte>): (m: map<nat, byte>)
    ensures m.Keys == Span(off, off + |body|)
    ensures forall i :: off <= i < off + |body| ==> m[i] == At(off, body, i)
  {
    map i | i in Span(off, off + |body|) :: At(off, body, i)
  }

  /** The message bytes at the offsets in have, from a buffer with a header. */
  ghost function Bytes(data: seq<byte>, have: set<nat>): (m: map<nat, byte>)
    requires forall i :: i in have ==> HEADER_LENGTH + i < |data|
    ensures m.Keys == have
  {
    map i | i in have :: data[HEADER_LENGTH + i]
  }

  lemma BytesAdded(before: seq<byte>, after: seq<byte>, msgLen: nat, have: set<nat>, off: nat, body: seq<byte>)
    requires |before| == HEADER_LENGTH + msgLen && off + |body| <= msgLen
    requires forall i :: i in have ==> i < msgLen
    requires after == before[..HEADER_LENGTH + off] + body + before[HEADER_LENGTH + off + |body|..]
    ensures Bytes(after, have + Span(off, off + |body|)) == Bytes(before, have) + Chunk(off, body)
  {
    forall i | i in have + Span(off, off + |body|)
      ensures Bytes(after, have + Span(off, off + |body|))[i] == (Bytes(before, have) + Chunk(off, body))[i]
    {
      if off <= i < off + |body| { assert after[HEADER_LENGTH + i] == At(off, body, i); }
      else { assert after[HEADER_LENGTH + i] == before[HEADER_LENGTH + i]; }
    }
  }

  /** Or-ing a range into one byte of the mask. */
  lemma MirrorsOr(mask: seq<byte>, msgLen: nat, have: set<nat>, j: nat, lo: nat, hi: nat)
    requires Mirrors(mask, msgLen, have) && j < |mask| && lo <= hi <= 8 && 8 * j + hi <= msgLen
    ensures Or(mask[j], BitRange(lo, hi)) < 256
    ensures Mirrors(mask[j := Or(mask[j], BitRange(lo, hi))], msgLen, have + Span(8 * j + lo, 8 * j + hi))
  {
    Powers16();
    OrBound(mask[j], BitRange(lo, hi), 8);
    var mask' := mask[j := Or(mask[j], BitRange(lo, hi))];
    forall i: nat | i < 8 * |mask|
      ensures Marked(mask', i) <==> i in have + Span(8 * j + lo, 8 * j + hi)
    {
      assert Marked(mask, i) <==> i in have;
      if i / 8 == j {
        BitOr(mask[j], BitRange(lo, hi), i % 8);
        BitRangeBits(lo, hi, i % 8);
      }
    }
  }

  /** A byte of ones. */
  lemma MirrorsFill(mask: seq<byte>, msgLen: nat, have: set<nat>, j: nat)
    requires Mirrors(mask, msgLen, have) && j < |mask| && 8 * j + 8 <= msgLen
    ensures Mirrors(mask[j := 0xff], msgLen, have + Span(8 * j, 8 * j + 8))
  {
    var mask' := mask[j := 0xff];
    forall i: nat | i < 8 * |mask| ensures Marked(mask', i) <==> i in have + Span(8 * j, 8 * j + 8) {
      assert Marked(mask, i) <==> i in have;
      if i / 8 == j {
        Powers16();
        BitOnes(8, i % 8);
      }
    }
  }

  /** Comparing a byte with the mask of its used bits. */
  lemma ByteFull(mask: seq<byte>, msgLen: nat, have: set<nat>, j: nat, n: nat)
    requires Mirrors(mask, msgLen, have) && j < |mask| && n <= 8 && 8 * j + n <= msgLen
    requires n < 8 ==> 8 * j + n == msgLen
    ensures mask[j] == BitRange(0, n) <==> forall i :: 8 * j <= i < 8 * j + n ==> i in have
  {
    hide Bit, BitRange;
    if mask[j] == BitRange(0, n) {
      forall i | 8 * j <= i < 8 * j + n ensures i in have {
        BitRangeBits(0, n, i % 8);
        assert Marked(mask, i);
      }
    }
    if forall i :: 8 * j <= i < 8 * j + n ==> i in have {
      forall k: nat | k < 8 ensures Bit(mask[j], k) == Bit(BitRange(0, n), k) {
        BitRangeBits(0, n, k);
        assert Marked(mask, 8 * j + k) <==> 8 * j + k in have;
      }
      Powers16();
      Extensional(mask[j], BitRange(0, n), 8);
    }
  }

  lemma FullByteIsRange()
    ensures BitRange(0, 8) == 0xff
  {
    hide Bit, BitRange;
    forall k: nat | k < 8 ensures Bit(0xff, k) == Bit(BitRange(0, 8), k) {
      Powers16();
      BitOnes(8, k);
      BitRangeBits(0, 8, k);
    }
    Powers16();
    Extensional(0xff, BitRange(0, 8), 8);
  }

  // ------------------------------------------------------------------- reassembly

  /** hm_fragment: a message being put together, its header already in place. */
  class HmFragment {
    const typ: byte
    const seqNo: nat
    const msgLen: nat
    const data: array<byte>
    var reassembly: array?<byte>   // null once every byte has arrived

    /** Offsets of the message bytes received so far. */
    ghost var have: set<nat>

    ghost const Arrays: set<object> := if reassembly0 == null then {data} else {data, reassembly0}
    ghost const reassembly0: array?<byte>

    ghost predicate Valid()
      reads this, Arrays
    {
      && msgLen < U24 && seqNo < U16
      && data.Length == HEADER_LENGTH + msgLen
      && data[..HEADER_LENGTH] == HeaderBytes(typ, msgLen, seqNo, 0, msgLen)
      && (reassembly == null ==> have == Span(0, msgLen))
      && (reassembly != null ==>
            && reassembly == reassembly0 && reassembly != data && msgLen > 0
            && Mirrors(reassembly[..], msgLen, have) && have != Span(0, msgLen))
    }

    /** The bytes received, by offset. */
    ghost function Got(): (m: map<nat, byte>)
      requires Valid()
      reads this, Arrays
    {
      Bytes(data[..], have)
    }

    /** dtls1_hm_fragment_new */
    constructor (f: Frag)
      requires FragOk(f)
      ensures Valid() && fresh(this) && fresh(Arrays)
      ensures typ == f.typ && seqNo == f.seqNo && msgLen == f.msgLen && Got() == map[]
    {
      typ, seqNo, msgLen := f.typ, f.seqNo, f.msgLen;
      var d := new byte[HEADER_LENGTH + f.msgLen];
      var header := HeaderBytes(f.typ, f.msgLen, f.seqNo, 0, f.msgLen);
      for i := 0 to HEADER_LENGTH
        invariant d[..i] == header[..i]
      {
        d[i] := header[i];
      }
      data := d;
      have := {};
      var r: array?<byte> := null;
      if f.msgLen > 0 {
        r := new byte[(f.msgLen + 7) / 8](_ => 0);
        forall i: nat | i < 8 * r.Length ensures !Marked(r[..], i) { ZeroBits(i % 8); }
        assert 0 in Span(0, f.msgLen);
      }
      reassembly, reassembly0 := r, r;
    }

    /** dtls1_hm_fragment_mark: afterwards exactly the old bytes and start, ..., end - 1 are
        received, and the mask is freed exactly when that is the whole message. */
    method Mark(start: nat, end: nat)
      requires Valid() && reassembly != null && start <= end <= msgLen
      modifies this, reassembly
      ensures Valid() && have == old(have) + Span(start, end)
      ensures reassembly == null <==> have == Span(0, msgLen)
      ensures data[..] == old(data[..])
    {
      if start == end { assert Span(start, end) == {}; return; }
      SetBits(start, end);
      var complete := IsComplete();
      if complete { reassembly := null; }
    }

    /** Its first half: or the range into the mask. */
    method SetBits(start: nat, end: nat)
      requires msgLen < U24 && reassembly != null && reassembly != data
      requires Mirrors(reassembly[..], msgLen, have) && start < end <= msgLen
      modifies this`have, reassembly
      ensures Mirrors(reassembly[..], msgLen, have) && have == old(have) + Span(start, end)
    {
      hide BitRange, Marked, Mirrors, Or, Span;
      assert |reassembly[..]| == (msgLen + 7) / 8 by { MirrorsLength(reassembly[..], msgLen, have); }
      var first, last := start / 8, end / 8;
      ghost var mask := reassembly[..];
      if first == last {
        MirrorsOr(mask, msgLen, have, first, start % 8, end % 8);
        reassembly[first] := Or(reassembly[first], BitRange(start % 8, end % 8));
        assert reassembly[..] == mask[first := reassembly[first]];
        have := have + Span(start, end);
        return;
      }
      MirrorsOr(mask, msgLen, have, first, start % 8, 8);
      reassembly[first] := Or(reassembly[first], BitRange(start % 8, 8));
      assert reassembly[..] == mask[first := reassembly[first]];
      have := have + Span(start, 8 * first + 8);
      for i := first + 1 to last
        invariant Mirrors(reassembly[..], msgLen, have)
        invariant have == old(have) + Span(start, 8 * i)
      {
        mask := reassembly[..];
        MirrorsFill(mask, msgLen, have, i);
        reassembly[i] := 0xff;
        assert reassembly[..] == mask[i := 0xff];
        have := have + Span(8 * i, 8 * i + 8);
      }
      if end % 8 != 0 {
        mask := reassembly[..];
        MirrorsOr(mask, msgLen, have, last, 0, end % 8);
        reassembly[last] := Or(reassembly[last], BitRange(0, end % 8));
        assert reassembly[..] == mask[last := reassembly[last]];
        have := have + Span(8 * last, end);
      }
    }

    /** Its second half: whether every byte is marked. */
    method IsComplete() returns (complete: bool)
      requires reassembly != null && Mirrors(reassembly[..], msgLen, have)
      ensures complete <==> have == Span(0, msgLen)
    {
      hide BitRange, Marked;
      FullByteIsRange();
      for i := 0 to msgLen / 8
        invariant forall k :: 0 <= k < 8 * i ==> k in have
      {
        ByteFull(reassembly[..], msgLen, have, i, 8);
        if reassembly[i] != 0xff { return false; }
      }
      if msgLen % 8 != 0 {
        ByteFull(reassembly[..], msgLen, have, msgLen / 8, msgLen % 8);
        if reassembly[msgLen / 8] != BitRange(0, msgLen % 8) { return false; }
      }
      return true;
    }

    /** The memcpy of dtls1_open_handshake. */
    method Copy(off: nat, body: seq<byte>)
      requires HEADER_LENGTH + off + |body| <= data.Length
      modifies data
      ensures data[..] == old(data[..HEADER_LENGTH + off]) + body + old(data[HEADER_LENGTH + off + |body|..])
    {
      ghost var before := data[..];
      var dest := HEADER_LENGTH + off;
      for i := 0 to |body|
        invariant data[..] == before[..dest] + body[..i] + before[dest + i..]
      {
        data[dest + i] := body[i];
      }
      assert body[..|body|] == body;
    }

    /** The memcpy followed by the marking. */
    method Add(off: nat, body: seq<byte>)
      requires Valid() && reassembly != null && off + |body| <= msgLen
      modifies this, Arrays
      ensures Valid() && Got() == old(Got()) + Chunk(off, body)
      ensures reassembly == null <==> Got().Keys == Span(0, msgLen)
    {
      hide Mirrors;
      ghost var before, mask, had := data[..], reassembly[..], have;
      MirrorsLength(mask, msgLen, had);
      Copy(off, body);
      assert reassembly[..] == mask;
      assert data[..HEADER_LENGTH] == before[..HEADER_LENGTH];
      BytesAdded(before, data[..], msgLen, had, off, body);
      Mark(off, off + |body|);
    }
  }
}
