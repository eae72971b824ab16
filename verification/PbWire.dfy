/** The protobuf wire primitives as functions on byte sequences: what the encoders
    append and what the decoders consume, with the laws relating the two. */
module PbWire {
  import opened Bits
  import opened Common
  import opened PbTypes

  /** A decoder's result: the value and the unread bytes, or failure. */
  datatype Parse<+T> = Fail | Ok(value: T, rest: seq<byte>)

  datatype TagParse = TagFail | TagEof(rest: seq<byte>) | Tag(tag: nat, wt: nat, rest: seq<byte>)

  const WT_VARINT := 0
  const WT_64BIT := 1
  const WT_STRING := 2
  const WT_32BIT := 5

  // -------------------------------------------------------------------- varints

  /** byte & 0x7f */
  function Payload(b: byte): (p: nat)
    ensures p < 128
  {
    if b >= 128 then b - 128 else b
  }

  /** The 8-bit bit position counter, seven further. */
  function NextPos(bitpos: nat): nat {
    if bitpos + 7 >= 256 then bitpos + 7 - 256 else bitpos + 7
  }

  function EncVarint(n: nat): (bs: seq<byte>)
    ensures |bs| >= 1
  {
    if n < 128 then [n] else [n % 128 + 128] + EncVarint(n / 128)
  }

  /** pb_decode_varint from bit position bitpos with accumulator acc. */
  function DecV64(bs: seq<byte>, bitpos: nat, acc: nat): (r: Parse<nat>)
    ensures r.Ok? ==> |r.rest| < |bs|
    decreases |bs|
  {
    if bitpos >= 64 || bs == [] then Fail
    else
      var acc' := Or(acc, Low(Shl(Payload(bs[0]), bitpos), 64));
      if bs[0] < 128 then Ok(acc', bs[1..]) else DecV64(bs[1..], bitpos + 7, acc')
  }

  lemma AccumulatorBound(acc: nat, p: nat, bitpos: nat, w: nat)
    requires acc < Pow2(w)
    ensures Or(acc, Low(Shl(p, bitpos), w)) < Pow2(w)
  {
    LowBound(Shl(p, bitpos), w);
    OrBound(acc, Low(Shl(p, bitpos), w), w);
  }

  lemma {:induction false} DecV64Bound(bs: seq<byte>, bitpos: nat, acc: nat)
    requires acc < Pow2(64)
    ensures DecV64(bs, bitpos, acc).Ok? ==> DecV64(bs, bitpos, acc).value < U64
    decreases |bs|
  {
    if bitpos < 64 && bs != [] {
      AccumulatorBound(acc, Payload(bs[0]), bitpos, 64);
      Powers();
      DecV64Bound(bs[1..], bitpos + 7, Or(acc, Low(Shl(Payload(bs[0]), bitpos), 64)));
    }
  }

  function DecVarint(bs: seq<byte>): (r: Parse<nat>)
    ensures r.Ok? ==> |r.rest| < |bs| && r.value < U64
  {
    DecV64Bound(bs, 0, 0);
    DecV64(bs, 0, 0)
  }

  /** The multi-byte loop of pb_decode_varint32_eof; bitpos is an 8-bit counter. */
  function DecV32(bs: seq<byte>, bitpos: nat, acc: nat): (r: Parse<nat>)
    ensures r.Ok? ==> |r.rest| < |bs|
    decreases |bs|
  {
    if bs == [] then Fail
    else
      var b := bs[0];
      if bitpos >= 32 && Payload(b) != 0 && (acc < 0x8000_0000 || b != (if bitpos < 63 then 0xff else 1)) then Fail
      else
        var acc' := if bitpos >= 32 then acc else Or(acc, Low(Shl(Payload(b), bitpos), 32));
        var bitpos' := NextPos(bitpos);
        if b >= 128 then DecV32(bs[1..], bitpos', acc')
        else if bitpos' == 35 && b >= 16 then Fail
        else Ok(acc', bs[1..])
  }

  lemma {:induction false} DecV32Bound(bs: seq<byte>, bitpos: nat, acc: nat)
    requires acc < Pow2(32)
    ensures DecV32(bs, bitpos, acc).Ok? ==> DecV32(bs, bitpos, acc).value < U32
    decreases |bs|
  {
    hide Or, Low, Shl, Payload, NextPos;
    Powers();
    hide Pow2;
    if bs != [] {
      AccumulatorBound(acc, Payload(bs[0]), bitpos, 32);
      DecV32Bound(bs[1..], NextPos(bitpos),
                  if bitpos >= 32 then acc else Or(acc, Low(Shl(Payload(bs[0]), bitpos), 32)));
    }
  }

  function DecVarint32(bs: seq<byte>): (r: Parse<nat>)
    ensures r.Ok? ==> |r.rest| < |bs| && r.value < U32
  {
    if bs == [] then Fail
    else if bs[0] < 128 then Ok(bs[0], bs[1..])
    else
      DecV32Bound(bs[1..], 7, Payload(bs[0]));
      DecV32(bs[1..], 7, Payload(bs[0]))
  }

  function SkipVarint(bs: seq<byte>): (r: Parse<()>)
    ensures r.Ok? ==> |r.rest| < |bs|
  {
    if bs == [] then Fail
    else if bs[0] < 128 then Ok((), bs[1..])
    else SkipVarint(bs[1..])
  }

  // ------------------------------------------------------------ fixed and strings

  function EncFixed(n: nat, k: nat): (bs: seq<byte>)
    ensures |bs| == k
  {
    if k == 0 then [] else [n % 256] + EncFixed(n / 256, k - 1)
  }

  function LittleEndian(bs: seq<byte>): (n: nat)
    ensures n < Pow2(8 * |bs|)
  {
    if bs == [] then 0
    else
      Pow2Sum(8, 8 * |bs[1..]|, 8 * |bs|);
      Powers16();
      bs[0] + 256 * LittleEndian(bs[1..])
  }

  function DecBytes(bs: seq<byte>, k: nat): (r: Parse<seq<byte>>)
    ensures r.Ok? ==> |r.value| == k && bs == r.value + r.rest
  {
    if |bs| < k then Fail else Ok(bs[..k], bs[k..])
  }

  function DecFixed(bs: seq<byte>, k: nat): (r: Parse<nat>)
    ensures r.Ok? ==> r.value < Pow2(8 * k) && |r.rest| + k == |bs|
  {
    match DecBytes(bs, k)
    case Fail => Fail
    case Ok(b, rest) => Ok(LittleEndian(b), rest)
  }

  /** Length (cast to 64 bits) and contents. */
  function EncString(b: seq<byte>): (bs: seq<byte>)
    ensures |bs| > |b|
  {
    EncVarint(|b| % U64) + b
  }

  /** A length and that many bytes: the contents of a string substream. */
  function DecString(bs: seq<byte>): (r: Parse<seq<byte>>)
    ensures r.Ok? ==> |r.value| + |r.rest| < |bs|
  {
    match DecVarint32(bs)
    case Fail => Fail
    case Ok(n, rest) => DecBytes(rest, n)
  }

  // ----------------------------------------------------------------------- tags

  function EncTag(wt: nat, tag: nat): (bs: seq<byte>)
    ensures |bs| >= 1
  {
    EncVarint(Or(wt, Shl(tag, 3)))
  }

  function DecTag(bs: seq<byte>): (r: TagParse)
    ensures r.Tag? ==> |r.rest| < |bs|
    ensures r.TagEof? ==> |r.rest| < |bs|
  {
    match DecVarint32(bs)
    case Fail => TagFail
    case Ok(n, rest) => if n == 0 then TagEof(rest) else Tag(n / 8, n % 8, rest)
  }

  /** pb_skip_field. */
  function SkipField(wt: nat, bs: seq<byte>): (r: Parse<()>)
    ensures r.Ok? ==> |r.rest| <= |bs|
  {
    if wt == WT_VARINT then SkipVarint(bs)
    else if wt == WT_STRING then
      match DecString(bs)
      case Fail => Fail
      case Ok(_, rest) => Ok((), rest)
    else if wt == WT_64BIT || wt == WT_32BIT then
      match DecBytes(bs, if wt == WT_64BIT then 8 else 4)
      case Fail => Fail
      case Ok(_, rest) => Ok((), rest)
    else Fail
  }

  // -------------------------------------------------------------- number formats

  /** Two's complement reinterpretation of a width-bit word (Half(size) is 2^(width-1)). */
  function ToSigned(n: nat, size: nat): int {
    var m := n % (2 * Half(size));
    if m < Half(size) then m else m - 2 * Half(size)
  }

  function ToU64(n: int): (r: nat)
    requires -Half(8) <= n < U64
    ensures r < U64
  {
    if n < 0 then n + U64 else n
  }

  /** The zig-zag word of a signed 64-bit value (pb_encode_svarint): the shift drops
      the sign bit, the complement of a negative word undoes it. */
  function ZigZag(n: int): (r: nat)
    requires -Half(8) <= n < Half(8)
    ensures r < U64
  {
    var shifted := (2 * ToU64(n)) % U64;
    if n < 0 then U64 - 1 - shifted else shifted
  }

  function UnZigZag(v: nat): (n: int)
    requires v < U64
  {
    if v % 2 == 1 then ToSigned(U64 - 1 - v / 2, 8) else ToSigned(v / 2, 8)
  }

  // ----------------------------------------------------------------------- laws

  lemma {:induction false} DecV64Append(bs: seq<byte>, t: seq<byte>, bitpos: nat, acc: nat)
    requires DecV64(bs, bitpos, acc).Ok?
    ensures DecV64(bs + t, bitpos, acc) == DecV64(bs, bitpos, acc).(rest := DecV64(bs, bitpos, acc).rest + t)
    decreases |bs|
  {
    assert (bs + t)[1..] == bs[1..] + t;
    if bs[0] >= 128 {
      DecV64Append(bs[1..], t, bitpos + 7, Or(acc, Low(Shl(Payload(bs[0]), bitpos), 64)));
    }
  }

  lemma {:induction false} DecV32Append(bs: seq<byte>, t: seq<byte>, bitpos: nat, acc: nat)
    requires DecV32(bs, bitpos, acc).Ok?
    ensures DecV32(bs + t, bitpos, acc) == DecV32(bs, bitpos, acc).(rest := DecV32(bs, bitpos, acc).rest + t)
    decreases |bs|
  {
    assert (bs + t)[1..] == bs[1..] + t;
    if bs[0] >= 128 {
      DecV32Append(bs[1..], t, NextPos(bitpos),
                   if bitpos >= 32 then acc else Or(acc, Low(Shl(Payload(bs[0]), bitpos), 32)));
    }
  }

  lemma DecVarint32Append(bs: seq<byte>, t: seq<byte>)
    requires DecVarint32(bs).Ok?
    ensures DecVarint32(bs + t) == DecVarint32(bs).(rest := DecVarint32(bs).rest + t)
  {
    assert (bs + t)[1..] == bs[1..] + t;
    if bs[0] >= 128 { DecV32Append(bs[1..], t, 7, Payload(bs[0])); }
  }

  lemma {:induction false} SkipVarintAppend(bs: seq<byte>, t: seq<byte>)
    requires SkipVarint(bs).Ok?
    ensures SkipVarint(bs + t) == Ok((), SkipVarint(bs).rest + t)
  {
    assert (bs + t)[1..] == bs[1..] + t;
    if bs[0] >= 128 { SkipVarintAppend(bs[1..], t); }
  }

  lemma DecBytesAppend(bs: seq<byte>, t: seq<byte>, k: nat)
    requires DecBytes(bs, k).Ok?
    ensures DecBytes(bs + t, k) == Ok(DecBytes(bs, k).value, DecBytes(bs, k).rest + t)
  {
    assert (bs + t)[..k] == bs[..k] && (bs + t)[k..] == bs[k..] + t;
  }

  lemma DecStringAppend(bs: seq<byte>, t: seq<byte>)
    requires DecString(bs).Ok?
    ensures DecString(bs + t) == Ok(DecString(bs).value, DecString(bs).rest + t)
  {
    DecVarint32Append(bs, t);
    var Ok(n, rest) := DecVarint32(bs);
    DecBytesAppend(rest, t, n);
  }

  lemma DecTagAppend(bs: seq<byte>, t: seq<byte>)
    requires !DecTag(bs).TagFail?
    ensures DecTag(bs + t) == DecTag(bs).(rest := DecTag(bs).rest + t)
  {
    DecVarint32Append(bs, t);
  }

  lemma SkipFieldAppend(wt: nat, bs: seq<byte>, t: seq<byte>)
    requires SkipField(wt, bs).Ok?
    ensures SkipField(wt, bs + t) == Ok((), SkipField(wt, bs).rest + t)
  {
    if wt == WT_VARINT { SkipVarintAppend(bs, t); }
    else if wt == WT_STRING { DecStringAppend(bs, t); }
    else { DecBytesAppend(bs, t, if wt == WT_64BIT then 8 else 4); }
  }

  /** Splitting a shifted number at its low seven bits. */
  lemma ShlSplit(n: nat, s: nat)
    ensures Shl(n, s) == Shl(n % 128, s) + Shl(n / 128, s + 7)
    ensures Shl(n % 128, s) <= Pow2(s + 7) - Pow2(s)
  {
    ShlIsTimes(n, s);
    ShlIsTimes(n % 128, s);
    ShlIsTimes(n / 128, s + 7);
    Pow2Plus7(s);
    SplitTimes(n, Pow2(s));
  }

  lemma Pow2Plus7(s: nat)
    ensures Pow2(s + 7) == 128 * Pow2(s)
  {
    Pow2Add(s, 7);
    Powers16();
  }

  lemma SplitTimes(n: nat, p: nat)
    ensures n * p == (n % 128) * p + (n / 128) * (128 * p)
    ensures (n % 128) * p <= 127 * p
  {
    Distribute(n / 128, n % 128, p);
  }

  lemma Distribute(q: nat, r: nat, p: nat)
    ensures (128 * q + r) * p == r * p + q * (128 * p)
    ensures r < 128 ==> r * p <= 127 * p
  {
    assert q * (128 * p) == 128 * (q * p);
  }

  lemma {:induction false} ShlPositive(n: nat, s: nat)
    requires n > 0
    ensures Shl(n, s) >= Pow2(s)
  {
    if s > 0 { ShlPositive(n, s - 1); }
  }

  /** One group of seven bits stored at position s in a w-bit word. */
  lemma GroupStep(n: nat, s: nat, w: nat, acc: nat)
    requires acc < Pow2(s) && Shl(n, s) < Pow2(w)
    ensures Or(acc, Low(Shl(n % 128, s), w)) == acc + Shl(n % 128, s) < Pow2(s + 7)
    ensures n >= 128 ==> s + 7 < w
    ensures Shl(n, s) == Shl(n % 128, s) + Shl(n / 128, s + 7)
  {
    ShlSplit(n, s);
    LowSmall(Shl(n % 128, s), w);
    OrShl(acc, n % 128, s);
    if n >= 128 {
      ShlPositive(n / 128, s + 7);
      if w <= s + 7 { Pow2Monotone(w, s + 7); }
    }
  }

  /** pb_decode_varint inverts pb_encode_varint. */
  lemma {:induction false} Varint64RoundTrip(n: nat, t: seq<byte>, s: nat, acc: nat)
    requires s < 64 && acc < Pow2(s) && Shl(n, s) < Pow2(64)
    ensures DecV64(EncVarint(n) + t, s, acc) == Ok(acc + Shl(n, s), t)
    decreases n
  {
    hide Or, Low, Shl, Pow2;
    GroupStep(n, s, 64, acc);
    VarintHead(n, t);
    if n >= 128 {
      Varint64RoundTrip(n / 128, t, s + 7, acc + Shl(n % 128, s));
    } else {
      ShlOfZero(s + 7);
    }
  }

  lemma {:induction false} ShlOfZero(s: nat)
    ensures Shl(0, s) == 0
  {
    if s > 0 { ShlOfZero(s - 1); }
  }

  lemma VarintHead(n: nat, t: seq<byte>)
    ensures var bs := EncVarint(n) + t;
            && bs != [] && Payload(bs[0]) == n % 128 && (n < 128 ==> bs[0] == n) && (bs[0] < 128 <==> n < 128)
            && bs[1..] == if n < 128 then t else EncVarint(n / 128) + t
  {
    if n < 128 {
      assert EncVarint(n) == [n];
    } else {
      var head, tail := n % 128 + 128, EncVarint(n / 128);
      assert EncVarint(n) == [head] + tail;
      hide EncVarint;
      assert ([head] + tail + t)[1..] == tail + t;
    }
  }

  lemma VarintRoundTrip(n: nat, t: seq<byte>)
    requires n < U64
    ensures DecVarint(EncVarint(n) + t) == Ok(n, t)
  {
    Powers();
    Varint64RoundTrip(n, t, 0, 0);
  }

  /** The continuation of a 32-bit varint that fits, from the k-th group. */
  lemma {:induction false} Varint32Loop(n: nat, t: seq<byte>, k: nat, s: nat, acc: nat)
    requires s == 7 * k && k <= 4 && acc < Pow2(s) && Shl(n, s) < Pow2(32)
    ensures DecV32(EncVarint(n) + t, s, acc) == Ok(acc + Shl(n, s), t)
    decreases n
  {
    hide Or, Low, Shl, Pow2;
    var bs := EncVarint(n) + t;
    var p := n % 128;
    assert Or(acc, Low(Shl(p, s), 32)) == acc + Shl(p, s) && (n >= 128 ==> acc + Shl(p, s) < Pow2(s + 7))
      && (n >= 128 ==> s + 7 < 32) && Shl(n, s) == Shl(p, s) + Shl(n / 128, s + 7) by { GroupStep(n, s, 32, acc); }
    assert s == 28 ==> n < 16 by { if s == 28 { LastGroup(n); } }
    VarintHead(n, t);
    V32Step(bs, s, acc);
    if n >= 128 {
      Varint32Loop(n / 128, t, k + 1, s + 7, acc + Shl(p, s));
    } else {
      ShlOfZero(s + 7);
    }
  }

  lemma V32Step(bs: seq<byte>, s: nat, acc: nat)
    requires bs != [] && s <= 28 && (s == 28 ==> bs[0] < 16)
    ensures var acc' := Or(acc, Low(Shl(Payload(bs[0]), s), 32));
            DecV32(bs, s, acc) == if bs[0] >= 128 then DecV32(bs[1..], s + 7, acc') else Ok(acc', bs[1..])
  {
  }

  lemma LastGroup(n: nat)
    requires Shl(n, 28) < Pow2(32)
    ensures n < 16
  {
    ShlIsTimes(n, 28);
    Pow2Sum(4, 28, 32);
    assert Pow2(4) == 16;
    TimesMonotone(16, n, Pow2(28));
  }

  lemma TimesMonotone(a: nat, b: nat, p: nat)
    ensures p > 0 && a <= b ==> a * p <= b * p
  {
  }

  lemma Varint32RoundTrip(n: nat, t: seq<byte>)
    requires n < U32
    ensures DecVarint32(EncVarint(n) + t) == Ok(n, t)
  {
    hide Or, Low, Shl, Pow2;
    VarintHead(n, t);
    if n >= 128 {
      Powers(); Powers16();
      ShlIsTimes(n / 128, 7);
      Varint32Loop(n / 128, t, 1, 7, n % 128);
    }
  }

  /** A 64-bit value takes at most ten bytes. */
  lemma {:induction false} VarintLength(n: nat, k: nat)
    requires n < Pow2(7 * k) && k > 0
    ensures |EncVarint(n)| <= k
    decreases k
  {
    if n >= 128 {
      Pow2Add(7, 7 * (k - 1)); Powers16();
      assert k > 1;
      VarintLength(n / 128, k - 1);
    }
  }

  lemma VarintAtMostTen(n: nat)
    requires n < U64
    ensures |EncVarint(n)| <= 10
  {
    Powers();
    Pow2Monotone(64, 70);
    VarintLength(n, 10);
  }

  lemma {:induction false} LowOr(a: nat, b: nat, w: nat)
    ensures Low(Or(a, b), w) == Or(Low(a, w), Low(b, w))
    decreases w
  {
    if w > 0 {
      LowOr(a / 2, b / 2, w - 1);
      LowStep(a, w);
      LowStep(b, w);
      LowStep(Or(a, b), w);
      OrStep(a, b);
      OrStep(Low(a, w), Low(b, w));
      hide Or, Low;
    }
  }

  lemma OrStep(a: nat, b: nat)
    ensures Or(a, b) % 2 == B2N(a % 2 == 1 || b % 2 == 1) && Or(a, b) / 2 == Or(a / 2, b / 2)
  {
  }

  lemma LowStep(a: nat, w: nat)
    requires w > 0
    ensures Low(a, w) % 2 == a % 2 && Low(a, w) / 2 == Low(a / 2, w - 1)
  {
  }

  lemma {:induction false} LowLow(a: nat, w: nat, v: nat)
    requires w <= v
    ensures Low(Low(a, v), w) == Low(a, w)
    decreases w
  {
    if w > 0 { LowLow(a / 2, w - 1, v - 1); }
  }

  lemma {:induction false} LowShl(a: nat, s: nat, w: nat)
    requires w <= s
    ensures Low(Shl(a, s), w) == 0
    decreases w
  {
    if w > 0 { LowShl(a, s - 1, w - 1); }
  }

  lemma {:induction false} OrRightZero(a: nat)
    ensures Or(a, 0) == a
  {
    if a > 0 { OrRightZero(a / 2); }
  }

  /** Accumulators of the two varint loops that agree stay in agreement. */
  lemma AccumulatorsAgree(b: byte, s: nat, acc: nat)
    ensures var acc' := Or(acc, Low(Shl(Payload(b), s), 64));
            Low(acc', 32) == if s >= 32 then Low(acc, 32) else Or(Low(acc, 32), Low(Shl(Payload(b), s), 32))
  {
    LowOr(acc, Low(Shl(Payload(b), s), 64), 32);
    LowLow(Shl(Payload(b), s), 32, 64);
    if s >= 32 {
      LowShl(Payload(b), s, 32);
      OrRightZero(Low(acc, 32));
    }
  }

  lemma {:induction false} VarintLoopsAgree(bs: seq<byte>, s: nat, acc: nat, acc32: nat)
    requires acc32 == Low(acc, 32)
    requires DecV64(bs, s, acc).Ok? && DecV32(bs, s, acc32).Ok?
    ensures DecV32(bs, s, acc32) == Ok(Low(DecV64(bs, s, acc).value, 32), DecV64(bs, s, acc).rest)
    decreases |bs|
  {
    AccumulatorsAgree(bs[0], s, acc);
    if bs[0] >= 128 {
      var acc' := Or(acc, Low(Shl(Payload(bs[0]), s), 64));
      VarintLoopsAgree(bs[1..], s + 7, acc', Low(acc', 32));
    }
  }

  /** When both decoders accept the same bytes they read equally far and agree modulo 2^32. */
  lemma VarintDecodersAgree(bs: seq<byte>)
    requires DecVarint(bs).Ok? && DecVarint32(bs).Ok?
    ensures DecVarint32(bs) == Ok(DecVarint(bs).value % U32, DecVarint(bs).rest)
  {
    var b := bs[0];
    FirstGroup(b);
    assert DecVarint(bs) == if b >= 128 then DecV64(bs[1..], 7, Payload(b)) else Ok(Payload(b), bs[1..]);
    if b >= 128 {
      VarintLoopsAgree(bs[1..], 7, Payload(b), Payload(b));
    }
    Low32IsMod(DecVarint(bs).value);
  }

  lemma Low32IsMod(n: nat)
    ensures Low(n, 32) == n % U32
  {
    LowIsMod(n, 32);
    Powers();
  }

  lemma FirstGroup(b: byte)
    ensures Or(0, Low(Shl(Payload(b), 0), 64)) == Payload(b) == Low(Payload(b), 32)
  {
    Powers(); Powers16();
    LowSmall(Payload(b), 64);
    LowSmall(Payload(b), 32);
    OrZero(Payload(b));
  }

  lemma {:induction false} FixedRoundTrip(n: nat, k: nat)
    requires n < Pow2(8 * k)
    ensures LittleEndian(EncFixed(n, k)) == n
    decreases k
  {
    if k > 0 {
      var rest := EncFixed(n / 256, k - 1);
      assert EncFixed(n, k) == [n % 256] + rest && ([n % 256] + rest)[1..] == rest;
      assert n / 256 < Pow2(8 * (k - 1)) by {
        Pow2Sum(8, 8 * (k - 1), 8 * k);
        Powers16();
        hide Pow2;
      }
      FixedRoundTrip(n / 256, k - 1);
      hide EncFixed, Pow2;
    }
  }

  lemma DecFixedRoundTrip(n: nat, k: nat, t: seq<byte>)
    requires n < Pow2(8 * k)
    ensures DecFixed(EncFixed(n, k) + t, k) == Ok(n, t)
  {
    var e := EncFixed(n, k);
    assert (e + t)[..k] == e && (e + t)[k..] == t;
    FixedRoundTrip(n, k);
  }

  lemma StringRoundTrip(b: seq<byte>, t: seq<byte>)
    requires |b| < U32
    ensures DecString(EncString(b) + t) == Ok(b, t)
  {
    assert EncString(b) + t == EncVarint(|b|) + (b + t);
    Varint32RoundTrip(|b|, b + t);
    assert (b + t)[..|b|] == b && (b + t)[|b|..] == t;
  }

  lemma TagWord(wt: nat, tag: nat)
    requires wt < 8
    ensures Or(wt, Shl(tag, 3)) == wt + tag * 8
  {
    assert Pow2(3) == 8;
    OrShl(wt, tag, 3);
    ShlIsTimes(tag, 3);
  }

  lemma TagRoundTrip(wt: nat, tag: nat, t: seq<byte>)
    requires wt < 8 && 0 < tag < MAX_TAG
    ensures DecTag(EncTag(wt, tag) + t) == Tag(tag, wt, t)
  {
    hide Or, Shl, EncVarint, DecVarint32;
    TagWord(wt, tag);
    ModUnique(wt + tag * 8, 8, tag, wt);
    Varint32RoundTrip(wt + tag * 8, t);
  }

  lemma ZigZagRoundTrip(n: int)
    requires -Half(8) <= n < Half(8)
    ensures UnZigZag(ZigZag(n)) == n
    ensures ZigZag(n) == if n < 0 then -2 * n - 1 else 2 * n
  {
    assert ZigZag(n) == if n < 0 then -2 * n - 1 else 2 * n by {
      if n < 0 { ModUnique(2 * ToU64(n), U64, 1, 2 * n + U64); } else { ModUnique(2 * n, U64, 0, 2 * n); }
    }
    hide ZigZag;
    UnZigZagMeaning(ZigZag(n));
  }

  lemma ToSignedBelow(n: nat, size: nat)
    requires n < 2 * Half(size)
    ensures ToSigned(n, size) == if n < Half(size) then n else n - 2 * Half(size)
  {
    ModUnique(n, 2 * Half(size), 0, n);
  }

  /** Even words stand for the non-negative numbers, odd ones for the negative. */
  lemma UnZigZagMeaning(v: nat)
    requires v < U64
    ensures UnZigZag(v) == if v % 2 == 0 then v / 2 else -(v / 2) - 1
  {
    ToSignedBelow(if v % 2 == 1 then U64 - 1 - v / 2 else v / 2, 8);
    hide ToSigned;
  }

  lemma UnZigZagRoundTrip(v: nat)
    requires v < U64
    ensures -Half(8) <= UnZigZag(v) < Half(8) && ZigZag(UnZigZag(v)) == v
  {
    UnZigZagMeaning(v);
    hide UnZigZag, ZigZag;
    ZigZagRoundTrip(UnZigZag(v));
  }

  /** Reading a stored word back in its own width. */
  lemma SignedRoundTrip(n: int, size: nat)
    requires WidthOk(size) && -Half(size) <= n < Half(size)
    ensures ToSigned(ToU64(n), if size == 8 then 8 else 4) == n
  {
    if size != 8 && n < 0 {
      assert ToU64(n) == 0xffff_ffff * U32 + (U32 + n);
      ModUnique(ToU64(n), U32, 0xffff_ffff, U32 + n);
    }
  }

  lemma SignedClamp(n: int, size: nat)
    requires WidthOk(size) && -Half(size) <= n < Half(size)
    ensures ToSigned(ToU64(n), size) == n
  {
    var m := 2 * Half(size);
    if n < 0 {
      var q := if size == 1 then 0xff_ffff_ffff_ffff else if size == 2 then 0xffff_ffff_ffff
               else if size == 4 then 0xffff_ffff else 0;
      ModUnique(ToU64(n), m, q, m + n);
    }
  }
}
