/** The DTLS record layer as objects: opening records against the replay window and sealing
    them under increasing numbers. What encryption does is given. */
module DtlsRecordLayer {
  import opened Bits
  import opened Common
  import opened DtlsRecord

  /** Results of dtls_open_record. */
  datatype Opened = CloseNotify | Incomplete | Discarded | TooLong | AlertRecord | Success(typ: byte)

  /** The read half of SSL3_STATE and DTLS1_STATE. */
  class ReadLayer {
    var epoch: nat
    var bits: nat
    var max: nat

    /** Every number taken, and whether the 16-bit epoch has wrapped. */
    ghost var taken: set<nat>
    ghost var wrapped: bool

    ghost predicate Valid()
      reads this
    {
      && epoch < U16 && bits < Pow2(64) && max < U64
      && (!wrapped ==> ReaderOk(Abs(), taken))
    }

    ghost function Abs(): Reader
      reads this
    {
      Reader(epoch, Window(bits, max))
    }

    constructor ()
      ensures Valid() && taken == {} && !wrapped && Abs() == Reader(0, Window(0, 0))
    {
      epoch, bits, max, taken, wrapped := 0, 0, 0, {}, false;
      EmptyTracks();
      assert InEpoch({}, 0) == {};
    }

    /** to_u64_be */
    static method ToU64(b: seq<byte>) returns (n: nat)
      requires |b| == 8
      ensures n == BigEndian(b) && n < U64
    {
      n := 0;
      for i := 0 to 8
        invariant n == BigEndian(b[..i])
      {
        assert b[..i + 1][..i] == b[..i];
        BigEndianBound(b[..i]);
        ShiftIn(n, b[i], i);
        n := Or(b[i], Low(Shl(n, 8), 64));
      }
      assert b[..8] == b;
      BigEndianBound(b);
      Powers();
    }

    static lemma ShiftIn(n: nat, b: byte, i: nat)
      requires n < Pow2(8 * i) && i < 8
      ensures Or(b, Low(Shl(n, 8), 64)) == n * 256 + b
    {
      Powers16();
      Pow2Sum(8 * i, 8, 8 * i + 8);
      Pow2Monotone(8 * i + 8, 64);
      ShlIsTimes(n, 8);
      LowSmall(Shl(n, 8), 64);
      OrShl(b, n, 8);
    }

    /** dtls1_bitmap_should_discard */
    method BitmapShouldDiscard(n: nat) returns (discard: bool)
      ensures discard == ShouldDiscard(Window(bits, max), n)
    {
      if n > max { return false; }
      var idx := max - n;
      discard := idx >= WINDOW || And(bits, Shl(1, idx)) != 0;
    }

    /** dtls1_bitmap_record */
    method BitmapRecord(n: nat)
      requires bits < Pow2(64) && n < U64
      modifies this`bits, this`max
      ensures Window(bits, max) == Record(old(Window(bits, max)), n)
    {
      if n > max {
        var shift := n - max;
        if shift >= WINDOW { bits := 0; } else { bits := Low(Shl(bits, shift), 64); }
        max := n;
      }
      var idx := max - n;
      if idx < WINDOW { bits := Or(bits, Shl(1, idx)); }
    }

    /** A whole record header, a body that is all there and not too long, and a version that fits: in the clear
        its first byte, otherwise the cipher's own. */
    static predicate Framed(inp: seq<byte>, nullCipher: bool, version: nat) {
      && |inp| >= HEADER
      && |inp| >= HEADER + BigEndian(inp[11..13])
      && BigEndian(inp[11..13]) <= MAX_ENCRYPTED
      && if nullCipher then inp[1] == VERSION_MAJOR else BigEndian(inp[1..3]) == version
    }

    /** dtls_open_record; plain is the length of the plaintext if the record decrypts. A framed record is
        looked at by number, and taken exactly when it is of the current epoch, not discarded, decrypts and is
        not too long; while the epoch has not wrapped its number then is a new one. */
    method OpenRecord(inp: seq<byte>, nullCipher: bool, version: nat, closed: bool, plain: Option<nat>)
      returns (r: Opened, consumed: nat, ghost op: Option<ReadOp>)
      requires Valid()
      modifies this`bits, this`max, this`taken
      ensures Valid() && consumed <= |inp|
      ensures op.Some? <==> !closed && Framed(inp, nullCipher, version)
      ensures op.None? ==> Abs() == old(Abs()) && taken == old(taken)
      ensures op.None? ==> r == (if closed then CloseNotify else if inp == [] then Incomplete else Discarded)
      ensures op.None? ==> consumed == if closed then 0 else |inp|
      ensures op.Some? ==>
                && op.value == Open(BigEndian(inp[3..11]), plain.Some?, plain.Some? && plain.value > MAX_PLAIN)
                && consumed == HEADER + BigEndian(inp[11..13])
                && Abs() == ReadStep(old(Abs()), op.value)
                && ((r.Success? || r.AlertRecord?) <==> Takes(old(Abs()), op.value))
                && (r.TooLong? <==> plain.Some? && plain.value > MAX_PLAIN
                                    && Takes(old(Abs()), op.value.(tooLong := false)))
                && (r.Success? ==> r.typ == inp[0] != ALERT) && (r.AlertRecord? ==> inp[0] == ALERT)
                && (r.Success? || r.AlertRecord? || r.TooLong? || r.Discarded?)
                && taken == (if Takes(old(Abs()), op.value) then old(taken) + {op.value.n} else old(taken))
      ensures !wrapped && (r.Success? || r.AlertRecord?) ==> op.value.n !in old(taken)
    {
      hide BigEndian, Pow2, And, Or, Shl, Low, Bit;
      if closed { return CloseNotify, 0, None; }
      if inp == [] { return Incomplete, 0, None; }
      if |inp| < HEADER { return Discarded, |inp|, None; }
      var length := inp[11] as nat * 256 + inp[12];
      TwoBytes(inp[11..13]);
      TwoBytes(inp[1..3]);
      if |inp| < HEADER + length || length > MAX_ENCRYPTED { return Discarded, |inp|, None; }
      var versionOk := if nullCipher then inp[1] == VERSION_MAJOR else inp[1] as nat * 256 + inp[2] == version;
      if !versionOk { return Discarded, |inp|, None; }
      consumed := HEADER + length;
      var n := ToU64(inp[3..11]);
      var recordEpoch := inp[3] as nat * 256 + inp[4];
      EpochBytes(inp[3..11]);
      op := Some(Open(n, plain.Some?, plain.Some? && plain.value > MAX_PLAIN));
      if !wrapped { ReadStepKeeps(Abs(), taken, op.value); }
      hide ReaderOk, Record, ShouldDiscard;
      var discard := BitmapShouldDiscard(n);
      if recordEpoch != epoch || discard { return Discarded, consumed, op; }
      if plain.None? { return Discarded, consumed, op; }
      if plain.value > MAX_PLAIN { return TooLong, consumed, op; }
      RecordBounds(Window(bits, max), n);
      BitmapRecord(n);
      taken := taken + {n};
      r := if inp[0] == ALERT then AlertRecord else Success(inp[0]);
    }

    static lemma TwoBytes(b: seq<byte>)
      requires |b| == 2
      ensures BigEndian(b) == b[0] as nat * 256 + b[1]
    {
      assert b[..1][..0] == [];
      assert BigEndian(b[..1]) == b[0];
    }

    /** The epoch is the upper sixteen bits of the number. */
    static lemma EpochBytes(b: seq<byte>)
      requires |b| == 8
      ensures EpochOf(BigEndian(b)) == b[0] as nat * 256 + b[1]
    {
      hide BigEndian, Pow2;
      TwoBytes(b[..2]);
      BigEndianSplit(b, 2);
      BigEndianBound(b[2..]);
      Powers();
      ModUnique(BigEndian(b), U48, BigEndian(b[..2]), BigEndian(b[2..]));
    }

    static lemma {:induction false} BigEndianSplit(b: seq<byte>, k: nat)
      requires k <= |b|
      ensures BigEndian(b) == BigEndian(b[..k]) * Pow2(8 * (|b| - k)) + BigEndian(b[k..])
      decreases |b| - k
    {
      if k < |b| {
        var init := b[..|b| - 1];
        BigEndianSplit(init, k);
        assert init[..k] == b[..k] && init[k..] == b[k..][..|b| - 1 - k];
        Pow2Sum(8, 8 * (|b| - 1 - k), 8 * (|b| - k));
        Powers16();
        Regroup(BigEndian(b[..k]), Pow2(8 * (|b| - 1 - k)), BigEndian(init[k..]), b[|b| - 1]);
      } else {
        assert b[..k] == b && b[k..] == [];
      }
    }

    static lemma Regroup(x: nat, p: nat, y: nat, d: nat)
      ensures (x * p + y) * 256 + d == x * (256 * p) + (y * 256 + d)
    {
    }

    /** dtls1_set_read_state; leftover says whether handshake data is still unprocessed. */
    method SetReadState(leftover: bool) returns (ok: bool)
      requires Valid()
      modifies this
      ensures Valid() && ok == !leftover && taken == old(taken)
      ensures Abs() == if ok then ReadStep(old(Abs()), ChangeReadState) else old(Abs())
      ensures wrapped == (old(wrapped) || (ok && old(epoch) + 1 == U16))
    {
      if leftover { return false; }
      hide Tracks;
      if !wrapped && epoch + 1 < U16 { ReadStepKeeps(Abs(), taken, ChangeReadState); }
      wrapped := wrapped || epoch + 1 == U16;
      epoch := (epoch + 1) % U16;
      bits, max := 0, 0;
      return true;
    }
  }

  /** The write half. */
  class WriteLayer {
    var epoch: nat
    const sequence: array<byte>   // write_sequence; the upper two bytes stay zero
    const last: array<byte>       // last_write_sequence

    /** Every epoch and number a record went out under, and whether a counter has wrapped. */
    ghost var used: set<(nat, int)>
    ghost var wrapped: bool

    ghost predicate Valid()
      reads this, sequence, last
    {
      && epoch < U16 && sequence.Length == 8 && last.Length == 8 && sequence != last
      && (!wrapped ==> UsedOk(Abs(), used))
    }

    ghost function Abs(): Writer
      requires sequence.Length == 8 && last.Length == 8
      reads this, sequence, last
    {
      Writer(epoch, BigEndian(sequence[2..]), BigEndian(last[2..]))
    }

    constructor ()
      ensures Valid() && fresh(sequence) && fresh(last) && used == {} && !wrapped && Abs() == Writer(0, 0, 0)
    {
      epoch, used, wrapped := 0, {}, false;
      sequence := new byte[8](_ => 0);
      last := new byte[8](_ => 0);
      new;
      ZeroBytes(sequence[2..]);
      ZeroBytes(last[2..]);
    }

    static lemma {:induction false} ZeroBytes(b: seq<byte>)
      requires forall i :: 0 <= i < |b| ==> b[i] == 0
      ensures BigEndian(b) == 0
      decreases |b|
    {
      if b != [] { ZeroBytes(b[..|b| - 1]); }
    }

    /** ssl_record_sequence_update on the low six bytes: add one with carry; fails when the
        counter comes back to zero. */
    static method SequenceUpdate(s: array<byte>) returns (ok: bool)
      requires s.Length == 8
      modifies s
      ensures s[..2] == old(s[..2])
      ensures BigEndian(s[2..]) == (old(BigEndian(s[2..])) + 1) % U48
      ensures ok == (old(BigEndian(s[2..])) + 1 < U48)
    {
      hide BigEndian, Pow2;
      ghost var before := s[..];
      var i := 7;
      while i >= 2
        invariant 1 <= i <= 7
        invariant s[..i + 1] == before[..i + 1]
        invariant forall j :: i < j < 8 ==> before[j] == 0xff && s[j] == 0
        decreases i
      {
        s[i] := (s[i] as nat + 1) % 256;
        if s[i] != 0 {
          Increment(before, s[..], i);
          assert s[..2] == before[..2];
          return true;
        }
        i := i - 1;
      }
      AllOnes(before[2..]);
      ZeroBytes(s[2..]);
      Powers();
      return false;
    }

    /** The bytes before and after the carry stopped at position i. */
    static lemma Increment(before: seq<byte>, after: seq<byte>, i: nat)
      requires |before| == |after| == 8 && 2 <= i < 8 && before[i] < 255
      requires after[..i] == before[..i] && after[i] == before[i] + 1
      requires forall j :: i < j < 8 ==> before[j] == 0xff && after[j] == 0
      ensures BigEndian(after[2..]) == BigEndian(before[2..]) + 1 < U48
    {
      hide BigEndian, Pow2;
      var a, b := before[2..i] + [before[i]], before[2..i] + [after[i]];
      assert before[2..] == a + before[i + 1..] && after[2..] == b + after[i + 1..];
      Snoc(before[2..i], before[i]);
      Snoc(before[2..i], after[i]);
      AllOnes(before[i + 1..]);
      ZeroBytes(after[i + 1..]);
      Carry(a, b, before[i + 1..], after[i + 1..]);
      BigEndianBound(after[2..]);
      Powers();
    }

    static lemma {:induction false} AllOnes(b: seq<byte>)
      requires forall i :: 0 <= i < |b| ==> b[i] == 0xff
      ensures BigEndian(b) == Pow2(8 * |b|) - 1
      decreases |b|
    {
      if b != [] {
        AllOnes(b[..|b| - 1]);
        Pow2Sum(8, 8 * (|b| - 1), 8 * |b|);
        Powers16();
      }
    }

    /** Below a digit that takes the carry, nines turn to zeros. */
    static lemma Carry(a: seq<byte>, b: seq<byte>, ones: seq<byte>, zeros: seq<byte>)
      requires |ones| == |zeros| && BigEndian(b) == BigEndian(a) + 1
      requires BigEndian(ones) == Pow2(8 * |ones|) - 1 && BigEndian(zeros) == 0
      ensures BigEndian(b + zeros) == BigEndian(a + ones) + 1
    {
      Join(b, zeros);
      Join(a, ones);
      hide BigEndian, Pow2, Times;
      Successor(BigEndian(a), Pow2(8 * |ones|));
    }

    static lemma Snoc(high: seq<byte>, d: byte)
      ensures BigEndian(high + [d]) == BigEndian(high) * 256 + d
    {
      assert (high + [d])[..|high|] == high;
    }

    static lemma Successor(x: nat, p: nat)
      ensures Times(x + 1, p) == Times(x, p) + p
    {
    }

    static function Times(x: nat, p: nat): nat { x * p }

    static lemma Join(a: seq<byte>, b: seq<byte>)
      ensures BigEndian(a + b) == Times(BigEndian(a), Pow2(8 * |b|)) + BigEndian(b)
    {
      ReadLayer.BigEndianSplit(a + b, |a|);
      assert (a + b)[..|a|] == a && (a + b)[|a|..] == b;
    }

    /** dtls_seal_record, in the current epoch or the one before; sealed is the length of the ciphertext if the
        AEAD succeeds. A record that goes out has the number of its counter, which is a new one until a
        counter wraps, and the version of the current cipher. */
    method SealRecord(typ: byte, version: nat, maxOut: nat, previous: bool, sealed: Option<nat>)
      returns (ok: bool, header: seq<byte>, ghost op: WriteOp)
      requires Valid() && (previous ==> epoch >= 1) && version < U16
      modifies this`used, this`wrapped, if previous then last else sequence
      ensures Valid()
      ensures var runs := maxOut >= HEADER && sealed.Some?;
              op == Seal(previous, runs, runs && sealed.value < U16)
      ensures Abs() == WriteStep(old(Abs()), op) && ok == Emits(old(Abs()), op)
      ensures used == (if ok then old(used) + {Number(old(Abs()), op)} else old(used))
      ensures wrapped == (old(wrapped) || Wraps(old(Abs()), op))
      ensures !wrapped && ok ==> Number(old(Abs()), op) !in old(used)
      ensures ok ==> |header| == HEADER && header[0] == typ && BigEndian(header[1..3]) == version
                     && BigEndian(header[11..13]) == sealed.value
                     && BigEndian(header[3..5]) == Number(old(Abs()), op).1
                     && BigEndian(header[5..11]) == Number(old(Abs()), op).0
    {
      hide BigEndian, Pow2;
      ghost var w := Abs();
      var number := if previous then last else sequence;
      var recordEpoch := if previous then epoch - 1 else epoch;
      var low := number[2..];
      var runs := maxOut >= HEADER && sealed.Some?;
      op := Seal(previous, runs, runs && sealed.value < U16);
      if !runs { return false, [], op; }
      var cipherLen := sealed.value;
      var updated := SequenceUpdate(number);
      wrapped := wrapped || !updated;
      if !updated || cipherLen >= U16 { return false, [], op; }
      used := used + {Number(w, op)};
      header := Header(typ, version, recordEpoch, low, cipherLen);
      return true, header, op;
    }

    static function Header(typ: byte, version: nat, epoch: nat, low: seq<byte>, len: nat): (h: seq<byte>)
      requires version < U16 && epoch < U16 && |low| == 6 && len < U16
      ensures |h| == HEADER && h[0] == typ && BigEndian(h[1..3]) == version && BigEndian(h[3..5]) == epoch
      ensures h[5..11] == low && BigEndian(h[11..13]) == len
    {
      var v, e, n := [version / 256, version % 256], [epoch / 256, epoch % 256], [len / 256, len % 256];
      var h := [typ] + v + e + low + n;
      assert h[1..3] == v && h[3..5] == e && h[5..11] == low && h[11..13] == n;
      ReadLayer.TwoBytes(v);
      ReadLayer.TwoBytes(e);
      ReadLayer.TwoBytes(n);
      h
    }

    /** dtls1_set_write_state: the old number is kept for retransmission. */
    method SetWriteState()
      requires Valid()
      modifies this`epoch, this`wrapped, sequence, last
      ensures Valid() && used == old(used)
      ensures Abs() == WriteStep(old(Abs()), ChangeWriteState)
      ensures wrapped == (old(wrapped) || Wraps(old(Abs()), ChangeWriteState))
    {
      wrapped := wrapped || epoch + 1 >= U16;
      epoch := (epoch + 1) % U16;
      MoveAndClear(sequence, last);
      ZeroBytes(sequence[2..]);
    }

    static method MoveAndClear(from: array<byte>, to: array<byte>)
      requires from.Length == 8 && to.Length == 8 && from != to
      modifies from, to
      ensures to[..] == old(from[..]) && to[2..] == old(from[2..])
      ensures forall j :: 0 <= j < 8 ==> from[j] == 0
    {
      for i := 0 to 8
        invariant to[..i] == from[..i] && from[..] == old(from[..])
      {
        to[i] := from[i];
      }
      assert to[..] == to[..8] == from[..8] == old(from[..]);
      for i := 0 to 8
        invariant forall j :: 0 <= j < i ==> from[j] == 0
        invariant to[..] == old(from[..])
      {
        from[i] := 0;
      }
      assert to[2..] == to[..][2..] && old(from[2..]) == old(from[..])[2..];
    }
  }
}
