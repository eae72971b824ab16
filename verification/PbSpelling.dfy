/** The number formats of the wire described byte by byte, apart from the loops that write and read them:
    what encoders put out, what decoders accept, and the number it stands for. */
module PbSpelling {
  import opened Bits
  import opened Common
  import opened PbTypes
  import opened PbWire

  // -------------------------------------------------------------------- varints

  /** The number that groups of seven bits spell, the least group first. */
  function Groups(bs: seq<byte>): nat {
    if bs == [] then 0 else bs[0] % 128 + 128 * Groups(bs[1..])
  }

  /** A varint takes the first k bytes: all of them but the last have the top bit set. */
  predicate Ends(bs: seq<byte>, k: nat) {
    0 < k <= |bs| && bs[k - 1] < 128 && forall i :: 0 <= i < k - 1 ==> bs[i] >= 128
  }

  /** The encoder writes a number as its groups, in as few bytes as there are. */
  lemma {:induction false} EncVarintSpells(n: nat)
    ensures var bs := EncVarint(n);
            Ends(bs, |bs|) && Groups(bs) == n && (|bs| > 1 ==> bs[|bs| - 1] != 0)
    decreases n
  {
    if n >= 128 {
      EncVarintSpells(n / 128);
      var tail := EncVarint(n / 128);
      assert EncVarint(n) == [n % 128 + 128] + tail && ([n % 128 + 128] + tail)[1..] == tail;
    } else {
      assert EncVarint(n) == [n] && [n][1..] == [];
    }
  }

  /** A word with a group added s bits up. */
  function Added(acc: nat, p: nat, s: nat): nat { acc + p * Pow2(s) }

  /** Or-ing a group into a w-bit word above its s low bits adds it modulo 2^w. */
  lemma GroupAdds(acc: nat, p: nat, s: nat, w: nat)
    requires s <= w && acc < Pow2(s)
    ensures Or(acc, Low(Shl(p, s), w)) == Added(acc, p, s) % Pow2(w)
  {
    LowOfShl(p, s, w);
    var q := Low(p, w - s);
    OrShl(acc, q, s);
    ShlIsTimes(q, s);
    LowIsMod(p, w - s);
    AccumulatorBound(acc, p, s, w) by { Pow2Monotone(s, w); }
    Pow2Add(s, w - s);
    Remainder(acc, p, Pow2(s), Pow2(w - s));
  }

  lemma Remainder(acc: nat, p: nat, a: nat, b: nat)
    requires a > 0 && b > 0 && acc + (p % b) * a < a * b
    ensures (acc + p * a) % (a * b) == acc + (p % b) * a
  {
    var m, q := p / b, p % b;
    assert p * a == (a * b) * m + q * a by { Product(a, b, m, q); }
    ModUnique(acc + p * a, a * b, m, acc + q * a);
  }

  lemma Product(a: nat, b: nat, m: nat, q: nat)
    ensures (b * m + q) * a == (a * b) * m + q * a
  {
  }

  lemma {:induction false} LowOfShl(a: nat, s: nat, w: nat)
    requires s <= w
    ensures Low(Shl(a, s), w) == Shl(Low(a, w - s), s)
    decreases s
  {
    if s > 0 { LowOfShl(a, s - 1, w - 1); }
  }

  lemma GroupsNext(bs: seq<byte>, k: nat)
    requires 0 < k <= |bs|
    ensures Groups(bs[..k]) == bs[0] % 128 + 128 * Groups(bs[1..][..k - 1])
  {
    assert bs[..k][1..] == bs[1..][..k - 1];
  }

  /** The 64-bit loop from a position that has not passed the end of the word. */
  lemma {:induction false} Loop64Spells(bs: seq<byte>, k: nat, s: nat, acc: nat)
    requires Ends(bs, k) && s < 64 && s % 7 == 0 && acc < Pow2(s)
    ensures DecV64(bs, s, acc) ==
              if s + 7 * k <= 70 then Ok((acc + Groups(bs[..k]) * Pow2(s)) % Pow2(64), bs[k..]) else Fail
    decreases k
  {
    hide DecV64, Pow2;
    Step64(bs, s, acc);
    GroupsNext(bs, k);
    var p, a, rest := bs[0] % 128, Pow2(s), bs[1..];
    if k == 1 {
      assert Groups(rest[..0]) == 0;
    } else if s < 63 {
      NoOverflow(acc, p, s);
      Loop64Spells(rest, k - 1, s + 7, Added(acc, p, s));
      Regroup(p, Groups(rest[..k - 1]), a);
      Pow2Plus7(s);
      assert rest[k - 1..] == bs[k..];
    }
  }

  lemma Step64(bs: seq<byte>, s: nat, acc: nat)
    requires bs != [] && s < 64 && s % 7 == 0 && acc < Pow2(s)
    ensures var acc' := Added(acc, bs[0] % 128, s);
            DecV64(bs, s, acc) ==
              if bs[0] < 128 then Ok(acc' % Pow2(64), bs[1..])
              else if s < 63 then DecV64(bs[1..], s + 7, acc' % Pow2(64)) else Fail
  {
    var p := Payload(bs[0]);
    assert p == bs[0] % 128;
    Unfold64(bs, s, acc);
    GroupAdds(acc, p, s, 64) by { Pow2Monotone(s, 64); }
    hide DecV64, Or, Low, Shl, Payload, Pow2, Added;
  }

  lemma Unfold64(bs: seq<byte>, s: nat, acc: nat)
    requires bs != [] && s < 64 && s % 7 == 0
    ensures var acc' := Or(acc, Low(Shl(Payload(bs[0]), s), 64));
            DecV64(bs, s, acc) ==
              if bs[0] < 128 then Ok(acc', bs[1..]) else if s < 63 then DecV64(bs[1..], s + 7, acc') else Fail
  {
    hide Or, Low, Shl, Payload;
  }

  /** Up to the ninth group nothing is cut off. */
  lemma NoOverflow(acc: nat, p: nat, s: nat)
    requires acc < Pow2(s) && p < 128 && s + 7 <= 64
    ensures Added(acc, p, s) % Pow2(64) == Added(acc, p, s) < Pow2(s + 7)
  {
    Pow2Plus7(s);
    Pow2Monotone(s + 7, 64);
    hide Pow2;
    Within(acc, p, Pow2(s), Pow2(64));
  }

  lemma Within(acc: nat, p: nat, a: nat, m: nat)
    requires acc < a && p < 128 && 128 * a <= m
    ensures (acc + p * a) % m == acc + p * a < 128 * a
  {
    AtMost127(p, a);
    Small(acc + p * a, m);
  }

  lemma AtMost127(p: nat, a: nat)
    requires p < 128
    ensures p * a <= 127 * a
  {
  }

  lemma Small(x: nat, m: nat)
    requires x < m
    ensures x % m == x
  {
  }

  lemma Regroup(p: nat, g: nat, a: nat)
    ensures p * a + g * (128 * a) == (p + 128 * g) * a
  {
  }

  predicate Endless(bs: seq<byte>) { forall i :: 0 <= i < |bs| ==> bs[i] >= 128 }

  lemma {:induction false} Loop64Endless(bs: seq<byte>, s: nat, acc: nat)
    requires Endless(bs)
    ensures DecV64(bs, s, acc).Fail?
    decreases |bs|
  {
    if bs != [] && s < 64 {
      Loop64Endless(bs[1..], s + 7, Or(acc, Low(Shl(Payload(bs[0]), s), 64)));
    }
  }

  /** The 64-bit decoder takes exactly the varints of at most ten bytes, modulo 2^64. */
  lemma DecVarintSpells(bs: seq<byte>, k: nat)
    requires Ends(bs, k)
    ensures DecVarint(bs) == if k <= 10 then Ok(Groups(bs[..k]) % U64, bs[k..]) else Fail
  {
    Loop64Spells(bs, k, 0, 0);
    Powers();
  }

  /** Bytes without an end are not a varint. */
  lemma DecVarintEndless(bs: seq<byte>)
    requires Endless(bs)
    ensures DecVarint(bs).Fail? && DecVarint32(bs).Fail? && SkipVarint(bs).Fail?
  {
    Loop64Endless(bs, 0, 0);
    if bs != [] { Loop32Endless(bs[1..], 7, Payload(bs[0])); }
    SkipEndless(bs);
  }

  lemma {:induction false} Loop32Endless(bs: seq<byte>, s: nat, acc: nat)
    requires Endless(bs)
    ensures DecV32(bs, s, acc).Fail?
    decreases |bs|
  {
    if bs != [] {
      Loop32Endless(bs[1..], NextPos(s), if s >= 32 then acc else Or(acc, Low(Shl(Payload(bs[0]), s), 32)));
    }
  }

  lemma {:induction false} SkipEndless(bs: seq<byte>)
    requires Endless(bs)
    ensures SkipVarint(bs).Fail?
    decreases |bs|
  {
    if bs != [] { SkipEndless(bs[1..]); }
  }

  /** Skipping a varint goes to its end, however long it is. */
  lemma {:induction false} SkipVarintSpells(bs: seq<byte>, k: nat)
    requires Ends(bs, k)
    ensures SkipVarint(bs) == Ok((), bs[k..])
    decreases k
  {
    if k > 1 {
      SkipVarintSpells(bs[1..], k - 1);
      assert bs[1..][k - 1..] == bs[k..];
    }
  }

  // The 32-bit decoder.

  /** What the i-th byte may be once the word is full: no bits at all, or those of a sign extension. */
  predicate Padding(low: nat, i: nat, b: byte) {
    b % 128 == 0 || (low >= 0x8000_0000 && b == if 7 * i < 63 then 0xff else 1)
  }

  lemma {:induction false} PaddingSpells(bs: seq<byte>, k: nat, i: nat, acc: nat)
    requires Ends(bs, k) && 5 <= i && i + k <= 36
    ensures DecV32(bs, 7 * i, acc) ==
              if forall j :: 0 <= j < k ==> Padding(acc, i + j, bs[j]) then Ok(acc, bs[k..]) else Fail
    decreases k
  {
    var b := bs[0];
    assert bs[0] == bs[0..][0];
    if !Padding(acc, i + 0, bs[0]) {
      assert DecV32(bs, 7 * i, acc).Fail?;
    } else if k > 1 {
      var rest := bs[1..];
      PaddingSpells(rest, k - 1, i + 1, acc);
      assert rest[k - 1..] == bs[k..];
      assert DecV32(bs, 7 * i, acc) == DecV32(rest, 7 * (i + 1), acc);
      if forall j :: 0 <= j < k ==> Padding(acc, i + j, bs[j]) {
        forall j | 0 <= j < k - 1 ensures Padding(acc, i + 1 + j, rest[j]) {
          assert Padding(acc, i + (j + 1), bs[j + 1]);
        }
      } else {
        var j :| 0 <= j < k && !Padding(acc, i + j, bs[j]);
        assert !Padding(acc, i + 1 + (j - 1), rest[j - 1]);
      }
    }
  }

  lemma Step32(bs: seq<byte>, s: nat, acc: nat)
    requires bs != [] && s <= 28 && s % 7 == 0 && acc < Pow2(s)
    ensures var b, acc' := bs[0], Added(acc, bs[0] % 128, s);
            DecV32(bs, s, acc) ==
              if b >= 128 then DecV32(bs[1..], s + 7, acc' % Pow2(32))
              else if s == 28 && b >= 16 then Fail else Ok(acc' % Pow2(32), bs[1..])
  {
    var p := Payload(bs[0]);
    assert p == bs[0] % 128;
    Unfold32(bs, s, acc);
    GroupAdds(acc, p, s, 32) by { Pow2Monotone(s, 32); }
    hide DecV32, Or, Low, Shl, Payload, Pow2, Added;
  }

  lemma NoOverflow32(acc: nat, p: nat, s: nat)
    requires acc < Pow2(s) && p < 128 && s + 7 <= 32
    ensures Added(acc, p, s) % Pow2(32) == Added(acc, p, s) < Pow2(s + 7)
  {
    Pow2Plus7(s);
    Pow2Monotone(s + 7, 32);
    hide Pow2;
    Within(acc, p, Pow2(s), Pow2(32));
  }

  lemma Unfold32(bs: seq<byte>, s: nat, acc: nat)
    requires bs != [] && s <= 28 && s % 7 == 0
    ensures var acc' := Or(acc, Low(Shl(Payload(bs[0]), s), 32));
            DecV32(bs, s, acc) ==
              if bs[0] >= 128 then DecV32(bs[1..], s + 7, acc')
              else if s == 28 && bs[0] >= 16 then Fail else Ok(acc', bs[1..])
  {
    hide Or, Low, Shl, Payload;
  }

  /** What the first five groups leave in the word. */
  function Head(bs: seq<byte>, k: nat, i: nat, acc: nat): nat
    requires k <= |bs| && i <= 5
  {
    (acc + Groups(bs[..if k < 5 - i then k else 5 - i]) * Pow2(7 * i)) % Pow2(32)
  }

  /** With i groups read before: what goes beyond five groups is padding, and nothing is left of the fifth
      group if it is the last. */
  predicate Fits32(bs: seq<byte>, k: nat, i: nat, low: nat)
    requires 0 < k <= |bs| && i <= 5
  {
    && (i + k == 5 ==> bs[k - 1] < 16)
    && forall j :: 5 - i <= j < k ==> Padding(low, i + j, bs[j])
  }

  /** The 32-bit loop from its i-th group. */
  lemma {:induction false} Loop32Spells(bs: seq<byte>, k: nat, i: nat, acc: nat)
    requires Ends(bs, k) && i < 5 && i + k <= 36 && acc < Pow2(7 * i)
    ensures var low := Head(bs, k, i, acc);
            DecV32(bs, 7 * i, acc) == if Fits32(bs, k, i, low) then Ok(low, bs[k..]) else Fail
    decreases k
  {
    hide DecV32, Pow2, Head, Groups, Added;
    Step32(bs, 7 * i, acc);
    var p, rest := bs[0] % 128, bs[1..];
    var low := Head(bs, k, i, acc);
    assert rest[k - 1..] == bs[k..];
    if k == 1 || i == 4 { HeadLast(bs, k, i, acc); }
    if k == 1 {
      LastFits(bs, i, low);
    } else if i == 4 {
      PaddingSpells(rest, k - 1, 5, low);
      TailFits(bs, k, low);
    } else {
      HeadNext(bs, k, i, acc);
      NoOverflow32(acc, p, 7 * i);
      Loop32Spells(rest, k - 1, i + 1, Added(acc, p, 7 * i));
      FitsNext(bs, k, i, low);
    }
  }

  lemma HeadLast(bs: seq<byte>, k: nat, i: nat, acc: nat)
    requires 0 < k <= |bs| && i < 5 && (k == 1 || i == 4)
    ensures Head(bs, k, i, acc) == Added(acc, bs[0] % 128, 7 * i) % Pow2(32)
  {
    OneGroup(bs);
    hide Pow2, Groups;
  }

  lemma OneGroup(bs: seq<byte>)
    requires bs != []
    ensures Groups(bs[..1]) == bs[0] % 128
  {
    assert bs[..1][1..] == [];
  }

  lemma HeadNext(bs: seq<byte>, k: nat, i: nat, acc: nat)
    requires 1 < k <= |bs| && i < 4
    ensures Head(bs, k, i, acc) == Head(bs[1..], k - 1, i + 1, Added(acc, bs[0] % 128, 7 * i))
  {
    var n := if k < 5 - i then k else 5 - i;
    GroupsNext(bs, n);
    Regroup(bs[0] % 128, Groups(bs[1..][..n - 1]), Pow2(7 * i));
    Pow2Plus7(7 * i);
    hide Pow2, Groups;
  }

  lemma LastFits(bs: seq<byte>, i: nat, low: nat)
    requires bs != [] && i < 5
    ensures Fits32(bs, 1, i, low) <==> (i == 4 ==> bs[0] < 16)
  {
  }

  lemma TailFits(bs: seq<byte>, k: nat, low: nat)
    requires 1 < k <= |bs|
    ensures Fits32(bs, k, 4, low) <==> forall j :: 0 <= j < k - 1 ==> Padding(low, 5 + j, bs[1..][j])
  {
    assert forall j :: 0 <= j < k - 1 ==> bs[1..][j] == bs[j + 1];
    if forall j :: 0 <= j < k - 1 ==> Padding(low, 5 + j, bs[1..][j]) {
      forall j | 1 <= j < k ensures Padding(low, 4 + j, bs[j]) { assert Padding(low, 5 + (j - 1), bs[1..][j - 1]); }
    }
    if Fits32(bs, k, 4, low) {
      forall j | 0 <= j < k - 1 ensures Padding(low, 5 + j, bs[1..][j]) { assert Padding(low, 4 + (j + 1), bs[j + 1]); }
    }
  }

  lemma FitsNext(bs: seq<byte>, k: nat, i: nat, low: nat)
    requires 1 < k <= |bs| && i < 4
    ensures Fits32(bs, k, i, low) <==> Fits32(bs[1..], k - 1, i + 1, low)
  {
    var rest := bs[1..];
    if Fits32(rest, k - 1, i + 1, low) {
      forall j | 5 - i <= j < k ensures Padding(low, i + j, bs[j]) {
        assert Padding(low, i + 1 + (j - 1), rest[j - 1]);
      }
    }
    if Fits32(bs, k, i, low) {
      forall j | 4 - i <= j < k - 1 ensures Padding(low, i + 1 + j, rest[j]) {
        assert Padding(low, i + (j + 1), bs[j + 1]);
      }
    }
  }

  /** The low word of a varint. */
  function Low32(bs: seq<byte>, k: nat): nat
    requires k <= |bs|
  {
    Groups(bs[..if k < 5 then k else 5]) % U32
  }

  lemma LowIsHead(bs: seq<byte>, k: nat)
    requires 0 < k <= |bs|
    ensures k > 1 ==> Low32(bs, k) == Head(bs[1..], k - 1, 1, bs[0] % 128)
    ensures k == 1 ==> Low32(bs, k) == bs[0] % 128
  {
    var n := if k < 5 then k else 5;
    GroupsNext(bs, n);
    Powers();
    hide Pow2, Groups;
    assert k == 1 ==> Groups(bs[1..][..0]) == 0 by { assert bs[1..][..0] == []; Empty(); }
  }

  lemma Empty()
    ensures Groups([]) == 0
  {
  }

  /** The 32-bit decoder on varints of up to 36 bytes: it gives the low word, and what goes beyond the word
      must be padding; bits 4 to 6 of the fifth byte are looked at only if it is the last. */
  lemma DecVarint32Spells(bs: seq<byte>, k: nat)
    requires Ends(bs, k) && k <= 36
    ensures DecVarint32(bs) ==
              if Fits32(bs, k, 0, Low32(bs, k)) then Ok(Low32(bs, k), bs[k..]) else Fail
  {
    var p, rest, low := bs[0] % 128, bs[1..], Low32(bs, k);
    LowIsHead(bs, k);
    FirstByte(bs);
    assert p < Pow2(7) by { Powers(); }
    assert rest[k - 1..] == bs[k..];
    if k == 1 { LastFits(bs, 0, low); }
    hide DecVarint32, DecV32, Head, Pow2, Groups, Low32, Fits32;
    if k > 1 {
      Loop32Spells(rest, k - 1, 1, p);
      FitsNext(bs, k, 0, low);
    }
  }

  lemma FirstByte(bs: seq<byte>)
    requires bs != []
    ensures DecVarint32(bs) == if bs[0] < 128 then Ok(bs[0], bs[1..]) else DecV32(bs[1..], 7, bs[0] % 128)
  {
    hide DecV32;
  }

  // ------------------------------------------------------------ fixed-width numbers

  /** Byte i of a number, the least first. */
  function ByteAt(n: nat, i: nat): byte { n / Pow2(8 * i) % 256 }

  lemma {:induction false} EncFixedSpells(n: nat, k: nat, i: nat)
    requires i < k
    ensures EncFixed(n, k)[i] == ByteAt(n, i)
    decreases k
  {
    if i > 0 {
      EncFixedSpells(n / 256, k - 1, i - 1);
      Pow2Sum(8, 8 * (i - 1), 8 * i);
      Powers16();
      hide Pow2;
      DivTwice(n, Pow2(8 * (i - 1)));
    }
  }

  lemma DivTwice(n: nat, p: nat)
    requires p > 0
    ensures n / 256 / p == n / (256 * p)
  {
    var q, r := n / 256 / p, n / 256 % p;
    assert (256 * p) * q == 256 * (p * q);
    ModUnique(n, 256 * p, q, 256 * r + n % 256);
  }

  /** Reading and writing a fixed-width number are inverse in this order, too. */
  lemma {:induction false} EncFixedOfLittle(b: seq<byte>)
    ensures EncFixed(LittleEndian(b), |b|) == b
    decreases |b|
  {
    if b != [] {
      var rest := LittleEndian(b[1..]);
      ModUnique(b[0] + 256 * rest, 256, rest, b[0]);
      EncFixedOfLittle(b[1..]);
      assert b == [b[0]] + b[1..];
    }
  }

  /** The tag word. */
  lemma EncTagSpells(wt: nat, tag: nat)
    requires wt < 8
    ensures EncTag(wt, tag) == EncVarint(8 * tag + wt)
  {
    TagWord(wt, tag);
  }
}
