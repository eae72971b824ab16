/** The branch-free choice between the decrypted and a random premaster secret
    (ssl/handshake_server.cc, do_read_client_key_exchange; crypto/internal.h, constant_time_*). */
module Pkcs1 {

  const PREMASTER_SIZE := 48
  const TRUE_W: bv64 := 0xffff_ffff_ffff_ffff
  const TRUE_8: bv8 := 0xff

  // crypto_word_t has 64 bits.

  function MsbW(a: bv64): bv64 {
    0 - (a >> 63)
  }

  function IsZeroW(a: bv64): bv64 {
    MsbW(!a & (a - 1))
  }

  function EqW(a: bv64, b: bv64): bv64 {
    IsZeroW(a ^ b)
  }

  function SelectW(mask: bv64, a: bv64, b: bv64): bv64 {
    (mask & a) | (!mask & b)
  }

  /** The cast to uint8_t. */
  function Truncate(a: bv64): bv8 {
    (a & 0xff) as bv8
  }

  function IsZero8(a: bv8): bv8 {
    Truncate(IsZeroW(a as bv64))
  }

  function Eq8(a: bv8, b: bv8): bv8 {
    Truncate(EqW(a as bv64, b as bv64))
  }

  function Select8(mask: bv8, a: bv8, b: bv8): bv8 {
    Truncate(SelectW(mask as bv64, a as bv64, b as bv64))
  }

  lemma MsbIsMask(a: bv64)
    ensures MsbW(a) == if a >= 0x8000_0000_0000_0000 then TRUE_W else 0
  {
    assert a >> 63 == if a >= 0x8000_0000_0000_0000 then 1 else 0;
  }

  lemma IsZeroIsMask(a: bv64)
    ensures IsZeroW(a) == if a == 0 then TRUE_W else 0
  {
    MsbIsMask(!a & (a - 1));
  }

  lemma EqIsMask(a: bv64, b: bv64)
    ensures EqW(a, b) == if a == b then TRUE_W else 0
  {
    IsZeroIsMask(a ^ b);
    assert a ^ b == 0 <==> a == b;
  }

  /** The 8-bit tests give 0xff for yes and 0 for no. */
  lemma ByteMasks(a: bv8, b: bv8)
    ensures IsZero8(a) == if a == 0 then TRUE_8 else 0
    ensures Eq8(a, b) == if a == b then TRUE_8 else 0
  {
    hide IsZeroW, EqW;
    IsZeroIsMask(a as bv64);
    EqIsMask(a as bv64, b as bv64);
    assert Truncate(TRUE_W) == TRUE_8 && Truncate(0) == 0;
    Widening(a, 0);
    Widening(a, b);
  }

  lemma Widening(a: bv8, b: bv8)
    ensures a as bv64 == b as bv64 <==> a == b
  {
  }

  lemma SelectPicks(a: bv8, b: bv8)
    ensures Select8(TRUE_8, a, b) == a
    ensures Select8(0, a, b) == b
  {
    assert (((0xff as bv64) & (a as bv64)) | ((!(0xff as bv64)) & (b as bv64))) & 0xff == a as bv64;
  }

  /** The block is 00 02, non-zero padding, 00 and a 48-byte premaster secret that starts with the
      client's version (sections 7.2.2 of RFC 8017 and 7.4.7.1 of RFC 5246). */
  ghost predicate Conforming(block: seq<bv8>, versionHigh: bv8, versionLow: bv8)
    requires |block| >= 11 + PREMASTER_SIZE
  {
    var padding := |block| - PREMASTER_SIZE;
    && block[0] == 0 && block[1] == 2
    && (forall i :: 2 <= i < padding - 1 ==> block[i] != 0)
    && block[padding - 1] == 0
    && block[padding] == versionHigh && block[padding + 1] == versionLow
  }

  /** The mask is 0xff or 0, as `b` says. */
  ghost predicate IsMask(good: bv8, b: bool) {
    good == if b then TRUE_8 else 0
  }

  lemma AndMask(x: bv8, p: bool, y: bv8, q: bool)
    requires IsMask(x, p) && IsMask(y, q)
    ensures IsMask(x & y, p && q)
    ensures IsMask(x & !y, p && !q)
  {
  }

  datatype Outcome = Rejected | Chosen

  /** From the decrypted block to the premaster secret. `premaster` holds random bytes on entry. */
  method ChoosePremaster(block: array<bv8>, premaster: array<bv8>, clientVersion: bv16) returns (r: Outcome)
    requires premaster.Length == PREMASTER_SIZE && block != premaster
    modifies premaster
    ensures r == Rejected <==> block.Length < 11 + PREMASTER_SIZE
    ensures r == Rejected ==> premaster[..] == old(premaster[..])
    ensures r == Chosen ==>
      premaster[..] == if Conforming(block[..], (clientVersion >> 8) as bv8, (clientVersion & 0xff) as bv8)
                       then block[block.Length - PREMASTER_SIZE..] else old(premaster[..])
  {
    hide Eq8, IsZero8, Select8, IsMask;
    if block.Length < 11 + PREMASTER_SIZE {
      return Rejected;
    }
    var paddingLen := block.Length - PREMASTER_SIZE;
    var high, low := (clientVersion >> 8) as bv8, (clientVersion & 0xff) as bv8;
    var good := CheckBlock(block, paddingLen, high, low);
    ghost var b := Conforming(block[..], high, low);
    for i := 0 to premaster.Length
      invariant forall k :: 0 <= k < i ==> premaster[k] == if b then block[paddingLen + k] else old(premaster[k])
      invariant forall k :: i <= k < premaster.Length ==> premaster[k] == old(premaster[k])
    {
      SelectPicks(block[paddingLen + i], premaster[i]);
      assert good == if b then TRUE_8 else 0;
      premaster[i] := Select8(good, block[paddingLen + i], premaster[i]);
    }
    r := Chosen;
    if b {
      assert premaster[..] == block[paddingLen..];
    } else {
      assert premaster[..] == old(premaster[..]);
    }
  }

  /** The mask accumulated over the block: all ones exactly when it conforms. */
  method CheckBlock(block: array<bv8>, paddingLen: nat, high: bv8, low: bv8) returns (good: bv8)
    requires block.Length >= 11 + PREMASTER_SIZE && paddingLen == block.Length - PREMASTER_SIZE
    ensures good == if Conforming(block[..], high, low) then TRUE_8 else 0
  {
    hide Eq8, IsZero8;
    ByteMasks(block[0], 0);
    ByteMasks(block[1], 2);
    good := Eq8(block[0], 0) & Eq8(block[1], 2);
    ghost var b := block[0] == 0 && block[1] == 2;
    AndMask(Eq8(block[0], 0), block[0] == 0, Eq8(block[1], 2), block[1] == 2);
    for i := 2 to paddingLen - 1
      invariant b <==> block[0] == 0 && block[1] == 2 && forall k :: 2 <= k < i ==> block[k] != 0
      invariant IsMask(good, b)
    {
      hide IsMask;
      MaskStep(good, b, block[i]);
      good := good & !IsZero8(block[i]);
      b := b && block[i] != 0;
    }
    ByteMasks(block[paddingLen - 1], 0);
    ByteMasks(block[paddingLen], high);
    ByteMasks(block[paddingLen + 1], low);
    AndMask(good, b, IsZero8(block[paddingLen - 1]), block[paddingLen - 1] == 0);
    good := good & IsZero8(block[paddingLen - 1]);
    b := b && block[paddingLen - 1] == 0;
    AndMask(good, b, Eq8(block[paddingLen], high), block[paddingLen] == high);
    good := good & Eq8(block[paddingLen], high);
    b := b && block[paddingLen] == high;
    AndMask(good, b, Eq8(block[paddingLen + 1], low), block[paddingLen + 1] == low);
    good := good & Eq8(block[paddingLen + 1], low);
    b := b && block[paddingLen + 1] == low;
    assert b == Conforming(block[..], high, low);
  }

  lemma MaskStep(good: bv8, b: bool, x: bv8)
    requires IsMask(good, b)
    ensures IsMask(good & !IsZero8(x), b && x != 0)
  {
    hide IsZero8;
    ByteMasks(x, 0);
    AndMask(good, b, IsZero8(x), x == 0);
  }
}
