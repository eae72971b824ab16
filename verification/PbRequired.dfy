/** The required-field check of pb_decode_noinit: two 32-bit words of flags against the
    set of required descriptor entries that were decoded. */
module PbRequired {
  import opened Bits
  import opened PbTypes

  /** Flag k of the fields_seen words. */
  predicate Flag(w: seq<nat>, k: nat)
    requires |w| == 2 && k < 64
  {
    if k < 32 then Bit(w[0], k) else Bit(w[1], k - 32)
  }

  /** An entry with required index k has been seen. */
  ghost predicate IndexSeen(fs: seq<Field>, seen: set<nat>, k: nat) {
    exists i :: 0 <= i < |fs| && i in seen && MustSee(fs, i) && RequiredIndex(fs, i) == k
  }

  ghost predicate Tracks(w: seq<nat>, fs: seq<Field>, seen: set<nat>) {
    && |w| == 2 && w[0] < Pow2(32) && w[1] < Pow2(32)
    && forall k: nat {:trigger Flag(w, k)} {:trigger IndexSeen(fs, seen, k)}
      | k < 64 :: Flag(w, k) <==> IndexSeen(fs, seen, k)
  }

  lemma TracksNothing(fs: seq<Field>)
    ensures Tracks([0, 0], fs, {})
  {
    forall k: nat | k < 64 ensures !Flag([0, 0], k) { ZeroBits(k % 32); }
  }

  /** Setting the flag of entry i records it. */
  lemma TracksSet(w: seq<nat>, fs: seq<Field>, seen: set<nat>, i: nat)
    requires Tracks(w, fs, seen) && i < |fs| && MustSee(fs, i)
    ensures Tracks(SetFlag(w, RequiredIndex(fs, i)), fs, seen + {i})
  {
    var r := RequiredIndex(fs, i);
    FlagSet(w, r);
    forall k: nat | k < 64 ensures Flag(SetFlag(w, r), k) <==> IndexSeen(fs, seen + {i}, k) {
      assert Flag(SetFlag(w, r), k) <==> Flag(w, k) || k == r;
      IndexSeenGrows(fs, seen, i, k);
    }
  }

  /** fields_seen[r >> 5] |= 1 << (r & 31) */
  function SetFlag(w: seq<nat>, r: nat): (w': seq<nat>)
    requires |w| == 2 && r < 64
    ensures |w'| == 2
  {
    w[r / 32 := Or(w[r / 32], Shl(1, r % 32))]
  }

  lemma FlagSet(w: seq<nat>, r: nat)
    requires |w| == 2 && r < 64 && w[0] < Pow2(32) && w[1] < Pow2(32)
    ensures var w' := SetFlag(w, r);
            && w'[0] < Pow2(32) && w'[1] < Pow2(32)
            && forall k: nat | k < 64 :: Flag(w', k) <==> Flag(w, k) || k == r
  {
    hide Or, Shl, Bit, Pow2;
    var s := r % 32;
    ShlIsTimes(1, s);
    Pow2Monotone(s, 32);
    OrBound(w[r / 32], Shl(1, s), 32);
    forall k: nat | k < 32 ensures Bit(Or(w[r / 32], Shl(1, s)), k) <==> Bit(w[r / 32], k) || k == s {
      BitOr(w[r / 32], Shl(1, s), k);
      BitShl(1, s, k);
      if s <= k { BitOne(k - s); }
    }
  }

  lemma IndexSeenGrows(fs: seq<Field>, seen: set<nat>, i: nat, k: nat)
    requires i < |fs| && MustSee(fs, i)
    ensures IndexSeen(fs, seen + {i}, k) <==> IndexSeen(fs, seen, k) || k == RequiredIndex(fs, i)
  {
    if k == RequiredIndex(fs, i) { assert i in seen + {i}; }
    if IndexSeen(fs, seen, k) {
      var j :| 0 <= j < |fs| && j in seen && MustSee(fs, j) && RequiredIndex(fs, j) == k;
      assert j in seen + {i};
    }
  }

  lemma {:induction false} RequiredIndexStep(fs: seq<Field>, i: nat, j: nat)
    requires i < j <= |fs|
    ensures RequiredIndex(fs, i) + B2N(fs[i].htype.Required?) <= RequiredIndex(fs, j)
    decreases j
  {
    if i < j - 1 { RequiredIndexStep(fs, i, j - 1); }
  }

  /** Every index below the number of required entries belongs to one of them. */
  lemma {:induction false} RequiredAt(fs: seq<Field>, k: nat, n: nat) returns (i: nat)
    requires n <= |fs| && k < RequiredIndex(fs, n)
    ensures i < n && fs[i].htype.Required? && RequiredIndex(fs, i) == k
    decreases n
  {
    if k < RequiredIndex(fs, n - 1) { i := RequiredAt(fs, k, n - 1); } else { i := n - 1; }
  }

  /** All flags below the capped count are set exactly when every entry that must be seen was. */
  lemma FlagsDecide(w: seq<nat>, fs: seq<Field>, seen: set<nat>, count: nat)
    requires Tracks(w, fs, seen)
    requires count == if RequiredIndex(fs, |fs|) > MAX_REQUIRED then MAX_REQUIRED else RequiredIndex(fs, |fs|)
    ensures (forall k: nat | k < count :: Flag(w, k)) <==> RequiredSeen(fs, seen)
    ensures forall k: nat | count <= k < 64 :: !Flag(w, k)
  {
    forall k: nat | count <= k < 64 ensures !Flag(w, k) {
      if IndexSeen(fs, seen, k) {
        var i :| 0 <= i < |fs| && i in seen && MustSee(fs, i) && RequiredIndex(fs, i) == k;
        RequiredIndexStep(fs, i, |fs|);
      }
    }
    if forall k: nat | k < count :: Flag(w, k) {
      forall i | 0 <= i < |fs| && MustSee(fs, i) ensures i in seen {
        RequiredIndexStep(fs, i, |fs|);
        assert Flag(w, RequiredIndex(fs, i));
        var j :| 0 <= j < |fs| && j in seen && MustSee(fs, j) && RequiredIndex(fs, j) == RequiredIndex(fs, i);
        if i < j { RequiredIndexStep(fs, i, j); }
        if j < i { RequiredIndexStep(fs, j, i); }
      }
    }
    if RequiredSeen(fs, seen) {
      forall k: nat | k < count ensures Flag(w, k) {
        var i := RequiredAt(fs, k, |fs|);
        assert MustSee(fs, i);
        assert IndexSeen(fs, seen, k);
      }
    }
  }

  /** A word without bits from n on equals the mask of n ones exactly when all below are set. */
  lemma MaskCheck(w: nat, n: nat)
    requires w < Pow2(32) && n <= 32
    requires forall k: nat | n <= k < 32 :: !Bit(w, k)
    ensures w == Ones(n) <==> AllSet(w, n)
  {
    hide Bit, Pow2;
    if w == Ones(n) {
      forall k: nat | k < n ensures Bit(w, k) { BitOnes(n, k); }
    }
    if AllSet(w, n) {
      Pow2Monotone(n, 32);
      forall k: nat | k < 32 ensures Bit(w, k) == Bit(Ones(n), k) { BitOnes(n, k); }
      Extensional(w, Ones(n), 32);
    }
  }

  ghost predicate AllSet(w: nat, n: nat) {
    forall k: nat | k < n :: Bit(w, k)
  }

  /** Dropping the low bits of a mask of ones leaves the shorter mask. */
  lemma ShiftedMask(n: nat, w: nat)
    requires n <= w
    ensures Ones(w) / Pow2(w - n) == Ones(n)
  {
    hide Pow2;
    Pow2Sum(w - n, n, w);
    QuotientOfOnes(Pow2(w - n), Pow2(n));
  }

  lemma QuotientOfOnes(q: nat, p: nat)
    requires q >= 1 && p >= 1 && q * p >= 1
    ensures (q * p - 1) / q == p - 1
  {
    assert q * p - 1 == q * (p - 1) + (q - 1);
    ModUnique(q * p - 1, q, p - 1, q - 1);
  }

  /** Word i of the flags equals the mask of n ones exactly when its first n flags are set. */
  lemma WordCheck(w: seq<nat>, i: nat, n: nat)
    requires |w| == 2 && w[0] < Pow2(32) && w[1] < Pow2(32) && i < 2 && n <= 32
    requires forall k: nat | 32 * i + n <= k < 32 * i + 32 :: !Flag(w, k)
    ensures w[i] == Ones(n) <==> forall k: nat | 32 * i <= k < 32 * i + n :: Flag(w, k)
  {
    hide Bit, Pow2, Ones;
    forall k: nat | n <= k < 32 ensures !Bit(w[i], k) { assert !Flag(w, 32 * i + k); }
    MaskCheck(w[i], n);
    if forall k: nat | 32 * i <= k < 32 * i + n :: Flag(w, k) {
      forall k: nat | k < n ensures Bit(w[i], k) { assert Flag(w, 32 * i + k); }
      assert AllSet(w[i], n);
    }
    if AllSet(w[i], n) {
      forall k: nat | 32 * i <= k < 32 * i + n ensures Flag(w, k) { assert Bit(w[i], k - 32 * i); }
    }
  }

  /** The comparison loop over whole words and the masked rest. */
  method CheckRequired(w: seq<nat>, fs: seq<Field>, ghost seen: set<nat>, required: nat) returns (ok: bool)
    requires Tracks(w, fs, seen) && required == RequiredIndex(fs, |fs|)
    ensures ok == RequiredSeen(fs, seen)
  {
    hide Bit, Pow2;
    var count := if required > MAX_REQUIRED then MAX_REQUIRED else required;
    FlagsDecide(w, fs, seen, count);
    var allbits := 0xffff_ffff;
    assert allbits == Ones(32) by { Powers(); }
    for i := 0 to count / 32
      invariant forall k: nat | k < 32 * i :: Flag(w, k)
    {
      WordCheck(w, i, 32);
      if w[i] != allbits { return false; }
    }
    var rest := count % 32;
    if rest != 0 {
      WordCheck(w, count / 32, rest);
      ShiftedMask(rest, 32);
      if w[count / 32] != allbits / Pow2(32 - rest) { return false; }
    }
    return true;
  }
}
