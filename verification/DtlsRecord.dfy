/** DTLS record numbering: the sliding replay window (section 4.1.2.6 of RFC 6347) and the
    epoch and sequence numbers records are sealed and opened under. */
module DtlsRecord {
  import opened Bits
  import opened Common

  const WINDOW := 64
  const HEADER := 13             // DTLS1_RT_HEADER_LENGTH
  const MAX_PLAIN := 16384       // SSL3_RT_MAX_PLAIN_LENGTH
  const MAX_ENCRYPTED := 16704   // SSL3_RT_MAX_ENCRYPTED_LENGTH
  const VERSION_MAJOR := 0xfe    // DTLS1_VERSION_MAJOR
  const ALERT := 21              // SSL3_RT_ALERT

  function BigEndian(b: seq<byte>): (n: nat) {
    if b == [] then 0 else BigEndian(b[..|b| - 1]) * 256 + b[|b| - 1]
  }

  lemma {:induction false} BigEndianBound(b: seq<byte>)
    ensures BigEndian(b) < Pow2(8 * |b|)
    decreases |b|
  {
    if b != [] {
      BigEndianBound(b[..|b| - 1]);
      Pow2Sum(8, 8 * (|b| - 1), 8 * |b|);
      Powers16();
    }
  }

  // ---------------------------------------------------------------- replay window

  /** DTLS1_BITMAP: bit k stands for number max - k. */
  datatype Window = Window(bits: nat, max: nat)

  /** The window's knowledge of the set of numbers recorded so far. */
  ghost predicate Tracks(w: Window, seen: set<nat>) {
    && w.bits < Pow2(64) && w.max < U64
    && (forall n :: n in seen ==> n <= w.max)
    && (w.max == 0 || w.max in seen)
    && forall k: nat {:trigger Bit(w.bits, k)} :: k < WINDOW ==> (Bit(w.bits, k) <==> (k <= w.max && w.max - k in seen))
  }

  /** dtls1_bitmap_should_discard */
  function ShouldDiscard(w: Window, n: nat): bool {
    if n > w.max then false
    else w.max - n >= WINDOW || And(w.bits, Shl(1, w.max - n)) != 0
  }

  /** dtls1_bitmap_record */
  function Record(w: Window, n: nat): Window {
    var moved :=
      if n > w.max then
        var shift := n - w.max;
        Window(if shift >= WINDOW then 0 else Low(Shl(w.bits, shift), 64), n)
      else w;
    var idx := moved.max - n;
    if idx < WINDOW then Window(Or(moved.bits, Shl(1, idx)), moved.max) else moved
  }

  lemma SingleBit(idx: nat, k: nat)
    ensures Bit(Shl(1, idx), k) == (k == idx)
  {
    BitShl(1, idx, k);
    if idx <= k { BitOne(k - idx); }
  }

  lemma {:induction false} SomeBit(a: nat) returns (k: nat)
    requires a != 0
    ensures Bit(a, k)
  {
    if a % 2 == 1 { k := 0; } else { var j := SomeBit(a / 2); k := j + 1; }
  }

  lemma MaskedBit(bits: nat, idx: nat)
    ensures And(bits, Shl(1, idx)) != 0 <==> Bit(bits, idx)
  {
    if And(bits, Shl(1, idx)) != 0 {
      var k := SomeBit(And(bits, Shl(1, idx)));
      BitAnd(bits, Shl(1, idx), k);
      SingleBit(idx, k);
    } else {
      BitAnd(bits, Shl(1, idx), idx);
      SingleBit(idx, idx);
      ZeroBits(idx);
    }
  }

  /** A number is discarded exactly when it was recorded or is 64 or more behind. */
  lemma DiscardExactly(w: Window, seen: set<nat>, n: nat)
    requires Tracks(w, seen)
    ensures ShouldDiscard(w, n) <==> n in seen || n + 64 <= w.max
  {
    if n <= w.max { MaskedBit(w.bits, w.max - n); }
  }

  /** Recording adds the number, also when the window moves or the number is stale. */
  lemma RecordTracks(w: Window, seen: set<nat>, n: nat)
    requires Tracks(w, seen) && n < U64
    ensures Tracks(Record(w, n), seen + {n})
  {
    hide Bit, Pow2, Or, Low, Shl;
    var w' := Record(w, n);
    RecordBounds(w, n);
    forall k: nat | k < WINDOW ensures Bit(w'.bits, k) <==> (k <= w'.max && w'.max - k in seen + {n}) {
      RecordBit(w, n, k);
      if n <= w.max || k >= n - w.max {
        var j := if n > w.max then k - (n - w.max) else k;
        assert Bit(w.bits, j) <==> (j <= w.max && w.max - j in seen);
      }
    }
  }

  lemma RecordBounds(w: Window, n: nat)
    requires w.bits < Pow2(64)
    ensures Record(w, n).bits < Pow2(64) && Record(w, n).max == if n > w.max then n else w.max
  {
    hide Low, Shl, Or, Pow2;
    var shift := n - w.max;
    if 0 < shift < WINDOW { LowBound(Shl(w.bits, shift), 64); }
    var idx := if n > w.max then 0 else w.max - n;
    if idx < WINDOW {
      ShlIsTimes(1, idx);
      Pow2Monotone(idx, 64);
      OrBound(if n > w.max then (if shift >= WINDOW then 0 else Low(Shl(w.bits, shift), 64)) else w.bits,
        Shl(1, idx), 64);
    }
  }

  /** Each bit of the window after recording n. */
  lemma RecordBit(w: Window, n: nat, k: nat)
    requires k < WINDOW && w.bits < Pow2(64)
    ensures Bit(Record(w, n).bits, k) <==>
              if n > w.max then k == 0 || (n - w.max <= k && Bit(w.bits, k - (n - w.max)))
              else k == w.max - n || Bit(w.bits, k)
  {
    hide Or, Shl, Low, Pow2;
    var shift := n - w.max;
    var idx := if n > w.max then 0 else w.max - n;
    SingleBit(idx, k);
    if n > w.max {
      if shift >= WINDOW { ZeroBits(k); BitOr(0, Shl(1, idx), k); }
      else {
        BitLow(Shl(w.bits, shift), 64, k);
        BitShl(w.bits, shift, k);
        BitOr(Low(Shl(w.bits, shift), 64), Shl(1, idx), k);
      }
    } else if idx < WINDOW {
      BitOr(w.bits, Shl(1, idx), k);
    }
  }

  // ---------------------------------------------------------------------- reading

  /** The read half of the record layer: current epoch and window. */
  datatype Reader = Reader(epoch: nat, win: Window)

  /** A record arrives (opens: decryption succeeds; tooLong: over the plaintext limit), or
      the read state changes. */
  datatype ReadOp = Open(n: nat, opens: bool, tooLong: bool) | ChangeReadState

  function EpochOf(n: nat): nat { n / U48 }

  /** Whether a record is taken; its full number is the epoch and the sequence number. */
  predicate Takes(r: Reader, op: ReadOp) {
    op.Open? && EpochOf(op.n) == r.epoch && !ShouldDiscard(r.win, op.n) && op.opens && !op.tooLong
  }

  function ReadStep(r: Reader, op: ReadOp): Reader {
    match op
    case Open(n, _, _) => if Takes(r, op) then r.(win := Record(r.win, n)) else r
    case ChangeReadState => Reader((r.epoch + 1) % U16, Window(0, 0))
  }

  function ReadRun(r: Reader, ops: seq<ReadOp>): Reader
    decreases |ops|
  {
    if ops == [] then r else ReadRun(ReadStep(r, ops[0]), ops[1..])
  }

  /** Numbers of the records taken, in order. */
  function Taken(r: Reader, ops: seq<ReadOp>): seq<nat>
    decreases |ops|
  {
    if ops == [] then []
    else (if Takes(r, ops[0]) then [ops[0].n] else []) + Taken(ReadStep(r, ops[0]), ops[1..])
  }

  /** The 16-bit read epoch does not wrap in the run. */
  predicate NoReadWrap(r: Reader, ops: seq<ReadOp>)
    decreases |ops|
  {
    ops == [] || ((ops[0].ChangeReadState? ==> r.epoch + 1 < U16) && NoReadWrap(ReadStep(r, ops[0]), ops[1..]))
  }

  ghost predicate ValidNumbers(ops: seq<ReadOp>) {
    forall k :: 0 <= k < |ops| && ops[k].Open? ==> ops[k].n < U64
  }

  ghost function InEpoch(taken: set<nat>, e: nat): set<nat> {
    set n | n in taken && EpochOf(n) == e
  }

  ghost function SetOf<T>(s: seq<T>): set<T> {
    set x | x in s
  }

  /** The window knows the numbers taken in the current epoch; none is from a later one. */
  ghost predicate ReaderOk(r: Reader, taken: set<nat>) {
    && (forall n :: n in taken ==> EpochOf(n) <= r.epoch)
    && Tracks(r.win, InEpoch(taken, r.epoch))
  }

  lemma ReadStepKeeps(r: Reader, taken: set<nat>, op: ReadOp)
    requires ReaderOk(r, taken) && (op.Open? ==> op.n < U64) && (op.ChangeReadState? ==> r.epoch + 1 < U16)
    ensures ReaderOk(ReadStep(r, op), if Takes(r, op) then taken + {op.n} else taken)
    ensures Takes(r, op) ==> op.n !in taken
  {
    var current := InEpoch(taken, r.epoch);
    if Takes(r, op) {
      DiscardExactly(r.win, current, op.n);
      RecordTracks(r.win, current, op.n);
      assert InEpoch(taken + {op.n}, r.epoch) == current + {op.n};
    } else if op.ChangeReadState? {
      assert InEpoch(taken, r.epoch + 1) == {};
      EmptyTracks();
    }
  }

  lemma EmptyTracks()
    ensures Tracks(Window(0, 0), {})
  {
    forall k: nat | k < WINDOW ensures !Bit(0, k) { ZeroBits(k); }
  }

  ghost predicate Distinct<T>(s: seq<T>) {
    forall i, j :: 0 <= i < j < |s| ==> s[i] != s[j]
  }

  lemma {:induction false} TakenFresh(r: Reader, taken: set<nat>, ops: seq<ReadOp>)
    requires ReaderOk(r, taken) && ValidNumbers(ops) && NoReadWrap(r, ops)
    ensures Distinct(Taken(r, ops)) && forall n :: n in Taken(r, ops) ==> n !in taken
    ensures ReaderOk(ReadRun(r, ops), taken + SetOf(Taken(r, ops)))
    decreases |ops|
  {
    if ops != [] {
      ReadStepKeeps(r, taken, ops[0]);
      var taken' := if Takes(r, ops[0]) then taken + {ops[0].n} else taken;
      TakenFresh(ReadStep(r, ops[0]), taken', ops[1..]);
      var rest := Taken(ReadStep(r, ops[0]), ops[1..]);
      assert taken + SetOf(Taken(r, ops)) == taken' + SetOf(rest);
    } else {
      assert taken + SetOf(Taken(r, ops)) == taken;
    }
  }

  /** No replay: over any run of record openings and read-state changes in which the epoch
      does not wrap, no epoch and sequence number is taken twice. */
  lemma NoReplay(ops: seq<ReadOp>)
    requires ValidNumbers(ops) && NoReadWrap(Reader(0, Window(0, 0)), ops)
    ensures Distinct(Taken(Reader(0, Window(0, 0)), ops))
  {
    EmptyTracks();
    assert InEpoch({}, 0) == {};
    TakenFresh(Reader(0, Window(0, 0)), {}, ops);
  }

  /** No false alarm: after any such run, a record of the current epoch is dropped as a replay
      exactly when its number was taken or lies 64 or more below the highest one taken. */
  lemma ReplayDropExactly(ops: seq<ReadOp>, n: nat)
    requires ValidNumbers(ops) && NoReadWrap(Reader(0, Window(0, 0)), ops)
    requires EpochOf(n) == ReadRun(Reader(0, Window(0, 0)), ops).epoch
    ensures var r, taken := ReadRun(Reader(0, Window(0, 0)), ops), Taken(Reader(0, Window(0, 0)), ops);
            ShouldDiscard(r.win, n) <==>
              n in taken || exists m :: m in taken && EpochOf(m) == r.epoch && n + 64 <= m
  {
    EmptyTracks();
    assert InEpoch({}, 0) == {};
    var r0 := Reader(0, Window(0, 0));
    TakenFresh(r0, {}, ops);
    var r, taken := ReadRun(r0, ops), Taken(r0, ops);
    var current := InEpoch({} + SetOf(taken), r.epoch);
    assert forall m :: m in current <==> m in taken && EpochOf(m) == r.epoch;
    DiscardExactly(r.win, current, n);
    if n + WINDOW <= r.win.max { assert r.win.max in current; }
  }

  // What happens when the epoch does wrap.

  /** A run looked back on: the reader, and the numbers taken before and since the last change of the
      read state. */
  datatype Past = Past(r: Reader, before: set<nat>, since: set<nat>)

  ghost function Recall(ops: seq<ReadOp>): Past {
    if ops == [] then Past(Reader(0, Window(0, 0)), {}, {})
    else
      var p, op := Recall(ops[..|ops| - 1]), ops[|ops| - 1];
      if op.ChangeReadState? then Past(ReadStep(p.r, op), p.before + p.since, {})
      else Past(ReadStep(p.r, op), p.before, if Takes(p.r, op) then p.since + {op.n} else p.since)
  }

  lemma RecallNext(ops: seq<ReadOp>, op: ReadOp)
    ensures var p := Recall(ops);
      Recall(ops + [op]) ==
        if op.ChangeReadState? then Past(ReadStep(p.r, op), p.before + p.since, {})
        else Past(ReadStep(p.r, op), p.before, if Takes(p.r, op) then p.since + {op.n} else p.since)
  {
    assert (ops + [op])[..|ops|] == ops;
  }

  /** The window knows what was taken since the last change, wraps or not. */
  lemma {:induction false} RecallTracks(ops: seq<ReadOp>)
    requires ValidNumbers(ops)
    ensures var p := Recall(ops); Tracks(p.r.win, p.since) && forall n :: n in p.since ==> EpochOf(n) == p.r.epoch
  {
    if ops == [] {
      EmptyTracks();
    } else {
      var init, op := ops[..|ops| - 1], ops[|ops| - 1];
      RecallTracks(init);
      var p := Recall(init);
      if Takes(p.r, op) {
        RecordTracks(p.r.win, p.since, op.n);
      } else if op.ChangeReadState? {
        EmptyTracks();
      }
    }
  }

  lemma {:induction false} TakenNext(r: Reader, ops: seq<ReadOp>, op: ReadOp)
    ensures ReadRun(r, ops + [op]) == ReadStep(ReadRun(r, ops), op)
    ensures Taken(r, ops + [op]) == Taken(r, ops) + if Takes(ReadRun(r, ops), op) then [op.n] else []
    decreases |ops|
  {
    if ops == [] {
      assert ([] + [op])[1..] == [];
    } else {
      assert (ops + [op])[1..] == ops[1..] + [op];
      TakenNext(ReadStep(r, ops[0]), ops[1..], op);
    }
  }

  /** Looking back sees the reader and all numbers taken. */
  lemma {:induction false} RecallRun(ops: seq<ReadOp>)
    ensures Recall(ops).r == ReadRun(Reader(0, Window(0, 0)), ops)
    ensures Recall(ops).before + Recall(ops).since == SetOf(Taken(Reader(0, Window(0, 0)), ops))
  {
    if ops != [] {
      var init, op := ops[..|ops| - 1], ops[|ops| - 1];
      RecallRun(init);
      assert ops == init + [op];
      TakenNext(Reader(0, Window(0, 0)), init, op);
      hide Taken, ReadRun;
      SetOfNext(Taken(Reader(0, Window(0, 0)), init), op);
    }
  }

  lemma SetOfNext(s: seq<nat>, op: ReadOp)
    ensures op.Open? ==> SetOf(s + [op.n]) == SetOf(s) + {op.n}
    ensures SetOf(s + []) == SetOf(s)
  {
    assert s + [] == s;
  }

  /** The record passes, its number was taken before the last change of the read state, and the window
      since then does not discard it. */
  ghost predicate TakenAgain(ops: seq<ReadOp>, op: ReadOp) {
    var p := Recall(ops);
    && op.Open? && op.opens && !op.tooLong && EpochOf(op.n) == p.r.epoch
    && op.n in p.before && op.n !in p.since && forall m :: m in p.since ==> m < op.n + WINDOW
  }

  /** After any run, whether or not the epoch has wrapped, a record is taken under a number that was taken
      already exactly when TakenAgain says so. */
  lemma TakenAgainExactly(ops: seq<ReadOp>, op: ReadOp)
    requires ValidNumbers(ops) && op.Open?
    ensures var r0 := Reader(0, Window(0, 0));
      Takes(ReadRun(r0, ops), op) && op.n in Taken(r0, ops) <==> TakenAgain(ops, op)
  {
    hide Recall, Taken, ReadRun, ShouldDiscard, Tracks;
    RecallTracks(ops);
    RecallRun(ops);
    var p := Recall(ops);
    assert op.n in Taken(Reader(0, Window(0, 0)), ops) <==> op.n in p.before + p.since;
    DiscardExactly(p.r.win, p.since, op.n);
    TrackedMax(p.r.win, p.since, op.n);
  }

  lemma TrackedMax(w: Window, seen: set<nat>, n: nat)
    requires Tracks(w, seen)
    ensures n + WINDOW <= w.max <==> exists m :: m in seen && n + WINDOW <= m
  {
  }

  lemma DistinctNext<T>(s: seq<T>, x: T)
    ensures Distinct(s + [x]) <==> Distinct(s) && x !in s
  {
    var t := s + [x];
    if Distinct(t) {
      forall i, j | 0 <= i < j < |s| ensures s[i] != s[j] { assert t[i] != t[j]; }
      forall i | 0 <= i < |s| ensures s[i] != x { assert t[i] != t[|s|]; }
    }
  }

  /** A run takes no number twice if and only if it never comes to such a record. */
  lemma {:induction false} ReplayExactly(ops: seq<ReadOp>)
    requires ValidNumbers(ops)
    ensures !Distinct(Taken(Reader(0, Window(0, 0)), ops)) <==>
              exists k :: 0 <= k < |ops| && TakenAgain(ops[..k], ops[k])
  {
    var r0 := Reader(0, Window(0, 0));
    if ops != [] {
      var n := |ops| - 1;
      var init, op := ops[..n], ops[n];
      assert ops == init + [op];
      ReplayExactly(init);
      TakenNext(r0, init, op);
      hide Taken, ReadRun, TakenAgain;
      if Takes(ReadRun(r0, init), op) {
        TakenAgainExactly(init, op);
        DistinctNext(Taken(r0, init), op.n);
      } else {
        if op.Open? { TakenAgainExactly(init, op); } else { NotAgain(init, op); }
        assert Taken(r0, ops) == Taken(r0, init);
      }
      assert forall k :: 0 <= k < n ==> init[..k] == ops[..k] && init[k] == ops[k];
      if k :| 0 <= k < n && TakenAgain(init[..k], init[k]) {
        assert TakenAgain(ops[..k], ops[k]);
      }
    }
  }

  lemma NotAgain(ops: seq<ReadOp>, op: ReadOp)
    requires !op.Open?
    ensures !TakenAgain(ops, op)
  {
  }

  /** One record and then k changes of the read state. */
  ghost function OpenThenChanges(k: nat): seq<ReadOp> {
    if k == 0 then [Open(0, true, false)] else OpenThenChanges(k - 1) + [ChangeReadState]
  }

  lemma {:induction false} AfterChanges(k: nat)
    requires k <= U16
    ensures Recall(OpenThenChanges(k)).r.epoch == if k < U16 then k else 0
    ensures Recall(OpenThenChanges(k)).before + Recall(OpenThenChanges(k)).since == {0}
    ensures k > 0 ==> Recall(OpenThenChanges(k)).since == {}
  {
    if k == 0 {
      FirstTaken();
    } else {
      var ops := OpenThenChanges(k - 1);
      assert OpenThenChanges(k) == ops + [ChangeReadState];
      AfterChanges(k - 1);
      RecallNext(ops, ChangeReadState);
      EpochSteps(Recall(ops).r);
      hide Recall, OpenThenChanges, ReadStep, Takes;
    }
  }

  lemma EpochSteps(r: Reader)
    requires r.epoch < U16
    ensures ReadStep(r, ChangeReadState).epoch == if r.epoch + 1 == U16 then 0 else r.epoch + 1
  {
  }

  lemma {:induction false} ChangesValid(k: nat)
    ensures ValidNumbers(OpenThenChanges(k))
  {
    if k > 0 {
      ChangesValid(k - 1);
    }
  }

  lemma FirstTaken()
    ensures Recall([Open(0, true, false)]).since == {0} && Recall([Open(0, true, false)]).before == {}
    ensures Recall([Open(0, true, false)]).r.epoch == 0
  {
    var op := Open(0, true, false);
    RecallNext([], op);
    assert [] + [op] == [op];
    EmptyTracks();
    DiscardExactly(Window(0, 0), {}, 0);
  }

  /** Such a run exists: after 65536 changes of the read state a number is taken again. This is about the
      state function alone. No connection of the library changes its read state that often, because
      it does not renegotiate over DTLS. */
  lemma ReplayAfterEpochWrap()
    ensures exists ops :: ValidNumbers(ops) && !Distinct(Taken(Reader(0, Window(0, 0)), ops))
  {
    var init, op := OpenThenChanges(U16), Open(0, true, false);
    var ops := init + [op];
    AfterChanges(U16);
    ChangesValid(U16);
    assert TakenAgain(init, op);
    assert ops[..|init|] == init && ops[|init|] == op;
    ReplayExactly(ops);
  }

  // ---------------------------------------------------------------------- writing

  /** The write half: current epoch, next number in it, next number of the epoch before. */
  datatype Writer = Writer(epoch: nat, seqNo: nat, last: nat)

  /** Sealing one record in the current or previous epoch (sealed: the AEAD succeeds; fits:
      the ciphertext is shorter than 2^16), or changing the write state. */
  datatype WriteOp = Seal(previous: bool, sealed: bool, fits: bool) | ChangeWriteState

  function SequenceOf(w: Writer, previous: bool): nat {
    if previous then w.last else w.seqNo
  }

  /** The 48-bit counter or the 16-bit epoch runs out. */
  predicate Wraps(w: Writer, op: WriteOp) {
    match op
    case Seal(previous, sealed, _) => sealed && SequenceOf(w, previous) + 1 >= U48
    case ChangeWriteState => w.epoch + 1 >= U16
  }

  function WriteStep(w: Writer, op: WriteOp): Writer {
    match op
    case Seal(previous, sealed, _) =>
      if !sealed then w
      else if previous then w.(last := (w.last + 1) % U48)
      else w.(seqNo := (w.seqNo + 1) % U48)
    case ChangeWriteState => Writer((w.epoch + 1) % U16, 0, w.seqNo)
  }

  /** Whether a record goes out: a counter that wraps fails the call that wraps it. */
  predicate Emits(w: Writer, op: WriteOp) {
    op.Seal? && op.sealed && op.fits && !Wraps(w, op)
  }

  function Number(w: Writer, op: WriteOp): (nat, int)
    requires op.Seal?
  {
    (SequenceOf(w, op.previous), if op.previous then w.epoch - 1 else w.epoch)
  }

  /** Numbers of the records emitted, in order. */
  function Emitted(w: Writer, ops: seq<WriteOp>): seq<(nat, int)>
    decreases |ops|
  {
    if ops == [] then []
    else (if Emits(w, ops[0]) then [Number(w, ops[0])] else []) + Emitted(WriteStep(w, ops[0]), ops[1..])
  }

  /** No counter wraps, and the previous epoch is used only once there is one. */
  predicate WriteRunOk(w: Writer, ops: seq<WriteOp>)
    decreases |ops|
  {
    ops == [] ||
    (&& !Wraps(w, ops[0]) && (ops[0].Seal? && ops[0].previous ==> w.epoch >= 1)
     && WriteRunOk(WriteStep(w, ops[0]), ops[1..]))
  }

  ghost predicate UsedOk(w: Writer, used: set<(nat, int)>) {
    forall u :: u in used ==>
      || u.1 < w.epoch - 1
      || (u.1 == w.epoch - 1 && u.0 < w.last)
      || (u.1 == w.epoch && u.0 < w.seqNo)
  }

  lemma {:induction false} EmittedFresh(w: Writer, ops: seq<WriteOp>, used: set<(nat, int)>)
    requires UsedOk(w, used) && WriteRunOk(w, ops)
    ensures Distinct(Emitted(w, ops)) && forall u :: u in Emitted(w, ops) ==> u !in used
    decreases |ops|
  {
    if ops != [] {
      var used' := if Emits(w, ops[0]) then used + {Number(w, ops[0])} else used;
      EmittedFresh(WriteStep(w, ops[0]), ops[1..], used');
    }
  }

  /** Over any interleaving of seals in the current or previous epoch and write-state changes,
      before a counter wraps, no two records go out under the same epoch and number. */
  lemma NumbersUnique(ops: seq<WriteOp>)
    requires WriteRunOk(Writer(0, 0, 0), ops)
    ensures Distinct(Emitted(Writer(0, 0, 0), ops))
  {
    EmittedFresh(Writer(0, 0, 0), ops, {});
  }

  // What happens when a counter does wrap.

  ghost function WriteRun(w: Writer, ops: seq<WriteOp>): Writer
    decreases |ops|
  {
    if ops == [] then w else WriteRun(WriteStep(w, ops[0]), ops[1..])
  }

  lemma {:induction false} EmittedNext(w: Writer, ops: seq<WriteOp>, op: WriteOp)
    ensures WriteRun(w, ops + [op]) == WriteStep(WriteRun(w, ops), op)
    ensures Emitted(w, ops + [op]) ==
              Emitted(w, ops) + if Emits(WriteRun(w, ops), op) then [Number(WriteRun(w, ops), op)] else []
    decreases |ops|
  {
    if ops == [] {
      assert ([] + [op])[1..] == [];
    } else {
      assert (ops + [op])[1..] == ops[1..] + [op];
      EmittedNext(WriteStep(w, ops[0]), ops[1..], op);
    }
  }

  /** Every seal gets a ciphertext that fits, and the previous epoch is used only where there is one.
      Counters may wrap. */
  ghost predicate Sealing(ops: seq<WriteOp>) {
    forall k :: 0 <= k < |ops| && ops[k].Seal? ==>
      ops[k].sealed && ops[k].fits && (ops[k].previous ==> WriteRun(Writer(0, 0, 0), ops[..k]).epoch >= 1)
  }

  /** One more than the highest number that went out in each epoch. */
  ghost function Marks(ops: seq<WriteOp>): map<int, nat> {
    if ops == [] then map[]
    else
      var init, op := ops[..|ops| - 1], ops[|ops| - 1];
      var w, m := WriteRun(Writer(0, 0, 0), init), Marks(init);
      if Emits(w, op) then
        var (n, e) := Number(w, op);
        m[e := if n < Mark(m, e) then Mark(m, e) else n + 1]
      else m
  }

  ghost function Mark(marks: map<int, nat>, epoch: int): nat {
    if epoch in marks then marks[epoch] else 0
  }

  /** What went out is exactly what lies below the marks, and the counters are not above them. */
  lemma {:induction false} BelowMarks(ops: seq<WriteOp>)
    requires Sealing(ops)
    ensures forall n: nat, e: int :: (n, e) in Emitted(Writer(0, 0, 0), ops) <==> n < Mark(Marks(ops), e)
    ensures var w := WriteRun(Writer(0, 0, 0), ops);
      && 0 <= w.epoch < U16 && w.seqNo < U48 && w.seqNo <= Mark(Marks(ops), w.epoch)
      && (w.epoch >= 1 ==> w.last < U48 && w.last <= Mark(Marks(ops), w.epoch - 1))
  {
    if ops != [] {
      var w0 := Writer(0, 0, 0);
      var init, op := ops[..|ops| - 1], ops[|ops| - 1];
      assert ops == init + [op];
      assert Sealing(init) by {
        forall k | 0 <= k < |init| && init[k].Seal?
          ensures init[k].sealed && init[k].fits && (init[k].previous ==> WriteRun(w0, init[..k]).epoch >= 1)
        {
          assert init[..k] == ops[..k] && init[k] == ops[k];
        }
      }
      BelowMarks(init);
      EmittedNext(w0, init, op);
      var w := WriteRun(w0, init);
      assert op.Seal? && op.previous ==> w.epoch >= 1;
      BelowNext(w, op, Emitted(w0, init), Marks(init));
    }
  }

  /** One step above. */
  lemma BelowNext(w: Writer, op: WriteOp, out: seq<(nat, int)>, m: map<int, nat>)
    requires op.Seal? ==> op.sealed && op.fits && (op.previous ==> w.epoch >= 1)
    requires forall n: nat, e: int :: (n, e) in out <==> n < Mark(m, e)
    requires 0 <= w.epoch < U16 && w.seqNo < U48 && w.seqNo <= Mark(m, w.epoch)
    requires w.epoch >= 1 ==> w.last < U48 && w.last <= Mark(m, w.epoch - 1)
    ensures
      var u := WriteStep(w, op);
      var out' := out + if Emits(w, op) then [Number(w, op)] else [];
      var m' := if Emits(w, op) then
                  var (n, e) := Number(w, op);
                  m[e := if n < Mark(m, e) then Mark(m, e) else n + 1]
                else m;
      && (forall n: nat, e: int :: (n, e) in out' <==> n < Mark(m', e))
      && 0 <= u.epoch < U16 && u.seqNo < U48 && u.seqNo <= Mark(m', u.epoch)
      && (u.epoch >= 1 ==> u.last < U48 && u.last <= Mark(m', u.epoch - 1))
  {
  }

  /** The next record goes out under a number of its epoch that is below the mark. */
  ghost predicate SealedAgain(ops: seq<WriteOp>, op: WriteOp) {
    var w := WriteRun(Writer(0, 0, 0), ops);
    Emits(w, op) && Number(w, op).0 < Mark(Marks(ops), Number(w, op).1)
  }

  /** If every ciphertext fits, a run uses no epoch and number twice if and only if it never comes to a
      seal whose number is below the mark of its epoch. */
  lemma {:induction false} ReuseExactly(ops: seq<WriteOp>)
    requires Sealing(ops)
    ensures !Distinct(Emitted(Writer(0, 0, 0), ops)) <==>
              exists k :: 0 <= k < |ops| && SealedAgain(ops[..k], ops[k])
  {
    var w0 := Writer(0, 0, 0);
    if ops != [] {
      var n := |ops| - 1;
      var init, op := ops[..n], ops[n];
      assert ops == init + [op];
      assert forall k :: 0 <= k < n ==> init[..k] == ops[..k] && init[k] == ops[k];
      assert Sealing(init);
      ReuseExactly(init);
      BelowMarks(init);
      EmittedNext(w0, init, op);
      assert SealedAgain(init, op) <==>
        Emits(WriteRun(w0, init), op) && Number(WriteRun(w0, init), op) in Emitted(w0, init);
      hide Emitted, WriteRun, SealedAgain, Marks, Emits;
      if Emits(WriteRun(w0, init), op) {
        DistinctNext(Emitted(w0, init), Number(WriteRun(w0, init), op));
      } else {
        assert Emitted(w0, ops) == Emitted(w0, init);
      }
      if k :| 0 <= k < n && SealedAgain(init[..k], init[k]) {
        assert SealedAgain(ops[..k], ops[k]);
      }
    }
  }

  lemma SealingNext(init: seq<WriteOp>, op: WriteOp)
    requires Sealing(init) && op == Seal(false, true, true)
    ensures Sealing(init + [op])
  {
    hide WriteRun;
    var ops := init + [op];
    assert forall i :: 0 <= i < |init| ==> ops[..i] == init[..i] && ops[i] == init[i];
  }

  ghost function Seals(k: nat): seq<WriteOp> {
    if k == 0 then [] else Seals(k - 1) + [Seal(false, true, true)]
  }

  /** The counter and the mark after k seals in the first epoch. */
  lemma {:induction false} AfterSeals(k: nat)
    requires k <= U48
    ensures Sealing(Seals(k)) && WriteRun(Writer(0, 0, 0), Seals(k)) == Writer(0, if k < U48 then k else 0, 0)
    ensures Mark(Marks(Seals(k)), 0) == if k < U48 then k else U48 - 1
  {
    if k > 0 {
      var init, op := Seals(k - 1), Seal(false, true, true);
      AfterSeals(k - 1);
      EmittedNext(Writer(0, 0, 0), init, op);
      assert (init + [op])[..|init|] == init;
      hide WriteRun, Emitted;
      SealingNext(init, op);
    }
  }

  /** Such a run exists: the seal that exhausts the 48-bit counter fails, but leaves the counter at zero,
      and the seal after it reuses the first number. */
  lemma ReuseAfterWrap()
    ensures exists ops :: Sealing(ops) && !Distinct(Emitted(Writer(0, 0, 0), ops))
  {
    var init, op := Seals(U48), Seal(false, true, true);
    var ops := init + [op];
    AfterSeals(U48);
    SealingNext(init, op);
    assert SealedAgain(init, op);
    hide Seals, Marks, WriteRun, SealedAgain;
    assert ops[..|init|] == init && ops[|init|] == op;
    ReuseExactly(ops);
  }
}
