/** The sending side of the DTLS handshake: a flight of messages cut into fragments that
    fit the MTU, resumed after a blocked write and rewound on retransmission. */
module DtlsSender {
  import opened Bits
  import opened Common
  import opened DtlsFragment
  import DtlsRecord

  const MIN_MTU := 228       // kMinMTU
  const DEFAULT_MTU := 1472  // kDefaultMTU

  /** DTLS_OUTGOING_MESSAGE */
  datatype Outgoing = Outgoing(data: seq<byte>, epoch: nat, isCcs: bool)

  /** The plaintext of one record. */
  datatype Record = CcsRecord(epoch: nat) | FragRecord(f: Frag, epoch: nat)

  /** outgoing_written and outgoing_offset: what is to be sent next. */
  datatype Cursor = Cursor(written: nat, offset: nat)

  datatype Sealed = SealError | NoProgress | Partial(len: nat, rec: Record) | Success(len: nat, rec: Record)

  datatype PacketResult = Packet | MtuTooSmall | PacketError

  datatype SendResult = Sent | WriteBlocked | FlushBlocked | TooSmall | SendError

  /** The queued bytes are one whole handshake message. */
  predicate Queued(m: Outgoing) {
    m.isCcs ||
    match ParseFragment(m.data)
    case Malformed => false
    case Fragment(f, rest) => rest == [] && f.off == 0 && |f.body| == f.msgLen
  }

  function Whole(m: Outgoing): (f: Frag)
    requires Queued(m) && !m.isCcs
    ensures f.off == 0 && |f.body| == f.msgLen && FragOk(f)
  {
    ParseFragment(m.data).f
  }

  /** A message with its header is one whole fragment. */
  lemma MessageQueued(m: HsMsg, seqNo: nat, epoch: nat)
    requires |m.body| < U24 && seqNo < U16
    ensures var o := Outgoing(MessageBytes(m, seqNo), epoch, false);
            Queued(o) && Whole(o) == Frag(m.typ, |m.body|, seqNo, 0, m.body)
  {
    var f := Frag(m.typ, |m.body|, seqNo, 0, m.body);
    ParseRoundTrip(f, []);
    assert FragBytes(f) + [] == MessageBytes(m, seqNo);
  }

  // ------------------------------------------------------------------- what is sent

  /** The part of a queued message from offset o to o + n. */
  function Cut(m: Outgoing, o: nat, n: nat): (f: Frag)
    requires Queued(m) && !m.isCcs && o + n <= |Whole(m).body|
  {
    var w := Whole(m);
    Frag(w.typ, w.msgLen, w.seqNo, o, w.body[o..o + n])
  }

  /** Sending rec moves the cursor from c to c': a ChangeCipherSpec goes out whole, a
      message in its next bytes, at least one unless it is empty. */
  ghost predicate Step(ms: seq<Outgoing>, c: Cursor, rec: Record, c': Cursor)
    requires forall m :: m in ms ==> Queued(m)
  {
    && c.written < |ms|
    && var m := ms[c.written];
       if m.isCcs then rec == CcsRecord(m.epoch) && c' == Cursor(c.written + 1, 0)
       else
         && rec.FragRecord? && rec.epoch == m.epoch
         && var n := |rec.f.body|;
            && c.offset + n <= |Whole(m).body| && rec.f == Cut(m, c.offset, n)
            && (n > 0 || c.offset == |Whole(m).body|)
            && c' == if c.offset + n == |Whole(m).body|
              then Cursor(c.written + 1, 0) else Cursor(c.written, c.offset + n)
  }

  ghost predicate Path(ms: seq<Outgoing>, c: Cursor, recs: seq<Record>, c': Cursor)
    requires forall m :: m in ms ==> Queued(m)
    decreases |recs|
  {
    if recs == [] then c == c'
    else exists d :: Step(ms, c, recs[0], d) && Path(ms, d, recs[1..], c')
  }

  lemma {:induction false} PathConcat(
    ms: seq<Outgoing>, c: Cursor, a: seq<Record>, d: Cursor, b: seq<Record>, c': Cursor)
    requires forall m :: m in ms ==> Queued(m)
    requires Path(ms, c, a, d) && Path(ms, d, b, c')
    ensures Path(ms, c, a + b, c')
    decreases |a|
  {
    if a == [] {
      assert a + b == b;
    } else {
      var e :| Step(ms, c, a[0], e) && Path(ms, e, a[1..], d);
      PathConcat(ms, e, a[1..], d, b, c');
      assert (a + b)[1..] == a[1..] + b;
    }
  }

  lemma PathOne(ms: seq<Outgoing>, c: Cursor, rec: Record, c': Cursor)
    requires forall m :: m in ms ==> Queued(m)
    requires Step(ms, c, rec, c')
    ensures Path(ms, c, [rec], c')
  {
    assert Path(ms, c', [rec][1..], c');
  }

  lemma PathSnoc(ms: seq<Outgoing>, c: Cursor, a: seq<Record>, d: Cursor, rec: Record, c': Cursor)
    requires forall m :: m in ms ==> Queued(m)
    requires Path(ms, c, a, d) && Step(ms, d, rec, c')
    ensures Path(ms, c, a + [rec], c')
  {
    PathOne(ms, d, rec, c');
    PathConcat(ms, c, a, d, [rec], c');
  }

  /** The fragments of the message with number q, in sending order. */
  function FragmentsOf(recs: seq<Record>, q: nat): seq<Frag> {
    if recs == [] then []
    else if recs[0].FragRecord? && recs[0].f.seqNo == q then [recs[0].f] + FragmentsOf(recs[1..], q)
    else FragmentsOf(recs[1..], q)
  }

  /** The fragments are consecutive pieces of body from offset o to its end. */
  ghost predicate Tiles(fs: seq<Frag>, o: nat, body: seq<byte>) {
    if fs == [] then o == |body|
    else
      && fs[0].off == o && o + |fs[0].body| <= |body| && fs[0].msgLen == |body|
      && fs[0].body == body[o..o + |fs[0].body|]
      && Tiles(fs[1..], o + |fs[0].body|, body)
  }

  /** Numbers of the messages of a flight differ. */
  ghost predicate Numbered(ms: seq<Outgoing>)
    requires forall m :: m in ms ==> Queued(m)
  {
    forall i, j :: 0 <= i < j < |ms| && !ms[i].isCcs && !ms[j].isCcs ==> Whole(ms[i]).seqNo != Whole(ms[j]).seqNo
  }

  /** What remains of a pass tiles what remains of each message. */
  lemma {:induction false} PassTiles(ms: seq<Outgoing>, c: Cursor, recs: seq<Record>, j: nat)
    requires (forall m :: m in ms ==> Queued(m)) && Numbered(ms)
    requires Path(ms, c, recs, Cursor(|ms|, 0)) && j < |ms| && !ms[j].isCcs
    requires c.written < |ms| && !ms[c.written].isCcs ==> c.offset <= |Whole(ms[c.written]).body|
    requires c.written == |ms| || ms[c.written].isCcs ==> c.offset == 0
    ensures var w := Whole(ms[j]);
            var fs := FragmentsOf(recs, w.seqNo);
            if j < c.written then fs == []
            else fs != [] && Tiles(fs, if j == c.written then c.offset else 0, w.body)
    decreases |recs|
  {
    if recs != [] {
      var d :| Step(ms, c, recs[0], d) && Path(ms, d, recs[1..], Cursor(|ms|, 0));
      PassTiles(ms, d, recs[1..], j);
      var m := ms[c.written];
      if !m.isCcs && c.written < j { assert Whole(m).seqNo != Whole(ms[j]).seqNo; }
      if !m.isCcs && j < c.written { assert Whole(ms[j]).seqNo != Whole(m).seqNo; }
    }
  }

  /** The fragments of one pass over a flight partition the body of each message in order. */
  lemma FlightTiles(ms: seq<Outgoing>, recs: seq<Record>, j: nat)
    requires (forall m :: m in ms ==> Queued(m)) && Numbered(ms)
    requires Path(ms, Cursor(0, 0), recs, Cursor(|ms|, 0)) && j < |ms| && !ms[j].isCcs
    ensures var fs := FragmentsOf(recs, Whole(ms[j]).seqNo);
            fs != [] && Tiles(fs, 0, Whole(ms[j]).body) && Joined(fs) == Whole(ms[j]).body
  {
    PassTiles(ms, Cursor(0, 0), recs, j);
    TilesJoin(FragmentsOf(recs, Whole(ms[j]).seqNo), 0, Whole(ms[j]).body);
  }

  /** Records of a sequence of packets. */
  ghost function Flatten(packets: seq<seq<Record>>): seq<Record> {
    if packets == [] then [] else packets[0] + Flatten(packets[1..])
  }

  lemma {:induction false} FlattenSnoc(packets: seq<seq<Record>>, recs: seq<Record>)
    ensures Flatten(packets + [recs]) == Flatten(packets) + recs
    decreases |packets|
  {
    if packets == [] {
      assert Flatten([recs][1..]) == [];
    } else {
      assert (packets + [recs])[1..] == packets[1..] + [recs];
      FlattenSnoc(packets[1..], recs);
    }
  }

  predicate AllAtMost(ns: seq<nat>, max: nat) { forall i :: 0 <= i < |ns| ==> ns[i] <= max }

  lemma AtMostNext(ns: seq<nat>, n: nat, max: nat)
    requires AllAtMost(ns, max) && n <= max
    ensures AllAtMost(ns + [n], max)
  {
  }

  /** Every record moves the cursor on: a message further, or further in the same message. */
  lemma {:induction false} Advances(ms: seq<Outgoing>, c: Cursor, recs: seq<Record>, c': Cursor)
    requires (forall m :: m in ms ==> Queued(m)) && recs != [] && Path(ms, c, recs, c')
    ensures c.written < c'.written || (c.written == c'.written && c.offset < c'.offset)
    decreases |recs|
  {
    var d :| Step(ms, c, recs[0], d) && Path(ms, d, recs[1..], c');
    if recs[1..] != [] { Advances(ms, d, recs[1..], c'); }
  }

  function Joined(fs: seq<Frag>): seq<byte> {
    if fs == [] then [] else fs[0].body + Joined(fs[1..])
  }

  lemma {:induction false} TilesJoin(fs: seq<Frag>, o: nat, body: seq<byte>)
    requires Tiles(fs, o, body)
    ensures o <= |body| && Joined(fs) == body[o..]
    decreases |fs|
  {
    if fs != [] {
      TilesJoin(fs[1..], o + |fs[0].body|, body);
    }
  }

  /** How many messages ago number q was given out, modulo 2^16. */
  ghost function Age(writeSeq: nat, q: nat): int {
    if q < writeSeq then writeSeq - q else writeSeq + U16 - q
  }

  /** A flight of at most seven queued messages with distinct, recently given numbers. */
  ghost predicate FlightOk(ms: seq<Outgoing>, writeSeq: nat) {
    && |ms| <= FLIGHT && writeSeq < U16
    && (forall m :: m in ms ==> Queued(m))
    && Numbered(ms)
    && forall i :: 0 <= i < |ms| && !ms[i].isCcs ==> 1 <= Age(writeSeq, Whole(ms[i]).seqNo) <= |ms|
  }

  ghost predicate CursorOk(ms: seq<Outgoing>, c: Cursor)
    requires forall m :: m in ms ==> Queued(m)
  {
    && c.written <= |ms|
    && (c.written == |ms| || ms[c.written].isCcs ==> c.offset == 0)
    && (c.written < |ms| && !ms[c.written].isCcs ==> c.offset < |Whole(ms[c.written]).body| || c.offset == 0)
  }

  lemma FlightGrows(ms: seq<Outgoing>, writeSeq: nat, m: Outgoing)
    requires FlightOk(ms, writeSeq) && |ms| < FLIGHT && Queued(m) && (!m.isCcs ==> Whole(m).seqNo == writeSeq)
    ensures FlightOk(ms + [m], if m.isCcs then writeSeq else (writeSeq + 1) % U16)
  {
    hide Queued, Whole;
    var ms', w := ms + [m], if m.isCcs then writeSeq else (writeSeq + 1) % U16;
    assert forall x :: x in ms' ==> x in ms || x == m;
    forall i | 0 <= i < |ms'| && !ms'[i].isCcs ensures 1 <= Age(w, Whole(ms'[i]).seqNo) <= |ms'| {
      if i < |ms| { assert ms'[i] == ms[i]; }
    }
    forall i, j | 0 <= i < j < |ms'| && !ms'[i].isCcs && !ms'[j].isCcs
      ensures Whole(ms'[i]).seqNo != Whole(ms'[j]).seqNo
    {
      assert ms'[i] == ms[i];
      if j < |ms| { assert ms'[j] == ms[j]; }
    }
  }

  // ------------------------------------------------------------------- the object

  /** The AEAD of one epoch as far as lengths go. */
  datatype Aead = Aead(maxOverhead: nat, nonceLen: nat)

  /** Messages of the current epoch and of the one before can be sealed. */
  predicate Sealable(m: Outgoing, epoch: nat) { m.epoch == epoch || (epoch >= 1 && m.epoch == epoch - 1) }

  /** Nothing in the flight stands in the way of sealing it. */
  ghost predicate AllReady(ms: seq<Outgoing>, epoch: nat, current: Aead, last: Aead) {
    forall m :: m in ms ==>
      && Sealable(m, epoch)
      && var aead := if m.epoch == epoch then current else last;
         aead.nonceLen <= aead.maxOverhead
  }

  lemma ReadyGrows(ms: seq<Outgoing>, m: Outgoing, epoch: nat, current: Aead, last: Aead)
    requires AllReady(ms, epoch, current, last) && m.epoch == epoch && current.nonceLen <= current.maxOverhead
    ensures AllReady(ms + [m], epoch, current, last)
  {
  }

  lemma NoneReady(epoch: nat, current: Aead, last: Aead)
    ensures AllReady([], epoch, current, last)
  {
  }

  /** The send half of DTLS1_STATE. What the AEAD and the transport do is given. */
  class Sender {
    var outgoing: seq<Outgoing>
    var written: nat
    var offset: nat
    var complete: bool
    var hasReply: bool
    var writeSeq: nat
    var writeEpoch: nat
    var current: Aead
    var last: Aead
    var mtu: nat
    var transcript: seq<byte>

    /** What the world outside does: the length of the ciphertext of the n-th record sealed, if the AEAD succeeds,
        whether the transport takes the n-th packet, and whether the n-th flush goes through. */
    const seals: nat -> Option<nat>
    const writes: nat -> bool
    const flushes: nat -> bool
    var sealCount: nat
    var writeCount: nat
    var flushCount: nat

    /** How many records could not be sealed. */
    ghost var failures: nat

    ghost predicate Valid()
      reads this
    {
      FlightOk(outgoing, writeSeq) && CursorOk(outgoing, Pos()) && (hasReply ==> complete)
    }

    ghost function Pos(): Cursor
      reads this
    {
      Cursor(written, offset)
    }

    /** dtls1_new: nothing is queued, the cipher is null and the MTU still has to be found. */
    constructor (seals: nat -> Option<nat>, writes: nat -> bool, flushes: nat -> bool)
      ensures Valid() && outgoing == [] && Pos() == Cursor(0, 0) && !complete && !hasReply
      ensures writeSeq == 0 && writeEpoch == 0 && mtu == 0 && transcript == []
      ensures current == Aead(0, 0) && Ready()
      ensures this.seals == seals && this.writes == writes && this.flushes == flushes
    {
      this.seals, this.writes, this.flushes := seals, writes, flushes;
      sealCount, writeCount, flushCount, failures := 0, 0, 0, 0;
      outgoing, written, offset, complete, hasReply := [], 0, 0, false, false;
      writeSeq, writeEpoch, current, last, mtu, transcript := 0, 0, Aead(0, 0), Aead(0, 0), 0, [];
    }

    /** dtls_clear_outgoing_messages */
    method Clear()
      modifies this`outgoing, this`written, this`offset, this`complete, this`hasReply
      ensures outgoing == [] && Pos() == Cursor(0, 0) && !complete && !hasReply
    {
      outgoing, written, offset, complete, hasReply := [], 0, 0, false, false;
    }

    /** add_outgoing: starts a new flight if the last one was completed; a handshake message
        is hashed once and takes the next number. */
    method AddOutgoing(isCcs: bool, data: seq<byte>) returns (ok: bool)
      requires Valid() && Queued(Outgoing(data, writeEpoch, isCcs))
      requires !isCcs ==> Whole(Outgoing(data, writeEpoch, isCcs)).seqNo == writeSeq
      modifies this`outgoing, this`written, this`offset, this`complete, this`hasReply, this`writeSeq, this`transcript
      ensures Valid()
      ensures var flight := if old(complete) then [] else old(outgoing);
              && ok == (|flight| < FLIGHT)
              && outgoing == (if ok then flight + [Outgoing(data, writeEpoch, isCcs)] else flight)
              && Pos() == (if old(complete) then Cursor(0, 0) else old(Pos()))
      ensures !complete && !hasReply
      ensures old(Ready()) && current.nonceLen <= current.maxOverhead ==> Ready()
      ensures (if ok && !isCcs then transcript == old(transcript) + data && writeSeq == (old(writeSeq) + 1) % U16
               else transcript == old(transcript) && writeSeq == old(writeSeq))
    {
      if complete { Clear(); }
      if |outgoing| >= FLIGHT { return false; }
      NoneReady(writeEpoch, current, last);
      hide FlightOk, Queued, CursorOk, AllReady;
      Append(isCcs, data);
      return true;
    }

    /** The message joins a flight that has room. */
    method Append(isCcs: bool, data: seq<byte>)
      requires Valid() && Queued(Outgoing(data, writeEpoch, isCcs)) && |outgoing| < FLIGHT
      requires !isCcs ==> Whole(Outgoing(data, writeEpoch, isCcs)).seqNo == writeSeq
      modifies this`outgoing, this`writeSeq, this`transcript
      ensures Valid() && outgoing == old(outgoing) + [Outgoing(data, writeEpoch, isCcs)]
      ensures old(Ready()) && current.nonceLen <= current.maxOverhead ==> Ready()
      ensures if !isCcs then transcript == old(transcript) + data && writeSeq == (old(writeSeq) + 1) % U16
              else transcript == old(transcript) && writeSeq == old(writeSeq)
    {
      FlightGrows(outgoing, writeSeq, Outgoing(data, writeEpoch, isCcs));
      if current.nonceLen <= current.maxOverhead && AllReady(outgoing, writeEpoch, current, last) {
        ReadyGrows(outgoing, Outgoing(data, writeEpoch, isCcs), writeEpoch, current, last);
      }
      hide FlightOk, Queued, AllReady;
      if !isCcs {
        transcript := transcript + data;
        writeSeq := (writeSeq + 1) % U16;
      }
      outgoing := outgoing + [Outgoing(data, writeEpoch, isCcs)];
    }

    /** dtls1_init_message, dtls1_finish_message and dtls1_add_message. */
    method AddMessage(m: HsMsg) returns (ok: bool)
      requires Valid() && |m.body| < U24
      modifies this`outgoing, this`written, this`offset, this`complete, this`hasReply, this`writeSeq, this`transcript
      ensures Valid()
      ensures ok == (old(complete) || |old(outgoing)| < FLIGHT) && !complete && !hasReply
      ensures Pos() == if old(complete) then Cursor(0, 0) else old(Pos())
      ensures var data := MessageBytes(m, old(writeSeq));
              if ok then
                && outgoing == (if old(complete) then [] else old(outgoing)) + [Outgoing(data, writeEpoch, false)]
                && transcript == old(transcript) + data && writeSeq == (old(writeSeq) + 1) % U16
              else outgoing == old(outgoing) && transcript == old(transcript) && writeSeq == old(writeSeq)
    {
      var data := MessageBytes(m, writeSeq);
      MessageQueued(m, writeSeq, writeEpoch);
      hide Queued, MessageBytes, FlightOk, CursorOk;
      ok := AddOutgoing(false, data);
    }

    /** dtls1_add_change_cipher_spec */
    method AddChangeCipherSpec() returns (ok: bool)
      requires Valid()
      modifies this`outgoing, this`written, this`offset, this`complete, this`hasReply, this`writeSeq, this`transcript
      ensures Valid() && ok == (old(complete) || |old(outgoing)| < FLIGHT) && !complete && !hasReply
      ensures Pos() == if old(complete) then Cursor(0, 0) else old(Pos())
      ensures outgoing == if !ok then old(outgoing)
                          else (if old(complete) then [] else old(outgoing)) + [Outgoing([], writeEpoch, true)]
      ensures transcript == old(transcript) && writeSeq == old(writeSeq)
    {
      ok := AddOutgoing(true, []);
    }

    /** dtls1_set_write_state: the old cipher is kept for the messages queued under it. */
    method SetWriteState(aead: Aead)
      requires Valid()
      modifies this`writeEpoch, this`current, this`last
      ensures Valid() && writeEpoch == (old(writeEpoch) + 1) % U16 && current == aead && last == old(current)
      ensures old(Ready()) && old(writeEpoch) + 1 < U16 ==>
                (forall m :: m in outgoing ==> m.epoch == old(writeEpoch)) ==> Ready()
    {
      writeEpoch, last, current := (writeEpoch + 1) % U16, current, aead;
    }

    /** dtls1_next_message on the flight of the side that reads: a message that comes after the flight
        was completed answers it. */
    method NoteReply()
      requires Valid()
      modifies this`hasReply
      ensures Valid() && hasReply == (old(hasReply) || complete)
    {
      if complete { hasReply := true; }
    }

    /** dtls1_on_handshake_complete: the last flight is kept for retransmission unless it was answered. */
    method OnHandshakeComplete()
      requires Valid()
      modifies this`outgoing, this`written, this`offset, this`complete, this`hasReply
      ensures Valid()
      ensures if old(hasReply) then outgoing == [] && Pos() == Cursor(0, 0) && !complete && !hasReply
              else outgoing == old(outgoing) && Pos() == old(Pos()) && complete == old(complete) && !hasReply
    {
      if hasReply { Clear(); }
    }

    /** Messages of the current epoch and of the one before can be sealed. */
    predicate InEpoch(m: Outgoing)
      reads this
    {
      Sealable(m, writeEpoch)
    }

    /** The keys of the message's own epoch. */
    function AeadOf(m: Outgoing): Aead
      reads this
    {
      if m.epoch == writeEpoch then current else last
    }

    /** Nothing in the flight stands in the way of sealing it. */
    ghost predicate Ready()
      reads this
    {
      AllReady(outgoing, writeEpoch, current, last)
    }

    /** The smallest MTU has room for a record of any message, if the overhead is at most 202 bytes. */
    lemma RoomAtMinimum(m: Outgoing)
      requires AeadOf(m).nonceLen <= AeadOf(m).maxOverhead && mtu >= MIN_MTU
      ensures AeadOf(m).maxOverhead <= 202 ==> !NoRoom(m, mtu)
      ensures NoRoom(m, mtu) && mtu == MIN_MTU && !m.isCcs ==> AeadOf(m).maxOverhead > 202
    {
    }

    lemma NotReady(m: Outgoing)
      requires m in outgoing
      ensures !InEpoch(m) || AeadOf(m).nonceLen > AeadOf(m).maxOverhead ==> !Ready()
    {
    }

    /** maxOut bytes do not hold a record with one byte of the message. */
    predicate NoRoom(m: Outgoing, maxOut: nat)
      reads this
    {
      if m.isCcs then maxOut < 1 + DtlsRecord.HEADER + AeadOf(m).maxOverhead
      else
        || maxOut < HEADER_LENGTH + 1 + DtlsRecord.HEADER + AeadOf(m).maxOverhead
        || maxOut < DtlsRecord.HEADER + AeadOf(m).nonceLen
    }

    /** As many bytes of the message from the offset on as a record of maxOut bytes holds. */
    function Share(m: Outgoing, o: nat, maxOut: nat): (n: nat)
      requires Queued(m) && !m.isCcs && o <= |Whole(m).body| && !NoRoom(m, maxOut)
      reads this
      ensures n > 0 || o == |Whole(m).body|
    {
      var left, room := |Whole(m).body| - o, maxOut - HEADER_LENGTH - DtlsRecord.HEADER - AeadOf(m).maxOverhead;
      if left <= room then left else room
    }

    /** seal_next_message. It fails exactly if the message's keys are gone or not there yet, if they need more
        room in front than they announce in all, or if sealing fails; otherwise the record has as much of
        the message as the room holds. */
    method SealNextMessage(maxOut: nat) returns (r: Sealed)
      requires Valid() && written < |outgoing|
      modifies this`offset, this`sealCount, this`failures
      ensures var m := outgoing[written];
              && (r.NoProgress? <==> InEpoch(m) && NoRoom(m, maxOut))
              && (r.NoProgress? ==> failures == old(failures))
              && (r.SealError? ==>
                    || !InEpoch(m) || AeadOf(m).nonceLen > AeadOf(m).maxOverhead
                    || failures == old(failures) + 1)
              && (r.Partial? || r.Success? ==> InEpoch(m) && failures == old(failures))
      ensures r.SealError? || r.NoProgress? ==> offset == old(offset)
      ensures r.Partial? ==> r.len <= maxOut && CursorOk(outgoing, Pos()) && Step(outgoing, old(Pos()), r.rec, Pos())
      ensures r.Success? ==> r.len <= maxOut && offset == 0 && Step(outgoing, old(Pos()), r.rec, Cursor(written + 1, 0))
      ensures r.Partial? || r.Success? ==>
                var m := outgoing[written];
                && !NoRoom(m, maxOut) && seals(old(sealCount)) == Some(r.len - DtlsRecord.HEADER)
                && (!m.isCcs ==> |r.rec.f.body| == Share(m, old(offset), maxOut))
    {
      var m := outgoing[written];
      assert m in outgoing && Queued(m);
      hide FlightOk, Queued, Numbered;
      var aead := current;
      if writeEpoch >= 1 && m.epoch == writeEpoch - 1 {
        aead := last;
      } else if m.epoch != writeEpoch {
        return SealError;
      }
      var overhead := DtlsRecord.HEADER + aead.maxOverhead;
      var prefix := DtlsRecord.HEADER + aead.nonceLen;
      if m.isCcs {
        if maxOut < 1 + overhead { return NoProgress; }
        var ok, len := SealRecord(1, maxOut, aead);
        if !ok { return SealError; }
        return Success(len, CcsRecord(m.epoch));
      }
      var body := Whole(m).body[offset..];
      if maxOut < HEADER_LENGTH + 1 + overhead || maxOut < prefix { return NoProgress; }
      var todo := |body|;
      if todo > maxOut - HEADER_LENGTH - overhead {
        todo := maxOut - HEADER_LENGTH - overhead;
      }
      if HEADER_LENGTH + todo > maxOut - prefix { return SealError; }
      var f := Cut(m, offset, todo);
      var ok, len := SealRecord(HEADER_LENGTH + todo, maxOut, aead);
      if !ok { return SealError; }
      if todo == |body| {
        offset := 0;
        return Success(len, FragRecord(f, m.epoch));
      }
      offset := offset + todo;
      return Partial(len, FragRecord(f, m.epoch));
    }

    /** The AEAD keeps to what it announces, and the record's length can be written down. */
    predicate SealGood(n: nat, plain: nat, aead: Aead)
      reads this
    {
      seals(n).Some? && plain <= seals(n).value <= plain + aead.maxOverhead && seals(n).value < U16
    }

    /** dtls_seal_record. */
    method SealRecord(plain: nat, maxOut: nat, aead: Aead) returns (ok: bool, len: nat)
      requires DtlsRecord.HEADER + plain + aead.maxOverhead <= maxOut
      modifies this`sealCount, this`failures
      ensures sealCount == old(sealCount) + 1 && failures == old(failures) + (if ok then 0 else 1)
      ensures ok == SealGood(old(sealCount), plain, aead)
      ensures ok ==> len == DtlsRecord.HEADER + seals(old(sealCount)).value
      ensures ok ==> DtlsRecord.HEADER + plain <= len <= DtlsRecord.HEADER + plain + aead.maxOverhead
      ensures ok ==> len < DtlsRecord.HEADER + U16
    {
      var sealed := seals(sealCount);
      ok := SealGood(sealCount, plain, aead);
      sealCount := sealCount + 1;
      failures := failures + if ok then 0 else 1;
      len := if ok then DtlsRecord.HEADER + sealed.value else 0;
    }

    /** One round of seal_next_packet. */
    method SealStep(room: nat) returns (r: Sealed)
      requires Valid() && written < |outgoing|
      modifies this`written, this`offset, this`sealCount, this`failures
      ensures r.SealError? ==> !Ready() || failures > old(failures)
      ensures !r.SealError? ==> Valid() && failures == old(failures)
      ensures r.NoProgress? ==> Pos() == old(Pos()) && NoRoom(outgoing[written], room)
      ensures r.Partial? || r.Success? ==> r.len <= room && Step(outgoing, old(Pos()), r.rec, Pos())
      ensures r.Partial? ==> written == old(written) && offset > 0
      ensures r.Success? ==> written == old(written) + 1
    {
      NotReady(outgoing[written]);
      hide Path, Numbered, Queued, NoRoom, Ready, InEpoch, AeadOf;
      r := SealNextMessage(room);
      if r.Success? { written := written + 1; }
    }

    /** seal_next_packet: as many records as fit, at least one. A packet ends with the flight, inside a message, or
        where the next record would not fit. */
    method SealNextPacket(maxOut: nat) returns (r: PacketResult, len: nat, ghost recs: seq<Record>)
      requires Valid() && written < |outgoing|
      modifies this`written, this`offset, this`sealCount, this`failures
      ensures r.PacketError? ==> !Ready() || failures > old(failures)
      ensures !r.PacketError? ==> failures == old(failures)
      ensures r.Packet? ==> Valid() && len <= maxOut && recs != [] && Path(outgoing, old(Pos()), recs, Pos())
      ensures r.Packet? ==> written == |outgoing| || offset > 0 || NoRoom(outgoing[written], maxOut - len)
      ensures r.MtuTooSmall? ==> Pos() == old(Pos()) && NoRoom(outgoing[written], maxOut)
    {
      var madeProgress, room: nat := false, maxOut;
      len, recs := 0, [];
      assert Path(outgoing, Pos(), recs, Pos());
      hide Path, Numbered, Queued, NoRoom, Ready, Step, FlightOk;
      while written < |outgoing|
        invariant Valid() && len + room == maxOut && madeProgress == (recs != [])
        invariant Path(outgoing, old(Pos()), recs, Pos())
        invariant !madeProgress ==> Pos() == old(Pos()) && written < |outgoing| && room == maxOut
        invariant failures == old(failures)
        decreases |outgoing| - written
      {
        ghost var c := Pos();
        var sealed := SealStep(room);
        if sealed.SealError? { return PacketError, 0, []; }
        if sealed.NoProgress? { break; }
        assert sealed.Partial? || sealed.Success?;
        PathSnoc(outgoing, old(Pos()), recs, c, sealed.rec, Pos());
        room, len, madeProgress, recs := room - sealed.len, len + sealed.len, true, recs + [sealed.rec];
        if sealed.Partial? { break; }
      }
      r := if madeProgress then Packet else MtuTooSmall;
    }

    /** dtls1_update_mtu; queried is the transport's answer. */
    method UpdateMtu(noQuery: bool, queried: int)
      requires noQuery ==> mtu >= MIN_MTU
      modifies this`mtu
      ensures mtu >= MIN_MTU && (old(mtu) >= MIN_MTU ==> mtu == old(mtu))
      ensures old(mtu) < MIN_MTU ==> mtu == if MIN_MTU <= queried <= 0x4000_0000 then queried else DEFAULT_MTU
    {
      if mtu < MIN_MTU && !noQuery {
        if 0 <= queried <= 0x4000_0000 && queried >= MIN_MTU {
          mtu := queried;
        } else {
          mtu := DEFAULT_MTU;
        }
      }
    }

    /** The transport took these packets. */
    predicate Took(from: nat, to: nat)
      reads this
    {
      forall n :: from <= n < to ==> writes(n)
    }

    lemma TookNext(from: nat, to: nat)
      requires Took(from, to) && (from <= to ==> writes(to))
      ensures Took(from, to + 1)
    {
    }

    /** Bytes of the next message still to go. */
    ghost function BytesLeft(): nat
      requires Valid()
      reads this
    {
      if written < |outgoing| && !outgoing[written].isCcs then |Whole(outgoing[written]).body| - offset else 0
    }

    /** One round of send_flight: the next packet is written, or the cursor stays in front of it. */
    method SendPacket() returns (r: SendResult, len: nat, ghost recs: seq<Record>)
      requires Valid() && written < |outgoing|
      modifies this`written, this`offset, this`sealCount, this`writeCount, this`failures
      ensures r.SendError? || r.TooSmall? || r.WriteBlocked? || r.Sent?
      ensures if r.SendError? then !Ready() || failures > old(failures) else Valid() && failures == old(failures)
      ensures r.TooSmall? || r.WriteBlocked? ==> Pos() == old(Pos())
      ensures r.TooSmall? ==> NoRoom(outgoing[written], mtu)
      ensures r.WriteBlocked? || r.Sent? ==> writes(old(writeCount)) == r.Sent?
      ensures r.Sent? ==> writeCount == old(writeCount) + 1 && len <= mtu && Path(outgoing, old(Pos()), recs, Pos())
      ensures r.Sent? ==> written > old(written) || (written == old(written) && BytesLeft() < old(BytesLeft()))
    {
      hide Path, Numbered, Queued, NoRoom, Ready;
      ghost var c := Pos();
      var oldWritten, oldOffset := written, offset;
      var sealed;
      sealed, len, recs := SealNextPacket(mtu);
      if sealed.PacketError? { return SendError, len, recs; }
      if sealed.MtuTooSmall? { return TooSmall, len, recs; }
      var taken := writes(writeCount);
      writeCount := writeCount + 1;
      if !taken {
        written, offset := oldWritten, oldOffset;
        return WriteBlocked, len, recs;
      }
      Advances(outgoing, c, recs, Pos());
      r := Sent;
    }

    /** The loop of send_flight. The packets written are exactly what lies between the old cursor and the new
        one, so a blocked write leaves the cursor where its packet starts. */
    method SendPackets() returns (r: SendResult, ghost packets: seq<seq<Record>>, ghost lengths: seq<nat>)
      requires Valid()
      modifies this`written, this`offset, this`sealCount, this`writeCount, this`failures
      ensures !r.FlushBlocked? && (r.SendError? ==> !Ready() || failures > old(failures))
      ensures Took(old(writeCount), old(writeCount) + |packets|)
      ensures r.WriteBlocked? ==> !writes(old(writeCount) + |packets|) && written < |outgoing|
      ensures |lengths| == |packets| && AllAtMost(lengths, mtu)
      ensures !r.SendError? ==> Valid() && Path(outgoing, old(Pos()), Flatten(packets), Pos())
      ensures r.Sent? ==> written == |outgoing|
      ensures r.TooSmall? ==> written < |outgoing| && NoRoom(outgoing[written], mtu)
    {
      packets, lengths, r := [], [], Sent;
      assert Path(outgoing, Pos(), Flatten(packets), Pos());
      hide Path, Numbered, Queued, FlightOk, CursorOk, Flatten, BytesLeft, NoRoom, Ready, Took, AllAtMost;
      while written < |outgoing|
        invariant r.Sent? && Valid() && failures == old(failures)
        invariant |lengths| == |packets| && AllAtMost(lengths, mtu)
        invariant writeCount == old(writeCount) + |packets| && Took(old(writeCount), writeCount)
        invariant Path(outgoing, old(Pos()), Flatten(packets), Pos())
        decreases |outgoing| - written, BytesLeft()
      {
        ghost var c := Pos();
        var len;
        ghost var recs;
        r, len, recs := SendPacket();
        if !r.Sent? { return; }
        FlattenSnoc(packets, recs);
        AtMostNext(lengths, len, mtu);
        TookNext(old(writeCount), writeCount - 1);
        PathConcat(outgoing, old(Pos()), Flatten(packets), c, recs, Pos());
        packets, lengths := packets + [recs], lengths + [len];
      }
    }

    /** send_flight */
    method SendFlight(noQuery: bool, queried: int)
      returns (r: SendResult, ghost packets: seq<seq<Record>>, ghost lengths: seq<nat>)
      requires Valid() && (noQuery ==> mtu >= MIN_MTU)
      modifies this`mtu, this`written, this`offset, this`sealCount, this`writeCount, this`flushCount, this`failures
      ensures mtu >= MIN_MTU
      ensures r.SendError? ==> !Ready() || failures > old(failures)
      ensures Took(old(writeCount), old(writeCount) + |packets|)
      ensures r.WriteBlocked? ==> !writes(old(writeCount) + |packets|)
      ensures r.FlushBlocked? ==> !flushes(old(flushCount))
      ensures r.Sent? ==> flushes(old(flushCount))
      ensures |lengths| == |packets| && AllAtMost(lengths, mtu)
      ensures !r.SendError? ==> Valid() && Path(outgoing, old(Pos()), Flatten(packets), Pos())
      ensures r.Sent? || r.FlushBlocked? ==> Pos() == Cursor(|outgoing|, 0)
      ensures r.WriteBlocked? ==> written < |outgoing|
      ensures r.TooSmall? ==> written < |outgoing| && NoRoom(outgoing[written], mtu)
    {
      hide Path, Numbered, Queued, FlightOk, Flatten, NoRoom, AllAtMost;
      UpdateMtu(noQuery, queried);
      r, packets, lengths := SendPackets();
      if r.Sent? {
        r := if flushes(flushCount) then Sent else FlushBlocked;
        flushCount := flushCount + 1;
      }
    }

    /** dtls1_flush_flight */
    method FlushFlight(noQuery: bool, queried: int)
      returns (r: SendResult, ghost packets: seq<seq<Record>>, ghost lengths: seq<nat>)
      requires Valid() && (noQuery ==> mtu >= MIN_MTU)
      modifies this`mtu, this`written, this`offset, this`complete, this`sealCount, this`writeCount, this`flushCount,
        this`failures
      ensures r.SendError? ==> !Ready() || failures > old(failures)
      ensures Took(old(writeCount), old(writeCount) + |packets|)
      ensures r.WriteBlocked? ==> !writes(old(writeCount) + |packets|)
      ensures r.FlushBlocked? ==> !flushes(old(flushCount))
      ensures r.Sent? ==> flushes(old(flushCount))
      ensures r.TooSmall? ==> written < |outgoing| && NoRoom(outgoing[written], mtu)
      ensures complete && |lengths| == |packets| && AllAtMost(lengths, mtu)
      ensures !r.SendError? ==> Valid() && Path(outgoing, old(Pos()), Flatten(packets), Pos())
      ensures r.Sent? || r.FlushBlocked? ==> Pos() == Cursor(|outgoing|, 0)
    {
      complete := true;
      r, packets, lengths := SendFlight(noQuery, queried);
    }

    /** dtls1_retransmit_outgoing_messages: the whole flight again, whatever the MTU is now;
        once it is sent, the fragments of each message partition its body. */
    method Retransmit(noQuery: bool, queried: int)
      returns (r: SendResult, ghost packets: seq<seq<Record>>, ghost lengths: seq<nat>)
      requires Valid() && (noQuery ==> mtu >= MIN_MTU)
      modifies this`mtu, this`written, this`offset, this`sealCount, this`writeCount, this`flushCount, this`failures
      ensures r.SendError? ==> !Ready() || failures > old(failures)
      ensures Took(old(writeCount), old(writeCount) + |packets|)
      ensures r.WriteBlocked? ==> !writes(old(writeCount) + |packets|)
      ensures r.FlushBlocked? ==> !flushes(old(flushCount))
      ensures r.Sent? ==> flushes(old(flushCount))
      ensures r.TooSmall? ==> written < |outgoing| && NoRoom(outgoing[written], mtu)
      ensures |lengths| == |packets| && AllAtMost(lengths, mtu)
      ensures !r.SendError? ==> Valid() && Path(outgoing, Cursor(0, 0), Flatten(packets), Pos())
      ensures r.Sent? || r.FlushBlocked? ==> Pos() == Cursor(|outgoing|, 0)
      ensures r.Sent? ==> forall j :: 0 <= j < |outgoing| && !outgoing[j].isCcs ==>
                            Joined(FragmentsOf(Flatten(packets), Whole(outgoing[j]).seqNo)) == Whole(outgoing[j]).body
    {
      written, offset := 0, 0;
      r, packets, lengths := SendFlight(noQuery, queried);
      if r.Sent? {
        forall j | 0 <= j < |outgoing| && !outgoing[j].isCcs
          ensures Joined(FragmentsOf(Flatten(packets), Whole(outgoing[j]).seqNo)) == Whole(outgoing[j]).body
        {
          FlightTiles(outgoing, Flatten(packets), j);
        }
      }
    }
  }
}
