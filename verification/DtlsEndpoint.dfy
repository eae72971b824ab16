/** The two halves of DTLS1_STATE at work: every operation of a sender and of a receiver is a
    sequence of steps of the system that the laws over whole runs are about. */
module DtlsEndpoint {
  import opened Bits
  import opened Common
  import opened DtlsFragment
  import opened DtlsReceiver
  import opened DtlsNetwork
  import S = DtlsSender

  /** The sender's object stands where the system says. */
  ghost predicate SenderAt(s: Sys, tx: S.Sender)
    reads tx
  {
    && tx.Valid() && tx.outgoing == s.flight && tx.Pos() == s.cursor && tx.complete == s.complete
    && tx.writeEpoch == s.writeEpoch && tx.writeSeq == |s.hist|
  }

  /** The receiver's object stands where the system says. */
  ghost predicate ReceiverAt(s: Sys, rx: Receiver)
    reads rx, rx.incoming, rx.Repr
  {
    && !s.failed && rx.Valid() && rx.Abs() == s.rx
    && rx.readEpoch == s.readEpoch && rx.nullCipher == s.nullCipher
    && (rx.hasMessage ==> HasMessage(rx.Abs()))
  }

  /** dtls1_new on both sides. */
  method Connect(seals: nat -> Option<nat>, writes: nat -> bool, flushes: nat -> bool)
    returns (tx: S.Sender, rx: Receiver, ghost s: Sys)
    ensures Init(s) && SenderAt(s, tx) && ReceiverAt(s, rx) && fresh(tx) && fresh(rx)
  {
    tx := new S.Sender(seals, writes, flushes);
    rx := new Receiver();
    s := Sys([], [], S.Cursor(0, 0), false, 0, multiset{}, Rx(0, seq(FLIGHT, _ => None)), 0, true, false, [], []);
  }

  // ------------------------------------------------------------------- the sender

  /** Queues a message; a full flight takes nothing more. */
  method QueueMessage(tx: S.Sender, m: HsMsg, ghost s: Sys) returns (ok: bool, ghost s': Sys)
    requires Inv(s) && SenderAt(s, tx) && |m.body| < U24 && |s.hist| < U16 - 1
    modifies tx
    ensures SenderAt(s', tx) && (if ok then Next(s, Event.QueueMessage(m), s') else s' == s)
    ensures ok == (s.complete || |s.flight| < FLIGHT)
    ensures ok ==> tx.transcript == old(tx.transcript) + MessageBytes(m, |s.hist|)
  {
    ok := tx.AddMessage(m);
    s' := s;
    if ok {
      var o := S.Outgoing(MessageBytes(m, |s.hist|), s.writeEpoch, false);
      var flight := if s.complete then [] else s.flight;
      var cursor := if s.complete then S.Cursor(0, 0) else s.cursor;
      s' := s.(hist := s.hist + [m], flight := flight + [o], complete := false, cursor := cursor);
    }
  }

  method QueueCcs(tx: S.Sender, ghost s: Sys) returns (ok: bool, ghost s': Sys)
    requires Inv(s) && SenderAt(s, tx)
    modifies tx
    ensures SenderAt(s', tx) && (if ok then Next(s, Event.QueueCcs, s') else s' == s)
    ensures ok == (s.complete || |s.flight| < FLIGHT)
  {
    ok := tx.AddChangeCipherSpec();
    s' := s;
    if ok {
      var o := S.Outgoing([], s.writeEpoch, true);
      var flight := if s.complete then [] else s.flight;
      var cursor := if s.complete then S.Cursor(0, 0) else s.cursor;
      s' := s.(flight := flight + [o], complete := false, cursor := cursor);
    }
  }

  method ChangeWriteEpoch(tx: S.Sender, aead: S.Aead, ghost s: Sys) returns (ghost s': Sys)
    requires Inv(s) && SenderAt(s, tx)
    modifies tx
    ensures SenderAt(s', tx) && Next(s, Event.ChangeWriteEpoch, s')
  {
    tx.SetWriteState(aead);
    s' := s.(writeEpoch := tx.writeEpoch);
  }

  /** The records of the packets written are on their way, the cursor behind them. */
  ghost function Sent(s: Sys, packets: seq<seq<S.Record>>, to: S.Cursor): Sys {
    s.(cursor := to, net := s.net + multiset(S.Flatten(packets)))
  }

  /** Why sending ended as it did: with an error only if a record could not be sealed or the flight has a message
      whose keys are gone; blocked only where the transport refused. */
  ghost predicate Outcome(tx: S.Sender, failures: nat, writes: nat, flushes: nat, r: S.SendResult, packets: nat)
    reads tx
  {
    && (r.SendError? ==> !tx.Ready() || tx.failures > failures)
    && tx.Took(writes, writes + packets)
    && (r.WriteBlocked? ==> !tx.writes(writes + packets))
    && (r.FlushBlocked? ==> !tx.flushes(flushes))
    && (r.Sent? ==> tx.flushes(flushes))
    && (r.TooSmall? ==> tx.written < |tx.outgoing| && tx.NoRoom(tx.outgoing[tx.written], tx.mtu))
  }

  /** Completes the flight and sends what the transport takes of it; a later call goes on from there. */
  method Flush(tx: S.Sender, noQuery: bool, queried: int, ghost s: Sys)
    returns (r: S.SendResult, ghost packets: seq<seq<S.Record>>, ghost s': Sys)
    requires Inv(s) && SenderAt(s, tx) && (noQuery ==> tx.mtu >= S.MIN_MTU)
    modifies tx
    ensures !r.SendError? ==>
              var done := s.(complete := true);
              && SenderAt(s', tx) && Next(s, Event.Flush, done)
              && Next(done, SendPacket(S.Flatten(packets), tx.Pos()), s')
    ensures Outcome(tx, old(tx.failures), old(tx.writeCount), old(tx.flushCount), r, |packets|)
  {
    ghost var lengths;
    r, packets, lengths := tx.FlushFlight(noQuery, queried);
    s' := Sent(s.(complete := true), packets, tx.Pos());
  }

  method Retransmit(tx: S.Sender, noQuery: bool, queried: int, ghost s: Sys)
    returns (r: S.SendResult, ghost packets: seq<seq<S.Record>>, ghost s': Sys)
    requires Inv(s) && SenderAt(s, tx) && (noQuery ==> tx.mtu >= S.MIN_MTU)
    modifies tx
    ensures !r.SendError? ==>
              var rewound := s.(cursor := S.Cursor(0, 0));
              && SenderAt(s', tx) && Next(s, Event.Retransmit, rewound)
              && Next(rewound, SendPacket(S.Flatten(packets), tx.Pos()), s')
    ensures Outcome(tx, old(tx.failures), old(tx.writeCount), old(tx.flushCount), r, |packets|)
    ensures r.Sent? ==> FullPass(s', S.Flatten(packets))
  {
    ghost var lengths;
    r, packets, lengths := tx.Retransmit(noQuery, queried);
    s' := Sent(s.(cursor := S.Cursor(0, 0)), packets, tx.Pos());
  }

  // ----------------------------------------------------------------- the receiver

  /** The type and contents of a record. */
  function Contents(r: S.Record): (c: (byte, seq<byte>))
    requires r.FragRecord? ==> r.f.msgLen < U24 && r.f.seqNo < U16 && r.f.off < U24 && |r.f.body| < U24
  {
    if r.CcsRecord? then (CHANGE_CIPHER_SPEC, [1]) else (HANDSHAKE, FragBytes(r.f))
  }

  /** A record arrives that the record layer has let through, or it is of another epoch. */
  method Deliver(rx: Receiver, r: S.Record, maxLen: nat, ghost s: Sys) returns (ok: bool, ghost s': Sys)
    requires Inv(s) && ReceiverAt(s, rx) && r in s.net
    modifies rx, rx.incoming, rx.Repr
    ensures Next(s, Event.Deliver(r, maxLen), s') && ok == !s'.failed && (ok ==> ReceiverAt(s', rx))
  {
    ghost var t := s.(net := s.net - multiset{r});
    s', ok := t, true;
    if r.epoch != rx.readEpoch { return; }
    assert GenuineRecord(s.hist, r);
    hide Accept, SlotTrue, RxOk, ReceiverInv;
    ghost var single := s.readEpoch == 1;
    if r.FragRecord? {
      OneFragmentRecord(s.rx, r.f, single, maxLen);
      if HasMessage(s.rx) && Accept(s.rx, r.f, single, maxLen).Some? {
        StillComplete(s.rx, r.f, single, maxLen);
      }
    }
    var (typ, payload) := Contents(r);
    var result := rx.OpenHandshake(typ, payload, maxLen);
    ok := result == Success;
    if r.CcsRecord? || !ok {
      s' := t.(failed := !ok);
    } else {
      s' := t.(rx := Accept(s.rx, r.f, single, maxLen).value,
               accepted := s.accepted + if InWindow(s.rx, r.f) then [r.f] else []);
    }
  }

  /** A message that is complete stays so. */
  lemma StillComplete(rx: Rx, f: Frag, single: bool, maxLen: nat)
    requires RxOk(rx) && HasMessage(rx) && Accept(rx, f, single, maxLen).Some?
    ensures HasMessage(Accept(rx, f, single, maxLen).value)
  {
  }

  /** Changes the read keys, unless handshake data of the old ones is left. */
  method ChangeReadEpoch(rx: Receiver, isNull: bool, ghost s: Sys) returns (ok: bool, ghost s': Sys)
    requires Inv(s) && ReceiverAt(s, rx)
    modifies rx`readEpoch, rx`nullCipher
    ensures ReceiverAt(s', rx) && (if ok then Next(s, Event.ChangeReadEpoch(isNull), s') else s' == s)
    ensures ok ==> forall i :: 0 <= i < FLIGHT && s.rx.slots[i].Some? ==> rx.hasMessage && i == s.rx.readSeq % FLIGHT
  {
    assert Sane(s) by { hide ReceiverInv; }
    hide SenderInv, ReceiverInv, RxOk, HasMessage;
    ok := rx.SetReadState(isNull);
    s' := s.(readEpoch := rx.readEpoch, nullCipher := rx.nullCipher);
  }

  /** dtls1_next_message on both halves: the window moves, and a completed flight is answered. */
  method NextMessage(rx: Receiver, own: S.Sender)
    requires rx.Valid() && rx.hasMessage && HasMessage(rx.Abs())
    requires own.Valid() && own !in rx.Repr
    modifies rx`readSeq, rx`hasMessage, rx.incoming, own`hasReply
    ensures rx.Valid() && rx.Abs() == Moved(old(rx.Abs())) && !rx.hasMessage
    ensures own.Valid() && own.hasReply == (old(own.hasReply) || own.complete)
  {
    hide RxOk, S.FlightOk, S.CursorOk, Moved;
    rx.NextMessage();
    own.NoteReply();
  }

  /** Hands out the current message, if it is complete, and moves on: what the handshake reads are
      the bytes the peer queued under that number. The flight of this side, if complete, is answered. */
  method Consume(rx: Receiver, own: S.Sender, ghost s: Sys) returns (ok: bool, raw: seq<byte>, ghost s': Sys)
    requires Inv(s) && ReceiverAt(s, rx) && own.Valid() && own !in rx.Repr
    modifies rx, rx.incoming, own`hasReply
    ensures ReceiverAt(s', rx) && own.Valid()
    ensures if ok then Next(s, Event.Consume, s') else s' == s && !HasMessage(s.rx)
    ensures ok ==> var n := |s.delivered|;
                   n < |s.hist| && raw == MessageBytes(s.hist[n], n) && s'.delivered == s.delivered + [s.hist[n]]
    ensures own.hasReply == (old(own.hasReply) || (ok && own.complete))
  {
    assert Sane(s) by { hide ReceiverInv; }
    hide SenderInv, ReceiverInv, RxOk, Complete, HasMessage, Assembled, S.FlightOk, S.CursorOk, S.Queued;
    hide HeaderBytes, MessageBytes, Moved;
    ok, raw := rx.GetMessage();
    s' := s;
    if !ok { return; }
    HeadMessage(s);
    NextMessage(rx, own);
    s' := s.(rx := Moved(s.rx), delivered := s.delivered + [s.hist[|s.delivered|]]);
  }

  lemma HeadMessage(s: Sys)
    requires Inv(s) && HasMessage(s.rx)
    ensures var n, p := |s.delivered|, Current(s.rx).value;
            && n == s.rx.readSeq < |s.hist| && HsMsg(p.typ, Assembled(p)) == s.hist[n]
            && p.seqNo == n < U16 && p.len == |s.hist[n].body| < U24
            && HeaderBytes(p.typ, p.len, p.seqNo, 0, p.len) + Assembled(p) == MessageBytes(s.hist[n], n)
  {
    HeadIsGenuine(s, s.rx.readSeq);
    SlotIsForMessage(s.rx, s.rx.readSeq);
    hide SlotTrue, RxOk;
    assert s.hist[s.rx.readSeq] in s.hist;
  }
}
