/** The DTLS handshake end to end: a sender that fragments, retransmits and changes epoch,
    a network that loses, duplicates and reorders records, and the reassembling receiver. */
module DtlsNetwork {
  import opened Bits
  import opened Common
  import opened DtlsFragment
  import opened DtlsReceiver
  import S = DtlsSender

  /** hist: every handshake message queued so far, indexed by its number; net: records in
      flight; accepted: fragments taken into the ring so far; delivered: messages handed to
      the handshake. */
  datatype Sys = Sys(
    hist: seq<HsMsg>, flight: seq<S.Outgoing>, cursor: S.Cursor, complete: bool, writeEpoch: nat,
    net: multiset<S.Record>,
    rx: Rx, readEpoch: nat, nullCipher: bool, failed: bool,
    accepted: seq<Frag>, delivered: seq<HsMsg>)

  /** What the parties and the network can do. Packets carry any records the cutting rule
      allows, so every choice of MTU, also across retransmissions, is covered. */
  datatype Event =
    | QueueMessage(m: HsMsg) | QueueCcs | Flush | ChangeWriteEpoch
    | SendPacket(recs: seq<S.Record>, to: S.Cursor) | Retransmit
    | Lose(r: S.Record) | Duplicate(r: S.Record) | Deliver(r: S.Record, maxLen: nat)
    | Consume | ChangeReadEpoch(isNull: bool)

  ghost predicate Init(s: Sys) {
    s == Sys([], [], S.Cursor(0, 0), false, 0, multiset{}, Rx(0, seq(FLIGHT, _ => None)), 0, true, false, [], [])
  }

  ghost predicate InWindow(rx: Rx, f: Frag) { rx.readSeq <= f.seqNo < rx.readSeq + FLIGHT }

  /** add_outgoing, fewer than 2^16 - 1 messages into the session. */
  ghost predicate Queue(s: Sys, s': Sys, o: S.Outgoing, hist: seq<HsMsg>) {
    var base := if s.complete then [] else s.flight;
    && |base| < FLIGHT
    && s' == s.(hist := hist, flight := base + [o], complete := false,
                cursor := if s.complete then S.Cursor(0, 0) else s.cursor)
  }

  /** What the types of the C program guarantee of any state. */
  ghost predicate Sane(s: Sys) {
    |s.rx.slots| == FLIGHT && forall o :: o in s.flight ==> S.Queued(o)
  }

  ghost predicate Next(s: Sys, e: Event, s': Sys) {
    Sane(s) && NextSane(s, e, s')
  }

  ghost predicate NextSane(s: Sys, e: Event, s': Sys)
    requires Sane(s)
  {
    match e
    case QueueMessage(m) =>
      && |m.body| < U24 && |s.hist| < U16 - 1
      && Queue(s, s', S.Outgoing(MessageBytes(m, |s.hist|), s.writeEpoch, false), s.hist + [m])
    case QueueCcs => Queue(s, s', S.Outgoing([], s.writeEpoch, true), s.hist)
    case Flush => s' == s.(complete := true)
    case ChangeWriteEpoch => s' == s.(writeEpoch := (s.writeEpoch + 1) % U16)
    case SendPacket(recs, to) =>
      S.Path(s.flight, s.cursor, recs, to) && s' == s.(cursor := to, net := s.net + multiset(recs))
    case Retransmit => s' == s.(cursor := S.Cursor(0, 0))
    case Lose(r) => s' == s.(net := s.net - multiset{r})
    case Duplicate(r) => r in s.net && s' == s.(net := s.net + multiset{r})
    case Deliver(r, maxLen) => r in s.net && !s.failed && Received(s.(net := s.net - multiset{r}), r, maxLen, s')
    case Consume =>
      && !s.failed && HasMessage(s.rx)
      && var p := Current(s.rx).value;
         s' == s.(rx := Moved(s.rx), delivered := s.delivered + [HsMsg(p.typ, Assembled(p))])
    case ChangeReadEpoch(isNull) => s' == s.(readEpoch := (s.readEpoch + 1) % U16, nullCipher := isNull)
  }

  /** A record of another epoch is dropped, a handshake record goes through the ring, and a
      ChangeCipherSpec leaves it alone; an encrypted one is fatal. */
  ghost predicate Received(s: Sys, r: S.Record, maxLen: nat, s': Sys)
    requires |s.rx.slots| == FLIGHT
  {
    if r.epoch != s.readEpoch then s' == s
    else if r.CcsRecord? then s' == s.(failed := !s.nullCipher)
    else if !FragOk(r.f) then s' == s
    else match OpenRecord(s.rx, FragBytes(r.f), s.readEpoch == 1, maxLen)
      case None => s' == s.(failed := true)
      case Some(rx) => s' == s.(rx := rx, accepted := s.accepted + if InWindow(s.rx, r.f) then [r.f] else [])
  }

  // -------------------------------------------------------------------- invariant

  /** f is a piece of the message with its number. */
  ghost predicate Genuine(hist: seq<HsMsg>, f: Frag) {
    && FragOk(f) && f.seqNo < |hist|
    && var m := hist[f.seqNo];
       && f.typ == m.typ && f.msgLen == |m.body| && f.off + |f.body| <= |m.body|
       && f.body == m.body[f.off..f.off + |f.body|]
  }

  ghost predicate GenuineRecord(hist: seq<HsMsg>, r: S.Record) {
    r.FragRecord? ==> Genuine(hist, r.f)
  }

  ghost predicate GenuineQueued(hist: seq<HsMsg>, o: S.Outgoing) {
    o.isCcs || exists q :: 0 <= q < |hist| && Carries(hist, o, q)
  }

  ghost predicate Carries(hist: seq<HsMsg>, o: S.Outgoing, q: nat)
    requires q < |hist|
  {
    q < U16 && |hist[q].body| < U24 && o.data == MessageBytes(hist[q], q)
  }

  /** The bytes of message q that accepted fragments cover. */
  ghost function Covered(accepted: seq<Frag>, q: nat): set<nat> {
    if accepted == [] then {}
    else
      var f := accepted[|accepted| - 1];
      Covered(accepted[..|accepted| - 1], q) + if f.seqNo == q then Span(f.off, f.off + |f.body|) else {}
  }

  ghost predicate Touched(accepted: seq<Frag>, q: nat) {
    exists k :: 0 <= k < |accepted| && accepted[k].seqNo == q
  }

  /** Slot of message q against history: occupied once a fragment was accepted, holding the
      covered bytes of that message and no others. */
  ghost predicate Faithful(hist: seq<HsMsg>, accepted: seq<Frag>, q: nat, slot: Option<Part>) {
    if Touched(accepted, q) then
      && q < |hist| && slot.Some?
      && var p, m := slot.value, hist[q];
         && p.seqNo == q && p.typ == m.typ && p.len == |m.body|
         && p.got.Keys == Covered(accepted, q)
         && forall i :: i in p.got ==> i < |m.body| && p.got[i] == m.body[i]
    else slot.None?
  }

  ghost predicate SlotTrue(s: Sys, q: nat)
    requires |s.rx.slots| == FLIGHT
  {
    Faithful(s.hist, s.accepted, q, s.rx.slots[q % FLIGHT])
  }

  /** What is queued and what is on its way. */
  ghost predicate SenderInv(s: Sys) {
    && S.FlightOk(s.flight, |s.hist|)
    && (forall m :: m in s.hist ==> |m.body| < U24)
    && (forall o :: o in s.flight ==> GenuineQueued(s.hist, o))
    && (forall r :: r in s.net ==> GenuineRecord(s.hist, r))
  }

  ghost predicate AcceptedTrue(s: Sys, f: Frag) {
    Genuine(s.hist, f) && f.seqNo < s.rx.readSeq + FLIGHT
  }

  /** What was received. */
  ghost predicate ReceiverInv(s: Sys) {
    && RxOk(s.rx)
    && (forall k :: 0 <= k < |s.accepted| ==> AcceptedTrue(s, s.accepted[k]))
    && s.rx.readSeq <= |s.hist| && s.delivered == s.hist[..s.rx.readSeq]
    && forall q :: s.rx.readSeq <= q < s.rx.readSeq + FLIGHT ==> SlotTrue(s, q)
  }

  ghost predicate Inv(s: Sys) { SenderInv(s) && ReceiverInv(s) }

  // ---------------------------------------------------------------- small lemmas

  lemma {:induction false} CoveredSnoc(accepted: seq<Frag>, f: Frag, q: nat)
    ensures Covered(accepted + [f], q) == Covered(accepted, q)
      + if f.seqNo == q then Span(f.off, f.off + |f.body|) else {}
    ensures Touched(accepted + [f], q) <==> Touched(accepted, q) || f.seqNo == q
  {
    var a := accepted + [f];
    assert a[..|a| - 1] == accepted;
    if f.seqNo == q { assert a[|accepted|].seqNo == q; }
    if Touched(accepted, q) {
      var k :| 0 <= k < |accepted| && accepted[k].seqNo == q;
      assert a[k].seqNo == q;
    }
  }

  lemma {:induction false} UntouchedUncovered(accepted: seq<Frag>, q: nat)
    requires !Touched(accepted, q)
    ensures Covered(accepted, q) == {}
    decreases |accepted|
  {
    if accepted != [] {
      var init, f := accepted[..|accepted| - 1], accepted[|accepted| - 1];
      assert accepted == init + [f];
      CoveredSnoc(init, f, q);
      UntouchedUncovered(init, q);
    }
  }

  lemma {:induction false} CoveredBound(hist: seq<HsMsg>, accepted: seq<Frag>, q: nat)
    requires forall k :: 0 <= k < |accepted| ==> Genuine(hist, accepted[k])
    ensures q < |hist| ==> Covered(accepted, q) <= Span(0, |hist[q].body|)
    decreases |accepted|
  {
    if accepted != [] {
      CoveredBound(hist, accepted[..|accepted| - 1], q);
      assert Genuine(hist, accepted[|accepted| - 1]);
    }
  }

  lemma GenuineGrows(hist: seq<HsMsg>, m: HsMsg)
    ensures forall f :: Genuine(hist, f) ==> Genuine(hist + [m], f)
    ensures forall o :: GenuineQueued(hist, o) ==> GenuineQueued(hist + [m], o)
  {
    forall o | GenuineQueued(hist, o) && !o.isCcs ensures GenuineQueued(hist + [m], o) {
      var q :| 0 <= q < |hist| && Carries(hist, o, q);
      assert Carries(hist + [m], o, q);
    }
  }

  lemma QueuedWhole(hist: seq<HsMsg>, o: S.Outgoing, q: nat)
    requires q < |hist| && Carries(hist, o, q)
    ensures S.Queued(o) && (!o.isCcs ==> S.Whole(o) == Frag(hist[q].typ, |hist[q].body|, q, 0, hist[q].body))
  {
    S.MessageQueued(hist[q], q, o.epoch);
  }

  /** Whatever the sender cuts from a genuine flight is genuine. */
  lemma {:induction false} PathGenuine(
    hist: seq<HsMsg>, flight: seq<S.Outgoing>, c: S.Cursor, recs: seq<S.Record>, c': S.Cursor)
    requires forall o :: o in flight ==> S.Queued(o) && GenuineQueued(hist, o)
    requires S.Path(flight, c, recs, c')
    ensures forall r :: r in recs ==> GenuineRecord(hist, r)
    decreases |recs|
  {
    if recs != [] {
      var d :| S.Step(flight, c, recs[0], d) && S.Path(flight, d, recs[1..], c');
      PathGenuine(hist, flight, d, recs[1..], c');
      StepGenuine(hist, flight, c, recs[0], d);
      hide S.Step, S.Path, GenuineRecord;
      assert forall r :: r in recs ==> r == recs[0] || r in recs[1..];
    }
  }

  lemma StepGenuine(hist: seq<HsMsg>, flight: seq<S.Outgoing>, c: S.Cursor, rec: S.Record, d: S.Cursor)
    requires forall o :: o in flight ==> S.Queued(o) && GenuineQueued(hist, o)
    requires S.Step(flight, c, rec, d)
    ensures GenuineRecord(hist, rec)
  {
    var o := flight[c.written];
    assert o in flight;
    if !o.isCcs {
      var q :| 0 <= q < |hist| && Carries(hist, o, q);
      QueuedWhole(hist, o, q);
    }
  }

  /** A single fragment as a record goes through Accept once. */
  lemma OneFragmentRecord(rx: Rx, f: Frag, single: bool, maxLen: nat)
    requires |rx.slots| == FLIGHT && FragOk(f)
    ensures OpenRecord(rx, FragBytes(f), single, maxLen) == Accept(rx, f, single, maxLen)
  {
    ParseRoundTrip(f, []);
    assert FragBytes(f) + [] == FragBytes(f);
    assert |FragBytes(f)| >= HEADER_LENGTH;
  }

  // ------------------------------------------------------------ every step keeps it

  /** What was received stays true while the ring is left alone and the history grows. */
  lemma SameRing(s: Sys, s': Sys)
    requires ReceiverInv(s) && s'.rx == s.rx && s'.accepted == s.accepted && s'.delivered == s.delivered
    requires s.hist <= s'.hist
    ensures ReceiverInv(s')
  {
    hide Covered, Touched, FragOk;
    forall k | 0 <= k < |s'.accepted| ensures AcceptedTrue(s', s'.accepted[k]) {
      assert AcceptedTrue(s, s.accepted[k]);
    }
    forall q | s.rx.readSeq <= q < s.rx.readSeq + FLIGHT ensures SlotTrue(s', q) {
      assert SlotTrue(s, q);
    }
  }

  /** A message joins the history. */
  lemma QueueKeeps(s: Sys, s': Sys, o: S.Outgoing, m: HsMsg)
    requires Inv(s) && |s.hist| < U16 - 1 && |m.body| < U24
    requires S.Queued(o) && !o.isCcs && S.Whole(o).seqNo == |s.hist| && GenuineQueued(s.hist + [m], o)
    requires Queue(s, s', o, s.hist + [m])
    ensures Inv(s')
  {
    GenuineGrows(s.hist, m);
    hide ReceiverInv, Genuine, GenuineQueued, S.Queued;
    var base := if s.complete then [] else s.flight;
    S.FlightGrows(base, |s.hist|, o);
    assert forall x :: x in s'.flight ==> x in base || x == o;
    SameRing(s, s');
  }

  lemma MessageKeeps(s: Sys, m: HsMsg, s': Sys)
    requires Inv(s) && Next(s, QueueMessage(m), s')
    ensures Inv(s')
  {
    hide ReceiverInv, GenuineRecord, S.FlightOk;
    var q := |s.hist|;
    var o := S.Outgoing(MessageBytes(m, q), s.writeEpoch, false);
    assert Carries(s.hist + [m], o, q);
    QueuedWhole(s.hist + [m], o, q);
    QueueKeeps(s, s', o, m);
  }

  lemma CcsKeeps(s: Sys, s': Sys)
    requires Inv(s) && Next(s, QueueCcs, s')
    ensures Inv(s')
  {
    hide ReceiverInv, Genuine;
    var o := S.Outgoing([], s.writeEpoch, true);
    var base := if s.complete then [] else s.flight;
    S.FlightGrows(base, |s.hist|, o);
    assert forall x :: x in s'.flight ==> x in base || x == o;
    SameRing(s, s');
  }

  /** What Accept puts into the fragment's own slot is faithful again. */
  lemma ChunkFaithful(hist: seq<HsMsg>, accepted: seq<Frag>, f: Frag, slot: Option<Part>)
    requires Genuine(hist, f) && Faithful(hist, accepted, f.seqNo, slot)
    ensures var p := if slot.Some? then slot.value else Part(f.typ, f.seqNo, f.msgLen, map[]);
            var p' := if Complete(p) then p else p.(got := p.got + Chunk(f.off, f.body));
            Faithful(hist, accepted + [f], f.seqNo, Some(p'))
  {
    var q, m := f.seqNo, hist[f.seqNo];
    CoveredSnoc(accepted, f, q);
    if !Touched(accepted, q) { UntouchedUncovered(accepted, q); }
    hide Covered, Touched;
    var p := if slot.Some? then slot.value else Part(f.typ, q, f.msgLen, map[]);
    assert p.got.Keys == Covered(accepted, q);
    if Complete(p) {
      assert p.got.Keys + Span(f.off, f.off + |f.body|) == p.got.Keys;
    } else {
      var got := p.got + Chunk(f.off, f.body);
      forall i | i in got ensures i < |m.body| && got[i] == m.body[i] {
        if i in Span(f.off, f.off + |f.body|) { assert got[i] == At(f.off, f.body, i); }
      }
    }
  }

  /** The slots of the other messages are left alone. */
  lemma OtherSlots(s: Sys, f: Frag, single: bool, maxLen: nat, q: nat)
    requires ReceiverInv(s) && InWindow(s.rx, f) && Accept(s.rx, f, single, maxLen).Some?
    requires s.rx.readSeq <= q < s.rx.readSeq + FLIGHT && q != f.seqNo
    ensures Accept(s.rx, f, single, maxLen).value.slots[q % FLIGHT] == s.rx.slots[q % FLIGHT]
    ensures Faithful(s.hist, s.accepted + [f], q, s.rx.slots[q % FLIGHT])
  {
    hide Covered, Touched, Complete;
    assert SlotTrue(s, q);
    CoveredSnoc(s.accepted, f, q);
    if q % FLIGHT == f.seqNo % FLIGHT { SameResidue(q, f.seqNo, s.rx.readSeq); }
  }

  lemma AcceptKeepsInv(s: Sys, f: Frag, single: bool, maxLen: nat, s': Sys)
    requires ReceiverInv(s) && Genuine(s.hist, f) && Accept(s.rx, f, single, maxLen).Some?
    requires s' == s.(rx := Accept(s.rx, f, single, maxLen).value,
                      accepted := s.accepted + if InWindow(s.rx, f) then [f] else [])
    ensures ReceiverInv(s')
  {
    AcceptKeeps(s.rx, f, single, maxLen);
    hide RxOk, Faithful;
    if !InWindow(s.rx, f) {
      assert s' == s;
    } else {
      forall q | s.rx.readSeq <= q < s.rx.readSeq + FLIGHT ensures SlotTrue(s', q) {
        assert SlotTrue(s, q);
        if q == f.seqNo { ChunkFaithful(s.hist, s.accepted, f, s.rx.slots[q % FLIGHT]); }
        else { OtherSlots(s, f, single, maxLen, q); }
      }
      forall k | 0 <= k < |s'.accepted| ensures AcceptedTrue(s', s'.accepted[k]) {
        if k < |s.accepted| { assert AcceptedTrue(s, s.accepted[k]); }
      }
    }
  }

  lemma DeliverKeeps(s: Sys, r: S.Record, maxLen: nat, s': Sys)
    requires ReceiverInv(s) && GenuineRecord(s.hist, r) && Received(s, r, maxLen, s')
    ensures ReceiverInv(s') && s'.hist == s.hist && s'.flight == s.flight && s'.net == s.net
  {
    hide Accept, SlotTrue;
    if r.epoch == s.readEpoch && r.FragRecord? {
      OneFragmentRecord(s.rx, r.f, s.readEpoch == 1, maxLen);
      if Accept(s.rx, r.f, s.readEpoch == 1, maxLen).Some? {
        AcceptKeepsInv(s, r.f, s.readEpoch == 1, maxLen, s');
        return;
      }
    }
    SameRing(s, s');
  }

  /** The complete message at the head of the window is the sender's message. */
  lemma HeadIsGenuine(s: Sys, q: nat)
    requires ReceiverInv(s) && s.rx.readSeq <= q < s.rx.readSeq + FLIGHT
    requires s.rx.slots[q % FLIGHT].Some? && Complete(s.rx.slots[q % FLIGHT].value)
    ensures q < |s.hist|
    ensures HsMsg(s.rx.slots[q % FLIGHT].value.typ, Assembled(s.rx.slots[q % FLIGHT].value)) == s.hist[q]
  {
    assert SlotTrue(s, q);
    var p := s.rx.slots[q % FLIGHT].value;
    assert forall i :: 0 <= i < p.len ==> i in p.got;
    assert Assembled(p) == s.hist[q].body;
  }

  /** The slots of the window after it moved on. */
  lemma MovedSlots(s: Sys, q: nat)
    requires ReceiverInv(s) && s.rx.readSeq < q <= s.rx.readSeq + FLIGHT
    ensures Faithful(s.hist, s.accepted, q, Moved(s.rx).slots[q % FLIGHT])
  {
    hide Covered, Genuine;
    var r := s.rx.readSeq;
    if q == r + FLIGHT {
      assert forall k :: 0 <= k < |s.accepted| ==> AcceptedTrue(s, s.accepted[k]);
    } else {
      assert SlotTrue(s, q);
      if q % FLIGHT == r % FLIGHT { SameResidue(q, r, r); }
    }
  }

  lemma ConsumeKeeps(s: Sys, s': Sys)
    requires Inv(s) && Next(s, Consume, s')
    ensures Inv(s')
  {
    var r := s.rx.readSeq;
    HeadIsGenuine(s, r);
    NextKeeps(s.rx);
    assert r + 1 <= |s.hist| < U16 by { hide ReceiverInv; }
    hide Faithful, RxOk, GenuineQueued, GenuineRecord, S.FlightOk, HasMessage;
    assert s'.delivered == s.hist[..r + 1];
    forall k | 0 <= k < |s'.accepted| ensures AcceptedTrue(s', s'.accepted[k]) {
      assert AcceptedTrue(s, s.accepted[k]);
    }
    forall q | r + 1 <= q < r + 1 + FLIGHT ensures SlotTrue(s', q) { MovedSlots(s, q); }
  }

  lemma DeliverInv(s: Sys, r: S.Record, maxLen: nat, s': Sys)
    requires Inv(s) && Next(s, Deliver(r, maxLen), s')
    ensures Inv(s')
  {
    hide ReceiverInv, GenuineRecord, GenuineQueued, S.FlightOk, Received;
    var t := s.(net := s.net - multiset{r});
    SameRing(s, t);
    DeliverKeeps(t, r, maxLen, s');
  }

  lemma SendKeeps(s: Sys, recs: seq<S.Record>, to: S.Cursor, s': Sys)
    requires Inv(s) && Next(s, SendPacket(recs, to), s')
    ensures Inv(s')
  {
    PathGenuine(s.hist, s.flight, s.cursor, recs, to);
    hide ReceiverInv, GenuineRecord, GenuineQueued, S.Path;
    forall r | r in s'.net ensures GenuineRecord(s.hist, r) {
      assert r in s.net || r in recs;
    }
    SameRing(s, s');
  }

  lemma NextKeepsInv(s: Sys, e: Event, s': Sys)
    requires Inv(s) && Next(s, e, s')
    ensures Inv(s')
  {
    hide ReceiverInv, GenuineRecord, GenuineQueued, S.FlightOk;
    match e
    case QueueMessage(m) => MessageKeeps(s, m, s');
    case QueueCcs => CcsKeeps(s, s');
    case SendPacket(recs, to) => SendKeeps(s, recs, to, s');
    case Deliver(r, maxLen) => DeliverInv(s, r, maxLen, s');
    case Consume => ConsumeKeeps(s, s');
    case _ => SameRing(s, s');
  }

  // ------------------------------------------------------------------ whole runs

  /** A run of the system: states linked by events. */
  ghost predicate Run(states: seq<Sys>, events: seq<Event>) {
    && |states| == |events| + 1 && Init(states[0])
    && forall k :: 0 <= k < |events| ==> Next(states[k], events[k], states[k + 1])
  }

  lemma {:induction false} RunKeeps(states: seq<Sys>, events: seq<Event>, n: nat)
    requires Run(states, events) && n < |states|
    ensures Inv(states[n])
    decreases n
  {
    if n > 0 {
      RunKeeps(states, events, n - 1);
      NextKeepsInv(states[n - 1], events[n - 1], states[n]);
    }
  }

  /** Safety over every run, under loss, duplication, reordering, retransmission and changing
      MTUs: the messages handed to the handshake are the sender's, in order and once each. */
  lemma DeliveredInOrder(states: seq<Sys>, events: seq<Event>, n: nat)
    requires Run(states, events) && n < |states|
    ensures var s := states[n];
            s.rx.readSeq <= |s.hist| && s.delivered == s.hist[..s.rx.readSeq]
  {
    RunKeeps(states, events, n);
  }

  /** Reassembly over every run: a slot is occupied exactly when a fragment of its message
      was accepted, complete exactly when the accepted fragments cover the message, and then
      holds the queued bytes with the header of a single fragment. */
  lemma ReassembledExactly(states: seq<Sys>, events: seq<Event>, n: nat, q: nat)
    requires Run(states, events) && n < |states|
    requires states[n].rx.readSeq <= q < states[n].rx.readSeq + FLIGHT
    ensures |states[n].rx.slots| == FLIGHT
    ensures var s, slot := states[n], states[n].rx.slots[q % FLIGHT];
            && (slot.Some? <==> Touched(s.accepted, q))
            && (slot.Some? ==>
                  && q < |s.hist| < U16 && |s.hist[q].body| < U24
                  && var p, m := slot.value, s.hist[q];
                     && (Complete(p) <==> Covered(s.accepted, q) == Span(0, |m.body|))
                     && (Complete(p) ==>
                           HeaderBytes(p.typ, |m.body|, q, 0, |m.body|) + Assembled(p) == MessageBytes(m, q)))
  {
    RunKeeps(states, events, n);
    var s := states[n];
    assert SlotTrue(s, q);
    if s.rx.slots[q % FLIGHT].Some? && Complete(s.rx.slots[q % FLIGHT].value) { HeadIsGenuine(s, q); }
  }

  /** A genuine fragment never clashes with what the ring holds: it ends the connection only
      for its length, for the number just past the window, or in the encrypted epoch. */
  lemma GenuineFailsOnly(states: seq<Sys>, events: seq<Event>, n: nat, f: Frag, maxLen: nat)
    requires Run(states, events) && n < |states| && Genuine(states[n].hist, f)
    ensures |states[n].rx.slots| == FLIGHT
    ensures var s := states[n];
            Accept(s.rx, f, s.readEpoch == 1, maxLen).None? <==>
              f.msgLen > maxLen || (s.readEpoch == 1 && f.seqNo != s.rx.readSeq) || f.seqNo == s.rx.readSeq + FLIGHT
  {
    RunKeeps(states, events, n);
    var s := states[n];
    AcceptFailsExactly(s.rx, f, s.readEpoch == 1, maxLen);
    if InWindow(s.rx, f) { assert SlotTrue(s, f.seqNo); }
  }

  // ------------------------------------------------------------------- progress

  /** Pieces that tile a message cover it. */
  lemma {:induction false} TilesCover(accepted: seq<Frag>, fs: seq<Frag>, q: nat, o: nat, body: seq<byte>)
    requires S.Tiles(fs, o, body)
    requires forall f :: f in fs ==> f.seqNo == q && f in accepted
    ensures Span(o, |body|) <= Covered(accepted, q)
    decreases |fs|
  {
    if fs != [] {
      var n := o + |fs[0].body|;
      PieceCovered(accepted, fs[0]);
      TilesCover(accepted, fs[1..], q, n, body);
      assert forall i :: i in Span(o, |body|) ==> i in Span(o, n) || i in Span(n, |body|);
    }
  }

  lemma {:induction false} PieceCovered(accepted: seq<Frag>, f: Frag)
    requires f in accepted
    ensures Span(f.off, f.off + |f.body|) <= Covered(accepted, f.seqNo)
    decreases |accepted|
  {
    var init, last := accepted[..|accepted| - 1], accepted[|accepted| - 1];
    if f != last {
      assert f in init;
      PieceCovered(init, f);
    }
  }

  /** The records of one pass over the whole flight. */
  ghost predicate FullPass(s: Sys, recs: seq<S.Record>) {
    && (forall o :: o in s.flight ==> S.Queued(o))
    && S.Path(s.flight, S.Cursor(0, 0), recs, S.Cursor(|s.flight|, 0))
  }

  /** If every fragment of one pass over a flight has been accepted, each of its messages
      still in the window is complete, however the passes before it were cut or lost. */
  lemma FullPassCompletes(
    states: seq<Sys>, events: seq<Event>, n: nat, recs: seq<S.Record>, j: nat, q: nat)
    requires Run(states, events) && n < |states| && FullPass(states[n], recs)
    requires j < |states[n].flight| && !states[n].flight[j].isCcs
    requires q < |states[n].hist| && Carries(states[n].hist, states[n].flight[j], q)
    requires states[n].rx.readSeq <= q < states[n].rx.readSeq + FLIGHT
    requires forall f :: f in S.FragmentsOf(recs, q) ==> f in states[n].accepted
    ensures |states[n].rx.slots| == FLIGHT
    ensures states[n].rx.slots[q % FLIGHT].Some? && Complete(states[n].rx.slots[q % FLIGHT].value)
  {
    var s := states[n];
    RunKeeps(states, events, n);
    PassCompletes(s, recs, j, q);
  }

  lemma PassCompletes(s: Sys, recs: seq<S.Record>, j: nat, q: nat)
    requires Inv(s) && FullPass(s, recs)
    requires j < |s.flight| && !s.flight[j].isCcs && q < |s.hist| && Carries(s.hist, s.flight[j], q)
    requires s.rx.readSeq <= q < s.rx.readSeq + FLIGHT
    requires forall f :: f in S.FragmentsOf(recs, q) ==> f in s.accepted
    ensures s.rx.slots[q % FLIGHT].Some? && Complete(s.rx.slots[q % FLIGHT].value)
  {
    QueuedWhole(s.hist, s.flight[j], q);
    var fs := S.FragmentsOf(recs, q);
    assert fs != [] && S.Tiles(fs, 0, s.hist[q].body) by { S.FlightTiles(s.flight, recs, j); }
    assert Covered(s.accepted, q) == Span(0, |s.hist[q].body|) by {
      FragmentNumbers(recs, q);
      TilesCover(s.accepted, fs, q, 0, s.hist[q].body);
      forall k | 0 <= k < |s.accepted| ensures Genuine(s.hist, s.accepted[k]) {
        assert AcceptedTrue(s, s.accepted[k]);
      }
      CoveredBound(s.hist, s.accepted, q);
    }
    assert Touched(s.accepted, q) by {
      FragmentNumbers(recs, q);
      assert fs[0] in s.accepted;
    }
    hide SenderInv, Covered, Touched, RxOk;
    assert SlotTrue(s, q);
  }

  lemma {:induction false} FragmentNumbers(recs: seq<S.Record>, q: nat)
    ensures forall f :: f in S.FragmentsOf(recs, q) ==> f.seqNo == q
  {
    if recs != [] { FragmentNumbers(recs[1..], q); }
  }
}
