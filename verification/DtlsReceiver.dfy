/** The receiving side of the DTLS handshake: a ring of seven partly assembled messages
    indexed by sequence number, and delivery in order. */
module DtlsReceiver {
  import opened Bits
  import opened Common
  import opened DtlsFragment

  // Content types of records
  const CHANGE_CIPHER_SPEC: byte := 20
  const HANDSHAKE: byte := 22
  const APPLICATION_DATA: byte := 23

  /** ssl_open_record_t, as far as opening a record's contents goes. */
  datatype Opened = Success | Discard | Error

  /** A message being assembled: its header and the bytes received, by offset. */
  datatype Part = Part(typ: byte, seqNo: nat, len: nat, got: map<nat, byte>)

  /** The body of a complete message. */
  ghost function Assembled(p: Part): (b: seq<byte>)
    requires Complete(p)
    ensures |b| == p.len && forall i :: 0 <= i < p.len ==> b[i] == p.got[i]
  {
    seq(p.len, i requires 0 <= i < p.len => p.got[i])
  }

  predicate Complete(p: Part) { p.got.Keys == Span(0, p.len) }

  /** The receiver's state, slot i of the ring holding numbers congruent to i. */
  datatype Rx = Rx(readSeq: nat, slots: seq<Option<Part>>)

  ghost predicate RxOk(rx: Rx) {
    && |rx.slots| == FLIGHT && rx.readSeq < U16
    && forall i :: 0 <= i < FLIGHT && rx.slots[i].Some? ==> PartOk(rx.readSeq, i, rx.slots[i].value)
  }

  /** A slot holds a number of its residue class inside the window. */
  ghost predicate PartOk(readSeq: nat, i: nat, p: Part) {
    && p.seqNo % FLIGHT == i && readSeq <= p.seqNo < readSeq + FLIGHT && p.seqNo < U16
    && p.got.Keys <= Span(0, p.len)
  }

  /** Handling one fragment; None is a fatal error. */
  function Accept(rx: Rx, f: Frag, single: bool, maxLen: nat): Option<Rx>
    requires |rx.slots| == FLIGHT
  {
    if f.off > f.msgLen || f.off + |f.body| > f.msgLen || f.msgLen > maxLen then None
    else if single && f.seqNo != rx.readSeq then None
    else if f.seqNo < rx.readSeq || f.seqNo > rx.readSeq + FLIGHT then Some(rx)
    else if f.seqNo - rx.readSeq >= FLIGHT then None
    else
      var idx := f.seqNo % FLIGHT;
      var p := if rx.slots[idx].Some? then rx.slots[idx].value else Part(f.typ, f.seqNo, f.msgLen, map[]);
      if p.typ != f.typ || p.len != f.msgLen then None
      else
        var p' := if Complete(p) then p else p.(got := p.got + Chunk(f.off, f.body));
        Some(rx.(slots := rx.slots[idx := Some(p')]))
  }

  /** Handling the fragments packed into one record. */
  function OpenRecord(rx: Rx, payload: seq<byte>, single: bool, maxLen: nat): Option<Rx>
    requires |rx.slots| == FLIGHT
    decreases |payload|
  {
    if payload == [] then Some(rx)
    else match ParseFragment(payload)
      case Malformed => None
      case Fragment(f, rest) =>
        var next := Accept(rx, f, single, maxLen);
        if next.None? then None else
          assert |next.value.slots| == FLIGHT;
          OpenRecord(next.value, rest, single, maxLen)
  }

  function Current(rx: Rx): Option<Part>
    requires |rx.slots| == FLIGHT
  {
    rx.slots[rx.readSeq % FLIGHT]
  }

  predicate HasMessage(rx: Rx)
    requires |rx.slots| == FLIGHT
  {
    Current(rx).Some? && Complete(Current(rx).value)
  }

  /** dtls1_next_message: the slot is freed and the 16-bit counter advances. */
  function Moved(rx: Rx): Rx
    requires |rx.slots| == FLIGHT
  {
    Rx((rx.readSeq + 1) % U16, rx.slots[rx.readSeq % FLIGHT := None])
  }

  lemma SameResidue(a: nat, b: nat, lo: nat)
    requires lo <= a < lo + FLIGHT && lo <= b < lo + FLIGHT && a % FLIGHT == b % FLIGHT
    ensures a == b
  {
  }

  /** The slot a fragment in the window is looked up in holds that very message, so the
      assert on frag->seq cannot fail. */
  lemma SlotIsForMessage(rx: Rx, seqNo: nat)
    requires RxOk(rx) && rx.readSeq <= seqNo < rx.readSeq + FLIGHT
    ensures rx.slots[seqNo % FLIGHT].Some? ==> rx.slots[seqNo % FLIGHT].value.seqNo == seqNo
  {
    if rx.slots[seqNo % FLIGHT].Some? {
      SameResidue(rx.slots[seqNo % FLIGHT].value.seqNo, seqNo, rx.readSeq);
    }
  }

  /** The ring invariant survives every fragment, whoever sent it. */
  lemma AcceptKeeps(rx: Rx, f: Frag, single: bool, maxLen: nat)
    requires RxOk(rx) && FragOk(f)
    ensures Accept(rx, f, single, maxLen).Some? ==> RxOk(Accept(rx, f, single, maxLen).value)
  {
    if rx.readSeq <= f.seqNo < rx.readSeq + FLIGHT && f.off + |f.body| <= f.msgLen {
      var idx := f.seqNo % FLIGHT;
      SlotIsForMessage(rx, f.seqNo);
      var p := if rx.slots[idx].Some? then rx.slots[idx].value else Part(f.typ, f.seqNo, f.msgLen, map[]);
      assert p.got.Keys <= Span(0, p.len);
      if p.len == f.msgLen {
        assert (p.got + Chunk(f.off, f.body)).Keys == p.got.Keys + Span(f.off, f.off + |f.body|) <= Span(0, p.len);
      }
    }
  }

  lemma {:induction false} OpenRecordKeeps(rx: Rx, payload: seq<byte>, single: bool, maxLen: nat)
    requires RxOk(rx)
    ensures OpenRecord(rx, payload, single, maxLen).Some? ==> RxOk(OpenRecord(rx, payload, single, maxLen).value)
    decreases |payload|
  {
    if payload != [] && ParseFragment(payload).Fragment? {
      var Fragment(f, rest) := ParseFragment(payload);
      AcceptKeeps(rx, f, single, maxLen);
      if Accept(rx, f, single, maxLen).Some? {
        OpenRecordKeeps(Accept(rx, f, single, maxLen).value, rest, single, maxLen);
      }
    }
  }

  /** Also across the wrap of the 16-bit counter: at 65535 every other slot is empty. */
  lemma NextKeeps(rx: Rx)
    requires RxOk(rx)
    ensures RxOk(Moved(rx))
  {
    var rx' := Moved(rx);
    forall i | 0 <= i < FLIGHT && rx'.slots[i].Some? ensures PartOk(rx'.readSeq, i, rx'.slots[i].value) {
      assert PartOk(rx.readSeq, i, rx.slots[i].value);
    }
  }

  /** When does a well-formed fragment end the connection? Exactly in these cases; the last
      but one is the number just past the window, which passes the first range test. */
  lemma AcceptFailsExactly(rx: Rx, f: Frag, single: bool, maxLen: nat)
    requires RxOk(rx) && FragOk(f)
    ensures Accept(rx, f, single, maxLen).None? <==>
              || f.off + |f.body| > f.msgLen
              || f.msgLen > maxLen
              || (single && f.seqNo != rx.readSeq)
              || f.seqNo == rx.readSeq + FLIGHT
              || (rx.readSeq <= f.seqNo < rx.readSeq + FLIGHT
                  && var s := rx.slots[f.seqNo % FLIGHT];
                     s.Some? && (s.value.typ != f.typ || s.value.len != f.msgLen))
  {
  }

  // ----------------------------------------------------------------- the object

  /** The receive half of SSL and DTLS1_STATE. */
  class Receiver {
    const incoming: array<HmFragment?>
    var readSeq: nat
    var readEpoch: nat
    var nullCipher: bool
    var hasMessage: bool
    var hasChangeCipherSpec: bool
    ghost var Repr: set<object>

    /** Which slot each object of a partial message belongs to. */
    ghost var owner: map<object, nat>

    ghost predicate Valid()
      reads this, incoming, Repr
    {
      Separated() && RxOk(Abs())
    }

    /** The partial messages share nothing. */
    ghost predicate Separated()
      reads this, incoming, Repr
    {
      && incoming.Length == FLIGHT && this !in Repr && incoming !in Repr && owner.Keys == Repr
      && forall i :: 0 <= i < FLIGHT ==> Holds(i)
    }

    ghost predicate Holds(i: nat)
      requires i < incoming.Length
      reads this, incoming, Repr
    {
      var m := incoming[i];
      m != null ==>
        && m in Repr && m.Arrays <= Repr && m !in m.Arrays && m.Valid()
        && m in owner && owner[m] == i && forall o :: o in m.Arrays ==> o in owner && owner[o] == i
    }

    ghost function Slot(i: nat): Option<Part>
      requires i < incoming.Length && Holds(i)
      reads this, incoming, Repr
    {
      var m := incoming[i];
      if m == null then None else Some(Part(m.typ, m.seqNo, m.msgLen, m.Got()))
    }

    ghost function Slots(n: nat): (s: seq<Option<Part>>)
      requires Separated() && n <= FLIGHT
      reads this, incoming, Repr
      ensures |s| == n && forall i :: 0 <= i < n ==> s[i] == Slot(i)
    {
      if n == 0 then [] else Slots(n - 1) + [Slot(n - 1)]
    }

    /** The state the object stands for. */
    ghost function Abs(): (rx: Rx)
      requires Separated()
      reads this, incoming, Repr
      ensures |rx.slots| == FLIGHT && rx.readSeq == readSeq
      ensures forall i :: 0 <= i < FLIGHT ==> rx.slots[i] == Slot(i)
    {
      Rx(readSeq, Slots(FLIGHT))
    }

    /** Changing other fields leaves the ring as it is. */
    twostate lemma SameSlots()
      requires old(Separated()) && readSeq == old(readSeq) && Repr == old(Repr) && owner == old(owner)
      requires unchanged(incoming) && unchanged(Repr)
      ensures Separated() && Abs() == old(Abs())
    {
      forall i | 0 <= i < FLIGHT ensures Holds(i) && Slot(i) == old(Slot(i)) {
        assert old(Holds(i));
      }
    }

    /** Changing one slot, and objects of its own, leaves the others as they are. */
    twostate lemma OtherSlots(idx: nat)
      requires old(Separated()) && incoming.Length == FLIGHT && idx < FLIGHT && old(Repr) <= Repr
      requires forall i :: 0 <= i < FLIGHT && i != idx ==> incoming[i] == old(incoming[i])
      requires forall o :: o in old(Repr) ==> o in owner && owner[o] == old(owner)[o]
      requires forall o :: o in old(Repr) && old(owner)[o] != idx ==> unchanged(o)
      ensures forall i :: 0 <= i < FLIGHT && i != idx ==> Holds(i) && Slot(i) == old(Slot(i))
    {
      forall i | 0 <= i < FLIGHT && i != idx ensures Holds(i) && Slot(i) == old(Slot(i)) {
        assert old(Holds(i));
      }
    }

    constructor ()
      ensures Valid() && fresh(this) && fresh(incoming) && Repr == {}
      ensures Abs() == Rx(0, seq(FLIGHT, _ => None)) && readEpoch == 0 && nullCipher
      ensures !hasMessage && !hasChangeCipherSpec
    {
      incoming := new HmFragment?[FLIGHT](_ => null);
      readSeq, readEpoch, nullCipher, hasMessage, hasChangeCipherSpec := 0, 0, true, false, false;
      Repr, owner := {}, map[];
    }

    /** Putting a new message into an empty slot. */
    method Insert(idx: nat, frag: HmFragment)
      requires Separated() && idx < FLIGHT && incoming[idx] == null
      requires frag.Valid() && frag !in frag.Arrays && ({frag} + frag.Arrays) !! (Repr + {this, incoming})
      modifies this`Repr, this`owner, incoming
      ensures Separated() && Repr == old(Repr) + {frag} + frag.Arrays && incoming[idx] == frag
      ensures Abs() == old(Abs()).(slots := old(Abs()).slots[idx :=
        Some(Part(frag.typ, frag.seqNo, frag.msgLen, frag.Got()))])
    {
      label before:
      incoming[idx] := frag;
      Repr := Repr + {frag} + frag.Arrays;
      owner := owner + map o | o in {frag} + frag.Arrays :: idx;
      OtherSlots@before(idx);
      assert Holds(idx);
    }

    /** Adding a fragment's bytes to the message in a slot. */
    method AddTo(idx: nat, off: nat, body: seq<byte>)
      requires Separated() && idx < FLIGHT && incoming[idx] != null && incoming[idx].reassembly != null
      requires off + |body| <= incoming[idx].msgLen
      modifies incoming[idx], incoming[idx].Arrays
      ensures Separated()
      ensures var p := old(Slot(idx).value);
              Abs() == old(Abs()).(slots := old(Abs()).slots[idx := Some(p.(got := p.got + Chunk(off, body)))])
    {
      var frag := incoming[idx];
      assert Holds(idx);
      label before:
      frag.Add(off, body);
      OtherSlots@before(idx);
      assert Holds(idx);
    }

    /** dtls1_get_incoming_message: the message the fragment belongs to, created if this is
        its first one; null on a fatal error. */
    method GetIncomingMessage(f: Frag) returns (frag: HmFragment?)
      requires Valid() && FragOk(f)
      modifies this`Repr, this`owner, incoming
      ensures Separated() && fresh(Repr - old(Repr))
      ensures var rx, idx := old(Abs()), f.seqNo % FLIGHT;
              if f.seqNo < readSeq || f.seqNo - readSeq >= FLIGHT then frag == null
              else
                var p := if rx.slots[idx].Some? then rx.slots[idx].value else Part(f.typ, f.seqNo, f.msgLen, map[]);
                if p.typ != f.typ || p.len != f.msgLen then frag == null
                else frag != null && frag == incoming[idx] && Abs() == rx.(slots := rx.slots[idx := Some(p)])
      ensures frag == null ==> Abs() == old(Abs())
    {
      if f.seqNo < readSeq || f.seqNo - readSeq >= FLIGHT { return null; }
      var idx := f.seqNo % FLIGHT;
      frag := incoming[idx];
      if frag != null {
        assert Holds(idx);
        SlotIsForMessage(Abs(), f.seqNo);
        assert frag.seqNo == f.seqNo;
        assert Abs().slots[idx := Some(Slot(idx).value)] == Abs().slots;
        if frag.typ != f.typ || frag.msgLen != f.msgLen { return null; }
        return;
      }
      frag := new HmFragment(f);
      Insert(idx, frag);
    }

    /** One round of the loop in dtls1_open_handshake. */
    method AddFragment(f: Frag, maxLen: nat) returns (ok: bool)
      requires Valid() && FragOk(f)
      modifies this`Repr, this`owner, incoming, Repr
      ensures Valid() && fresh(Repr - old(Repr))
      ensures match Accept(old(Abs()), f, readEpoch == 1, maxLen)
              case None => !ok
              case Some(rx) => ok && Abs() == rx
    {
      hide RxOk;
      AcceptKeeps(Abs(), f, readEpoch == 1, maxLen);
      if f.off > f.msgLen || f.off + |f.body| > f.msgLen || f.msgLen > maxLen { return false; }
      if readEpoch == 1 && f.seqNo != readSeq { return false; }
      if f.seqNo < readSeq || f.seqNo > readSeq + FLIGHT { return true; }
      ok := Assemble(f);
    }

    /** The part of the round for a fragment that passed the first tests. */
    method Assemble(f: Frag) returns (ok: bool)
      requires Valid() && FragOk(f) && f.off + |f.body| <= f.msgLen && readSeq <= f.seqNo <= readSeq + FLIGHT
      modifies this`Repr, this`owner, incoming, Repr
      ensures Separated() && fresh(Repr - old(Repr))
      ensures var rx, idx := old(Abs()), f.seqNo % FLIGHT;
              var p := if rx.slots[idx].Some? then rx.slots[idx].value else Part(f.typ, f.seqNo, f.msgLen, map[]);
              if f.seqNo - rx.readSeq >= FLIGHT || p.typ != f.typ || p.len != f.msgLen then !ok
              else
                var p' := if Complete(p) then p else p.(got := p.got + Chunk(f.off, f.body));
                ok && Abs() == rx.(slots := rx.slots[idx := Some(p')])
      ensures !ok ==> Abs() == old(Abs())
    {
      hide RxOk;
      var frag := GetIncomingMessage(f);
      if frag == null { return false; }
      var idx := f.seqNo % FLIGHT;
      assert Holds(idx) && Abs().slots[idx] == Slot(idx);
      if frag.reassembly == null { return true; }
      ghost var rx, rx1, p := old(Abs()), Abs(), Slot(idx).value;
      assert !Complete(p);
      AddTo(idx, f.off, f.body);
      ghost var s := Some(p.(got := p.got + Chunk(f.off, f.body)));
      assert rx1.slots[idx := s] == rx.slots[idx := s];
      return true;
    }

    /** The handshake branch of dtls1_open_handshake: every fragment of one record. */
    method OpenFragments(payload: seq<byte>, maxLen: nat) returns (ok: bool)
      requires Valid()
      modifies this`Repr, this`owner, incoming, Repr
      ensures Valid() && fresh(Repr - old(Repr))
      ensures match OpenRecord(old(Abs()), payload, readEpoch == 1, maxLen)
              case None => !ok
              case Some(rx) => ok && Abs() == rx
    {
      ghost var whole := OpenRecord(Abs(), payload, readEpoch == 1, maxLen);
      var rest := payload;
      while rest != []
        invariant Valid() && fresh(Repr - old(Repr))
        invariant OpenRecord(Abs(), rest, readEpoch == 1, maxLen) == whole
        decreases |rest|
      {
        var parsed := ParseFragment(rest);
        if parsed.Malformed? { return false; }
        ok := AddFragment(parsed.f, maxLen);
        if !ok { return; }
        rest := parsed.rest;
      }
      return true;
    }

    /** dtls1_open_handshake on the contents of an opened record: application data is illegal in the
        clear and may be early otherwise, a ChangeCipherSpec is noted for later. */
    method OpenHandshake(typ: byte, payload: seq<byte>, maxLen: nat) returns (r: Opened)
      requires Valid()
      modifies this`Repr, this`owner, this`hasChangeCipherSpec, incoming, Repr
      ensures Valid() && fresh(Repr - old(Repr))
      ensures typ == HANDSHAKE ==>
                match OpenRecord(old(Abs()), payload, readEpoch == 1, maxLen)
                case None => r == Error
                case Some(rx) => r == Success && Abs() == rx
      ensures typ != HANDSHAKE ==> Abs() == old(Abs())
      ensures typ == CHANGE_CIPHER_SPEC ==> r == if nullCipher && payload == [1] then Success else Error
      ensures typ == APPLICATION_DATA ==> r == if nullCipher then Error else Discard
      ensures typ !in {HANDSHAKE, CHANGE_CIPHER_SPEC, APPLICATION_DATA} ==> r == Error
      ensures hasChangeCipherSpec == (old(hasChangeCipherSpec) || (typ == CHANGE_CIPHER_SPEC && r == Success))
    {
      if typ == APPLICATION_DATA {
        return if nullCipher then Error else Discard;
      }
      if typ == CHANGE_CIPHER_SPEC {
        if !nullCipher { return Error; }
        if |payload| != 1 || payload[0] != 1 { return Error; }
        hasChangeCipherSpec := true;
        SameSlots();
        return Success;
      }
      if typ != HANDSHAKE { return Error; }
      var ok := OpenFragments(payload, maxLen);
      r := if ok then Success else Error;
    }

    /** dtls1_open_change_cipher_spec: success takes the ChangeCipherSpec, from this record or an
        earlier one; handshake fragments met while waiting go into the ring. */
    method OpenChangeCipherSpec(typ: byte, payload: seq<byte>, maxLen: nat) returns (r: Opened)
      requires Valid()
      modifies this`Repr, this`owner, this`hasChangeCipherSpec, incoming, Repr
      ensures Valid() && fresh(Repr - old(Repr)) && !hasChangeCipherSpec
      ensures r == Success <==>
                old(hasChangeCipherSpec) || (typ == CHANGE_CIPHER_SPEC && nullCipher && payload == [1])
      ensures if !old(hasChangeCipherSpec) && typ == HANDSHAKE then
                match OpenRecord(old(Abs()), payload, readEpoch == 1, maxLen)
                case None => r == Error
                case Some(rx) => r == Discard && Abs() == rx
              else Abs() == old(Abs())
    {
      if !hasChangeCipherSpec {
        r := OpenHandshake(typ, payload, maxLen);
        if r != Success { return; }
      }
      if hasChangeCipherSpec {
        label before:
        hasChangeCipherSpec := false;
        SameSlots@before();
        return Success;
      }
      return Discard;
    }

    /** dtls_has_unprocessed_handshake_data: anything but the message handed out last. */
    method HasUnprocessedHandshakeData() returns (left: bool)
      requires Valid() && (hasMessage ==> HasMessage(Abs()))
      ensures left <==> hasChangeCipherSpec
                        || exists i :: 0 <= i < FLIGHT && Abs().slots[i].Some? && !(hasMessage && i == readSeq % FLIGHT)
    {
      if hasChangeCipherSpec { return true; }
      var i := 0;
      while i < FLIGHT
        invariant 0 <= i <= FLIGHT
        invariant forall k :: 0 <= k < i && Abs().slots[k].Some? ==> hasMessage && k == readSeq % FLIGHT
      {
        assert Abs().slots[i] == Slot(i);
        if !(hasMessage && i == readSeq % FLIGHT) && incoming[i] != null { return true; }
        i := i + 1;
      }
      return false;
    }

    /** The handshake's part of dtls1_set_read_state: refused while data of the old epoch is left,
        so that no message is assembled from fragments of two epochs. */
    method SetReadState(isNull: bool) returns (ok: bool)
      requires Valid() && (hasMessage ==> HasMessage(Abs()))
      modifies this`readEpoch, this`nullCipher
      ensures Valid() && Abs() == old(Abs())
      ensures if ok then readEpoch == (old(readEpoch) + 1) % U16 && nullCipher == isNull
              else readEpoch == old(readEpoch) && nullCipher == old(nullCipher)
      ensures ok ==> forall i :: 0 <= i < FLIGHT && Abs().slots[i].Some? ==> hasMessage && i == readSeq % FLIGHT
    {
      var left := HasUnprocessedHandshakeData();
      if left { return false; }
      readEpoch, nullCipher := (readEpoch + 1) % U16, isNull;
      SameSlots();
      return true;
    }

    /** dtls1_is_current_message_complete */
    method IsCurrentMessageComplete() returns (complete: bool)
      requires Valid()
      ensures complete == HasMessage(Abs())
    {
      var idx := readSeq % FLIGHT;
      assert Holds(idx);
      complete := incoming[idx] != null && incoming[idx].reassembly == null;
    }

    /** dtls1_get_message: the raw bytes of the current message, once complete. */
    method GetMessage() returns (ok: bool, raw: seq<byte>)
      requires Valid()
      modifies this`hasMessage
      ensures Valid() && Abs() == old(Abs()) && ok == HasMessage(Abs())
      ensures if ok then hasMessage else hasMessage == old(hasMessage)
      ensures ok ==> var p := Current(Abs()).value;
                     p.len < U24 && p.seqNo < U16 && raw == HeaderBytes(p.typ, p.len, p.seqNo, 0, p.len) + Assembled(p)
    {
      ok := IsCurrentMessageComplete();
      if !ok { return false, []; }
      var frag := incoming[readSeq % FLIGHT];
      assert Holds(readSeq % FLIGHT);
      raw := frag.data[..];
      ghost var p := Current(Abs()).value;
      assert raw[HEADER_LENGTH..] == Assembled(p);
      hasMessage := true;
      SameSlots();
    }

    /** dtls1_next_message */
    method NextMessage()
      requires Valid() && hasMessage && HasMessage(Abs())
      modifies this`readSeq, this`hasMessage, incoming
      ensures Valid() && Abs() == Moved(old(Abs())) && !hasMessage
    {
      hide RxOk;
      NextKeeps(Abs());
      var idx := readSeq % FLIGHT;
      incoming[idx] := null;
      readSeq := (readSeq + 1) % U16;
      hasMessage := false;
      forall i | 0 <= i < FLIGHT && i != idx ensures Holds(i) && Slot(i) == old(Slot(i)) {
        assert old(Holds(i));
        assert incoming[i] == old(incoming[i]);
      }
      assert Abs() == Moved(old(Abs()));
    }
  }
}
