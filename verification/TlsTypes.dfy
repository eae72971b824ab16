/** What the TLS 1.2 client and server handshakes share: messages, the transcript, the handshake
    state (ssl/internal.h, SSL_HANDSHAKE) and the steps of ssl/handshake.cc, ssl/s3_both.cc and
    ssl/ssl_transcript.cc. */
module TlsTypes {
  import opened Bits
  import opened Common

  datatype Kind =
    | ClientHello | ServerHello | HelloVerifyRequest | NewSessionTicket | Certificate | CertificateStatus
    | ServerKeyExchange | CertificateRequest | ServerHelloDone | CertificateVerify | ClientKeyExchange
    | Finished | NextProto | ChannelId | Unknown(code: nat)

  datatype Message = Message(kind: Kind, body: seq<byte>)

  /** What happens on the connection during a handshake. WriteCipher stands for the queued
      ChangeCipherSpec record with the change of the write keys, ReceivedCcs for the peer's record and
      ReadCipher for the change of the read keys. */
  datatype Event = Sent(m: Message) | Received(m: Message) | WriteCipher | ReceivedCcs | ReadCipher

  /** The messages a transcript covers after the events of `log`: all of them in order, from the last
      HelloVerifyRequest on (section 4.2.6 of RFC 6347). */
  ghost function Hashed(log: seq<Event>): seq<Message> {
    if log == [] then [] else HashedNext(Hashed(log[..|log| - 1]), log[|log| - 1])
  }

  ghost function HashedNext(before: seq<Message>, e: Event): seq<Message> {
    match e
    case Sent(m) => before + [m]
    case Received(m) => if m.kind == HelloVerifyRequest then [] else before + [m]
    case _ => before
  }

  /** SSLTranscript: the buffered messages and what the running hash has absorbed. */
  datatype Digest = Digest(buffer: Option<seq<Message>>, hash: Option<seq<Message>>)

  function Fresh(): Digest {
    Digest(Some([]), None)
  }

  function Absorbed(d: Digest, m: Message): Digest {
    Digest(if d.buffer.Some? then Some(d.buffer.value + [m]) else None,
           if d.hash.Some? then Some(d.hash.value + [m]) else None)
  }

  function HashStarted(d: Digest): Digest {
    d.(hash := Some(Span(d.buffer)))
  }

  function BufferFreed(d: Digest): Digest {
    d.(buffer := None)
  }

  /** The bytes a caller gets: none at all once the buffer is gone. */
  function Span(s: Option<seq<Message>>): seq<Message> {
    if s.Some? then s.value else []
  }

  /** Buffer and hash agree with the messages they should cover. */
  ghost predicate Covers(d: Digest, messages: seq<Message>) {
    && (d.buffer.Some? ==> d.buffer.value == messages)
    && (d.hash.Some? ==> d.hash.value == messages)
  }

  datatype State =
    | StartConnect | EnterEarlyData | ReadHelloVerifyRequest | ReadServerHello | ReadServerCertificate
    | ReadCertificateStatus | VerifyServerCertificate | ReadServerKeyExchange | ReadCertificateRequest
    | ReadServerHelloDone | SendClientCertificate | SendClientKeyExchange | SendClientCertificateVerify
    | SendClientFinished | FinishFlight | ReadSessionTicket | ReadServerFinished | FinishClientHandshake
    | StartAccept | ReadClientHello | SelectCertificate | SelectParameters | SendServerHello
    | SendServerCertificate | SendServerKeyExchange | SendServerHelloDone | ReadClientCertificate
    | VerifyClientCertificate | ReadClientKeyExchange | ReadClientCertificateVerify | ReadChangeCipherSpec
    | ReadNextProto | ReadChannelId | ReadClientFinished | SendServerFinished | FinishServerHandshake
    | ProcessChangeCipherSpec | Tls13 | Done

  /** ssl_hs_wait_t: what a step leaves the handshake waiting for. */
  datatype Wait =
    | Ok | Error | WaitServerHello | WaitMessage | WaitCcs | Flush | EarlyReturn | X509Lookup
    | ChannelIdLookup | PrivateKeyOperation | PendingSession | PendingTicket | CertificateSelection
    | CertificateCheck | Handoff

  predicate AwaitsPeer(w: Wait) {
    w.WaitMessage? || w.WaitServerHello? || w.WaitCcs?
  }

  /** What the model leaves to certificates, keys, extensions and callbacks in one step. */
  datatype Oracle = Oracle(
    ok: bool,                  // every parse, allocation and cryptographic check of the step passes
    retry: bool,               // the callback or the private key asks to be called again
    handoff: bool,             // the server hands the connection off
    unsealing: bool,           // the session ticket is still being decrypted
    tls13: bool,               // the version negotiated is TLS 1.3
    wait13: Wait,              // what the TLS 1.3 machine returns
    resume: bool,              // the session is usable, or the peer takes it up
    early: bool,               // early data is offered
    certAuth: bool,            // the cipher authenticates with a certificate
    needsKeyExchange: bool,    // the cipher requires a ServerKeyExchange
    status: bool, ticket: bool, request: bool, nextProto: bool, channelId: bool,
    hasCert: bool,             // a certificate is configured
    peerCert: bool,            // the peer's certificate list is not empty
    falseStart: bool,          // False Start is enabled and allowed for the cipher
    bodies: Kind -> seq<byte>) // the contents of the outgoing messages

  /** What does not change during a handshake, and the keyed functions: the Finished value over a
      transcript (true for the server's), and signatures over a transcript. */
  datatype Env = Env(
    server: bool, dtls: bool, renegotiation: bool,
    mac: (seq<Message>, bool) -> seq<byte>,
    sign: seq<Message> -> seq<byte>,
    verifies: (seq<Message>, seq<byte>) -> bool)

  /** The optional messages that were seen, and the verdict on the peer's certificate once there is one. */
  datatype Seen = Seen(verify: bool, status: bool, keyExchange: bool, ticket: bool, verified: bool)

  /** What the handshake has settled so far: the flags of SSL_HANDSHAKE and the properties of the
      cipher. */
  datatype Params = Params(
    tls13: bool, early: bool, certAuth: bool, needsKeyExchange: bool, status: bool, ticket: bool, request: bool,
    hasCert: bool, peerCert: bool, nextProto: bool, channelId: bool)

  /** The state of a handshake as a value. `seen` and `log` are for the proofs. */
  datatype Hs = Hs(
    state: State,
    session: bool,             // ssl->session is set: offered, and then resumed
    params: Params,
    transcript: Digest,
    incoming: seq<Message>,    // messages the transport has assembled
    pending: seq<Event>,       // the flight that is not flushed yet
    seen: Seen,
    log: seq<Event>)

  datatype Outcome = Outcome(hs: Hs, wait: Wait)

  // The parts that steps are made of.

  function Go(h: Hs, s: State): Outcome {
    Outcome(h.(state := s), Ok)
  }

  function Fail(h: Hs): Outcome {
    Outcome(h, Error)
  }

  /** ssl_hash_message. */
  function HashedIn(h: Hs, m: Message): Hs {
    h.(transcript := Absorbed(h.transcript, m))
  }

  /** next_message. */
  function Dropped(h: Hs): Hs
    requires h.incoming != []
  {
    h.(incoming := h.incoming[1..], log := h.log + [Received(h.incoming[0])])
  }

  function Take(h: Hs): Hs
    requires h.incoming != []
  {
    Dropped(HashedIn(h, h.incoming[0]))
  }

  /** ssl_add_message_cbb. */
  function Queue(h: Hs, m: Message): Hs {
    h.(transcript := Absorbed(h.transcript, m), pending := h.pending + [Sent(m)], log := h.log + [Sent(m)])
  }

  function QueueIf(h: Hs, b: bool, m: Message): Hs {
    if b then Queue(h, m) else h
  }

  /** add_change_cipher_spec and the change of the write keys. */
  function ChangeWrite(h: Hs): Hs {
    h.(pending := h.pending + [WriteCipher], log := h.log + [WriteCipher])
  }

  function Free(h: Hs): Hs {
    h.(transcript := BufferFreed(h.transcript))
  }

  /** A step that reads one message of a given kind. */
  function Read(h: Hs, o: Oracle, kind: Kind, next: State): Outcome {
    if h.incoming == [] then Outcome(h, WaitMessage)
    else if h.incoming[0].kind != kind || !o.ok then Fail(h)
    else Go(Take(h), next)
  }

  /** ssl_get_finished. */
  function ReadFinished(env: Env, h: Hs, o: Oracle, next: State): Outcome {
    if h.incoming == [] then Outcome(h, WaitMessage)
    else if h.incoming[0].kind != Finished || !o.ok
            || h.incoming[0].body != env.mac(Span(h.transcript.hash), !env.server) then Fail(h)
    else Go(Take(h), next)
  }

  /** The verdict of ssl_verify_peer_cert, kept as it came. */
  function Judged(h: Hs, o: Oracle): Hs {
    h.(seen := h.seen.(verified := o.ok && !o.retry))
  }

  /** ssl_send_finished. */
  function QueueFinished(env: Env, h: Hs): Hs {
    Queue(h, Message(Finished, env.mac(Span(h.transcript.hash), env.server)))
  }

  /** Every Finished value and CertificateVerify covers the transcript before it (sections 7.4.8 and
      7.4.9 of RFC 5246). */
  ghost predicate Authentic(env: Env, log: seq<Event>) {
    log == [] || (Authentic(env, log[..|log| - 1]) && Binds(env, Hashed(log[..|log| - 1]), log[|log| - 1]))
  }

  ghost predicate Binds(env: Env, before: seq<Message>, e: Event) {
    match e
    case Sent(m) =>
      && (m.kind == Finished ==> m.body == env.mac(before, env.server))
      && (m.kind == CertificateVerify ==> m.body == env.sign(before))
    case Received(m) =>
      && (m.kind == Finished ==> m.body == env.mac(before, !env.server))
      && (env.server && m.kind == CertificateVerify ==> env.verifies(before, m.body))
    case _ => true
  }

  lemma {:induction false} AuthenticAt(env: Env, log: seq<Event>, i: nat)
    requires Authentic(env, log) && i < |log|
    ensures Binds(env, Hashed(log[..i]), log[i])
  {
    if i == |log| - 1 {
    } else {
      AuthenticAt(env, log[..|log| - 1], i);
      assert log[..|log| - 1][..i] == log[..i];
    }
  }

  /** What the transport has done before the next step: flushed the flight, or read the peer's
      ChangeCipherSpec. */
  ghost function Resolved(out: Outcome): Hs {
    if out.wait.Flush? then out.hs.(pending := [])
    else if out.wait.WaitCcs? then out.hs.(log := out.hs.log + [ReceivedCcs])
    else out.hs
  }

  ghost function Count(t: seq<Tag>, x: Tag): nat {
    multiset(t)[x]
  }

  lemma CountPlus(a: seq<Tag>, b: seq<Tag>, x: Tag)
    ensures Count(a + b, x) == Count(a, x) + Count(b, x)
  {
  }

  /** An event's kind, for the order of the handshake flow. */
  datatype Tag = Out(kind: Kind) | In(kind: Kind) | W | C | R

  ghost function TagOf(e: Event): Tag {
    match e
    case Sent(m) => Out(m.kind)
    case Received(m) => In(m.kind)
    case WriteCipher => W
    case ReceivedCcs => C
    case ReadCipher => R
  }

  ghost function Tags(log: seq<Event>): seq<Tag> {
    if log == [] then [] else Tags(log[..|log| - 1]) + [TagOf(log[|log| - 1])]
  }

  lemma {:induction false} TagsAt(log: seq<Event>)
    ensures |Tags(log)| == |log| && forall i :: 0 <= i < |log| ==> Tags(log)[i] == TagOf(log[i])
  {
    if log != [] {
      TagsAt(log[..|log| - 1]);
    }
  }

  /** An optional part of a flow. */
  ghost function Opt(b: bool, part: seq<Tag>): seq<Tag> {
    if b then part else []
  }

  lemma TwoCount(t: seq<Tag>, x: Tag, a: nat, b: nat)
    requires a < b < |t| && t[a] == x && t[b] == x
    ensures Count(t, x) >= 2
  {
    assert t == t[..b] + t[b..];
    assert x in t[..b] && x in t[b..];
    CountPlus(t[..b], t[b..], x);
  }

  lemma OnlyOnce(t: seq<Tag>, x: Tag, a: nat, b: nat)
    requires Count(t, x) == 1 && a < |t| && b < |t| && t[a] == x && t[b] == x
    ensures a == b
  {
    hide Count;
    if a < b {
      TwoCount(t, x, a, b);
    } else if b < a {
      TwoCount(t, x, b, a);
    }
  }

  /** The tags that a complete handshake must show once. */
  predicate Key(x: Tag) {
    x == W || x == C || x == R || x == In(Finished) || x == Out(Finished)
  }

  lemma NoKey(a: seq<Tag>, b: bool, y: Tag, x: Tag)
    requires x != y
    ensures Count(a + Opt(b, [y]), x) == Count(a, x)
  {
    CountPlus(a, Opt(b, [y]), x);
  }

  /** Where the two Finished messages of a complete handshake are: the one in front at `first` and the
      other one at the very end; no HelloVerifyRequest comes between. */
  ghost predicate EndsWith(log: seq<Event>, first: int, x: Tag, y: Tag) {
    && 0 <= first < |log| - 1 && TagOf(log[first]) == x && TagOf(log[|log| - 1]) == y
    && forall j :: first < j < |log| ==> TagOf(log[j]) != In(HelloVerifyRequest)
  }

  /** One more event. */
  lemma Extend(env: Env, log: seq<Event>, e: Event)
    ensures Hashed(log + [e]) == HashedNext(Hashed(log), e)
    ensures Tags(log + [e]) == Tags(log) + [TagOf(e)]
    ensures Authentic(env, log + [e]) <==> Authentic(env, log) && Binds(env, Hashed(log), e)
  {
    assert (log + [e])[..|log + [e]| - 1] == log;
  }

  /** The transcript covers the log, and every bound value in the log is right. */
  ghost predicate Bound(env: Env, d: Digest, log: seq<Event>) {
    Covers(d, Hashed(log)) && Authentic(env, log)
  }

  /** What g and h differ in is not what the steps branch on. */
  ghost predicate SameParts(g: Hs, h: Hs) {
    && g.state == h.state && g.session == h.session && g.params == h.params && g.seen == h.seen
    && (g.transcript.buffer.Some? <==> h.transcript.buffer.Some?)
    && (g.transcript.hash.Some? <==> h.transcript.hash.Some?)
  }

  /** What a step makes of h: the events are now `tags`, the transcript follows the log, and its buffer is
      still there if `keep` says so. */
  ghost predicate Advanced(env: Env, h: Hs, g: Hs, tags: seq<Tag>, keep: bool) {
    && g.session == h.session
    && Tags(g.log) == tags
    && Bound(env, g.transcript, g.log)
    && (g.transcript.hash.Some? <==> h.transcript.hash.Some?)
    && (keep && h.transcript.buffer.Some? ==> g.transcript.buffer.Some?)
  }

  lemma TakeKeeps(env: Env, h: Hs)
    requires h.incoming != [] && h.incoming[0].kind != HelloVerifyRequest && Bound(env, h.transcript, h.log)
    requires Binds(env, Hashed(h.log), Received(h.incoming[0]))
    ensures Bound(env, Take(h).transcript, Take(h).log) && SameParts(h, Take(h)) && Take(h).pending == h.pending
    ensures Tags(Take(h).log) == Tags(h.log) + [In(h.incoming[0].kind)]
    ensures Hashed(Take(h).log) == Hashed(h.log) + [h.incoming[0]]
  {
    Extend(env, h.log, Received(h.incoming[0]));
  }

  /** HelloVerifyRequest: consumed without being hashed, and the transcript starts anew. */
  lemma ResetKeeps(env: Env, h: Hs)
    requires h.incoming != [] && h.incoming[0].kind == HelloVerifyRequest && Bound(env, h.transcript, h.log)
    ensures Bound(env, Fresh(), Dropped(h).log)
    ensures Tags(Dropped(h).log) == Tags(h.log) + [In(HelloVerifyRequest)]
  {
    Extend(env, h.log, Received(h.incoming[0]));
  }

  lemma QueueKeeps(env: Env, h: Hs, m: Message)
    requires Bound(env, h.transcript, h.log) && Binds(env, Hashed(h.log), Sent(m))
    ensures Bound(env, Queue(h, m).transcript, Queue(h, m).log) && SameParts(h, Queue(h, m))
    ensures Tags(Queue(h, m).log) == Tags(h.log) + [Out(m.kind)]
  {
    Extend(env, h.log, Sent(m));
  }

  /** The hash starts from what is buffered. */
  lemma StartKeeps(env: Env, h: Hs)
    requires Bound(env, h.transcript, h.log) && h.transcript.buffer.Some?
    ensures Bound(env, HashStarted(h.transcript), h.log)
  {
    hide Hashed, Authentic;
  }

  lemma FreeKeeps(env: Env, h: Hs)
    requires Bound(env, h.transcript, h.log)
    ensures Bound(env, Free(h).transcript, h.log)
    ensures Free(h) == h.(transcript := Digest(None, h.transcript.hash))
  {
    hide Hashed, Authentic;
  }

  /** A buffer or hash that is there covers everything. */
  lemma SpanCovers(env: Env, h: Hs)
    requires Bound(env, h.transcript, h.log)
    ensures h.transcript.buffer.Some? ==> Span(h.transcript.buffer) == Hashed(h.log)
    ensures h.transcript.hash.Some? ==> Span(h.transcript.hash) == Hashed(h.log)
  {
    hide Hashed, Authentic;
  }

  /** Key changes do not touch the transcript. */
  lemma CipherKeeps(env: Env, h: Hs, e: Event)
    requires Bound(env, h.transcript, h.log) && (e == WriteCipher || e == ReceivedCcs || e == ReadCipher)
    ensures Bound(env, h.transcript, h.log + [e])
    ensures Tags(h.log + [e]) == Tags(h.log) + [TagOf(e)]
  {
    Extend(env, h.log, e);
  }

  /** SSLTranscript. */
  class Transcript {
    var buffer: Option<seq<Message>>
    var hash: Option<seq<Message>>

    ghost function View(): Digest
      reads this
    {
      Digest(buffer, hash)
    }

    constructor ()
      ensures View() == Fresh()
    {
      buffer := Some([]);
      hash := None;
    }

    method Init()
      modifies this
      ensures View() == Fresh()
    {
      buffer := Some([]);
      hash := None;
    }

    method InitHash()
      requires buffer.Some?
      modifies this
      ensures View() == HashStarted(old(View()))
    {
      hash := Some(buffer.value);
    }

    method FreeBuffer()
      modifies this
      ensures View() == BufferFreed(old(View()))
    {
      buffer := None;
    }

    method Update(m: Message)
      modifies this
      ensures View() == Absorbed(old(View()), m)
    {
      if buffer.Some? {
        buffer := Some(buffer.value + [m]);
      }
      if hash.Some? {
        hash := Some(hash.value + [m]);
      }
    }
  }

  /** SSL_HANDSHAKE, with the parts of SSL it works on. */
  class Handshake {
    const env: Env
    const transcript: Transcript
    var state: State
    var wait: Wait
    var session: bool
    var params: Params
    var incoming: seq<Message>
    var pending: seq<Event>
    ghost var seen: Seen
    ghost var log: seq<Event>

    ghost function View(): Hs
      reads this, transcript
    {
      Hs(state, session, params, transcript.View(), incoming, pending, seen, log)
    }

    constructor (e: Env, offered: bool)
      ensures env == e && wait == Ok && fresh(transcript)
      ensures View() == Start(e, offered)
    {
      env := e;
      transcript := new Transcript();
      state := if e.server then StartAccept else StartConnect;
      wait := Ok;
      session := offered;
      params := NoParams();
      incoming, pending, log := [], [], [];
      seen := Seen(false, false, false, false, false);
    }

    /** get_message: the first message, left in place. */
    method GetMessage() returns (m: Option<Message>)
      ensures m == if incoming == [] then None else Some(incoming[0])
    {
      m := if |incoming| == 0 then None else Some(incoming[0]);
    }

    method NextMessage()
      requires incoming != []
      modifies this`incoming, this`log
      ensures View() == Dropped(old(View()))
    {
      log := log + [Received(incoming[0])];
      incoming := incoming[1..];
    }

    method HashMessage(m: Message)
      modifies transcript
      ensures View() == HashedIn(old(View()), m)
    {
      transcript.Update(m);
    }

    /** ssl3_add_message and dtls1_add_message: into the flight and into the transcript. */
    method AddMessage(m: Message)
      modifies this`pending, this`log, transcript
      ensures View() == Queue(old(View()), m)
    {
      pending := pending + [Sent(m)];
      transcript.Update(m);
      log := log + [Sent(m)];
    }

    /** add_change_cipher_spec and tls1_change_cipher_state for sealing. */
    method ChangeWriteState()
      modifies this`pending, this`log
      ensures View() == ChangeWrite(old(View()))
    {
      pending := pending + [WriteCipher];
      log := log + [WriteCipher];
    }

    /** The common reading step: check the type, hash, check the contents, consume. */
    method ReadMessage(o: Oracle, kind: Kind, next: State) returns (r: Wait)
      modifies this`state, this`incoming, this`log, transcript
      ensures Matches(this, Read(old(View()), o, kind, next), r)
    {
      var msg := GetMessage();
      if msg.None? {
        return WaitMessage;
      }
      if msg.value.kind != kind {
        return Error;
      }
      HashMessage(msg.value);
      if !o.ok {
        return Error;
      }
      NextMessage();
      state := next;
      r := Ok;
    }

    method GetFinished(o: Oracle, next: State) returns (r: Wait)
      requires transcript.hash.Some?
      modifies this`state, this`incoming, this`log, transcript
      ensures Matches(this, ReadFinished(env, old(View()), o, next), r)
    {
      var msg := GetMessage();
      if msg.None? {
        return WaitMessage;
      }
      if msg.value.kind != Finished {
        return Error;
      }
      var finished := env.mac(transcript.hash.value, !env.server);
      HashMessage(msg.value);
      if !o.ok || msg.value.body != finished {
        return Error;
      }
      NextMessage();
      state := next;
      r := Ok;
    }

    method SendFinished()
      requires transcript.hash.Some?
      modifies this`pending, this`log, transcript
      ensures View() == QueueFinished(env, old(View()))
    {
      AddMessage(Message(Finished, env.mac(transcript.hash.value, env.server)));
    }
  }

  /** A new handshake: ssl_handshake_new. */
  ghost function Start(env: Env, offered: bool): Hs {
    Hs(if env.server then StartAccept else StartConnect, offered, NoParams(), Fresh(), [], [],
       Seen(false, false, false, false, false), [])
  }

  function NoParams(): Params {
    Params(false, false, false, false, false, false, false, false, false, false, false)
  }

  /** A step returned what it should; after a fatal error nothing is looked at any more. */
  ghost predicate Matches(hs: Handshake, out: Outcome, r: Wait)
    reads hs, hs.transcript
  {
    r == out.wait && (r != Error ==> hs.View() == out.hs)
  }
}
