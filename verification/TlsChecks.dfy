/** What a handshake has checked by the state it is in, and when its steps go on, wait or fail: no step logs
    anything that its checks did not pass, and none fails or waits without a reason. */
module TlsChecks {
  import opened Common
  import opened TlsTypes
  import C = TlsClient
  import S = TlsServer

  /** Of a TLS 1.2 client: in a full handshake that authenticates by certificate the verdict on the server's
      certificate was accepting, the key exchange message came where the cipher needs one, optional messages
      came only where they were announced, an expected ticket came, and nothing is resumed while
      renegotiating. */
  predicate ClientChecked(env: Env, h: Hs) {
    var r := C.Rank(h.session, h.state);
    h.params.tls13 ||
    (&& (!h.session && h.params.certAuth && r < 18 ==> h.seen.verified)
     && (!h.session && h.params.needsKeyExchange && r < 17 ==> h.seen.keyExchange)
     && (h.seen.status ==> h.params.status)
     && (h.params.request ==> h.params.certAuth)
     && (h.params.ticket && r < C.Rank(h.session, ReadSessionTicket) ==> h.seen.ticket)
     && (h.seen.verify ==> env.dtls)
     && (h.session && r < 21 ==> !env.renegotiation))
  }

  /** Of a TLS 1.2 server: a client certificate was accepted, and it was asked for only in a full handshake
      where the server has one itself; prepared key exchange parameters have been sent. */
  predicate ServerChecked(h: Hs) {
    var r := S.Rank(h.session, h.state);
    h.params.tls13 ||
    (&& (h.params.peerCert && r < 13 ==> h.seen.verified)
     && (h.params.peerCert ==> h.params.request)
     && (h.params.request ==> h.params.certAuth && !h.session)
     && (h.params.needsKeyExchange ==> h.state.SendServerKeyExchange?))
  }

  predicate Checked(env: Env, h: Hs) {
    if env.server then ServerChecked(h) else ClientChecked(env, h)
  }

  // ------------------------------------------------------------------ one step

  /** The handshake waits for its caller. */
  predicate Callback(w: Wait) {
    || w.X509Lookup? || w.ChannelIdLookup? || w.PrivateKeyOperation? || w.PendingSession? || w.PendingTicket?
    || w.CertificateSelection? || w.CertificateCheck? || w.Handoff?
  }

  /** What is next to read is not what the flow allows there. */
  predicate ClientUnexpected(env: Env, h: Hs, o: Oracle) {
    h.incoming != [] &&
    var m := h.incoming[0];
    match h.state
    case ReadServerHello => m.kind != ServerHello || (h.params.early && !o.tls13)
    case ReadServerCertificate => h.params.certAuth && m.kind != Certificate
    case ReadServerKeyExchange => h.params.needsKeyExchange && m.kind != ServerKeyExchange
    case ReadCertificateRequest => h.params.certAuth && m.kind != CertificateRequest && m.kind != ServerHelloDone
    case ReadServerHelloDone => m.kind != ServerHelloDone || m.body != []
    case ReadSessionTicket => h.params.ticket && m.kind != NewSessionTicket
    case ReadServerFinished => m.kind != Finished || m.body != env.mac(Span(h.transcript.hash), true)
    case _ => false
  }

  predicate ServerUnexpected(env: Env, h: Hs, o: Oracle) {
    h.incoming != [] &&
    var m := h.incoming[0];
    match h.state
    case ReadClientHello => m.kind != ClientHello
    case ReadClientCertificate => h.params.request && m.kind != Certificate
    case ReadClientKeyExchange => m.kind != ClientKeyExchange
    case ReadClientCertificateVerify =>
      h.params.peerCert && (m.kind != CertificateVerify || !env.verifies(Span(h.transcript.buffer), m.body))
    case ReadNextProto => h.params.nextProto && m.kind != NextProto
    case ReadChannelId => h.params.channelId && m.kind != ChannelId
    case ReadClientFinished => m.kind != Finished || m.body != env.mac(Span(h.transcript.hash), false)
    case _ => false
  }

  /** Where a callback is asked that may not have its answer yet. */
  predicate ClientAsks(h: Hs) {
    || (h.state.VerifyServerCertificate? && h.params.certAuth)
    || (h.state.SendClientCertificate? && h.params.request)
    || (h.state.SendClientCertificateVerify? && h.params.request && h.params.hasCert)
    || (h.state.SendClientFinished? && h.params.channelId)
  }

  predicate ServerAsks(h: Hs) {
    || (h.state.ReadClientHello? && h.incoming != [] && h.incoming[0].kind == ClientHello)
    || ((h.state.SelectCertificate? || h.state.SelectParameters?) && h.incoming != [])
    || (h.state.SendServerKeyExchange? && h.params.needsKeyExchange && h.params.certAuth)
    || (h.state.VerifyClientCertificate? && h.params.peerCert)
    || (h.state.ReadClientKeyExchange? && h.incoming != [] && h.incoming[0].kind == ClientKeyExchange)
  }

  /** Where something is decided that leaves no event. */
  predicate ClientDecides(h: Hs) {
    || (h.state.VerifyServerCertificate? && h.params.certAuth)
    || ((h.state.FinishFlight? || h.state.FinishClientHandshake?) && !h.session)
  }

  predicate ServerDecides(h: Hs) {
    || ((h.state.ReadClientHello? || h.state.SelectCertificate?) && h.incoming != [])
    || (h.state.VerifyClientCertificate? && h.params.peerCert)
  }

  /** A step fails only if a check of its own fails or the message is not one that may come; it waits for the
      peer only without a message, and for a callback only if that is not ready, and then changes nothing;
      otherwise it goes to another state. What is not ready or not in order stays out of the log. */
  predicate Reasonable(h: Hs, o: Oracle, out: Outcome, unexpected: bool, asks: bool, decides: bool) {
    && (out.wait == Error ==> !o.ok || unexpected)
    && (unexpected && !(asks && (o.retry || o.handoff)) ==> out.wait == Error)
    && (out.wait.WaitMessage? || out.wait.WaitServerHello? ==> h.incoming == [] && out.hs == h)
    && (Callback(out.wait) ==> asks && (o.retry || o.handoff) && out.hs == h)
    && (asks && o.retry ==> Callback(out.wait))
    && (out.wait.Ok? || out.wait.Flush? || out.wait.EarlyReturn? || out.wait.WaitCcs? ==> out.hs.state != h.state)
    && (!o.ok && out.wait != Error && out.hs.log != h.log ==> h.state.ReadServerHelloDone?)
    && (decides && !o.ok && !o.retry && !o.handoff ==> out.wait == Error)
  }

  /** A client resumes only the session it offered and the server took up, and returns early only for early
      data and for False Start, which neither DTLS nor a renegotiation has. */
  predicate ClientOffers(env: Env, h: Hs, o: Oracle, out: Outcome) {
    && (out.hs.session ==> h.session)
    && (out.wait != Error && h.state.StartConnect? && out.hs.session ==> o.resume)
    && (h.state.ReadServerHello? && out.hs.state.ReadSessionTicket? ==> o.resume && out.hs.session)
    && (h.state.ReadServerHello? && out.hs.state.ReadServerCertificate? ==>
          out.hs.params.certAuth == o.certAuth && out.hs.params.needsKeyExchange == o.needsKeyExchange)
    && (out.wait.EarlyReturn? ==>
          || (h.state.EnterEarlyData? && h.params.early)
          || (h.state.FinishFlight? && !h.session && o.falseStart && !env.dtls && !env.renegotiation))
  }

  predicate ClientStep(env: Env, h: Hs, o: Oracle, out: Outcome) {
    && Reasonable(h, o, out, ClientUnexpected(env, h, o), ClientAsks(h), ClientDecides(h))
    && ClientOffers(env, h, o, out)
    && (out.wait != Error && ClientChecked(env, h) ==> ClientChecked(env, out.hs))
  }

  /** What a server settles is what the lookups and the cipher say, and of the extensions only what the client
      offered. */
  predicate ServerSettles(h: Hs, o: Oracle, out: Outcome) {
    out.hs.state != h.state ==>
      match h.state
      case ReadClientHello => out.hs.params.tls13 == o.tls13
      case SelectCertificate => !h.params.tls13 ==> out.hs.params.certAuth == o.certAuth
      case SelectParameters => out.hs.session == o.resume && out.hs.params.ticket == o.ticket
      case SendServerHello =>
        && (out.hs.params.nextProto <==> h.params.nextProto && o.nextProto)
        && (out.hs.params.channelId <==> h.params.channelId && o.channelId)
      case SendServerCertificate => out.hs.params.needsKeyExchange == o.needsKeyExchange
      case ReadClientCertificate => h.params.request ==> out.hs.params.peerCert == o.peerCert
      case _ => true
  }

  predicate ServerStep(env: Env, h: Hs, o: Oracle, out: Outcome) {
    && Reasonable(h, o, out, ServerUnexpected(env, h, o), ServerAsks(h), ServerDecides(h))
    && (out.wait != Error && ServerChecked(h) ==> ServerChecked(out.hs))
  }

  lemma QueueParts(h: Hs, m: Message)
    ensures var g := Queue(h, m);
            g.state == h.state && g.session == h.session && g.params == h.params && g.seen == h.seen && g.log != h.log
  {
  }

  /** Taking a message and dropping the buffer leave state, session and parameters alone. */
  lemma TakeParts(h: Hs)
    requires h.incoming != []
    ensures var g := Take(h);
            g.state == h.state && g.session == h.session && g.params == h.params && g.seen == h.seen && g.log != h.log
  {
  }

  lemma FreeParts(h: Hs)
    ensures var g := Free(h);
            g.state == h.state && g.session == h.session && g.params == h.params && g.seen == h.seen && g.log == h.log
  {
  }

  lemma ClientOfferStep(env: Env, h: Hs, o: Oracle)
    requires !h.params.tls13 && !env.server && C.FlagsOk(env, h)
    requires h.state.StartConnect?
    ensures ClientStep(env, h, o, C.Next(env, h, o))
  {
    hide Absorbed, Span, HashStarted, BufferFreed, Fresh;
  }

  lemma ClientEarlyStep(env: Env, h: Hs, o: Oracle)
    requires !h.params.tls13 && !env.server && C.FlagsOk(env, h)
    requires h.state.EnterEarlyData?
    ensures ClientStep(env, h, o, C.Next(env, h, o))
  {
    hide Absorbed, Span, HashStarted, BufferFreed, Fresh;
  }

  lemma ClientCookieStep(env: Env, h: Hs, o: Oracle)
    requires !h.params.tls13 && !env.server && C.FlagsOk(env, h)
    requires h.state.ReadHelloVerifyRequest?
    ensures ClientStep(env, h, o, C.Next(env, h, o))
  {
    hide Absorbed, Span, HashStarted, BufferFreed, Fresh;
  }

  lemma HelloReasonable(env: Env, h: Hs, o: Oracle)
    requires !h.params.tls13 && !env.server && C.FlagsOk(env, h) && h.state.ReadServerHello?
    ensures Reasonable(h, o, C.Next(env, h, o), ClientUnexpected(env, h, o), ClientAsks(h), ClientDecides(h))
  {
    C.SettledParts(env, h, o);
    var h1 := C.ServerHelloSettled(env, h, o);
    if h.incoming != [] {
      TakeParts(h1);
      FreeParts(Take(h1));
    }
    hide C.ServerHelloSettled, Take, Free;
    hide Absorbed, Span, HashStarted, BufferFreed, Fresh;
  }

  lemma HelloOffers(env: Env, h: Hs, o: Oracle)
    requires !h.params.tls13 && !env.server && C.FlagsOk(env, h) && h.state.ReadServerHello?
    ensures ClientOffers(env, h, o, C.Next(env, h, o))
  {
    C.SettledParts(env, h, o);
    var h1 := C.ServerHelloSettled(env, h, o);
    if h.incoming != [] {
      TakeParts(h1);
      FreeParts(Take(h1));
    }
    hide C.ServerHelloSettled, Take, Free;
    hide Absorbed, Span, HashStarted, BufferFreed, Fresh;
  }

  /** Right after the ServerHello there is nothing yet that could be missing. */
  lemma HelloChecked(env: Env, h: Hs, o: Oracle)
    requires !h.params.tls13 && !env.server && C.FlagsOk(env, h) && h.state.ReadServerHello?
    requires C.Next(env, h, o).wait != Error && ClientChecked(env, h)
    ensures ClientChecked(env, C.Next(env, h, o).hs)
  {
    C.SettledParts(env, h, o);
    var h1 := C.ServerHelloSettled(env, h, o);
    if h.incoming != [] {
      TakeParts(h1);
      FreeParts(Take(h1));
    }
    hide C.ServerHelloSettled, Take, Free;
    hide Absorbed, Span, HashStarted, BufferFreed, Fresh;
    var g := C.Next(env, h, o).hs;
    if h.incoming != [] && !o.tls13 {
      assert g.seen == h.seen && g.session == h1.session && g.params == h1.params;
      assert g.state == if g.session then ReadSessionTicket else ReadServerCertificate;
      hide C.Next;
      SettledChecked(env, h, g);
    }
  }

  lemma SettledChecked(env: Env, h: Hs, g: Hs)
    requires !h.params.tls13 && C.FlagsOk(env, h) && h.state.ReadServerHello? && ClientChecked(env, h)
    requires g.seen == h.seen && g.params.request == h.params.request && (g.session ==> !env.renegotiation)
    requires g.state == if g.session then ReadSessionTicket else ReadServerCertificate
    ensures ClientChecked(env, g)
  {
  }

  lemma ClientHelloStep(env: Env, h: Hs, o: Oracle)
    requires !h.params.tls13 && !env.server && C.FlagsOk(env, h) && h.state.ReadServerHello?
    ensures ClientStep(env, h, o, C.Next(env, h, o))
  {
    hide C.Next, Reasonable, ClientOffers, ClientChecked, C.FlagsOk;
    HelloReasonable(env, h, o);
    HelloOffers(env, h, o);
    if C.Next(env, h, o).wait != Error && ClientChecked(env, h) { HelloChecked(env, h, o); }
  }

  lemma ClientCertificateStep(env: Env, h: Hs, o: Oracle)
    requires !h.params.tls13 && !env.server && C.FlagsOk(env, h)
    requires h.state.ReadServerCertificate? || h.state.VerifyServerCertificate?
    ensures ClientStep(env, h, o, C.Next(env, h, o))
  {
    hide Absorbed, Span, HashStarted, BufferFreed, Fresh;
  }

  lemma ClientStatusStep(env: Env, h: Hs, o: Oracle)
    requires !h.params.tls13 && !env.server && C.FlagsOk(env, h)
    requires h.state.ReadCertificateStatus?
    ensures ClientStep(env, h, o, C.Next(env, h, o))
  {
    hide Absorbed, Span, HashStarted, BufferFreed, Fresh;
  }

  lemma ClientKeyExchangeStep(env: Env, h: Hs, o: Oracle)
    requires !h.params.tls13 && !env.server && C.FlagsOk(env, h)
    requires h.state.ReadServerKeyExchange?
    ensures ClientStep(env, h, o, C.Next(env, h, o))
  {
    hide Absorbed, Span, HashStarted, BufferFreed, Fresh;
  }

  lemma ClientRequestStep(env: Env, h: Hs, o: Oracle)
    requires !h.params.tls13 && !env.server && C.FlagsOk(env, h)
    requires h.state.ReadCertificateRequest?
    ensures ClientStep(env, h, o, C.Next(env, h, o))
  {
    hide Absorbed, Span, HashStarted, BufferFreed, Fresh;
  }

  lemma ClientFlightEndStep(env: Env, h: Hs, o: Oracle)
    requires !h.params.tls13 && !env.server && C.FlagsOk(env, h)
    requires h.state.ReadServerHelloDone?
    ensures ClientStep(env, h, o, C.Next(env, h, o))
  {
    hide Absorbed, Span, HashStarted, BufferFreed, Fresh;
  }

  lemma ReplyReasonable(env: Env, h: Hs, o: Oracle)
    requires !h.params.tls13 && !env.server && C.FlagsOk(env, h) && h.state.SendClientCertificate?
    ensures Reasonable(h, o, C.Next(env, h, o), ClientUnexpected(env, h, o), ClientAsks(h), ClientDecides(h))
  {
    var m := Message(Certificate, o.bodies(Certificate));
    var h1 := h.(params := h.params.(hasCert := o.hasCert));
    FreeParts(h1);
    QueueParts(h1, m);
    QueueParts(Free(h1), m);
    hide Free, Queue;
    hide Absorbed, Span, HashStarted, BufferFreed, Fresh;
  }

  lemma ReplyChecked(env: Env, h: Hs, o: Oracle)
    requires !h.params.tls13 && !env.server && C.FlagsOk(env, h) && h.state.SendClientCertificate?
    ensures var out := C.Next(env, h, o);
            ClientOffers(env, h, o, out) && (out.wait != Error && ClientChecked(env, h) ==> ClientChecked(env, out.hs))
  {
    var m := Message(Certificate, o.bodies(Certificate));
    var h1 := h.(params := h.params.(hasCert := o.hasCert));
    FreeParts(h1);
    QueueParts(h1, m);
    QueueParts(Free(h1), m);
    hide Free, Queue;
    hide Absorbed, Span, HashStarted, BufferFreed, Fresh;
  }

  lemma ClientReplyStep(env: Env, h: Hs, o: Oracle)
    requires !h.params.tls13 && !env.server && C.FlagsOk(env, h) && h.state.SendClientCertificate?
    ensures ClientStep(env, h, o, C.Next(env, h, o))
  {
    hide C.Next, Reasonable, ClientOffers, ClientChecked, C.FlagsOk;
    ReplyReasonable(env, h, o);
    ReplyChecked(env, h, o);
  }

  lemma ClientSecretStep(env: Env, h: Hs, o: Oracle)
    requires !h.params.tls13 && !env.server && C.FlagsOk(env, h)
    requires h.state.SendClientKeyExchange?
    ensures ClientStep(env, h, o, C.Next(env, h, o))
  {
    hide Absorbed, Span, HashStarted, BufferFreed, Fresh;
  }

  lemma ClientVerifyStep(env: Env, h: Hs, o: Oracle)
    requires !h.params.tls13 && !env.server && C.FlagsOk(env, h)
    requires h.state.SendClientCertificateVerify? || h.state.FinishFlight?
    ensures ClientStep(env, h, o, C.Next(env, h, o))
  {
    hide Absorbed, Span, HashStarted, BufferFreed, Fresh;
  }

  lemma ClientFinishStep(env: Env, h: Hs, o: Oracle)
    requires !h.params.tls13 && !env.server && C.FlagsOk(env, h)
    requires h.state.SendClientFinished?
    ensures ClientStep(env, h, o, C.Next(env, h, o))
  {
    hide Absorbed, Span, HashStarted, BufferFreed, Fresh;
  }

  lemma ClientTicketStep(env: Env, h: Hs, o: Oracle)
    requires !h.params.tls13 && !env.server && C.FlagsOk(env, h)
    requires h.state.ReadSessionTicket? || h.state.ProcessChangeCipherSpec?
    ensures ClientStep(env, h, o, C.Next(env, h, o))
  {
    hide Absorbed, Span, HashStarted, BufferFreed, Fresh;
  }

  lemma ClientEndStep(env: Env, h: Hs, o: Oracle)
    requires !h.params.tls13 && !env.server && C.FlagsOk(env, h)
    requires h.state.ReadServerFinished? || h.state.FinishClientHandshake?
    ensures ClientStep(env, h, o, C.Next(env, h, o))
  {
    hide Absorbed, Span, HashStarted, BufferFreed, Fresh;
  }

  lemma ServerHelloStep(env: Env, h: Hs, o: Oracle)
    requires !h.params.tls13 && env.server && S.FlagsOk(h)
    requires h.state.StartAccept? || h.state.ReadClientHello? || h.state.SelectCertificate?
    ensures ServerStep(env, h, o, S.Next(env, h, o))
  {
    hide Absorbed, Span, HashStarted, BufferFreed, Fresh;
  }

  lemma ServerSelectStep(env: Env, h: Hs, o: Oracle)
    requires !h.params.tls13 && env.server && S.FlagsOk(h)
    requires h.state.SelectParameters? || h.state.SendServerHello?
    ensures ServerStep(env, h, o, S.Next(env, h, o))
  {
    hide Absorbed, Span, HashStarted, BufferFreed, Fresh;
  }

  lemma ServerFlightStep(env: Env, h: Hs, o: Oracle)
    requires !h.params.tls13 && env.server && S.FlagsOk(h)
    requires h.state.SendServerCertificate? || h.state.SendServerKeyExchange?
    ensures ServerStep(env, h, o, S.Next(env, h, o))
  {
    hide Absorbed, Span, HashStarted, BufferFreed, Fresh;
  }

  lemma ServerDoneStep(env: Env, h: Hs, o: Oracle)
    requires !h.params.tls13 && env.server && S.FlagsOk(h)
    requires h.state.SendServerHelloDone? || h.state.VerifyClientCertificate?
    ensures ServerStep(env, h, o, S.Next(env, h, o))
  {
    hide Absorbed, Span, HashStarted, BufferFreed, Fresh;
  }

  lemma ServerCertificateStep(env: Env, h: Hs, o: Oracle)
    requires !h.params.tls13 && env.server && S.FlagsOk(h)
    requires h.state.ReadClientCertificate?
    ensures ServerStep(env, h, o, S.Next(env, h, o))
  {
    hide Absorbed, Span, HashStarted, BufferFreed, Fresh;
  }

  lemma ServerKeyExchangeStep(env: Env, h: Hs, o: Oracle)
    requires !h.params.tls13 && env.server && S.FlagsOk(h)
    requires h.state.ReadClientKeyExchange? || h.state.ReadClientCertificateVerify?
    ensures ServerStep(env, h, o, S.Next(env, h, o))
  {
    hide Absorbed, Span, HashStarted, BufferFreed, Fresh;
  }

  lemma ServerCipherStep(env: Env, h: Hs, o: Oracle)
    requires !h.params.tls13 && env.server && S.FlagsOk(h)
    requires h.state.ReadChangeCipherSpec? || h.state.ProcessChangeCipherSpec?
    ensures ServerStep(env, h, o, S.Next(env, h, o))
  {
    hide Absorbed, Span, HashStarted, BufferFreed, Fresh;
  }

  lemma ServerExtrasStep(env: Env, h: Hs, o: Oracle)
    requires !h.params.tls13 && env.server && S.FlagsOk(h)
    requires h.state.ReadNextProto? || h.state.ReadChannelId?
    ensures ServerStep(env, h, o, S.Next(env, h, o))
  {
    hide Absorbed, Span, HashStarted, BufferFreed, Fresh;
  }

  lemma ServerFinishStep(env: Env, h: Hs, o: Oracle)
    requires !h.params.tls13 && env.server && S.FlagsOk(h)
    requires h.state.SendServerFinished?
    ensures ServerStep(env, h, o, S.Next(env, h, o))
  {
    hide Absorbed, Span, HashStarted, BufferFreed, Fresh;
  }

  lemma ServerEndStep(env: Env, h: Hs, o: Oracle)
    requires !h.params.tls13 && env.server && S.FlagsOk(h)
    requires h.state.ReadClientFinished? || h.state.FinishServerHandshake?
    ensures ServerStep(env, h, o, S.Next(env, h, o))
  {
    hide Absorbed, Span, HashStarted, BufferFreed, Fresh;
  }

  // ------------------------------------------------------------------ every step

  /** Every step of a TLS 1.2 client. */
  lemma ClientNext(env: Env, h: Hs, o: Oracle)
    requires C.Inv(env, h) && !h.params.tls13 && !h.state.Done?
    ensures ClientStep(env, h, o, C.Next(env, h, o))
  {
    hide C.Next, ClientStep, Tags, Bound, C.Flow, C.FlagsOk, C.NeedsBuffer;
    C.RankPositive(env, h);
    match h.state
    case StartConnect => ClientOfferStep(env, h, o);
    case EnterEarlyData => ClientEarlyStep(env, h, o);
    case ReadHelloVerifyRequest => ClientCookieStep(env, h, o);
    case ReadServerHello => ClientHelloStep(env, h, o);
    case ReadServerCertificate | VerifyServerCertificate => ClientCertificateStep(env, h, o);
    case ReadCertificateStatus => ClientStatusStep(env, h, o);
    case ReadServerKeyExchange => ClientKeyExchangeStep(env, h, o);
    case ReadCertificateRequest => ClientRequestStep(env, h, o);
    case ReadServerHelloDone => ClientFlightEndStep(env, h, o);
    case SendClientCertificate => ClientReplyStep(env, h, o);
    case SendClientKeyExchange => ClientSecretStep(env, h, o);
    case SendClientCertificateVerify | FinishFlight => ClientVerifyStep(env, h, o);
    case SendClientFinished => ClientFinishStep(env, h, o);
    case ReadSessionTicket | ProcessChangeCipherSpec => ClientTicketStep(env, h, o);
    case ReadServerFinished | FinishClientHandshake => ClientEndStep(env, h, o);
    case _ =>
  }

  lemma ClientHelloSettles(env: Env, h: Hs, o: Oracle)
    requires h.state.ReadClientHello? || h.state.SelectCertificate?
    ensures ServerSettles(h, o, S.Next(env, h, o))
  {
    hide Absorbed, Span, HashStarted, BufferFreed, Fresh;
  }

  lemma ParametersSettle(env: Env, h: Hs, o: Oracle)
    requires h.state.SelectParameters?
    ensures ServerSettles(h, o, S.Next(env, h, o))
  {
    var h1 := S.ParametersSettled(h, o);
    assert h1.session == o.resume && h1.params.ticket == o.ticket;
    if h.incoming != [] {
      assert h1.incoming == h.incoming;
      TakeParts(h1);
      FreeParts(Take(h1));
    }
    hide S.ParametersSettled, Take, Free;
  }

  lemma ServerHelloSettles(env: Env, h: Hs, o: Oracle)
    requires h.state.SendServerHello? || h.state.SendServerCertificate?
    ensures ServerSettles(h, o, S.Next(env, h, o))
  {
    hide Absorbed, Span, HashStarted, BufferFreed, Fresh;
  }

  lemma ClientCertificateSettles(env: Env, h: Hs, o: Oracle)
    requires h.state.ReadClientCertificate?
    ensures ServerSettles(h, o, S.Next(env, h, o))
  {
    hide Absorbed, Span, HashStarted, BufferFreed, Fresh;
  }

  lemma ServerSettlesRight(env: Env, h: Hs, o: Oracle)
    ensures ServerSettles(h, o, S.Next(env, h, o))
  {
    hide S.Next;
    match h.state
    case ReadClientHello | SelectCertificate => ClientHelloSettles(env, h, o);
    case SelectParameters => ParametersSettle(env, h, o);
    case SendServerHello | SendServerCertificate => ServerHelloSettles(env, h, o);
    case ReadClientCertificate => ClientCertificateSettles(env, h, o);
    case _ =>
  }

  /** Every step of a TLS 1.2 server. */
  lemma ServerNext(env: Env, h: Hs, o: Oracle)
    requires S.Inv(env, h) && !h.params.tls13 && !h.state.Done?
    ensures ServerStep(env, h, o, S.Next(env, h, o)) && ServerSettles(h, o, S.Next(env, h, o))
  {
    ServerSettlesRight(env, h, o);
    hide S.Next, ServerStep, ServerSettles, Tags, Bound, S.Flow, S.FlagsOk, S.NeedsBuffer;
    S.RankPositive(env, h);
    match h.state
    case StartAccept | ReadClientHello | SelectCertificate => ServerHelloStep(env, h, o);
    case SelectParameters | SendServerHello => ServerSelectStep(env, h, o);
    case SendServerCertificate | SendServerKeyExchange => ServerFlightStep(env, h, o);
    case SendServerHelloDone | VerifyClientCertificate => ServerDoneStep(env, h, o);
    case ReadClientCertificate => ServerCertificateStep(env, h, o);
    case ReadClientKeyExchange | ReadClientCertificateVerify => ServerKeyExchangeStep(env, h, o);
    case ReadChangeCipherSpec | ProcessChangeCipherSpec => ServerCipherStep(env, h, o);
    case ReadNextProto | ReadChannelId => ServerExtrasStep(env, h, o);
    case SendServerFinished => ServerFinishStep(env, h, o);
    case ReadClientFinished | FinishServerHandshake => ServerEndStep(env, h, o);
    case _ =>
  }

  lemma ClientKeepsChecks(env: Env, h: Hs, o: Oracle)
    requires C.Inv(env, h) && ClientChecked(env, h) && C.Next(env, h, o).wait != Error
    ensures ClientChecked(env, Resolved(C.Next(env, h, o)))
  {
    hide C.Next, C.Inv, ClientChecked, Reasonable, ClientOffers;
    var out := C.Next(env, h, o);
    if h.params.tls13 {
      ClientStays13(env, h, o);
    } else if h.state.Done? {
      ClientStays(env, h, o);
    } else {
      ClientNext(env, h, o);
    }
    ClientResolvedSame(env, out);
  }

  lemma ClientStays13(env: Env, h: Hs, o: Oracle)
    requires C.Inv(env, h) && h.params.tls13 && C.Next(env, h, o).wait != Error
    ensures ClientChecked(env, C.Next(env, h, o).hs)
  {
    hide Tags, Bound, C.Flow, C.Rest, Absorbed;
  }

  lemma ClientStays(env: Env, h: Hs, o: Oracle)
    requires h.state.Done? && ClientChecked(env, h)
    ensures ClientChecked(env, C.Next(env, h, o).hs)
  {
    C.NothingLeft(env, h, o);
    hide C.Next;
  }

  lemma ClientResolvedSame(env: Env, out: Outcome)
    requires ClientChecked(env, out.hs)
    ensures ClientChecked(env, Resolved(out))
  {
  }

  lemma ServerKeepsChecks(env: Env, h: Hs, o: Oracle)
    requires S.Inv(env, h) && ServerChecked(h) && S.Next(env, h, o).wait != Error
    ensures ServerChecked(Resolved(S.Next(env, h, o)))
  {
    hide S.Next, S.Inv, ServerChecked, Reasonable;
    var out := S.Next(env, h, o);
    if h.params.tls13 {
      ServerStays13(env, h, o);
    } else if h.state.Done? {
      ServerStays(env, h, o);
    } else {
      ServerNext(env, h, o);
    }
    ServerResolvedSame(out);
  }

  lemma ServerStays13(env: Env, h: Hs, o: Oracle)
    requires S.Inv(env, h) && h.params.tls13 && S.Next(env, h, o).wait != Error
    ensures ServerChecked(S.Next(env, h, o).hs)
  {
    hide Tags, Bound, S.Flow, S.Rest, Absorbed;
  }

  lemma ServerStays(env: Env, h: Hs, o: Oracle)
    requires h.state.Done? && ServerChecked(h)
    ensures ServerChecked(S.Next(env, h, o).hs)
  {
    S.NothingLeft(env, h, o);
    hide S.Next;
  }

  lemma ServerResolvedSame(out: Outcome)
    requires ServerChecked(out.hs)
    ensures ServerChecked(Resolved(out))
  {
  }
}
