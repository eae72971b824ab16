/** The TLS 1.2 server handshake as a machine on values (ssl/handshake_server.cc), and the laws every
    run of it obeys. TlsServerSteps has the procedures that are proved against it. */
module TlsServer {
  import opened Common
  import opened TlsTypes

  function StartAcceptNext(h: Hs, o: Oracle): Outcome {
    Go(h, ReadClientHello)
  }

  function ReadClientHelloNext(h: Hs, o: Oracle): Outcome {
    if h.incoming == [] then Outcome(h, WaitMessage)
    else if h.incoming[0].kind != ClientHello then Fail(h)
    else if o.handoff then Outcome(h, Handoff)
    else if o.retry then Outcome(h, CertificateSelection)
    else if !o.ok then Fail(h)
    else Go(h.(params := h.params.(tls13 := o.tls13, nextProto := o.nextProto,
      channelId := o.channelId)), SelectCertificate)
  }

  function SelectCertificateNext(h: Hs, o: Oracle): Outcome {
    if h.incoming == [] then Outcome(h, WaitMessage)
    else if o.retry then Outcome(h, X509Lookup)
    else if !o.ok then Fail(h)
    else if h.params.tls13 then Go(h, Tls13)
    else Go(h.(params := h.params.(certAuth := o.certAuth)), SelectParameters)
  }

  function Tls13Next(h: Hs, o: Oracle): Outcome {
    if o.wait13 == Ok then Go(h, FinishServerHandshake) else Outcome(h, o.wait13)
  }

  /** What the parameters settle: resumption, ticket, certificate request. The hash starts. */
  function ParametersSettled(h: Hs, o: Oracle): (g: Hs)
    ensures g == h.(session := g.session, transcript := HashStarted(h.transcript), params := g.params)
    ensures g.params == h.params.(ticket := g.params.ticket, request := g.params.request)
    ensures g.params.request ==> !g.session && h.params.certAuth
  {
    h.(session := o.resume, transcript := HashStarted(h.transcript),
       params := h.params.(ticket := o.ticket, request := !o.resume && o.request && h.params.certAuth))
  }

  /** The ClientHello, read twice in place, is hashed and consumed here. */
  function SelectParametersNext(h: Hs, o: Oracle): Outcome {
    if h.incoming == [] then Outcome(h, WaitMessage)
    else if o.retry then Outcome(h, if o.unsealing then PendingTicket else PendingSession)
    else if !o.ok then Fail(h)
    else
      var h1 := ParametersSettled(h, o);
      Go(if h1.params.request then Take(h1) else Free(Take(h1)), SendServerHello)
  }

  /** What the extensions of the ServerHello settle. */
  function HelloParams(p: Params, o: Oracle): (q: Params)
    ensures q == p.(status := q.status, nextProto := q.nextProto, channelId := q.channelId)
  {
    p.(status := o.status, nextProto := p.nextProto && o.nextProto, channelId := p.channelId && o.channelId)
  }

  function SendServerHelloNext(h: Hs, o: Oracle): Outcome {
    if !o.ok then Fail(h)
    else
      Go(Queue(h.(params := HelloParams(h.params, o)), Message(ServerHello, o.bodies(ServerHello))),
         if h.session then SendServerFinished else SendServerCertificate)
  }

  function SendServerCertificateNext(h: Hs, o: Oracle): Outcome {
    if (h.params.certAuth || o.needsKeyExchange) && !o.ok then Fail(h)
    else
      var h1 := h.(params := h.params.(needsKeyExchange := o.needsKeyExchange));
      var h2 := QueueIf(h1, h.params.certAuth, Message(Certificate, o.bodies(Certificate)));
      Go(QueueIf(h2, h.params.certAuth && h.params.status, Message(CertificateStatus, o.bodies(CertificateStatus))),
         SendServerKeyExchange)
  }

  function SendServerKeyExchangeNext(h: Hs, o: Oracle): Outcome {
    if !h.params.needsKeyExchange then Go(h, SendServerHelloDone)
    else if h.params.certAuth && o.retry then Outcome(h, PrivateKeyOperation)
    else if !o.ok then Fail(h)
    else
      var h1 := h.(params := h.params.(needsKeyExchange := false), seen := h.seen.(keyExchange := true));
      Go(Queue(h1, Message(ServerKeyExchange, o.bodies(ServerKeyExchange))), SendServerHelloDone)
  }

  function SendServerHelloDoneNext(h: Hs, o: Oracle): Outcome {
    if !o.ok then Fail(h)
    else
      var h1 := QueueIf(h, h.params.request, Message(CertificateRequest, o.bodies(CertificateRequest)));
      Outcome(Queue(h1, Message(ServerHelloDone, o.bodies(ServerHelloDone))).(state := ReadClientCertificate), Flush)
  }

  function CertificateTaken(h: Hs, o: Oracle): Hs
    requires h.incoming != []
  {
    var g := Take(h.(params := h.params.(peerCert := o.peerCert)));
    if o.peerCert then g else Free(g)
  }

  function ReadClientCertificateNext(h: Hs, o: Oracle): Outcome {
    if !h.params.request then Go(h, VerifyClientCertificate)
    else if h.incoming == [] then Outcome(h, WaitMessage)
    else if h.incoming[0].kind != Certificate || !o.ok then Fail(h)
    else Go(CertificateTaken(h, o), VerifyClientCertificate)
  }

  function VerifyClientCertificateNext(h: Hs, o: Oracle): Outcome {
    if !h.params.peerCert then Go(h, ReadClientKeyExchange)
    else if o.retry then Outcome(h, CertificateCheck)
    else if !o.ok then Fail(Judged(h, o))
    else Go(Judged(h, o), ReadClientKeyExchange)
  }

  function ReadClientKeyExchangeNext(h: Hs, o: Oracle): Outcome {
    if h.incoming != [] && h.incoming[0].kind == ClientKeyExchange && o.retry then Outcome(h, PrivateKeyOperation)
    else Read(h, o, ClientKeyExchange, ReadClientCertificateVerify)
  }

  function ReadClientCertificateVerifyNext(env: Env, h: Hs, o: Oracle): Outcome {
    if !h.params.peerCert then Go(Free(h), ReadChangeCipherSpec)
    else if h.incoming == [] then Outcome(h, WaitMessage)
    else if h.incoming[0].kind != CertificateVerify || !o.ok
            || !env.verifies(Span(h.transcript.buffer), h.incoming[0].body) then Fail(h)
    else Go(Take(Free(h)), ReadChangeCipherSpec)
  }

  function ReadChangeCipherSpecNext(h: Hs, o: Oracle): Outcome {
    Outcome(h.(state := ProcessChangeCipherSpec), WaitCcs)
  }

  function ProcessChangeCipherSpecNext(h: Hs, o: Oracle): Outcome {
    if !o.ok then Fail(h) else Go(h.(log := h.log + [ReadCipher]), ReadNextProto)
  }

  function ReadNextProtoNext(h: Hs, o: Oracle): Outcome {
    if !h.params.nextProto then Go(h, ReadChannelId) else Read(h, o, NextProto, ReadChannelId)
  }

  function ReadChannelIdNext(h: Hs, o: Oracle): Outcome {
    if !h.params.channelId then Go(h, ReadClientFinished) else Read(h, o, ChannelId, ReadClientFinished)
  }

  function ReadClientFinishedNext(env: Env, h: Hs, o: Oracle): Outcome {
    ReadFinished(env, h, o, if h.session then FinishServerHandshake else SendServerFinished)
  }

  function SendServerFinishedNext(env: Env, h: Hs, o: Oracle): Outcome {
    if !o.ok then Fail(h)
    else
      var h1 := QueueIf(h, h.params.ticket, Message(NewSessionTicket, o.bodies(NewSessionTicket)));
      var next := if h.session then ReadChangeCipherSpec else FinishServerHandshake;
      Outcome(QueueFinished(env, ChangeWrite(h1)).(state := next), Flush)
  }

  function FinishServerHandshakeNext(h: Hs, o: Oracle): Outcome {
    Go(h, Done)
  }

  /** One step of the machine. */
  function Next(env: Env, h: Hs, o: Oracle): Outcome {
    match h.state
    case StartAccept => StartAcceptNext(h, o)
    case ReadClientHello => ReadClientHelloNext(h, o)
    case SelectCertificate => SelectCertificateNext(h, o)
    case Tls13 => Tls13Next(h, o)
    case SelectParameters => SelectParametersNext(h, o)
    case SendServerHello => SendServerHelloNext(h, o)
    case SendServerCertificate => SendServerCertificateNext(h, o)
    case SendServerKeyExchange => SendServerKeyExchangeNext(h, o)
    case SendServerHelloDone => SendServerHelloDoneNext(h, o)
    case ReadClientCertificate => ReadClientCertificateNext(h, o)
    case VerifyClientCertificate => VerifyClientCertificateNext(h, o)
    case ReadClientKeyExchange => ReadClientKeyExchangeNext(h, o)
    case ReadClientCertificateVerify => ReadClientCertificateVerifyNext(env, h, o)
    case ReadChangeCipherSpec => ReadChangeCipherSpecNext(h, o)
    case ProcessChangeCipherSpec => ProcessChangeCipherSpecNext(h, o)
    case ReadNextProto => ReadNextProtoNext(h, o)
    case ReadChannelId => ReadChannelIdNext(h, o)
    case ReadClientFinished => ReadClientFinishedNext(env, h, o)
    case SendServerFinished => SendServerFinishedNext(env, h, o)
    case FinishServerHandshake => FinishServerHandshakeNext(h, o)
    case _ => Outcome(h, Ok)
  }

  /** How far the handshake is from its end, in the order of a full or a resumed handshake. */
  function Rank(session: bool, s: State): (r: nat)
    ensures r <= 22
  {
    match s
    case StartAccept => 22
    case ReadClientHello => 21
    case SelectCertificate => 20
    case SelectParameters => 19
    case SendServerHello => 18
    case SendServerCertificate => 17
    case SendServerKeyExchange => 16
    case SendServerHelloDone => 15
    case ReadClientCertificate => 14
    case VerifyClientCertificate => 13
    case ReadClientKeyExchange => 12
    case ReadClientCertificateVerify => 11
    case SendServerFinished => if session then 10 else 5
    case ReadChangeCipherSpec => if session then 9 else 10
    case ProcessChangeCipherSpec => if session then 8 else 9
    case ReadNextProto => if session then 7 else 8
    case ReadChannelId => if session then 6 else 7
    case ReadClientFinished => if session then 5 else 6
    case Tls13 => 2
    case FinishServerHandshake => 1
    case _ => 0
  }

  // The flow of figures 1 and 2 of RFC 5246 as the server sees it, with CertificateStatus,
  // NewSessionTicket and the next protocol and Channel ID messages.

  ghost function Hellos(): seq<Tag> {
    [In(ClientHello)] + [Out(ServerHello)]
  }

  /** The server's flight of a full handshake. */
  ghost function ServerFlow(certAuth: bool, status: bool, keyExchange: bool, request: bool): seq<Tag> {
    Hellos() + Opt(certAuth, [Out(Certificate)]) + Opt(certAuth && status, [Out(CertificateStatus)])
    + Opt(keyExchange, [Out(ServerKeyExchange)]) + Opt(request, [Out(CertificateRequest)]) + [Out(ServerHelloDone)]
  }

  /** The client's flight of a full handshake, up to its ChangeCipherSpec. */
  ghost function ClientFlow(server: seq<Tag>, request: bool, peerCert: bool): seq<Tag> {
    server + Opt(request, [In(Certificate)]) + [In(ClientKeyExchange)] + Opt(peerCert, [In(CertificateVerify)])
  }

  ghost function PeerFinish(before: seq<Tag>, nextProto: bool, channelId: bool): seq<Tag> {
    before + [C] + [R] + Opt(nextProto, [In(NextProto)]) + Opt(channelId, [In(ChannelId)]) + [In(Finished)]
  }

  ghost function OwnFinish(before: seq<Tag>, ticket: bool): seq<Tag> {
    before + Opt(ticket, [Out(NewSessionTicket)]) + [W] + [Out(Finished)]
  }

  ghost function ServerFlight(h: Hs): seq<Tag> {
    ServerFlow(h.params.certAuth, h.params.status, h.seen.keyExchange, h.params.request)
  }

  ghost function ClientFlight(h: Hs): seq<Tag> {
    ClientFlow(ServerFlight(h), h.params.request, h.params.peerCert)
  }

  ghost function FullFlow(h: Hs): seq<Tag> {
    OwnFinish(PeerFinish(ClientFlight(h), h.params.nextProto, h.params.channelId), h.params.ticket)
  }

  ghost function ResumedFlow(h: Hs): seq<Tag> {
    PeerFinish(OwnFinish(Hellos(), h.params.ticket), h.params.nextProto, h.params.channelId)
  }

  /** What comes before the client's ChangeCipherSpec. */
  ghost function BeforePeer(h: Hs): seq<Tag> {
    if h.session then OwnFinish(Hellos(), h.params.ticket) else ClientFlight(h)
  }

  /** The flow up to state s. */
  ghost function Flow(h: Hs, s: State): seq<Tag> {
    match s
    case SendServerHello => [In(ClientHello)]
    case SendServerCertificate => Hellos()
    case SendServerKeyExchange =>
      Hellos() + Opt(h.params.certAuth, [Out(Certificate)])
      + Opt(h.params.certAuth && h.params.status, [Out(CertificateStatus)])
    case SendServerHelloDone =>
      Hellos() + Opt(h.params.certAuth, [Out(Certificate)])
      + Opt(h.params.certAuth && h.params.status, [Out(CertificateStatus)])
      + Opt(h.seen.keyExchange, [Out(ServerKeyExchange)])
    case ReadClientCertificate => ServerFlight(h)
    case VerifyClientCertificate => ServerFlight(h) + Opt(h.params.request, [In(Certificate)])
    case ReadClientKeyExchange => ServerFlight(h) + Opt(h.params.request, [In(Certificate)])
    case ReadClientCertificateVerify =>
      ServerFlight(h) + Opt(h.params.request, [In(Certificate)]) + [In(ClientKeyExchange)]
    case ReadChangeCipherSpec => BeforePeer(h)
    case ProcessChangeCipherSpec => BeforePeer(h) + [C]
    case ReadNextProto => BeforePeer(h) + [C] + [R]
    case ReadChannelId => BeforePeer(h) + [C] + [R] + Opt(h.params.nextProto, [In(NextProto)])
    case ReadClientFinished =>
      BeforePeer(h) + [C] + [R] + Opt(h.params.nextProto, [In(NextProto)]) + Opt(h.params.channelId, [In(ChannelId)])
    case SendServerFinished =>
      if h.session then Hellos() else PeerFinish(ClientFlight(h), h.params.nextProto, h.params.channelId)
    case FinishServerHandshake => if h.session then ResumedFlow(h) else FullFlow(h)
    case Done => if h.session then ResumedFlow(h) else FullFlow(h)
    case _ => []
  }

  predicate Hello(s: State) {
    s.StartAccept? || s.ReadClientHello? || s.SelectCertificate? || s.SelectParameters?
  }

  /** The states of an abbreviated handshake after the ServerHello. */
  predicate Abbreviated(s: State) {
    || s.SendServerFinished? || s.ReadChangeCipherSpec? || s.ProcessChangeCipherSpec? || s.ReadNextProto?
    || s.ReadChannelId? || s.ReadClientFinished? || s.FinishServerHandshake? || s.Done?
  }

  /** Where messages are queued that no flush has followed yet. */
  predicate Sending(s: State, session: bool) {
    || s.SendServerCertificate? || s.SendServerKeyExchange? || s.SendServerHelloDone?
    || (s.SendServerFinished? && session)
  }

  /** Where the messages themselves, and not only their hash, are still needed. */
  predicate NeedsBuffer(h: Hs) {
    || Hello(h.state)
    || (h.params.request && 14 <= Rank(h.session, h.state))
    || (h.params.peerCert && 11 <= Rank(h.session, h.state))
  }

  /** The flags are set when their message comes, and not before. */
  predicate FlagsOk(h: Hs) {
    var r := Rank(h.session, h.state);
    && (h.params.request ==> r < 19)
    && (h.params.request ==> !h.session)
    && (h.params.peerCert ==> r < 14)
    && (h.seen.keyExchange ==> r < 16)
    && (h.session && r < 18 ==> Abbreviated(h.state))
    && (0 < r || h.state.Done?)
  }

  /** The ClientHello that was looked at is still the next message. */
  predicate HelloFirst(h: Hs) {
    h.state.SelectCertificate? || h.state.SelectParameters? ==> h.incoming != [] && h.incoming[0].kind == ClientHello
  }

  /** What the invariant says beside the flow. */
  ghost predicate Rest(env: Env, h: Hs) {
    && Bound(env, h.transcript, h.log)
    && (h.transcript.hash.Some? <==> !Hello(h.state))
    && (NeedsBuffer(h) ==> h.transcript.buffer.Some?)
    && HelloFirst(h)
    && FlagsOk(h)
    && (h.pending == [] || Sending(h.state, h.session))
  }

  /** What holds between any two steps of a TLS 1.2 handshake. */
  ghost predicate Inv(env: Env, h: Hs) {
    env.server &&
    if h.params.tls13
      then h.state.SelectCertificate? || h.state.Tls13? || h.state.FinishServerHandshake? || h.state.Done?
    else h.state != Tls13 && Tags(h.log) == Flow(h, h.state) && Rest(env, h)
  }

  ghost predicate KeptBy(env: Env, h: Hs, out: Outcome) {
    out.wait != Error && Inv(env, h) ==> Inv(env, Resolved(out))
  }

  /** The parts of the invariant that the steps start from. */
  lemma Holds(env: Env, h: Hs)
    requires Inv(env, h)
    requires !h.params.tls13
      || !(h.state.SelectCertificate? || h.state.Tls13? || h.state.FinishServerHandshake? || h.state.Done?)
    ensures !h.params.tls13 && env.server && Bound(env, h.transcript, h.log) && FlagsOk(h)
    ensures (h.transcript.hash.Some? <==> !Hello(h.state)) && (NeedsBuffer(h) ==> h.transcript.buffer.Some?)
    ensures HelloFirst(h)
  {
    hide Tags, Bound, Flow, FlagsOk, NeedsBuffer, HelloFirst;
  }

  lemma InTls13(env: Env, h: Hs, g: Hs)
    requires Inv(env, h) && g.params.tls13 && (g.state.Tls13? || g.state.FinishServerHandshake? || g.state.Done?)
    ensures Inv(env, g)
  {
    hide Tags, Bound, Flow, FlagsOk, NeedsBuffer;
  }

  lemma StartAcceptKeeps(env: Env, h: Hs, o: Oracle)
    requires h.state.StartAccept?
    ensures KeptBy(env, h, StartAcceptNext(h, o))
  {
    hide Hashed, HashedNext, Tags, Bound, Absorbed, ClientFlow, OwnFinish, PeerFinish, ServerFlow;
  }

  lemma ReadClientHelloKeeps(env: Env, h: Hs, o: Oracle)
    requires h.state.ReadClientHello?
    ensures KeptBy(env, h, ReadClientHelloNext(h, o))
  {
    hide Hashed, HashedNext, Tags, Bound, Absorbed, ClientFlow, OwnFinish, PeerFinish, ServerFlow;
  }

  lemma SelectCertificateKeeps(env: Env, h: Hs, o: Oracle)
    requires h.state.SelectCertificate?
    ensures KeptBy(env, h, SelectCertificateNext(h, o))
  {
    hide Hashed, HashedNext, Tags, Bound, Absorbed, ClientFlow, OwnFinish, PeerFinish, ServerFlow;
  }

  lemma AfterSelectParameters(env: Env, h: Hs, g: Hs)
    requires Inv(env, h) && !h.params.tls13 && h.state.SelectParameters? && g.state == SendServerHello
    requires g.params == h.params.(ticket := g.params.ticket, request := g.params.request)
    requires g.params.request ==> !g.session && g.transcript.buffer.Some?
    requires g.seen == h.seen && g.pending == h.pending
    requires Tags(g.log) == Tags(h.log) + [In(ClientHello)] && Bound(env, g.transcript, g.log)
    requires g.transcript.hash.Some?
    ensures Inv(env, g)
  {
    hide Tags, Bound, ServerFlow, ClientFlow, OwnFinish, PeerFinish;
  }

  lemma SelectParametersKeeps(env: Env, h: Hs, o: Oracle)
    requires h.state.SelectParameters?
    ensures KeptBy(env, h, SelectParametersNext(h, o))
  {
    hide Inv, Hashed, Tags, Bound, FlagsOk, ParametersSettled;
    var out := SelectParametersNext(h, o);
    if Inv(env, h) && out.wait == Ok {
      Holds(env, h);
      var h1 := ParametersSettled(h, o);
      StartKeeps(env, h);
      TakeKeeps(env, h1);
      FreeKeeps(env, Take(h1));
      AfterSelectParameters(env, h, Resolved(out));
    }
  }

  lemma CertificateTakenKeeps(env: Env, h: Hs, o: Oracle)
    requires h.incoming != [] && h.incoming[0].kind == Certificate && Bound(env, h.transcript, h.log)
    ensures
      var g := CertificateTaken(h, o);
      && Advanced(env, h, g, Tags(h.log) + [In(Certificate)], o.peerCert)
      && g.params == h.params.(peerCert := o.peerCert) && g.seen == h.seen && g.pending == h.pending
  {
    hide Hashed, Tags, Bound, Absorbed;
    var h1 := h.(params := h.params.(peerCert := o.peerCert));
    TakeKeeps(env, h1);
    hide Take;
    FreeKeeps(env, Take(h1));
  }

  lemma AfterSendServerHello(env: Env, h: Hs, g: Hs)
    requires Inv(env, h) && !h.params.tls13 && h.state.SendServerHello?
    requires g.state == if h.session then SendServerFinished else SendServerCertificate
    requires g.params == h.params.(status := g.params.status, nextProto := g.params.nextProto,
      channelId := g.params.channelId)
      && g.seen == h.seen
    requires Advanced(env, h, g, Tags(h.log) + [Out(ServerHello)], true)
    ensures Inv(env, g)
  {
    hide Tags, Bound, ServerFlow, ClientFlow, OwnFinish, PeerFinish;
  }

  lemma SendServerHelloDoes(env: Env, h: Hs, o: Oracle)
    requires SendServerHelloNext(h, o).wait != Error && Bound(env, h.transcript, h.log)
    ensures
      var g := Resolved(SendServerHelloNext(h, o));
      && g.state == (if h.session then SendServerFinished else SendServerCertificate) && g.seen == h.seen
      && g.params == h.params.(status := g.params.status, nextProto := g.params.nextProto,
                               channelId := g.params.channelId)
      && Advanced(env, h, g, Tags(h.log) + [Out(ServerHello)], true)
  {
    hide Hashed, Tags, Bound, Absorbed, Queue, HelloParams;
    var h1 := h.(params := HelloParams(h.params, o));
    QueueKeeps(env, h1, Message(ServerHello, o.bodies(ServerHello)));
  }

  lemma SendServerHelloKeeps(env: Env, h: Hs, o: Oracle)
    requires h.state.SendServerHello?
    ensures KeptBy(env, h, SendServerHelloNext(h, o))
  {
    hide Inv, Bound, FlagsOk, NeedsBuffer, Advanced, SendServerHelloNext, Resolved;
    var out := SendServerHelloNext(h, o);
    if Inv(env, h) && out.wait != Error {
      Holds(env, h);
      SendServerHelloDoes(env, h, o);
      AfterSendServerHello(env, h, Resolved(out));
    }
  }

  lemma AfterSendServerCertificate(env: Env, h: Hs, g: Hs)
    requires Inv(env, h) && !h.params.tls13 && h.state.SendServerCertificate?
    requires g.state == SendServerKeyExchange
    requires g.params == h.params.(needsKeyExchange := g.params.needsKeyExchange) && g.seen == h.seen
    requires Advanced(env, h, g, Tags(h.log) + Opt(h.params.certAuth, [Out(Certificate)])
                      + Opt(h.params.certAuth && h.params.status, [Out(CertificateStatus)]), true)
    ensures Inv(env, g)
  {
    hide Tags, Bound, ServerFlow, ClientFlow, OwnFinish, PeerFinish;
  }

  lemma SendServerCertificateDoes(env: Env, h: Hs, o: Oracle)
    requires SendServerCertificateNext(h, o).wait != Error && Bound(env, h.transcript, h.log)
    ensures
      var g := Resolved(SendServerCertificateNext(h, o));
      && g.state == SendServerKeyExchange && g.seen == h.seen
      && g.params == h.params.(needsKeyExchange := g.params.needsKeyExchange)
      && Advanced(env, h, g, Tags(h.log) + Opt(h.params.certAuth, [Out(Certificate)])
                        + Opt(h.params.certAuth && h.params.status, [Out(CertificateStatus)]), true)
  {
    hide Hashed, Tags, Bound, Absorbed, Queue;
    var h1 := h.(params := h.params.(needsKeyExchange := o.needsKeyExchange));
    var m := Message(Certificate, o.bodies(Certificate));
    QueueKeeps(env, h1, m);
    QueueKeeps(env, QueueIf(h1, h.params.certAuth, m), Message(CertificateStatus, o.bodies(CertificateStatus)));
  }

  lemma SendServerCertificateKeeps(env: Env, h: Hs, o: Oracle)
    requires h.state.SendServerCertificate?
    ensures KeptBy(env, h, SendServerCertificateNext(h, o))
  {
    hide Inv, Bound, FlagsOk, NeedsBuffer, Advanced, SendServerCertificateNext, Resolved;
    var out := SendServerCertificateNext(h, o);
    if Inv(env, h) && out.wait != Error {
      Holds(env, h);
      SendServerCertificateDoes(env, h, o);
      AfterSendServerCertificate(env, h, Resolved(out));
    }
  }

  lemma AfterSendServerKeyExchange(env: Env, h: Hs, g: Hs)
    requires Inv(env, h) && !h.params.tls13 && h.state.SendServerKeyExchange?
    requires g.state == SendServerHelloDone
    requires g.params == h.params.(needsKeyExchange := g.params.needsKeyExchange)
    requires g.seen == h.seen.(keyExchange := g.seen.keyExchange)
    requires Advanced(env, h, g, Tags(h.log) + Opt(g.seen.keyExchange, [Out(ServerKeyExchange)]), true)
    ensures Inv(env, g)
  {
    hide Tags, Bound, ServerFlow, ClientFlow, OwnFinish, PeerFinish;
  }

  lemma SendServerKeyExchangeDoes(env: Env, h: Hs, o: Oracle)
    requires SendServerKeyExchangeNext(h, o).wait == Ok && Bound(env, h.transcript, h.log) && h.params.needsKeyExchange
    ensures
      var g := Resolved(SendServerKeyExchangeNext(h, o));
      && g.state == SendServerHelloDone && g.seen == h.seen.(keyExchange := true)
      && g.params == h.params.(needsKeyExchange := false)
      && Advanced(env, h, g, Tags(h.log) + [Out(ServerKeyExchange)], true)
  {
    hide Hashed, Tags, Bound, Absorbed, Queue;
    var h1 := h.(params := h.params.(needsKeyExchange := false), seen := h.seen.(keyExchange := true));
    QueueKeeps(env, h1, Message(ServerKeyExchange, o.bodies(ServerKeyExchange)));
  }

  lemma SendServerKeyExchangeKeeps(env: Env, h: Hs, o: Oracle)
    requires h.state.SendServerKeyExchange?
    ensures KeptBy(env, h, SendServerKeyExchangeNext(h, o))
  {
    hide Inv, Bound, NeedsBuffer;
    var out := SendServerKeyExchangeNext(h, o);
    if Inv(env, h) && out.wait == Ok {
      Holds(env, h);
      if h.params.needsKeyExchange {
        SendServerKeyExchangeDoes(env, h, o);
        hide Advanced, SendServerKeyExchangeNext, Resolved;
        AfterSendServerKeyExchange(env, h, Resolved(out));
      } else {
        AfterSendServerKeyExchange(env, h, h.(state := SendServerHelloDone));
      }
    }
  }

  lemma AfterSendServerHelloDone(env: Env, h: Hs, g: Hs)
    requires Inv(env, h) && !h.params.tls13 && h.state.SendServerHelloDone?
    requires g.state == ReadClientCertificate
    requires g.params == h.params && g.seen == h.seen && g.pending == []
    requires Advanced(env, h, g, Tags(h.log) + Opt(h.params.request, [Out(CertificateRequest)])
      + [Out(ServerHelloDone)], true)
    ensures Inv(env, g)
  {
    hide Tags, Bound, ClientFlow, OwnFinish, PeerFinish;
  }

  lemma SendServerHelloDoneKeeps(env: Env, h: Hs, o: Oracle)
    requires h.state.SendServerHelloDone?
    ensures KeptBy(env, h, SendServerHelloDoneNext(h, o))
  {
    hide Inv, Hashed, Tags, Bound, Absorbed, FlagsOk, NeedsBuffer;
    var out := SendServerHelloDoneNext(h, o);
    if Inv(env, h) && out.wait == Flush {
      Holds(env, h);
      var m := Message(CertificateRequest, o.bodies(CertificateRequest));
      QueueKeeps(env, h, m);
      QueueKeeps(env, QueueIf(h, h.params.request, m), Message(ServerHelloDone, o.bodies(ServerHelloDone)));
      AfterSendServerHelloDone(env, h, Resolved(out));
    }
  }

  lemma AfterReadClientCertificate(env: Env, h: Hs, g: Hs)
    requires Inv(env, h) && !h.params.tls13 && h.state.ReadClientCertificate?
    requires g.state == VerifyClientCertificate
    requires g.params == h.params.(peerCert := g.params.peerCert) && g.seen == h.seen && g.pending == h.pending
    requires Advanced(env, h, g, Tags(h.log) + Opt(h.params.request, [In(Certificate)]), g.params.peerCert)
    requires g.params.peerCert ==> h.params.request
    ensures Inv(env, g)
  {
    hide Tags, Bound, ServerFlow, ClientFlow, OwnFinish, PeerFinish;
  }

  lemma ReadClientCertificateKeeps(env: Env, h: Hs, o: Oracle)
    requires h.state.ReadClientCertificate?
    ensures KeptBy(env, h, ReadClientCertificateNext(h, o))
  {
    hide Inv, Hashed, Tags, Bound, Absorbed, NeedsBuffer, CertificateTaken;
    var out := ReadClientCertificateNext(h, o);
    if Inv(env, h) && out.wait == Ok {
      Holds(env, h);
      if h.params.request {
        CertificateTakenKeeps(env, h, o);
      }
      AfterReadClientCertificate(env, h, Resolved(out));
    }
  }

  lemma AfterVerifyClientCertificate(env: Env, h: Hs, g: Hs)
    requires Inv(env, h) && !h.params.tls13 && h.state.VerifyClientCertificate?
    requires g.state == ReadClientKeyExchange
    requires g.params == h.params && g.seen == h.seen.(verified := g.seen.verified) && g.pending == h.pending
    requires Advanced(env, h, g, Tags(h.log), true)
    ensures Inv(env, g)
  {
    hide Tags, Bound, ServerFlow, ClientFlow, OwnFinish, PeerFinish;
  }

  lemma VerifyClientCertificateKeeps(env: Env, h: Hs, o: Oracle)
    requires h.state.VerifyClientCertificate?
    ensures KeptBy(env, h, VerifyClientCertificateNext(h, o))
  {
    hide Inv, Hashed, Tags, Bound, Absorbed, FlagsOk, NeedsBuffer;
    var out := VerifyClientCertificateNext(h, o);
    if Inv(env, h) && out.wait == Ok {
      Holds(env, h);
      AfterVerifyClientCertificate(env, h, Resolved(out));
    }
  }

  lemma AfterReadClientKeyExchange(env: Env, h: Hs, g: Hs)
    requires Inv(env, h) && !h.params.tls13 && h.state.ReadClientKeyExchange?
    requires g.state == ReadClientCertificateVerify
    requires g.params == h.params && g.seen == h.seen && g.pending == h.pending
    requires Advanced(env, h, g, Tags(h.log) + [In(ClientKeyExchange)], true)
    ensures Inv(env, g)
  {
    hide Tags, Bound, ServerFlow, ClientFlow, OwnFinish, PeerFinish;
  }

  lemma ReadClientKeyExchangeKeeps(env: Env, h: Hs, o: Oracle)
    requires h.state.ReadClientKeyExchange?
    ensures KeptBy(env, h, ReadClientKeyExchangeNext(h, o))
  {
    hide Inv, Hashed, Tags, Bound, Absorbed, FlagsOk, NeedsBuffer;
    var out := ReadClientKeyExchangeNext(h, o);
    if Inv(env, h) && out.wait == Ok {
      Holds(env, h);
      TakeKeeps(env, h);
      AfterReadClientKeyExchange(env, h, Resolved(out));
    }
  }

  lemma AfterReadClientCertificateVerify(env: Env, h: Hs, g: Hs)
    requires Inv(env, h) && !h.params.tls13 && h.state.ReadClientCertificateVerify?
    requires g.state == ReadChangeCipherSpec
    requires g.params == h.params && g.seen == h.seen && g.pending == h.pending
    requires Advanced(env, h, g, Tags(h.log) + Opt(h.params.peerCert, [In(CertificateVerify)]), false)
    ensures Inv(env, g)
  {
    hide Tags, Bound, ServerFlow, OwnFinish, PeerFinish;
  }

  lemma ReadClientCertificateVerifyDoes(env: Env, h: Hs, o: Oracle)
    requires env.server && ReadClientCertificateVerifyNext(env, h, o).wait == Ok && Bound(env, h.transcript, h.log)
    requires h.params.peerCert ==> h.transcript.buffer.Some?
    ensures
      var g := Resolved(ReadClientCertificateVerifyNext(env, h, o));
      && g.state == ReadChangeCipherSpec && g.params == h.params && g.seen == h.seen && g.pending == h.pending
      && Advanced(env, h, g, Tags(h.log) + Opt(h.params.peerCert, [In(CertificateVerify)]), false)
  {
    hide Hashed, Tags, Bound, Absorbed, Free;
    FreeKeeps(env, h);
    if h.params.peerCert {
      SpanCovers(env, h);
      TakeKeeps(env, Free(h));
    }
  }

  lemma ReadClientCertificateVerifyKeeps(env: Env, h: Hs, o: Oracle)
    requires h.state.ReadClientCertificateVerify?
    ensures KeptBy(env, h, ReadClientCertificateVerifyNext(env, h, o))
  {
    hide Inv, Bound, FlagsOk;
    var out := ReadClientCertificateVerifyNext(env, h, o);
    if Inv(env, h) && out.wait == Ok {
      Holds(env, h);
      ReadClientCertificateVerifyDoes(env, h, o);
      hide Advanced, ReadClientCertificateVerifyNext, Resolved;
      AfterReadClientCertificateVerify(env, h, Resolved(out));
    }
  }

  lemma AfterReadChangeCipherSpec(env: Env, h: Hs, g: Hs)
    requires Inv(env, h) && !h.params.tls13 && h.state.ReadChangeCipherSpec?
    requires g.state == ProcessChangeCipherSpec
    requires g.params == h.params && g.seen == h.seen && g.pending == h.pending
    requires Advanced(env, h, g, Tags(h.log) + [C], false)
    ensures Inv(env, g)
  {
    hide Tags, Bound, ServerFlow, ClientFlow, OwnFinish, PeerFinish;
  }

  lemma ReadChangeCipherSpecKeeps(env: Env, h: Hs, o: Oracle)
    requires h.state.ReadChangeCipherSpec?
    ensures KeptBy(env, h, ReadChangeCipherSpecNext(h, o))
  {
    hide Inv, Hashed, Tags, Bound, Absorbed, FlagsOk, NeedsBuffer;
    var out := ReadChangeCipherSpecNext(h, o);
    if Inv(env, h) && out.wait == WaitCcs {
      Holds(env, h);
      CipherKeeps(env, h, ReceivedCcs);
      AfterReadChangeCipherSpec(env, h, Resolved(out));
    }
  }

  lemma AfterProcessChangeCipherSpec(env: Env, h: Hs, g: Hs)
    requires Inv(env, h) && !h.params.tls13 && h.state.ProcessChangeCipherSpec?
    requires g.state == ReadNextProto
    requires g.params == h.params && g.seen == h.seen && g.pending == h.pending
    requires Advanced(env, h, g, Tags(h.log) + [R], false)
    ensures Inv(env, g)
  {
    hide Tags, Bound, ServerFlow, ClientFlow, OwnFinish, PeerFinish;
  }

  lemma ProcessChangeCipherSpecKeeps(env: Env, h: Hs, o: Oracle)
    requires h.state.ProcessChangeCipherSpec?
    ensures KeptBy(env, h, ProcessChangeCipherSpecNext(h, o))
  {
    hide Inv, Hashed, Tags, Bound, Absorbed, FlagsOk, NeedsBuffer;
    var out := ProcessChangeCipherSpecNext(h, o);
    if Inv(env, h) && out.wait == Ok {
      Holds(env, h);
      CipherKeeps(env, h, ReadCipher);
      AfterProcessChangeCipherSpec(env, h, Resolved(out));
    }
  }

  lemma AfterReadNextProto(env: Env, h: Hs, g: Hs)
    requires Inv(env, h) && !h.params.tls13 && h.state.ReadNextProto?
    requires g.state == ReadChannelId
    requires g.params == h.params && g.seen == h.seen && g.pending == h.pending
    requires Advanced(env, h, g, Tags(h.log) + Opt(h.params.nextProto, [In(NextProto)]), false)
    ensures Inv(env, g)
  {
    hide Tags, Bound, ServerFlow, ClientFlow, OwnFinish, PeerFinish;
  }

  lemma ReadNextProtoKeeps(env: Env, h: Hs, o: Oracle)
    requires h.state.ReadNextProto?
    ensures KeptBy(env, h, ReadNextProtoNext(h, o))
  {
    hide Inv, Hashed, Tags, Bound, Absorbed, FlagsOk, NeedsBuffer;
    var out := ReadNextProtoNext(h, o);
    if Inv(env, h) && out.wait == Ok {
      Holds(env, h);
      if h.params.nextProto {
        TakeKeeps(env, h);
      }
      AfterReadNextProto(env, h, Resolved(out));
    }
  }

  lemma AfterReadChannelId(env: Env, h: Hs, g: Hs)
    requires Inv(env, h) && !h.params.tls13 && h.state.ReadChannelId?
    requires g.state == ReadClientFinished
    requires g.params == h.params && g.seen == h.seen && g.pending == h.pending
    requires Advanced(env, h, g, Tags(h.log) + Opt(h.params.channelId, [In(ChannelId)]), false)
    ensures Inv(env, g)
  {
    hide Tags, Bound, ServerFlow, ClientFlow, OwnFinish, PeerFinish;
  }

  lemma ReadChannelIdKeeps(env: Env, h: Hs, o: Oracle)
    requires h.state.ReadChannelId?
    ensures KeptBy(env, h, ReadChannelIdNext(h, o))
  {
    hide Inv, Hashed, Tags, Bound, Absorbed, FlagsOk, NeedsBuffer;
    var out := ReadChannelIdNext(h, o);
    if Inv(env, h) && out.wait == Ok {
      Holds(env, h);
      if h.params.channelId {
        TakeKeeps(env, h);
      }
      AfterReadChannelId(env, h, Resolved(out));
    }
  }

  lemma AfterReadClientFinished(env: Env, h: Hs, g: Hs)
    requires Inv(env, h) && !h.params.tls13 && h.state.ReadClientFinished?
    requires g.state == if h.session then FinishServerHandshake else SendServerFinished
    requires g.params == h.params && g.seen == h.seen && g.pending == h.pending
    requires Advanced(env, h, g, Tags(h.log) + [In(Finished)], false)
    ensures Inv(env, g)
  {
    hide Tags, Bound, ServerFlow, ClientFlow, OwnFinish;
  }

  lemma ReadClientFinishedKeeps(env: Env, h: Hs, o: Oracle)
    requires h.state.ReadClientFinished?
    ensures KeptBy(env, h, ReadClientFinishedNext(env, h, o))
  {
    hide Inv, Hashed, Tags, Bound, Absorbed, FlagsOk, NeedsBuffer;
    var out := ReadClientFinishedNext(env, h, o);
    if Inv(env, h) && out.wait == Ok {
      Holds(env, h);
      SpanCovers(env, h);
      TakeKeeps(env, h);
      AfterReadClientFinished(env, h, Resolved(out));
    }
  }

  /** The server's last flight: ticket, key change, Finished. */
  lemma OwnFinishParts(env: Env, h: Hs, o: Oracle)
    requires h.transcript.hash.Some? && Bound(env, h.transcript, h.log) && o.ok
    ensures
      var g := SendServerFinishedNext(env, h, o).hs;
      && Tags(g.log) == OwnFinish(Tags(h.log), h.params.ticket)
      && Bound(env, g.transcript, g.log) && SameParts(h, g.(state := h.state))
  {
    hide Hashed, HashedNext, Tags, Bound, Absorbed;
    var m := Message(NewSessionTicket, o.bodies(NewSessionTicket));
    QueueKeeps(env, h, m);
    var h1 := QueueIf(h, h.params.ticket, m);
    CipherKeeps(env, h1, WriteCipher);
    var h2 := ChangeWrite(h1);
    SpanCovers(env, h2);
    QueueKeeps(env, h2, Message(Finished, env.mac(Span(h2.transcript.hash), env.server)));
  }

  lemma AfterSendServerFinished(env: Env, h: Hs, g: Hs)
    requires Inv(env, h) && !h.params.tls13 && h.state.SendServerFinished?
    requires g.state == if h.session then ReadChangeCipherSpec else FinishServerHandshake
    requires g.params == h.params && g.seen == h.seen && g.pending == []
    requires Advanced(env, h, g, OwnFinish(Tags(h.log), h.params.ticket), false)
    ensures Inv(env, g)
  {
    hide Tags, Bound, ServerFlow, ClientFlow, PeerFinish;
  }

  lemma SendServerFinishedKeeps(env: Env, h: Hs, o: Oracle)
    requires h.state.SendServerFinished?
    ensures KeptBy(env, h, SendServerFinishedNext(env, h, o))
  {
    hide Inv, Hashed, Tags, Bound, Absorbed, FlagsOk, NeedsBuffer, Queue, QueueIf, QueueFinished, ChangeWrite,
      OwnFinish;
    var out := SendServerFinishedNext(env, h, o);
    if Inv(env, h) && out.wait == Flush {
      Holds(env, h);
      OwnFinishParts(env, h, o);
      AfterSendServerFinished(env, h, Resolved(out));
    }
  }

  lemma AfterFinishServerHandshake(env: Env, h: Hs, g: Hs)
    requires Inv(env, h) && !h.params.tls13 && h.state.FinishServerHandshake?
    requires g.state == Done
    requires g.params == h.params && g.seen == h.seen && g.pending == h.pending
    requires Advanced(env, h, g, Tags(h.log), false)
    ensures Inv(env, g)
  {
    hide Tags, Bound, ServerFlow, ClientFlow, OwnFinish, PeerFinish;
  }

  lemma FinishServerHandshakeKeeps(env: Env, h: Hs, o: Oracle)
    requires h.state.FinishServerHandshake?
    ensures KeptBy(env, h, FinishServerHandshakeNext(h, o))
  {
    hide Inv, Hashed, Tags, Bound, Absorbed, FlagsOk, NeedsBuffer;
    var out := FinishServerHandshakeNext(h, o);
    if Inv(env, h) && h.params.tls13 {
      InTls13(env, h, out.hs);
    } else if Inv(env, h) && !h.params.tls13 && out.wait == Ok {
      Holds(env, h);
      AfterFinishServerHandshake(env, h, Resolved(out));
    }
  }

  lemma Tls13Keeps(env: Env, h: Hs, o: Oracle)
    requires h.state.Tls13?
    ensures KeptBy(env, h, Tls13Next(h, o))
  {
    hide Tags, Flow, Rest;
  }

  /** Every step, with what the transport does before the next one, keeps the invariant. */
  lemma NextKeeps(env: Env, h: Hs, o: Oracle)
    requires Inv(env, h) && Next(env, h, o).wait != Error
    ensures Inv(env, Resolved(Next(env, h, o)))
  {
    hide Flow, Rest, Tags;
    hide StartAcceptNext, ReadClientHelloNext, SelectCertificateNext, Tls13Next, SelectParametersNext,
      SendServerHelloNext, SendServerCertificateNext, SendServerKeyExchangeNext, SendServerHelloDoneNext,
      ReadClientCertificateNext;
    hide VerifyClientCertificateNext, ReadClientKeyExchangeNext, ReadClientCertificateVerifyNext,
      ReadChangeCipherSpecNext, ProcessChangeCipherSpecNext, ReadNextProtoNext, ReadChannelIdNext,
      ReadClientFinishedNext, SendServerFinishedNext, FinishServerHandshakeNext;
    match h.state
    case StartAccept => StartAcceptKeeps(env, h, o);
    case ReadClientHello => ReadClientHelloKeeps(env, h, o);
    case SelectCertificate => SelectCertificateKeeps(env, h, o);
    case Tls13 => Tls13Keeps(env, h, o);
    case SelectParameters => SelectParametersKeeps(env, h, o);
    case SendServerHello => SendServerHelloKeeps(env, h, o);
    case SendServerCertificate => SendServerCertificateKeeps(env, h, o);
    case SendServerKeyExchange => SendServerKeyExchangeKeeps(env, h, o);
    case SendServerHelloDone => SendServerHelloDoneKeeps(env, h, o);
    case ReadClientCertificate => ReadClientCertificateKeeps(env, h, o);
    case VerifyClientCertificate => VerifyClientCertificateKeeps(env, h, o);
    case ReadClientKeyExchange => ReadClientKeyExchangeKeeps(env, h, o);
    case ReadClientCertificateVerify => ReadClientCertificateVerifyKeeps(env, h, o);
    case ReadChangeCipherSpec => ReadChangeCipherSpecKeeps(env, h, o);
    case ProcessChangeCipherSpec => ProcessChangeCipherSpecKeeps(env, h, o);
    case ReadNextProto => ReadNextProtoKeeps(env, h, o);
    case ReadChannelId => ReadChannelIdKeeps(env, h, o);
    case ReadClientFinished => ReadClientFinishedKeeps(env, h, o);
    case SendServerFinished => SendServerFinishedKeeps(env, h, o);
    case FinishServerHandshake => FinishServerHandshakeKeeps(env, h, o);
    case _ =>
  }

  /** The hash is there when a Finished message is made or checked, and the buffer when the hash starts
      and when the client's signature over the transcript is checked. */
  lemma StateReady(env: Env, h: Hs)
    requires Inv(env, h)
    ensures h.state.SelectParameters? ==> h.transcript.buffer.Some?
    ensures h.state.SendServerFinished? || h.state.ReadClientFinished? ==> h.transcript.hash.Some?
    ensures h.state.ReadClientCertificateVerify? && h.params.peerCert ==> h.transcript.buffer == Some(Hashed(h.log))
  {
    hide Hashed, Tags, Flow, Authentic;
  }

  /** Only the last state has no step left. */
  lemma RankPositive(env: Env, h: Hs)
    requires Inv(env, h) && !h.state.Done?
    ensures Rank(h.session, h.state) > 0
  {
    hide Flow, Tags, Bound;
  }

  /** The rank falls with the state, a step that asks to go on has changed the state, and only a step
      that does not send waits for the peer. */
  ghost predicate Falls(h: Hs, out: Outcome) {
    out.wait != Error ==>
      && (out.hs.state != h.state ==> Rank(out.hs.session, out.hs.state) < Rank(h.session, h.state))
      && (out.hs.state == h.state ==> out.hs.session == h.session)
      && (out.wait == Ok && Rank(h.session, h.state) > 0 ==> out.hs.state != h.state)
      && (AwaitsPeer(out.wait) && !h.state.Tls13? ==> out.hs.pending == h.pending && !Sending(h.state, h.session))
  }

  lemma HelloFalls(env: Env, h: Hs, o: Oracle)
    requires h.state.StartAccept? || h.state.ReadClientHello?
      || h.state.SelectCertificate? || h.state.SelectParameters?
    ensures Falls(h, Next(env, h, o))
  {
    hide Absorbed, Span, HashStarted, BufferFreed, Fresh;
  }

  lemma ServerHelloFalls(env: Env, h: Hs, o: Oracle)
    requires h.state.SendServerHello? || h.state.SendServerCertificate?
    ensures Falls(h, Next(env, h, o))
  {
    hide Absorbed, Span, HashStarted, BufferFreed, Fresh;
  }

  lemma ServerFlightFalls(env: Env, h: Hs, o: Oracle)
    requires h.state.SendServerKeyExchange? || h.state.SendServerHelloDone?
    ensures Falls(h, Next(env, h, o))
  {
    hide Absorbed, Span, HashStarted, BufferFreed, Fresh;
  }

  lemma ClientCertificateFalls(env: Env, h: Hs, o: Oracle)
    requires h.state.ReadClientCertificate? || h.state.VerifyClientCertificate?
    ensures Falls(h, Next(env, h, o))
  {
    hide Absorbed, Span, HashStarted, BufferFreed, Fresh;
  }

  lemma ClientFlightFalls(env: Env, h: Hs, o: Oracle)
    requires h.state.ReadClientKeyExchange? || h.state.ReadClientCertificateVerify?
    ensures Falls(h, Next(env, h, o))
  {
    hide Absorbed, Span, HashStarted, BufferFreed, Fresh;
  }

  lemma CipherFalls(env: Env, h: Hs, o: Oracle)
    requires h.state.ReadChangeCipherSpec? || h.state.ProcessChangeCipherSpec?
    ensures Falls(h, Next(env, h, o))
  {
    hide Absorbed, Span, HashStarted, BufferFreed, Fresh;
  }

  lemma PeerFalls(env: Env, h: Hs, o: Oracle)
    requires h.state.ReadNextProto? || h.state.ReadChannelId?
    ensures Falls(h, Next(env, h, o))
  {
    hide Absorbed, Span, HashStarted, BufferFreed, Fresh;
  }

  lemma PeerFinishedFalls(env: Env, h: Hs, o: Oracle)
    requires h.state.ReadClientFinished?
    ensures Falls(h, Next(env, h, o))
  {
    hide Absorbed, Span, HashStarted, BufferFreed, Fresh;
  }

  lemma OwnFinishedFalls(env: Env, h: Hs, o: Oracle)
    requires h.state.SendServerFinished?
    ensures Falls(h, Next(env, h, o))
  {
    hide Absorbed, Span, HashStarted, BufferFreed, Fresh;
  }

  lemma EndFalls(env: Env, h: Hs, o: Oracle)
    requires h.state.FinishServerHandshake? || h.state.Tls13?
    ensures Falls(h, Next(env, h, o))
  {
    hide Absorbed, Span, HashStarted, BufferFreed, Fresh;
  }

  lemma NothingLeft(env: Env, h: Hs, o: Oracle)
    requires Rank(h.session, h.state) == 0
    ensures Next(env, h, o) == Outcome(h, Ok)
  {
  }

  /** The machine cannot turn in a circle, and it never waits for the peer with a message unsent. */
  lemma RankFalls(env: Env, h: Hs, o: Oracle)
    requires Next(env, h, o).wait != Error
    ensures var out := Next(env, h, o);
      && (out.hs.state != h.state ==> Rank(out.hs.session, out.hs.state) < Rank(h.session, h.state))
      && (out.hs.state == h.state ==> out.hs.session == h.session)
      && (out.wait == Ok && Rank(h.session, h.state) > 0 ==> out.hs.state != h.state)
      && (AwaitsPeer(out.wait) && Inv(env, h) && !h.params.tls13 && !h.params.early ==> out.hs.pending == [])
  {
    hide Next;
    match h.state
    case StartAccept | ReadClientHello | SelectCertificate | SelectParameters =>
      HelloFalls(env, h, o);
    case SendServerHello | SendServerCertificate =>
      ServerHelloFalls(env, h, o);
    case SendServerKeyExchange | SendServerHelloDone =>
      ServerFlightFalls(env, h, o);
    case ReadClientCertificate | VerifyClientCertificate => ClientCertificateFalls(env, h, o);
    case ReadClientKeyExchange | ReadClientCertificateVerify => ClientFlightFalls(env, h, o);
    case ReadChangeCipherSpec | ProcessChangeCipherSpec => CipherFalls(env, h, o);
    case ReadNextProto | ReadChannelId => PeerFalls(env, h, o);
    case ReadClientFinished => PeerFinishedFalls(env, h, o);
    case SendServerFinished => OwnFinishedFalls(env, h, o);
    case FinishServerHandshake | Tls13 => EndFalls(env, h, o);
    case _ => NothingLeft(env, h, o);
  }

  lemma HelloCounts(x: Tag)
    requires Key(x)
    ensures Count(Hellos(), x) == 0
  {
    CountPlus([In(ClientHello)], [Out(ServerHello)], x);
  }

  lemma FlightCounts(certAuth: bool, status: bool, keyExchange: bool, request: bool, peerCert: bool, x: Tag)
    requires Key(x)
    ensures Count(Hellos(), x) == 0
    ensures Count(ClientFlow(ServerFlow(certAuth, status, keyExchange, request), request, peerCert), x) == 0
  {
    hide Count, Hellos;
    HelloCounts(x);
    var a := Hellos() + Opt(certAuth, [Out(Certificate)]);
    var b := a + Opt(certAuth && status, [Out(CertificateStatus)]);
    var c := b + Opt(keyExchange, [Out(ServerKeyExchange)]);
    var d := c + Opt(request, [Out(CertificateRequest)]);
    var e := d + [Out(ServerHelloDone)];
    var f := e + Opt(request, [In(Certificate)]);
    var g := f + [In(ClientKeyExchange)];
    NoKey(Hellos(), certAuth, Out(Certificate), x);
    NoKey(a, certAuth && status, Out(CertificateStatus), x);
    NoKey(b, keyExchange, Out(ServerKeyExchange), x);
    NoKey(c, request, Out(CertificateRequest), x);
    NoKey(d, true, Out(ServerHelloDone), x);
    NoKey(e, request, In(Certificate), x);
    NoKey(f, true, In(ClientKeyExchange), x);
    NoKey(g, peerCert, In(CertificateVerify), x);
  }

  lemma OwnCounts(before: seq<Tag>, ticket: bool, x: Tag)
    requires Key(x)
    ensures Count(OwnFinish(before, ticket), x) == Count(before, x) + if x == W || x == Out(Finished) then 1 else 0
  {
    var a := before + Opt(ticket, [Out(NewSessionTicket)]);
    NoKey(before, ticket, Out(NewSessionTicket), x);
    CountPlus(a, [W], x);
    CountPlus(a + [W], [Out(Finished)], x);
  }

  lemma PeerCounts(before: seq<Tag>, nextProto: bool, channelId: bool, x: Tag)
    requires Key(x)
    ensures Count(PeerFinish(before, nextProto, channelId), x)
         == Count(before, x) + if x == C || x == R || x == In(Finished) then 1 else 0
  {
    var a := before + [C] + [R];
    var b := a + Opt(nextProto, [In(NextProto)]);
    var c := b + Opt(channelId, [In(ChannelId)]);
    CountPlus(before, [C], x);
    CountPlus(before + [C], [R], x);
    NoKey(a, nextProto, In(NextProto), x);
    NoKey(b, channelId, In(ChannelId), x);
    CountPlus(c, [In(Finished)], x);
  }

  /** A finished TLS 1.2 handshake has gone through the whole flow: the client's Finished was received
      (and by Authentic checked) once, under new read keys; the own one was sent once, under new write
      keys; and each direction changed its keys once. */
  lemma DoneComplete(env: Env, h: Hs, x: Tag)
    requires Inv(env, h) && h.state.Done? && !h.params.tls13 && Key(x)
    ensures Tags(h.log) == if h.session then ResumedFlow(h) else FullFlow(h)
    ensures Count(Tags(h.log), x) == 1
    ensures h.transcript.hash == Some(Hashed(h.log)) && Authentic(env, h.log) && h.pending == []
  {
    hide Hashed, Authentic, Tags, Count, ServerFlow, ClientFlow, OwnFinish, PeerFinish;
    var p := h.params;
    FlightCounts(p.certAuth, p.status, h.seen.keyExchange, p.request, p.peerCert, x);
    if h.session {
      OwnCounts(Hellos(), p.ticket, x);
      PeerCounts(OwnFinish(Hellos(), p.ticket), p.nextProto, p.channelId, x);
    } else {
      PeerCounts(ClientFlight(h), p.nextProto, p.channelId, x);
      OwnCounts(PeerFinish(ClientFlight(h), p.nextProto, p.channelId), p.ticket, x);
    }
  }

  lemma OwnShape(before: seq<Tag>, ticket: bool)
    ensures var t := OwnFinish(before, ticket);
      && |before| < |t| && t[..|before|] == before && t[|t| - 1] == Out(Finished)
      && forall j :: |before| <= j < |t| ==> t[j] != In(HelloVerifyRequest)
  {
  }

  lemma PeerShape(before: seq<Tag>, nextProto: bool, channelId: bool)
    ensures var t := PeerFinish(before, nextProto, channelId);
      && |before| < |t| && t[..|before|] == before && t[|t| - 1] == In(Finished)
      && forall j :: |before| <= j < |t| ==> t[j] != In(HelloVerifyRequest)
  {
  }

  /** A full handshake ends with the server's Finished, a resumed one with the client's. */
  lemma DoneShape(env: Env, h: Hs) returns (first: nat)
    requires Inv(env, h) && h.state.Done? && !h.params.tls13
    ensures h.session ==> EndsWith(h.log, first, Out(Finished), In(Finished))
    ensures !h.session ==> EndsWith(h.log, first, In(Finished), Out(Finished))
  {
    hide Hashed, Authentic, Tags, ServerFlow, ClientFlow, OwnFinish, PeerFinish;
    var p, t := h.params, Tags(h.log);
    TagsAt(h.log);
    if h.session {
      var u := OwnFinish(Hellos(), p.ticket);
      OwnShape(Hellos(), p.ticket);
      PeerShape(u, p.nextProto, p.channelId);
      first := |u| - 1;
      assert t[..|u|][first] == u[first];
    } else {
      var u := PeerFinish(ClientFlight(h), p.nextProto, p.channelId);
      PeerShape(ClientFlight(h), p.nextProto, p.channelId);
      OwnShape(u, p.ticket);
      first := |u| - 1;
      assert t[..|u|][first] == u[first];
    }
  }
}
