/** The TLS 1.2 client handshake as a machine on values (ssl/handshake_client.cc), and the laws every
    run of it obeys. TlsClientSteps has the procedures that are proved against it. */
module TlsClient {
  import opened Common
  import opened TlsTypes

  function StartConnectNext(env: Env, h: Hs, o: Oracle): Outcome {
    if !o.ok then Fail(h)
    else
      var h1 := h.(session := h.session && o.resume, params := h.params.(early := o.early));
      Outcome(Queue(h1, Message(ClientHello, o.bodies(ClientHello))).(state := EnterEarlyData), Flush)
  }

  function EnterEarlyDataNext(env: Env, h: Hs, o: Oracle): Outcome {
    if env.dtls then Go(h, ReadHelloVerifyRequest)
    else if !h.params.early then Go(h, ReadServerHello)
    else if !o.ok then Fail(h)
    else Outcome(ChangeWrite(h).(state := ReadServerHello), EarlyReturn)
  }

  function ReadHelloVerifyRequestNext(env: Env, h: Hs, o: Oracle): Outcome {
    if h.incoming == [] then Outcome(h, WaitMessage)
    else if h.incoming[0].kind != HelloVerifyRequest then Go(h, ReadServerHello)
    else if !o.ok then Fail(h)
    else
      var h1 := Dropped(h).(transcript := Fresh(), seen := h.seen.(verify := true));
      Outcome(Queue(h1, Message(ClientHello, o.bodies(ClientHello))).(state := ReadServerHello), Flush)
  }

  /** What the ServerHello settles: resumption and the negotiated parameters. The hash starts. */
  function ServerHelloSettled(env: Env, h: Hs, o: Oracle): (g: Hs)
    ensures g == h.(session := g.session, transcript := HashStarted(h.transcript), params := g.params)
    ensures g.params.tls13 == h.params.tls13 && g.params.early == h.params.early
    ensures g.params.request == h.params.request
  {
    h.(session := h.session && !env.renegotiation && o.resume, transcript := HashStarted(h.transcript),
       params := h.params.(certAuth := o.certAuth, needsKeyExchange := o.needsKeyExchange, status := o.status,
                           ticket := o.ticket, nextProto := o.nextProto, channelId := o.channelId))
  }

  /** Resumption is the session offered, taken up, outside a renegotiation; the rest is the cipher's. */
  lemma SettledParts(env: Env, h: Hs, o: Oracle)
    ensures var g := ServerHelloSettled(env, h, o);
            && (g.session <==> h.session && !env.renegotiation && o.resume)
            && g.params.certAuth == o.certAuth && g.params.needsKeyExchange == o.needsKeyExchange
            && g.params.status == o.status && g.params.ticket == o.ticket && g.params.hasCert == h.params.hasCert
            && g.params.peerCert == h.params.peerCert
            && g.params.nextProto == o.nextProto && g.params.channelId == o.channelId
  {
  }

  function ReadServerHelloNext(env: Env, h: Hs, o: Oracle): Outcome {
    if h.incoming == [] then Outcome(h, WaitServerHello)
    else if h.incoming[0].kind != ServerHello || !o.ok then Fail(h)
    else if o.tls13 then Go(h.(params := h.params.(tls13 := true)), Tls13)
    else if h.params.early then Fail(h)
    else
      var h1 := ServerHelloSettled(env, h, o);
      Go(if h1.session || !h1.params.certAuth then Free(Take(h1)) else Take(h1),
         if h1.session then ReadSessionTicket else ReadServerCertificate)
  }

  function Tls13Next(h: Hs, o: Oracle): Outcome {
    if o.wait13 == Ok then Go(h, FinishClientHandshake) else Outcome(h, o.wait13)
  }

  function ReadServerCertificateNext(h: Hs, o: Oracle): Outcome {
    if !h.params.certAuth then Go(h, ReadCertificateStatus) else Read(h, o, Certificate, ReadCertificateStatus)
  }

  function ReadCertificateStatusNext(h: Hs, o: Oracle): Outcome {
    if !h.params.status then Go(h, VerifyServerCertificate)
    else if h.incoming == [] then Outcome(h, WaitMessage)
    else if h.incoming[0].kind != CertificateStatus then Go(h, VerifyServerCertificate)
    else Read(h.(seen := h.seen.(status := true)), o, CertificateStatus, VerifyServerCertificate)
  }

  function VerifyServerCertificateNext(h: Hs, o: Oracle): Outcome {
    if !h.params.certAuth then Go(h, ReadServerKeyExchange)
    else if o.retry then Outcome(h, CertificateCheck)
    else if !o.ok then Fail(Judged(h, o))
    else Go(Judged(h, o), ReadServerKeyExchange)
  }

  function ReadServerKeyExchangeNext(h: Hs, o: Oracle): Outcome {
    if h.incoming == [] then Outcome(h, WaitMessage)
    else if h.incoming[0].kind != ServerKeyExchange then
      if h.params.needsKeyExchange then Fail(h) else Go(h, ReadCertificateRequest)
    else Read(h.(seen := h.seen.(keyExchange := true)), o, ServerKeyExchange, ReadCertificateRequest)
  }

  function ReadCertificateRequestNext(h: Hs, o: Oracle): Outcome {
    if !h.params.certAuth then Go(h, ReadServerHelloDone)
    else if h.incoming == [] then Outcome(h, WaitMessage)
    else if h.incoming[0].kind == ServerHelloDone then Go(Free(h), ReadServerHelloDone)
    else Read(h.(params := h.params.(request := true)), o, CertificateRequest, ReadServerHelloDone)
  }

  function ReadServerHelloDoneNext(h: Hs, o: Oracle): Outcome {
    Read(h, o.(ok := h.incoming != [] && h.incoming[0].body == []), ServerHelloDone, SendClientCertificate)
  }

  function SendClientCertificateNext(h: Hs, o: Oracle): Outcome {
    if !h.params.request then Go(h, SendClientKeyExchange)
    else if o.retry then Outcome(h, X509Lookup)
    else if !o.ok then Fail(h)
    else
      var h1 := h.(params := h.params.(hasCert := o.hasCert));
      var h2 := if o.hasCert then h1 else Free(h1);
      Go(Queue(h2, Message(Certificate, o.bodies(Certificate))), SendClientKeyExchange)
  }

  function SendClientKeyExchangeNext(h: Hs, o: Oracle): Outcome {
    if !o.ok then Fail(h)
    else Go(Queue(h, Message(ClientKeyExchange, o.bodies(ClientKeyExchange))), SendClientCertificateVerify)
  }

  function SendClientCertificateVerifyNext(env: Env, h: Hs, o: Oracle): Outcome {
    if !h.params.request || !h.params.hasCert then Go(h, SendClientFinished)
    else if o.retry then Outcome(h, PrivateKeyOperation)
    else if !o.ok then Fail(h)
    else Go(Free(Queue(h, Message(CertificateVerify, env.sign(Span(h.transcript.buffer))))), SendClientFinished)
  }

  function SendClientFinishedNext(env: Env, h: Hs, o: Oracle): Outcome {
    if h.params.channelId && o.retry then Outcome(h, ChannelIdLookup)
    else if !o.ok then Fail(h)
    else
      var h1 := QueueIf(ChangeWrite(h), h.params.nextProto, Message(NextProto, o.bodies(NextProto)));
      var h2 := QueueIf(h1, h.params.channelId, Message(ChannelId, o.bodies(ChannelId)));
      Outcome(QueueFinished(env, h2).(state := FinishFlight), Flush)
  }

  function FinishFlightNext(env: Env, h: Hs, o: Oracle): Outcome {
    if h.session then Go(h, FinishClientHandshake)
    else if !o.ok then Fail(h)
    else Outcome(h.(state := ReadSessionTicket),
                 if o.falseStart && !env.dtls && !env.renegotiation then EarlyReturn else Ok)
  }

  function TicketTaken(h: Hs, o: Oracle): Hs {
    h.(state := ProcessChangeCipherSpec, params := h.params.(ticket := o.ticket), seen := h.seen.(ticket := true))
  }

  function ReadSessionTicketNext(h: Hs, o: Oracle): Outcome {
    if !h.params.ticket then Outcome(h.(state := ProcessChangeCipherSpec), WaitCcs)
    else if h.incoming == [] then Outcome(h, WaitMessage)
    else if h.incoming[0].kind != NewSessionTicket || !o.ok then Fail(h)
    else Outcome(TicketTaken(Take(h), o), WaitCcs)
  }

  function ProcessChangeCipherSpecNext(h: Hs, o: Oracle): Outcome {
    if !o.ok then Fail(h) else Go(h.(log := h.log + [ReadCipher]), ReadServerFinished)
  }

  function ReadServerFinishedNext(env: Env, h: Hs, o: Oracle): Outcome {
    ReadFinished(env, h, o, if h.session then SendClientFinished else FinishClientHandshake)
  }

  function FinishClientHandshakeNext(h: Hs, o: Oracle): Outcome {
    if !h.session && !o.ok then Fail(h) else Go(h, Done)
  }

  /** One step of the machine. */
  function Next(env: Env, h: Hs, o: Oracle): Outcome {
    match h.state
    case StartConnect => StartConnectNext(env, h, o)
    case EnterEarlyData => EnterEarlyDataNext(env, h, o)
    case ReadHelloVerifyRequest => ReadHelloVerifyRequestNext(env, h, o)
    case ReadServerHello => ReadServerHelloNext(env, h, o)
    case Tls13 => Tls13Next(h, o)
    case ReadServerCertificate => ReadServerCertificateNext(h, o)
    case ReadCertificateStatus => ReadCertificateStatusNext(h, o)
    case VerifyServerCertificate => VerifyServerCertificateNext(h, o)
    case ReadServerKeyExchange => ReadServerKeyExchangeNext(h, o)
    case ReadCertificateRequest => ReadCertificateRequestNext(h, o)
    case ReadServerHelloDone => ReadServerHelloDoneNext(h, o)
    case SendClientCertificate => SendClientCertificateNext(h, o)
    case SendClientKeyExchange => SendClientKeyExchangeNext(h, o)
    case SendClientCertificateVerify => SendClientCertificateVerifyNext(env, h, o)
    case SendClientFinished => SendClientFinishedNext(env, h, o)
    case FinishFlight => FinishFlightNext(env, h, o)
    case ReadSessionTicket => ReadSessionTicketNext(h, o)
    case ProcessChangeCipherSpec => ProcessChangeCipherSpecNext(h, o)
    case ReadServerFinished => ReadServerFinishedNext(env, h, o)
    case FinishClientHandshake => FinishClientHandshakeNext(h, o)
    case _ => Outcome(h, Ok)
  }

  /** How far the handshake is from its end, in the order of a full or a resumed handshake. */
  function Rank(session: bool, s: State): (r: nat)
    ensures r <= 24
  {
    match s
    case StartConnect => 24
    case EnterEarlyData => 23
    case ReadHelloVerifyRequest => 22
    case ReadServerHello => 21
    case ReadServerCertificate => 20
    case ReadCertificateStatus => 19
    case VerifyServerCertificate => 18
    case ReadServerKeyExchange => 17
    case ReadCertificateRequest => 16
    case ReadServerHelloDone => 15
    case SendClientCertificate => 14
    case SendClientKeyExchange => 13
    case SendClientCertificateVerify => 12
    case SendClientFinished => if session then 4 else 11
    case FinishFlight => if session then 3 else 10
    case ReadSessionTicket => if session then 7 else 9
    case ProcessChangeCipherSpec => if session then 6 else 8
    case ReadServerFinished => if session then 5 else 7
    case Tls13 => 2
    case FinishClientHandshake => 1
    case _ => 0
  }

  // The flow of figures 1 and 2 of RFC 5246 as the client sees it, with HelloVerifyRequest (RFC 6347),
  // CertificateStatus (RFC 6066), NewSessionTicket (RFC 5077) and the next protocol and Channel ID
  // messages.

  ghost function HelloFlow(dtls: bool, early: bool, verify: bool): seq<Tag> {
    [Out(ClientHello)] + (if dtls then Opt(verify, [In(HelloVerifyRequest), Out(ClientHello)]) else Opt(early, [W]))
  }

  /** The server's flight of a full handshake, up to its ServerHelloDone. */
  ghost function ServerFlow(hello: seq<Tag>, certAuth: bool, status: bool, keyExchange: bool, request: bool): seq<Tag> {
    hello + Opt(certAuth, [In(Certificate)]) + Opt(status, [In(CertificateStatus)])
    + Opt(keyExchange, [In(ServerKeyExchange)]) + Opt(request, [In(CertificateRequest)])
  }

  /** The client's flight of a full handshake, up to its ChangeCipherSpec. */
  ghost function ClientFlow(server: seq<Tag>, request: bool, hasCert: bool): seq<Tag> {
    server + [In(ServerHelloDone)] + Opt(request, [Out(Certificate)]) + [Out(ClientKeyExchange)]
    + Opt(request && hasCert, [Out(CertificateVerify)])
  }

  ghost function OwnFinish(before: seq<Tag>, nextProto: bool, channelId: bool): seq<Tag> {
    before + [W] + Opt(nextProto, [Out(NextProto)]) + Opt(channelId, [Out(ChannelId)]) + [Out(Finished)]
  }

  ghost function PeerFinish(before: seq<Tag>, ticket: bool): seq<Tag> {
    before + Opt(ticket, [In(NewSessionTicket)]) + [C] + [R] + [In(Finished)]
  }

  ghost function Hellos(env: Env, h: Hs): seq<Tag> {
    HelloFlow(env.dtls, h.params.early, h.seen.verify) + [In(ServerHello)]
  }

  ghost function ServerFlight(env: Env, h: Hs): seq<Tag> {
    ServerFlow(Hellos(env, h), h.params.certAuth, h.seen.status, h.seen.keyExchange, h.params.request)
  }

  ghost function ClientFlight(env: Env, h: Hs): seq<Tag> {
    ClientFlow(ServerFlight(env, h), h.params.request, h.params.hasCert)
  }

  ghost function FullFlow(env: Env, h: Hs): seq<Tag> {
    PeerFinish(OwnFinish(ClientFlight(env, h), h.params.nextProto, h.params.channelId), h.seen.ticket)
  }

  ghost function ResumedFlow(env: Env, h: Hs): seq<Tag> {
    OwnFinish(PeerFinish(Hellos(env, h), h.seen.ticket), h.params.nextProto, h.params.channelId)
  }

  /** What comes before the server's Finished and its ticket. */
  ghost function BeforePeer(env: Env, h: Hs): seq<Tag> {
    if h.session then Hellos(env, h) else OwnFinish(ClientFlight(env, h), h.params.nextProto, h.params.channelId)
  }

  /** The flow up to state s. */
  ghost function Flow(env: Env, h: Hs, s: State): seq<Tag> {
    match s
    case StartConnect => []
    case EnterEarlyData => [Out(ClientHello)]
    case ReadHelloVerifyRequest => [Out(ClientHello)]
    case ReadServerHello => HelloFlow(env.dtls, h.params.early, h.seen.verify)
    case ReadServerCertificate => Hellos(env, h)
    case ReadCertificateStatus => Hellos(env, h) + Opt(h.params.certAuth, [In(Certificate)])
    case VerifyServerCertificate =>
      Hellos(env, h) + Opt(h.params.certAuth, [In(Certificate)]) + Opt(h.seen.status, [In(CertificateStatus)])
    case ReadServerKeyExchange =>
      Hellos(env, h) + Opt(h.params.certAuth, [In(Certificate)]) + Opt(h.seen.status, [In(CertificateStatus)])
    case ReadCertificateRequest =>
      Hellos(env, h) + Opt(h.params.certAuth, [In(Certificate)]) + Opt(h.seen.status, [In(CertificateStatus)])
      + Opt(h.seen.keyExchange, [In(ServerKeyExchange)])
    case ReadServerHelloDone => ServerFlight(env, h)
    case SendClientCertificate => ServerFlight(env, h) + [In(ServerHelloDone)]
    case SendClientKeyExchange =>
      ServerFlight(env, h) + [In(ServerHelloDone)] + Opt(h.params.request, [Out(Certificate)])
    case SendClientCertificateVerify =>
      ServerFlight(env, h) + [In(ServerHelloDone)] + Opt(h.params.request, [Out(Certificate)])
      + [Out(ClientKeyExchange)]
    case SendClientFinished =>
      if h.session then PeerFinish(Hellos(env, h), h.seen.ticket) else ClientFlight(env, h)
    case FinishFlight =>
      if h.session then ResumedFlow(env, h) else OwnFinish(ClientFlight(env, h), h.params.nextProto, h.params.channelId)
    case ReadSessionTicket => BeforePeer(env, h)
    case ProcessChangeCipherSpec => BeforePeer(env, h) + Opt(h.seen.ticket, [In(NewSessionTicket)]) + [C]
    case ReadServerFinished => BeforePeer(env, h) + Opt(h.seen.ticket, [In(NewSessionTicket)]) + [C] + [R]
    case _ => if h.session then ResumedFlow(env, h) else FullFlow(env, h)
  }

  predicate Hello(s: State) {
    s.StartConnect? || s.EnterEarlyData? || s.ReadHelloVerifyRequest? || s.ReadServerHello?
  }

  /** The states of an abbreviated handshake after the ServerHello. */
  predicate Abbreviated(s: State) {
    || s.ReadSessionTicket? || s.ProcessChangeCipherSpec? || s.ReadServerFinished? || s.SendClientFinished?
    || s.FinishFlight? || s.FinishClientHandshake? || s.Done?
  }

  /** Where messages are queued that no flush has followed yet. */
  predicate Sending(s: State, session: bool) {
    s.SendClientKeyExchange? || s.SendClientCertificateVerify? || (s.SendClientFinished? && !session)
  }

  /** Where the messages themselves, and not only their hash, are still needed. */
  predicate NeedsBuffer(h: Hs) {
    || Hello(h.state)
    || (!h.session && h.params.certAuth && 16 <= Rank(h.session, h.state))
    || (h.params.request && (h.state.ReadServerHelloDone? || h.state.SendClientCertificate?))
    || (h.params.request && h.params.hasCert && Sending(h.state, true))
  }

  /** The flags are set when their message comes, and not before. */
  predicate FlagsOk(env: Env, h: Hs) {
    var r := Rank(h.session, h.state);
    && (h.params.request ==> r < 16)
    && (h.seen.status ==> r < 19)
    && (h.seen.keyExchange ==> r < 17)
    && (h.seen.ticket ==> r < Rank(h.session, ReadSessionTicket))
    && (h.seen.verify ==> r < 22)
    && (h.params.early && r < 21 ==> false)
    && (h.session && r < 21 ==> Abbreviated(h.state))
    && (h.state == ReadHelloVerifyRequest ==> env.dtls)
    && (Hello(h.state) || 0 < r || h.state == Done)
  }

  /** What holds between any two steps of a TLS 1.2 handshake. */
  ghost predicate Inv(env: Env, h: Hs) {
    !env.server &&
    if h.params.tls13 then h.state.Tls13? || h.state.FinishClientHandshake? || h.state.Done?
    else
      && h.state != Tls13
      && Tags(h.log) == Flow(env, h, h.state)
      && Rest(env, h)
  }

  /** What the invariant says beside the flow. */
  ghost predicate Rest(env: Env, h: Hs) {
    && Bound(env, h.transcript, h.log)
    && (h.transcript.hash.Some? <==> !Hello(h.state))
    && (NeedsBuffer(h) ==> h.transcript.buffer.Some?)
    && FlagsOk(env, h)
    && (h.pending == [] || Sending(h.state, h.session) || h.params.early)
  }

  ghost predicate KeptBy(env: Env, h: Hs, out: Outcome) {
    out.wait != Error && Inv(env, h) ==> Inv(env, Resolved(out))
  }

  /** The parts of the invariant that the steps start from. */
  lemma Holds(env: Env, h: Hs)
    requires Inv(env, h)
    requires !h.params.tls13 || !(h.state.Tls13? || h.state.FinishClientHandshake? || h.state.Done?)
    ensures !h.params.tls13 && !env.server && Bound(env, h.transcript, h.log) && FlagsOk(env, h)
    ensures (h.transcript.hash.Some? <==> !Hello(h.state)) && (NeedsBuffer(h) ==> h.transcript.buffer.Some?)
  {
    hide Tags, Bound, Flow, FlagsOk, NeedsBuffer;
  }

  lemma InTls13(env: Env, h: Hs, g: Hs)
    requires Inv(env, h) && g.params.tls13 && (g.state.Tls13? || g.state.FinishClientHandshake? || g.state.Done?)
    ensures Inv(env, g)
  {
    hide Tags, Bound, Flow, FlagsOk, NeedsBuffer;
  }

  /** What comes before the server's Finished does not depend on its ticket. */
  lemma SameBeforePeer(env: Env, g: Hs, h: Hs)
    requires g.session == h.session && g.params.early == h.params.early && g.params.certAuth == h.params.certAuth
    requires g.params.request == h.params.request && g.params.hasCert == h.params.hasCert
    requires g.params.nextProto == h.params.nextProto && g.params.channelId == h.params.channelId
    requires g.seen.verify == h.seen.verify && g.seen.status == h.seen.status
    requires g.seen.keyExchange == h.seen.keyExchange
    ensures BeforePeer(env, g) == BeforePeer(env, h)
  {
    hide HelloFlow, ClientFlow, ServerFlow, OwnFinish;
  }

  lemma StartConnectKeeps(env: Env, h: Hs, o: Oracle)
    requires h.state.StartConnect?
    ensures KeptBy(env, h, StartConnectNext(env, h, o))
  {
    hide Hashed, HashedNext, Tags, TagOf, Authentic, ServerFlow, ClientFlow, OwnFinish, PeerFinish;
    if Inv(env, h) && o.ok {
      var m := Message(ClientHello, o.bodies(ClientHello));
      QueueKeeps(env, h, m);
      assert Tags(h.log) == [];
    }
  }

  lemma AfterEnterEarlyData(env: Env, h: Hs, g: Hs)
    requires Inv(env, h) && !h.params.tls13 && h.state.EnterEarlyData?
    requires g.state == if env.dtls then ReadHelloVerifyRequest else ReadServerHello
    requires g.params == h.params && g.seen == h.seen && (g.pending == h.pending || h.params.early)
    requires Advanced(env, h, g, Tags(h.log) + Opt(!env.dtls && h.params.early, [W]), true)
    ensures Inv(env, g)
  {
    hide Tags, Bound, ServerFlow, ClientFlow, OwnFinish, PeerFinish;
    assert [Out(ClientHello)] + Opt(false, [In(HelloVerifyRequest), Out(ClientHello)]) == [Out(ClientHello)];
    assert [Out(ClientHello)] + Opt(false, [W]) == [Out(ClientHello)];
  }

  lemma EnterEarlyDataKeeps(env: Env, h: Hs, o: Oracle)
    requires h.state.EnterEarlyData?
    ensures KeptBy(env, h, EnterEarlyDataNext(env, h, o))
  {
    hide Inv, Hashed, Tags, Bound, FlagsOk;
    var out := EnterEarlyDataNext(env, h, o);
    if Inv(env, h) && out.wait != Error {
      Holds(env, h);
      CipherKeeps(env, h, WriteCipher);
      AfterEnterEarlyData(env, h, Resolved(out));
    }
  }

  lemma AfterReadHelloVerifyRequest(env: Env, h: Hs, g: Hs)
    requires Inv(env, h) && !h.params.tls13 && h.state.ReadHelloVerifyRequest? && g.state == ReadServerHello
    requires g.params == h.params && g.seen == h.seen.(verify := g.seen.verify)
    requires g.pending == h.pending || g.pending == []
    requires Advanced(env, h, g, Tags(h.log) + Opt(g.seen.verify, [In(HelloVerifyRequest), Out(ClientHello)]), true)
    ensures Inv(env, g)
  {
    hide Tags, Bound, ServerFlow, ClientFlow, OwnFinish, PeerFinish;
  }

  lemma ReadHelloVerifyRequestKeeps(env: Env, h: Hs, o: Oracle)
    requires h.state.ReadHelloVerifyRequest?
    ensures KeptBy(env, h, ReadHelloVerifyRequestNext(env, h, o))
  {
    hide Inv, Hashed, Tags, Bound;
    var out := ReadHelloVerifyRequestNext(env, h, o);
    if Inv(env, h) && (out.wait == Ok || out.wait == Flush) {
      Holds(env, h);
      if h.incoming[0].kind == HelloVerifyRequest {
        ResetKeeps(env, h);
        var h1 := Dropped(h).(transcript := Fresh(), seen := h.seen.(verify := true));
        QueueKeeps(env, h1, Message(ClientHello, o.bodies(ClientHello)));
      }
      AfterReadHelloVerifyRequest(env, h, Resolved(out));
    }
  }

  lemma AfterReadServerHello(env: Env, h: Hs, g: Hs)
    requires Inv(env, h) && !h.params.tls13 && h.state.ReadServerHello? && !h.params.early
    requires g.state == if g.session then ReadSessionTicket else ReadServerCertificate
    requires g.seen == h.seen && g.pending == h.pending
    requires !g.params.tls13 && !g.params.early && g.params.request == h.params.request
    requires Tags(g.log) == Tags(h.log) + [In(ServerHello)] && Bound(env, g.transcript, g.log)
    requires g.transcript.hash.Some? && (!g.session && g.params.certAuth ==> g.transcript.buffer.Some?)
    ensures Inv(env, g)
  {
    hide Tags, Bound, ServerFlow, ClientFlow, OwnFinish, PeerFinish;
  }

  lemma ReadServerHelloKeeps(env: Env, h: Hs, o: Oracle)
    requires h.state.ReadServerHello?
    ensures KeptBy(env, h, ReadServerHelloNext(env, h, o))
  {
    hide Inv, Hashed, Tags, Bound, FlagsOk, ServerHelloSettled;
    var out := ReadServerHelloNext(env, h, o);
    if Inv(env, h) && out.wait == Ok {
      Holds(env, h);
      if o.tls13 {
        InTls13(env, h, out.hs);
      } else {
        var h1 := ServerHelloSettled(env, h, o);
        StartKeeps(env, h);
        TakeKeeps(env, h1);
        FreeKeeps(env, Take(h1));
        AfterReadServerHello(env, h, out.hs);
      }
    }
  }

  lemma AfterReadServerCertificate(env: Env, h: Hs, g: Hs)
    requires Inv(env, h) && !h.params.tls13 && h.state.ReadServerCertificate?
    requires g.state == ReadCertificateStatus
    requires g.params == h.params && g.seen == h.seen && g.pending == h.pending
    requires Advanced(env, h, g, Tags(h.log) + Opt(h.params.certAuth, [In(Certificate)]), true)
    ensures Inv(env, g)
  {
    hide Tags, Bound, HelloFlow, ServerFlow, ClientFlow, OwnFinish, PeerFinish;
  }

  lemma ReadServerCertificateKeeps(env: Env, h: Hs, o: Oracle)
    requires h.state.ReadServerCertificate?
    ensures KeptBy(env, h, ReadServerCertificateNext(h, o))
  {
    hide Inv, Hashed, Tags, Bound, Absorbed, FlagsOk, NeedsBuffer;
    var out := ReadServerCertificateNext(h, o);
    if Inv(env, h) && out.wait == Ok {
      Holds(env, h);
      if h.params.certAuth {
        TakeKeeps(env, h);
      }
      AfterReadServerCertificate(env, h, Resolved(out));
    }
  }

  lemma AfterReadCertificateStatus(env: Env, h: Hs, g: Hs)
    requires Inv(env, h) && !h.params.tls13 && h.state.ReadCertificateStatus?
    requires g.state == VerifyServerCertificate
    requires g.params == h.params && g.seen == h.seen.(status := g.seen.status) && g.pending == h.pending
    requires Advanced(env, h, g, Tags(h.log) + Opt(g.seen.status, [In(CertificateStatus)]), true)
    ensures Inv(env, g)
  {
    hide Tags, Bound, HelloFlow, ServerFlow, ClientFlow, OwnFinish, PeerFinish;
  }

  lemma ReadCertificateStatusKeeps(env: Env, h: Hs, o: Oracle)
    requires h.state.ReadCertificateStatus?
    ensures KeptBy(env, h, ReadCertificateStatusNext(h, o))
  {
    hide Inv, Hashed, Tags, Bound, Absorbed, NeedsBuffer;
    var out := ReadCertificateStatusNext(h, o);
    if Inv(env, h) && out.wait == Ok {
      Holds(env, h);
      if h.params.status && h.incoming[0].kind == CertificateStatus {
        TakeKeeps(env, h);
      }
      AfterReadCertificateStatus(env, h, Resolved(out));
    }
  }

  lemma AfterVerifyServerCertificate(env: Env, h: Hs, g: Hs)
    requires Inv(env, h) && !h.params.tls13 && h.state.VerifyServerCertificate?
    requires g.state == ReadServerKeyExchange
    requires g.params == h.params && g.seen == h.seen.(verified := g.seen.verified) && g.pending == h.pending
    requires Advanced(env, h, g, Tags(h.log), true)
    ensures Inv(env, g)
  {
    hide Tags, Bound, HelloFlow, ServerFlow, ClientFlow, OwnFinish, PeerFinish;
  }

  lemma VerifyServerCertificateKeeps(env: Env, h: Hs, o: Oracle)
    requires h.state.VerifyServerCertificate?
    ensures KeptBy(env, h, VerifyServerCertificateNext(h, o))
  {
    hide Inv, Hashed, Tags, Bound, Absorbed, FlagsOk, NeedsBuffer;
    var out := VerifyServerCertificateNext(h, o);
    if Inv(env, h) && out.wait == Ok {
      Holds(env, h);
      AfterVerifyServerCertificate(env, h, Resolved(out));
    }
  }

  lemma AfterReadServerKeyExchange(env: Env, h: Hs, g: Hs)
    requires Inv(env, h) && !h.params.tls13 && h.state.ReadServerKeyExchange?
    requires g.state == ReadCertificateRequest
    requires g.params == h.params && g.seen == h.seen.(keyExchange := g.seen.keyExchange) && g.pending == h.pending
    requires Advanced(env, h, g, Tags(h.log) + Opt(g.seen.keyExchange, [In(ServerKeyExchange)]), true)
    ensures Inv(env, g)
  {
    hide Tags, Bound, HelloFlow, ServerFlow, ClientFlow, OwnFinish, PeerFinish;
  }

  lemma ReadServerKeyExchangeKeeps(env: Env, h: Hs, o: Oracle)
    requires h.state.ReadServerKeyExchange?
    ensures KeptBy(env, h, ReadServerKeyExchangeNext(h, o))
  {
    hide Inv, Hashed, Tags, Bound, Absorbed, NeedsBuffer;
    var out := ReadServerKeyExchangeNext(h, o);
    if Inv(env, h) && out.wait == Ok {
      Holds(env, h);
      if h.incoming[0].kind == ServerKeyExchange {
        TakeKeeps(env, h);
      }
      AfterReadServerKeyExchange(env, h, Resolved(out));
    }
  }

  lemma AfterReadCertificateRequest(env: Env, h: Hs, g: Hs)
    requires Inv(env, h) && !h.params.tls13 && h.state.ReadCertificateRequest?
    requires g.state == ReadServerHelloDone
    requires g.params == h.params.(request := g.params.request) && g.seen == h.seen && g.pending == h.pending
    requires Advanced(env, h, g, Tags(h.log) + Opt(g.params.request, [In(CertificateRequest)]), g.params.request)
    requires g.params.request ==> h.params.certAuth
    ensures Inv(env, g)
  {
    hide Tags, Bound, HelloFlow, ClientFlow, OwnFinish, PeerFinish;
  }

  lemma ReadCertificateRequestKeeps(env: Env, h: Hs, o: Oracle)
    requires h.state.ReadCertificateRequest?
    ensures KeptBy(env, h, ReadCertificateRequestNext(h, o))
  {
    hide Inv, Hashed, Tags, Bound, Absorbed, NeedsBuffer;
    var out := ReadCertificateRequestNext(h, o);
    if Inv(env, h) && out.wait == Ok {
      Holds(env, h);
      FreeKeeps(env, h);
      if h.params.certAuth && h.incoming[0].kind == CertificateRequest {
        TakeKeeps(env, h);
      }
      AfterReadCertificateRequest(env, h, Resolved(out));
    }
  }

  lemma AfterReadServerHelloDone(env: Env, h: Hs, g: Hs)
    requires Inv(env, h) && !h.params.tls13 && h.state.ReadServerHelloDone?
    requires g.state == SendClientCertificate
    requires g.params == h.params && g.seen == h.seen && g.pending == h.pending
    requires Advanced(env, h, g, Tags(h.log) + [In(ServerHelloDone)], true)
    ensures Inv(env, g)
  {
    hide Tags, Bound, HelloFlow, ServerFlow, ClientFlow, OwnFinish, PeerFinish;
  }

  lemma ReadServerHelloDoneKeeps(env: Env, h: Hs, o: Oracle)
    requires h.state.ReadServerHelloDone?
    ensures KeptBy(env, h, ReadServerHelloDoneNext(h, o))
  {
    hide Inv, Hashed, Tags, Bound, Absorbed, FlagsOk, NeedsBuffer;
    var out := ReadServerHelloDoneNext(h, o);
    if Inv(env, h) && out.wait == Ok {
      Holds(env, h);
      TakeKeeps(env, h);
      AfterReadServerHelloDone(env, h, Resolved(out));
    }
  }

  lemma AfterSendClientCertificate(env: Env, h: Hs, g: Hs)
    requires Inv(env, h) && !h.params.tls13 && h.state.SendClientCertificate?
    requires g.state == SendClientKeyExchange
    requires g.params == h.params.(hasCert := g.params.hasCert) && g.seen == h.seen
    requires Advanced(env, h, g, Tags(h.log) + Opt(h.params.request, [Out(Certificate)]), g.params.hasCert)
    ensures Inv(env, g)
  {
    hide Tags, Bound, HelloFlow, ServerFlow, ClientFlow, OwnFinish, PeerFinish;
  }

  lemma SendClientCertificateDoes(env: Env, h: Hs, o: Oracle)
    requires h.params.request && SendClientCertificateNext(h, o).wait == Ok && Bound(env, h.transcript, h.log)
    ensures
      var g := Resolved(SendClientCertificateNext(h, o));
      && g.state == SendClientKeyExchange && g.seen == h.seen && g.params == h.params.(hasCert := g.params.hasCert)
      && Advanced(env, h, g, Tags(h.log) + [Out(Certificate)], g.params.hasCert)
  {
    hide Hashed, Tags, Bound, Absorbed, Queue;
    var h1 := h.(params := h.params.(hasCert := o.hasCert));
    FreeKeeps(env, h1);
    QueueKeeps(env, if o.hasCert then h1 else Free(h1), Message(Certificate, o.bodies(Certificate)));
  }

  lemma SendClientCertificateKeeps(env: Env, h: Hs, o: Oracle)
    requires h.state.SendClientCertificate?
    ensures KeptBy(env, h, SendClientCertificateNext(h, o))
  {
    hide Inv, Bound, FlagsOk, NeedsBuffer;
    var out := SendClientCertificateNext(h, o);
    if Inv(env, h) && out.wait == Ok {
      Holds(env, h);
      if h.params.request {
        SendClientCertificateDoes(env, h, o);
        hide Advanced, SendClientCertificateNext, Resolved;
        AfterSendClientCertificate(env, h, Resolved(out));
      } else {
        AfterSendClientCertificate(env, h, h.(state := SendClientKeyExchange));
      }
    }
  }

  lemma AfterSendClientKeyExchange(env: Env, h: Hs, g: Hs)
    requires Inv(env, h) && !h.params.tls13 && h.state.SendClientKeyExchange?
    requires g.state == SendClientCertificateVerify
    requires g.params == h.params && g.seen == h.seen
    requires Advanced(env, h, g, Tags(h.log) + [Out(ClientKeyExchange)], true)
    ensures Inv(env, g)
  {
    hide Tags, Bound, HelloFlow, ServerFlow, ClientFlow, OwnFinish, PeerFinish;
  }

  lemma SendClientKeyExchangeKeeps(env: Env, h: Hs, o: Oracle)
    requires h.state.SendClientKeyExchange?
    ensures KeptBy(env, h, SendClientKeyExchangeNext(h, o))
  {
    hide Inv, Hashed, Tags, Bound, Absorbed, FlagsOk, NeedsBuffer;
    var out := SendClientKeyExchangeNext(h, o);
    if Inv(env, h) && out.wait == Ok {
      Holds(env, h);
      QueueKeeps(env, h, Message(ClientKeyExchange, o.bodies(ClientKeyExchange)));
      AfterSendClientKeyExchange(env, h, Resolved(out));
    }
  }

  lemma AfterSendClientCertificateVerify(env: Env, h: Hs, g: Hs)
    requires Inv(env, h) && !h.params.tls13 && h.state.SendClientCertificateVerify?
    requires g.state == SendClientFinished
    requires g.params == h.params && g.seen == h.seen
    requires Advanced(env, h, g, Tags(h.log)
      + Opt(h.params.request && h.params.hasCert, [Out(CertificateVerify)]), false)
    ensures Inv(env, g)
  {
    hide Tags, Bound, HelloFlow, ServerFlow, OwnFinish, PeerFinish;
  }

  lemma SendClientCertificateVerifyKeeps(env: Env, h: Hs, o: Oracle)
    requires h.state.SendClientCertificateVerify?
    ensures KeptBy(env, h, SendClientCertificateVerifyNext(env, h, o))
  {
    hide Inv, Hashed, Tags, Bound, Absorbed, FlagsOk;
    var out := SendClientCertificateVerifyNext(env, h, o);
    if Inv(env, h) && out.wait == Ok {
      Holds(env, h);
      if h.params.request && h.params.hasCert {
        var m := Message(CertificateVerify, env.sign(Span(h.transcript.buffer)));
        SpanCovers(env, h);
        QueueKeeps(env, h, m);
        FreeKeeps(env, Queue(h, m));
      }
      AfterSendClientCertificateVerify(env, h, Resolved(out));
    }
  }

  /** The client's last flight: key change, optional messages, Finished. */
  lemma OwnFinishParts(env: Env, h: Hs, o: Oracle)
    requires h.transcript.hash.Some? && Bound(env, h.transcript, h.log) && o.ok
    requires !(h.params.channelId && o.retry)
    ensures
      var g := SendClientFinishedNext(env, h, o).hs;
      && Tags(g.log) == OwnFinish(Tags(h.log), h.params.nextProto, h.params.channelId)
      && Bound(env, g.transcript, g.log) && SameParts(h, g.(state := h.state)) && g.state == FinishFlight
  {
    hide Hashed, HashedNext, Tags, Bound, Absorbed;
    var m, n := Message(NextProto, o.bodies(NextProto)), Message(ChannelId, o.bodies(ChannelId));
    CipherKeeps(env, h, WriteCipher);
    QueueKeeps(env, ChangeWrite(h), m);
    var h1 := QueueIf(ChangeWrite(h), h.params.nextProto, m);
    QueueKeeps(env, h1, n);
    var h2 := QueueIf(h1, h.params.channelId, n);
    SpanCovers(env, h2);
    QueueKeeps(env, h2, Message(Finished, env.mac(Span(h2.transcript.hash), env.server)));
  }

  lemma AfterSendClientFinished(env: Env, h: Hs, g: Hs)
    requires Inv(env, h) && !h.params.tls13 && h.state.SendClientFinished?
    requires g.state == FinishFlight
    requires g.params == h.params && g.seen == h.seen && g.pending == []
    requires Advanced(env, h, g, OwnFinish(Tags(h.log), h.params.nextProto, h.params.channelId), false)
    ensures Inv(env, g)
  {
    hide Tags, Bound, HelloFlow, ServerFlow, ClientFlow, PeerFinish;
  }

  lemma SendClientFinishedKeeps(env: Env, h: Hs, o: Oracle)
    requires h.state.SendClientFinished?
    ensures KeptBy(env, h, SendClientFinishedNext(env, h, o))
  {
    hide Inv, Hashed, Tags, Bound, Absorbed, FlagsOk, NeedsBuffer, Queue, QueueIf, QueueFinished, ChangeWrite,
      OwnFinish;
    var out := SendClientFinishedNext(env, h, o);
    if Inv(env, h) && out.wait == Flush {
      Holds(env, h);
      OwnFinishParts(env, h, o);
      AfterSendClientFinished(env, h, Resolved(out));
    }
  }

  lemma AfterFinishFlight(env: Env, h: Hs, g: Hs)
    requires Inv(env, h) && !h.params.tls13 && h.state.FinishFlight?
    requires g.state == if h.session then FinishClientHandshake else ReadSessionTicket
    requires g.params == h.params && g.seen == h.seen && g.pending == h.pending
    requires Advanced(env, h, g, Tags(h.log), false)
    ensures Inv(env, g)
  {
    hide Tags, Bound, HelloFlow, ServerFlow, ClientFlow, OwnFinish, PeerFinish;
  }

  lemma FinishFlightKeeps(env: Env, h: Hs, o: Oracle)
    requires h.state.FinishFlight?
    ensures KeptBy(env, h, FinishFlightNext(env, h, o))
  {
    hide Inv, Hashed, Tags, Bound, Absorbed, FlagsOk, NeedsBuffer;
    var out := FinishFlightNext(env, h, o);
    if Inv(env, h) && out.wait != Error {
      Holds(env, h);
      AfterFinishFlight(env, h, Resolved(out));
    }
  }

  lemma AfterReadSessionTicket(env: Env, h: Hs, g: Hs)
    requires Inv(env, h) && !h.params.tls13 && h.state.ReadSessionTicket?
    requires g.state == ProcessChangeCipherSpec
    requires g.params == h.params.(ticket := g.params.ticket) && g.seen == h.seen.(ticket := g.seen.ticket)
    requires g.pending == h.pending
    requires Advanced(env, h, g, Tags(h.log) + Opt(g.seen.ticket, [In(NewSessionTicket)]) + [C], false)
    ensures Inv(env, g)
  {
    hide Tags, Bound, HelloFlow, ServerFlow, ClientFlow, OwnFinish, PeerFinish, Hellos, ServerFlight, ClientFlight,
      FullFlow, ResumedFlow;
    SameBeforePeer(env, h, g);
  }

  lemma ReadSessionTicketKeeps(env: Env, h: Hs, o: Oracle)
    requires h.state.ReadSessionTicket?
    ensures KeptBy(env, h, ReadSessionTicketNext(h, o))
  {
    hide Inv, Hashed, Tags, Bound, Absorbed, NeedsBuffer, Take;
    var out := ReadSessionTicketNext(h, o);
    if Inv(env, h) && out.wait == WaitCcs {
      Holds(env, h);
      if h.params.ticket {
        TakeKeeps(env, h);
      }
      CipherKeeps(env, out.hs, ReceivedCcs);
      AfterReadSessionTicket(env, h, Resolved(out));
    }
  }

  lemma AfterProcessChangeCipherSpec(env: Env, h: Hs, g: Hs)
    requires Inv(env, h) && !h.params.tls13 && h.state.ProcessChangeCipherSpec?
    requires g.state == ReadServerFinished
    requires g.params == h.params && g.seen == h.seen && g.pending == h.pending
    requires Advanced(env, h, g, Tags(h.log) + [R], false)
    ensures Inv(env, g)
  {
    hide Tags, Bound, HelloFlow, ServerFlow, ClientFlow, OwnFinish, PeerFinish;
  }

  lemma ProcessChangeCipherSpecKeeps(env: Env, h: Hs, o: Oracle)
    requires h.state.ProcessChangeCipherSpec?
    ensures KeptBy(env, h, ProcessChangeCipherSpecNext(h, o))
  {
    hide Inv, Hashed, Tags, Bound, Absorbed, FlagsOk, NeedsBuffer;
    var out := ProcessChangeCipherSpecNext(h, o);
    if Inv(env, h) && out.wait == Ok {
      Holds(env, h);
      CipherKeeps(env, h, ReadCipher);
      AfterProcessChangeCipherSpec(env, h, Resolved(out));
    }
  }

  lemma AfterReadServerFinished(env: Env, h: Hs, g: Hs)
    requires Inv(env, h) && !h.params.tls13 && h.state.ReadServerFinished?
    requires g.state == if h.session then SendClientFinished else FinishClientHandshake
    requires g.params == h.params && g.seen == h.seen && g.pending == h.pending
    requires Advanced(env, h, g, Tags(h.log) + [In(Finished)], false)
    ensures Inv(env, g)
  {
    hide Tags, Bound, HelloFlow, ServerFlow, ClientFlow, OwnFinish;
  }

  lemma ReadServerFinishedKeeps(env: Env, h: Hs, o: Oracle)
    requires h.state.ReadServerFinished?
    ensures KeptBy(env, h, ReadServerFinishedNext(env, h, o))
  {
    hide Inv, Hashed, Tags, Bound, Absorbed, FlagsOk, NeedsBuffer;
    var out := ReadServerFinishedNext(env, h, o);
    if Inv(env, h) && out.wait == Ok {
      Holds(env, h);
      SpanCovers(env, h);
      TakeKeeps(env, h);
      AfterReadServerFinished(env, h, Resolved(out));
    }
  }

  lemma AfterFinishClientHandshake(env: Env, h: Hs, g: Hs)
    requires Inv(env, h) && !h.params.tls13 && h.state.FinishClientHandshake?
    requires g.state == Done
    requires g.params == h.params && g.seen == h.seen && g.pending == h.pending
    requires Advanced(env, h, g, Tags(h.log), false)
    ensures Inv(env, g)
  {
    hide Tags, Bound, HelloFlow, ServerFlow, ClientFlow, OwnFinish, PeerFinish;
  }

  lemma FinishClientHandshakeKeeps(env: Env, h: Hs, o: Oracle)
    requires h.state.FinishClientHandshake?
    ensures KeptBy(env, h, FinishClientHandshakeNext(h, o))
  {
    hide Inv, Hashed, Tags, Bound, Absorbed, FlagsOk, NeedsBuffer;
    var out := FinishClientHandshakeNext(h, o);
    if Inv(env, h) && h.params.tls13 {
      InTls13(env, h, out.hs);
    } else if Inv(env, h) && !h.params.tls13 && out.wait == Ok {
      Holds(env, h);
      AfterFinishClientHandshake(env, h, Resolved(out));
    }
  }

  lemma Tls13Keeps(env: Env, h: Hs, o: Oracle)
    requires h.state.Tls13?
    ensures KeptBy(env, h, Tls13Next(h, o))
  {
    hide Tags, Flow, Rest;
  }

  /** Every step, with what the transport does before the next one, keeps the invariant. */
  lemma NextKeeps(env: Env, h: Hs, o: Oracle)
    requires Inv(env, h) && Next(env, h, o).wait != Error
    ensures Inv(env, Resolved(Next(env, h, o)))
  {
    hide Flow, Rest, Tags;
    hide StartConnectNext, EnterEarlyDataNext, ReadHelloVerifyRequestNext, ReadServerHelloNext, Tls13Next,
      ReadServerCertificateNext, ReadCertificateStatusNext, VerifyServerCertificateNext, ReadServerKeyExchangeNext,
      ReadCertificateRequestNext;
    hide ReadServerHelloDoneNext, SendClientCertificateNext, SendClientKeyExchangeNext,
      SendClientCertificateVerifyNext, SendClientFinishedNext, FinishFlightNext, ReadSessionTicketNext,
      ProcessChangeCipherSpecNext, ReadServerFinishedNext, FinishClientHandshakeNext;
    match h.state
    case StartConnect => StartConnectKeeps(env, h, o);
    case EnterEarlyData => EnterEarlyDataKeeps(env, h, o);
    case ReadHelloVerifyRequest => ReadHelloVerifyRequestKeeps(env, h, o);
    case ReadServerHello => ReadServerHelloKeeps(env, h, o);
    case Tls13 => Tls13Keeps(env, h, o);
    case ReadServerCertificate => ReadServerCertificateKeeps(env, h, o);
    case ReadCertificateStatus => ReadCertificateStatusKeeps(env, h, o);
    case VerifyServerCertificate => VerifyServerCertificateKeeps(env, h, o);
    case ReadServerKeyExchange => ReadServerKeyExchangeKeeps(env, h, o);
    case ReadCertificateRequest => ReadCertificateRequestKeeps(env, h, o);
    case ReadServerHelloDone => ReadServerHelloDoneKeeps(env, h, o);
    case SendClientCertificate => SendClientCertificateKeeps(env, h, o);
    case SendClientKeyExchange => SendClientKeyExchangeKeeps(env, h, o);
    case SendClientCertificateVerify => SendClientCertificateVerifyKeeps(env, h, o);
    case SendClientFinished => SendClientFinishedKeeps(env, h, o);
    case FinishFlight => FinishFlightKeeps(env, h, o);
    case ReadSessionTicket => ReadSessionTicketKeeps(env, h, o);
    case ProcessChangeCipherSpec => ProcessChangeCipherSpecKeeps(env, h, o);
    case ReadServerFinished => ReadServerFinishedKeeps(env, h, o);
    case FinishClientHandshake => FinishClientHandshakeKeeps(env, h, o);
    case _ =>
  }

  /** The hash is there when a Finished message is made or checked, and the buffer when the hash starts
      and when the transcript is signed. */
  lemma StateReady(env: Env, h: Hs)
    requires Inv(env, h)
    ensures h.state.ReadServerHello? ==> h.transcript.buffer.Some?
    ensures h.state.SendClientFinished? || h.state.ReadServerFinished? ==> h.transcript.hash.Some?
    ensures h.state.SendClientCertificateVerify? && h.params.request && h.params.hasCert ==>
      h.transcript.buffer == Some(Hashed(h.log))
  {
    hide Hashed, Tags, Flow, Authentic;
  }

  /** Only the last state has no step left. */
  lemma RankPositive(env: Env, h: Hs)
    requires Inv(env, h) && !h.state.Done?
    ensures Rank(h.session, h.state) > 0
  {
    hide Flow, Tags, Bound;
  }

  /** The rank falls with the state, a step that asks to go on has changed the state, and only a step
      that does not send waits for the peer. */
  ghost predicate Falls(h: Hs, out: Outcome) {
    out.wait != Error ==>
      && (out.hs.state != h.state ==> Rank(out.hs.session, out.hs.state) < Rank(h.session, h.state))
      && (out.hs.state == h.state ==> out.hs.session == h.session)
      && (out.wait == Ok && Rank(h.session, h.state) > 0 ==> out.hs.state != h.state)
      && (AwaitsPeer(out.wait) && !h.state.Tls13? ==> out.hs.pending == h.pending && !Sending(h.state, h.session))
  }

  lemma HelloFalls(env: Env, h: Hs, o: Oracle)
    requires h.state.StartConnect? || h.state.EnterEarlyData? || h.state.ReadHelloVerifyRequest?
    ensures Falls(h, Next(env, h, o))
  {
    hide Absorbed, Span, HashStarted, BufferFreed, Fresh;
  }

  lemma ServerHelloFalls(env: Env, h: Hs, o: Oracle)
    requires h.state.ReadServerHello?
    ensures Falls(h, Next(env, h, o))
  {
    hide Absorbed, Span, HashStarted, BufferFreed, Fresh;
  }

  lemma ServerCertificateFalls(env: Env, h: Hs, o: Oracle)
    requires h.state.ReadServerCertificate? || h.state.ReadCertificateStatus? || h.state.VerifyServerCertificate?
    ensures Falls(h, Next(env, h, o))
  {
    hide Absorbed, Span, HashStarted, BufferFreed, Fresh;
  }

  lemma KeyExchangeFalls(env: Env, h: Hs, o: Oracle)
    requires h.state.ReadServerKeyExchange?
    ensures Falls(h, Next(env, h, o))
  {
    hide Absorbed, Span, HashStarted, BufferFreed, Fresh;
  }

  lemma ServerFlightFalls(env: Env, h: Hs, o: Oracle)
    requires h.state.ReadCertificateRequest? || h.state.ReadServerHelloDone?
    ensures Falls(h, Next(env, h, o))
  {
    hide Absorbed, Span, HashStarted, BufferFreed, Fresh;
  }

  lemma ClientFlightFalls(env: Env, h: Hs, o: Oracle)
    requires h.state.SendClientCertificate? || h.state.SendClientKeyExchange? || h.state.SendClientCertificateVerify?
    ensures Falls(h, Next(env, h, o))
  {
    hide Absorbed, Span, HashStarted, BufferFreed, Fresh;
  }

  lemma FinishFalls(env: Env, h: Hs, o: Oracle)
    requires h.state.SendClientFinished? || h.state.FinishFlight? || h.state.ReadSessionTicket?
    ensures Falls(h, Next(env, h, o))
  {
    hide Absorbed, Span, HashStarted, BufferFreed, Fresh;
  }

  lemma PeerFalls(env: Env, h: Hs, o: Oracle)
    requires h.state.ProcessChangeCipherSpec? || h.state.ReadServerFinished?
    ensures Falls(h, Next(env, h, o))
  {
    hide Absorbed, Span, HashStarted, BufferFreed, Fresh;
  }

  lemma EndFalls(env: Env, h: Hs, o: Oracle)
    requires h.state.Tls13? || h.state.FinishClientHandshake?
    ensures Falls(h, Next(env, h, o))
  {
    hide Absorbed, Span, HashStarted, BufferFreed, Fresh;
  }

  lemma NothingLeft(env: Env, h: Hs, o: Oracle)
    requires Rank(h.session, h.state) == 0
    ensures Next(env, h, o) == Outcome(h, Ok)
  {
  }

  /** The machine cannot turn in a circle, and it never waits for the peer with a message unsent. */
  lemma RankFalls(env: Env, h: Hs, o: Oracle)
    requires Next(env, h, o).wait != Error
    ensures var out := Next(env, h, o);
      && (out.hs.state != h.state ==> Rank(out.hs.session, out.hs.state) < Rank(h.session, h.state))
      && (out.hs.state == h.state ==> out.hs.session == h.session)
      && (out.wait == Ok && Rank(h.session, h.state) > 0 ==> out.hs.state != h.state)
      && (AwaitsPeer(out.wait) && Inv(env, h) && !h.params.tls13 && !h.params.early ==> out.hs.pending == [])
  {
    hide Next;
    match h.state
    case StartConnect | EnterEarlyData | ReadHelloVerifyRequest =>
      HelloFalls(env, h, o);
    case ReadServerHello => ServerHelloFalls(env, h, o);
    case ReadServerCertificate | ReadCertificateStatus | VerifyServerCertificate =>
      ServerCertificateFalls(env, h, o);
    case ReadServerKeyExchange => KeyExchangeFalls(env, h, o);
    case ReadCertificateRequest | ReadServerHelloDone => ServerFlightFalls(env, h, o);
    case SendClientCertificate | SendClientKeyExchange | SendClientCertificateVerify =>
      ClientFlightFalls(env, h, o);
    case SendClientFinished | FinishFlight | ReadSessionTicket =>
      FinishFalls(env, h, o);
    case ProcessChangeCipherSpec | ReadServerFinished => PeerFalls(env, h, o);
    case Tls13 | FinishClientHandshake => EndFalls(env, h, o);
    case _ => NothingLeft(env, h, o);
  }

  lemma HelloCounts(verify: bool, dtls: bool, x: Tag)
    requires Key(x)
    ensures Count(HelloFlow(dtls, false, verify) + [In(ServerHello)], x) == 0
  {
    CountPlus(HelloFlow(dtls, false, verify), [In(ServerHello)], x);
    CountPlus([Out(ClientHello)],
      if dtls then Opt(verify, [In(HelloVerifyRequest), Out(ClientHello)]) else Opt(false, [W]), x);
  }

  lemma FlightCounts(
    hello: seq<Tag>, certAuth: bool, status: bool, keyExchange: bool, request: bool, hasCert: bool, x: Tag)
    requires Key(x)
    ensures Count(ClientFlow(ServerFlow(hello, certAuth, status, keyExchange, request), request, hasCert), x)
      == Count(hello, x)
  {
    hide Count;
    var a := hello + Opt(certAuth, [In(Certificate)]);
    var b := a + Opt(status, [In(CertificateStatus)]);
    var c := b + Opt(keyExchange, [In(ServerKeyExchange)]);
    var d := c + Opt(request, [In(CertificateRequest)]);
    var e := d + [In(ServerHelloDone)];
    var f := e + Opt(request, [Out(Certificate)]);
    var g := f + [Out(ClientKeyExchange)];
    NoKey(hello, certAuth, In(Certificate), x);
    NoKey(a, status, In(CertificateStatus), x);
    NoKey(b, keyExchange, In(ServerKeyExchange), x);
    NoKey(c, request, In(CertificateRequest), x);
    NoKey(d, true, In(ServerHelloDone), x);
    NoKey(e, request, Out(Certificate), x);
    NoKey(f, true, Out(ClientKeyExchange), x);
    NoKey(g, request && hasCert, Out(CertificateVerify), x);
  }

  lemma OwnCounts(before: seq<Tag>, nextProto: bool, channelId: bool, x: Tag)
    requires Key(x)
    ensures Count(OwnFinish(before, nextProto, channelId), x)
         == Count(before, x) + if x == W || x == Out(Finished) then 1 else 0
  {
    var a := before + [W];
    var b := a + Opt(nextProto, [Out(NextProto)]);
    var c := b + Opt(channelId, [Out(ChannelId)]);
    CountPlus(before, [W], x);
    NoKey(a, nextProto, Out(NextProto), x);
    NoKey(b, channelId, Out(ChannelId), x);
    CountPlus(c, [Out(Finished)], x);
  }

  lemma PeerCounts(before: seq<Tag>, ticket: bool, x: Tag)
    requires Key(x)
    ensures Count(PeerFinish(before, ticket), x)
         == Count(before, x) + if x == C || x == R || x == In(Finished) then 1 else 0
  {
    var a := before + Opt(ticket, [In(NewSessionTicket)]);
    NoKey(before, ticket, In(NewSessionTicket), x);
    CountPlus(a, [C], x);
    CountPlus(a + [C], [R], x);
    CountPlus(a + [C] + [R], [In(Finished)], x);
  }

  /** A finished TLS 1.2 handshake has gone through the whole flow: the peer's Finished was received
      (and by Authentic checked) once, under new read keys; the own one was sent once, under new write
      keys; and each direction changed its keys once. */
  lemma DoneComplete(env: Env, h: Hs, x: Tag)
    requires Inv(env, h) && h.state.Done? && !h.params.tls13 && Key(x)
    ensures Tags(h.log) == if h.session then ResumedFlow(env, h) else FullFlow(env, h)
    ensures Count(Tags(h.log), x) == 1
    ensures h.transcript.hash == Some(Hashed(h.log)) && Authentic(env, h.log) && h.pending == []
  {
    hide Hashed, Authentic, Tags, Count, HelloFlow, ServerFlow, ClientFlow, OwnFinish, PeerFinish;
    var p := h.params;
    HelloCounts(h.seen.verify, env.dtls, x);
    if h.session {
      PeerCounts(Hellos(env, h), h.seen.ticket, x);
      OwnCounts(PeerFinish(Hellos(env, h), h.seen.ticket), p.nextProto, p.channelId, x);
    } else {
      FlightCounts(Hellos(env, h), p.certAuth, h.seen.status, h.seen.keyExchange, p.request, p.hasCert, x);
      OwnCounts(ClientFlight(env, h), p.nextProto, p.channelId, x);
      PeerCounts(OwnFinish(ClientFlight(env, h), p.nextProto, p.channelId), h.seen.ticket, x);
    }
  }

  lemma OwnShape(before: seq<Tag>, nextProto: bool, channelId: bool)
    ensures var t := OwnFinish(before, nextProto, channelId);
      && |before| < |t| && t[..|before|] == before && t[|t| - 1] == Out(Finished)
      && forall j :: |before| <= j < |t| ==> t[j] != In(HelloVerifyRequest)
  {
  }

  lemma PeerShape(before: seq<Tag>, ticket: bool)
    ensures var t := PeerFinish(before, ticket);
      && |before| < |t| && t[..|before|] == before && t[|t| - 1] == In(Finished)
      && forall j :: |before| <= j < |t| ==> t[j] != In(HelloVerifyRequest)
  {
  }

  /** A full handshake ends with the server's Finished, a resumed one with the client's. */
  lemma DoneShape(env: Env, h: Hs) returns (first: nat)
    requires Inv(env, h) && h.state.Done? && !h.params.tls13
    ensures h.session ==> EndsWith(h.log, first, In(Finished), Out(Finished))
    ensures !h.session ==> EndsWith(h.log, first, Out(Finished), In(Finished))
  {
    hide Hashed, Authentic, Tags, HelloFlow, ServerFlow, ClientFlow, OwnFinish, PeerFinish;
    var p, t := h.params, Tags(h.log);
    TagsAt(h.log);
    if h.session {
      var u := PeerFinish(Hellos(env, h), h.seen.ticket);
      PeerShape(Hellos(env, h), h.seen.ticket);
      OwnShape(u, p.nextProto, p.channelId);
      first := |u| - 1;
      assert t[..|u|][first] == u[first];
    } else {
      var u := OwnFinish(ClientFlight(env, h), p.nextProto, p.channelId);
      OwnShape(ClientFlight(env, h), p.nextProto, p.channelId);
      PeerShape(u, h.seen.ticket);
      first := |u| - 1;
      assert t[..|u|][first] == u[first];
    }
  }
}
