/** The procedures of ssl/handshake_client.cc: one per state, and the loop that drives them. Each is
    proved to do the step of TlsClient that its state calls for. */
module TlsClientSteps {
  import opened Common
  import opened TlsTypes
  import opened TlsClient
  import TlsRun

  method DoStartConnect(hs: Handshake, o: Oracle) returns (r: Wait)
    modifies hs, hs.transcript
    ensures Matches(hs, StartConnectNext(hs.env, old(hs.View()), o), r)
  {
    if !o.ok {
      return Error;
    }
    // A session that has expired or does not fit is dropped.
    if !o.resume {
      hs.session := false;
    }
    hs.params := hs.params.(early := o.early);
    hs.AddMessage(Message(ClientHello, o.bodies(ClientHello)));
    hs.state := EnterEarlyData;
    r := Flush;
  }

  method DoEnterEarlyData(hs: Handshake, o: Oracle) returns (r: Wait)
    modifies hs, hs.transcript
    ensures Matches(hs, EnterEarlyDataNext(hs.env, old(hs.View()), o), r)
  {
    if hs.env.dtls {
      hs.state := ReadHelloVerifyRequest;
      return Ok;
    }
    if !hs.params.early {
      hs.state := ReadServerHello;
      return Ok;
    }
    if !o.ok {
      return Error;
    }
    hs.ChangeWriteState();
    hs.state := ReadServerHello;
    r := EarlyReturn;
  }

  method DoReadHelloVerifyRequest(hs: Handshake, o: Oracle) returns (r: Wait)
    modifies hs, hs.transcript
    ensures Matches(hs, ReadHelloVerifyRequestNext(hs.env, old(hs.View()), o), r)
  {
    var msg := hs.GetMessage();
    if msg.None? {
      return WaitMessage;
    }
    if msg.value.kind != HelloVerifyRequest {
      hs.state := ReadServerHello;
      return Ok;
    }
    if !o.ok {
      return Error;
    }
    hs.NextMessage();
    hs.transcript.Init();
    hs.seen := hs.seen.(verify := true);
    hs.AddMessage(Message(ClientHello, o.bodies(ClientHello)));
    hs.state := ReadServerHello;
    r := Flush;
  }

  method SettleServerHello(hs: Handshake, o: Oracle)
    requires hs.transcript.buffer.Some?
    modifies hs, hs.transcript
    ensures hs.View() == ServerHelloSettled(hs.env, old(hs.View()), o)
  {
    // The session is resumed when the server echoes its ID; it is dropped otherwise.
    if hs.env.renegotiation || !o.resume {
      hs.session := false;
    }
    hs.params := hs.params.(certAuth := o.certAuth, needsKeyExchange := o.needsKeyExchange, status := o.status,
                            ticket := o.ticket, nextProto := o.nextProto, channelId := o.channelId);
    hs.transcript.InitHash();
  }

  method ConsumeServerHello(hs: Handshake, msg: Message) returns (r: Wait)
    requires hs.incoming != [] && hs.incoming[0] == msg
    modifies hs, hs.transcript
    ensures var h := old(hs.View());
      Matches(hs, Go(if h.session || !h.params.certAuth then Free(Take(h)) else Take(h),
                     if h.session then ReadSessionTicket else ReadServerCertificate), r)
  {
    ghost var h := hs.View();
    hs.HashMessage(msg);
    // The buffer is only kept for a client certificate.
    if hs.session || !hs.params.certAuth {
      hs.transcript.FreeBuffer();
    }
    hs.NextMessage();
    hs.state := if hs.session then ReadSessionTicket else ReadServerCertificate;
    r := Ok;
  }

  method DoReadServerHello(hs: Handshake, o: Oracle) returns (r: Wait)
    requires hs.transcript.buffer.Some?
    modifies hs, hs.transcript
    ensures Matches(hs, ReadServerHelloNext(hs.env, old(hs.View()), o), r)
  {
    var msg := hs.GetMessage();
    if msg.None? {
      return WaitServerHello;
    }
    if msg.value.kind != ServerHello || !o.ok {
      return Error;
    }
    if o.tls13 {
      hs.params := hs.params.(tls13 := true);
      hs.state := Tls13;
      return Ok;
    }
    if hs.params.early {
      return Error;
    }
    SettleServerHello(hs, o);
    r := ConsumeServerHello(hs, msg.value);
  }

  /** The TLS 1.3 machine is not part of this model; `wait13` is what it returns. */
  method DoTls13(hs: Handshake, o: Oracle) returns (r: Wait)
    modifies hs, hs.transcript
    ensures Matches(hs, Tls13Next(old(hs.View()), o), r)
  {
    if o.wait13 == Ok {
      hs.state := FinishClientHandshake;
    }
    r := o.wait13;
  }

  method DoReadServerCertificate(hs: Handshake, o: Oracle) returns (r: Wait)
    modifies hs, hs.transcript
    ensures Matches(hs, ReadServerCertificateNext(old(hs.View()), o), r)
  {
    if !hs.params.certAuth {
      hs.state := ReadCertificateStatus;
      return Ok;
    }
    r := hs.ReadMessage(o, Certificate, ReadCertificateStatus);
  }

  method DoReadCertificateStatus(hs: Handshake, o: Oracle) returns (r: Wait)
    modifies hs, hs.transcript
    ensures Matches(hs, ReadCertificateStatusNext(old(hs.View()), o), r)
  {
    if !hs.params.status {
      hs.state := VerifyServerCertificate;
      return Ok;
    }
    var msg := hs.GetMessage();
    if msg.None? {
      return WaitMessage;
    }
    // The server may change its mind about sending CertificateStatus.
    if msg.value.kind != CertificateStatus {
      hs.state := VerifyServerCertificate;
      return Ok;
    }
    hs.seen := hs.seen.(status := true);
    r := hs.ReadMessage(o, CertificateStatus, VerifyServerCertificate);
  }

  method DoVerifyServerCertificate(hs: Handshake, o: Oracle) returns (r: Wait)
    modifies hs, hs.transcript
    ensures Matches(hs, VerifyServerCertificateNext(old(hs.View()), o), r)
  {
    if hs.params.certAuth {
      if o.retry {
        return CertificateCheck;
      }
      hs.seen := hs.seen.(verified := o.ok && !o.retry);
      if !o.ok {
        return Error;
      }
    }
    hs.state := ReadServerKeyExchange;
    r := Ok;
  }

  method DoReadServerKeyExchange(hs: Handshake, o: Oracle) returns (r: Wait)
    modifies hs, hs.transcript
    ensures Matches(hs, ReadServerKeyExchangeNext(old(hs.View()), o), r)
  {
    var msg := hs.GetMessage();
    if msg.None? {
      return WaitMessage;
    }
    // Some ciphers have an optional ServerKeyExchange message.
    if msg.value.kind != ServerKeyExchange {
      if hs.params.needsKeyExchange {
        return Error;
      }
      hs.state := ReadCertificateRequest;
      return Ok;
    }
    hs.seen := hs.seen.(keyExchange := true);
    r := hs.ReadMessage(o, ServerKeyExchange, ReadCertificateRequest);
  }

  method DoReadCertificateRequest(hs: Handshake, o: Oracle) returns (r: Wait)
    modifies hs, hs.transcript
    ensures Matches(hs, ReadCertificateRequestNext(old(hs.View()), o), r)
  {
    if !hs.params.certAuth {
      hs.state := ReadServerHelloDone;
      return Ok;
    }
    var msg := hs.GetMessage();
    if msg.None? {
      return WaitMessage;
    }
    if msg.value.kind == ServerHelloDone {
      hs.transcript.FreeBuffer();
      hs.state := ReadServerHelloDone;
      return Ok;
    }
    hs.params := hs.params.(request := true);
    r := hs.ReadMessage(o, CertificateRequest, ReadServerHelloDone);
  }

  method DoReadServerHelloDone(hs: Handshake, o: Oracle) returns (r: Wait)
    modifies hs, hs.transcript
    ensures Matches(hs, ReadServerHelloDoneNext(old(hs.View()), o), r)
  {
    // ServerHelloDone is empty.
    var msg := hs.GetMessage();
    r := hs.ReadMessage(o.(ok := msg.Some? && msg.value.body == []), ServerHelloDone, SendClientCertificate);
  }

  method DoSendClientCertificate(hs: Handshake, o: Oracle) returns (r: Wait)
    modifies hs, hs.transcript
    ensures Matches(hs, SendClientCertificateNext(old(hs.View()), o), r)
  {
    if !hs.params.request {
      hs.state := SendClientKeyExchange;
      return Ok;
    }
    if o.retry {
      return X509Lookup;
    }
    if !o.ok {
      return Error;
    }
    hs.params := hs.params.(hasCert := o.hasCert);
    if !hs.params.hasCert {
      hs.transcript.FreeBuffer();
    }
    hs.AddMessage(Message(Certificate, o.bodies(Certificate)));
    hs.state := SendClientKeyExchange;
    r := Ok;
  }

  method DoSendClientKeyExchange(hs: Handshake, o: Oracle) returns (r: Wait)
    modifies hs, hs.transcript
    ensures Matches(hs, SendClientKeyExchangeNext(old(hs.View()), o), r)
  {
    if !o.ok {
      return Error;
    }
    hs.AddMessage(Message(ClientKeyExchange, o.bodies(ClientKeyExchange)));
    hs.state := SendClientCertificateVerify;
    r := Ok;
  }

  method DoSendClientCertificateVerify(hs: Handshake, o: Oracle) returns (r: Wait)
    modifies hs, hs.transcript
    ensures Matches(hs, SendClientCertificateVerifyNext(hs.env, old(hs.View()), o), r)
  {
    if !hs.params.request || !hs.params.hasCert {
      hs.state := SendClientFinished;
      return Ok;
    }
    if o.retry {
      return PrivateKeyOperation;
    }
    if !o.ok {
      return Error;
    }
    hs.AddMessage(Message(CertificateVerify, hs.env.sign(Span(hs.transcript.buffer))));
    hs.transcript.FreeBuffer();
    hs.state := SendClientFinished;
    r := Ok;
  }

  method DoSendClientFinished(hs: Handshake, o: Oracle) returns (r: Wait)
    requires hs.transcript.hash.Some?
    modifies hs, hs.transcript
    ensures Matches(hs, SendClientFinishedNext(hs.env, old(hs.View()), o), r)
  {
    if hs.params.channelId && o.retry {
      return ChannelIdLookup;
    }
    if !o.ok {
      return Error;
    }
    hs.ChangeWriteState();
    if hs.params.nextProto {
      hs.AddMessage(Message(NextProto, o.bodies(NextProto)));
    }
    ghost var h1 := hs.View();
    if hs.params.channelId {
      hs.AddMessage(Message(ChannelId, o.bodies(ChannelId)));
    }
    ghost var h2 := hs.View();
    assert h2 == QueueIf(h1, h1.params.channelId, Message(ChannelId, o.bodies(ChannelId)));
    hs.SendFinished();
    assert hs.View() == QueueFinished(hs.env, h2);
    hs.state := FinishFlight;
    r := Flush;
  }

  method DoFinishFlight(hs: Handshake, o: Oracle) returns (r: Wait)
    modifies hs, hs.transcript
    ensures Matches(hs, FinishFlightNext(hs.env, old(hs.View()), o), r)
  {
    if hs.session {
      hs.state := FinishClientHandshake;
      return Ok;
    }
    if !o.ok {
      return Error;
    }
    hs.state := ReadSessionTicket;
    r := if o.falseStart && !hs.env.dtls && !hs.env.renegotiation then EarlyReturn else Ok;
  }

  method DoReadSessionTicket(hs: Handshake, o: Oracle) returns (r: Wait)
    modifies hs, hs.transcript
    ensures Matches(hs, ReadSessionTicketNext(old(hs.View()), o), r)
  {
    if !hs.params.ticket {
      hs.state := ProcessChangeCipherSpec;
      return WaitCcs;
    }
    r := hs.ReadMessage(o, NewSessionTicket, ProcessChangeCipherSpec);
    if r == Ok {
      // An empty ticket means that there is none after all.
      hs.params := hs.params.(ticket := o.ticket);
      hs.seen := hs.seen.(ticket := true);
      r := WaitCcs;
    }
  }

  method DoProcessChangeCipherSpec(hs: Handshake, o: Oracle) returns (r: Wait)
    modifies hs, hs.transcript
    ensures Matches(hs, ProcessChangeCipherSpecNext(old(hs.View()), o), r)
  {
    if !o.ok {
      return Error;
    }
    hs.log := hs.log + [ReadCipher];
    hs.state := ReadServerFinished;
    r := Ok;
  }

  method DoReadServerFinished(hs: Handshake, o: Oracle) returns (r: Wait)
    requires hs.transcript.hash.Some?
    modifies hs, hs.transcript
    ensures Matches(hs, ReadServerFinishedNext(hs.env, old(hs.View()), o), r)
  {
    r := hs.GetFinished(o, if hs.session then SendClientFinished else FinishClientHandshake);
  }

  method DoFinishClientHandshake(hs: Handshake, o: Oracle) returns (r: Wait)
    modifies hs, hs.transcript
    ensures Matches(hs, FinishClientHandshakeNext(old(hs.View()), o), r)
  {
    if !hs.session && !o.ok {
      return Error;
    }
    hs.state := Done;
    r := Ok;
  }

  /** The switch over the state. */
  method DoState(hs: Handshake, o: Oracle) returns (r: Wait)
    requires Inv(hs.env, hs.View()) && !hs.state.Done?
    modifies hs, hs.transcript
    ensures Matches(hs, Next(hs.env, old(hs.View()), o), r)
  {
    StateReady(hs.env, hs.View());
    hide Inv;
    hide StartConnectNext, EnterEarlyDataNext, ReadHelloVerifyRequestNext, ReadServerHelloNext, Tls13Next,
      ReadServerCertificateNext, ReadCertificateStatusNext, VerifyServerCertificateNext, ReadServerKeyExchangeNext,
      ReadCertificateRequestNext;
    hide ReadServerHelloDoneNext, SendClientCertificateNext, SendClientKeyExchangeNext,
      SendClientCertificateVerifyNext, SendClientFinishedNext, FinishFlightNext, ReadSessionTicketNext,
      ProcessChangeCipherSpecNext, ReadServerFinishedNext, FinishClientHandshakeNext;
    match hs.state
    case StartConnect => r := DoStartConnect(hs, o);
    case EnterEarlyData => r := DoEnterEarlyData(hs, o);
    case ReadHelloVerifyRequest => r := DoReadHelloVerifyRequest(hs, o);
    case ReadServerHello => r := DoReadServerHello(hs, o);
    case Tls13 => r := DoTls13(hs, o);
    case ReadServerCertificate => r := DoReadServerCertificate(hs, o);
    case ReadCertificateStatus => r := DoReadCertificateStatus(hs, o);
    case VerifyServerCertificate => r := DoVerifyServerCertificate(hs, o);
    case ReadServerKeyExchange => r := DoReadServerKeyExchange(hs, o);
    case ReadCertificateRequest => r := DoReadCertificateRequest(hs, o);
    case ReadServerHelloDone => r := DoReadServerHelloDone(hs, o);
    case SendClientCertificate => r := DoSendClientCertificate(hs, o);
    case SendClientKeyExchange => r := DoSendClientKeyExchange(hs, o);
    case SendClientCertificateVerify => r := DoSendClientCertificateVerify(hs, o);
    case SendClientFinished => r := DoSendClientFinished(hs, o);
    case FinishFlight => r := DoFinishFlight(hs, o);
    case ReadSessionTicket => r := DoReadSessionTicket(hs, o);
    case ProcessChangeCipherSpec => r := DoProcessChangeCipherSpec(hs, o);
    case ReadServerFinished => r := DoReadServerFinished(hs, o);
    case FinishClientHandshake => r := DoFinishClientHandshake(hs, o);
    case _ => r := Ok;
  }

  /** ssl_client_handshake: steps until one has to wait or the handshake is done. `oracle` says what the
      n-th step meets. */
  method ClientHandshake(hs: Handshake, oracle: nat -> Oracle) returns (r: Wait, ghost trace: seq<Hs>)
    requires !hs.env.server && Inv(hs.env, hs.View())
    modifies hs, hs.transcript
    ensures TlsRun.Ran(hs.env, old(hs.View()), oracle, trace, r, hs.View())
  {
    hide Inv, Next;
    trace := [hs.View()];
    var n := 0;
    while !hs.state.Done?
      invariant Inv(hs.env, hs.View())
      invariant |trace| > 0 && trace[0] == old(hs.View()) && trace[|trace| - 1] == hs.View()
      invariant n == |trace| - 1
      invariant forall i :: 0 <= i < n ==> TlsRun.GoesOn(hs.env, trace[i], oracle(i), trace[i + 1])
      decreases Rank(hs.session, hs.state)
    {
      ghost var h := hs.View();
      var o := oracle(n);
      r := DoState(hs, o);
      assert TlsRun.Next(hs.env, h, o) == Next(hs.env, h, o);
      if r != Ok {
        return;
      }
      NextKeeps(hs.env, h, o);
      RankFalls(hs.env, h, o);
      RankPositive(hs.env, h);
      assert TlsRun.GoesOn(hs.env, h, o, hs.View());
      trace := trace + [hs.View()];
      n := n + 1;
    }
    r := Ok;
  }
}
