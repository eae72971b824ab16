/** The procedures of ssl/handshake_server.cc: one per state, and the loop that drives them. Each is
    proved to do the step of TlsServer that its state calls for. */
module TlsServerSteps {
  import opened Common
  import opened TlsTypes
  import opened TlsServer
  import TlsRun

  method DoStartAccept(hs: Handshake, o: Oracle) returns (r: Wait)
    modifies hs, hs.transcript
    ensures Matches(hs, StartAcceptNext(old(hs.View()), o), r)
  {
    hs.state := ReadClientHello;
    r := Ok;
  }

  method DoReadClientHello(hs: Handshake, o: Oracle) returns (r: Wait)
    modifies hs, hs.transcript
    ensures Matches(hs, ReadClientHelloNext(old(hs.View()), o), r)
  {
    var msg := hs.GetMessage();
    if msg.None? {
      return WaitMessage;
    }
    if msg.value.kind != ClientHello {
      return Error;
    }
    if o.handoff {
      return Handoff;
    }
    if o.retry {
      return CertificateSelection;
    }
    if !o.ok {
      return Error;
    }
    hs.params := hs.params.(tls13 := o.tls13, nextProto := o.nextProto, channelId := o.channelId);
    hs.state := SelectCertificate;
    r := Ok;
  }

  method DoSelectCertificate(hs: Handshake, o: Oracle) returns (r: Wait)
    modifies hs, hs.transcript
    ensures Matches(hs, SelectCertificateNext(old(hs.View()), o), r)
  {
    var msg := hs.GetMessage();
    if msg.None? {
      return WaitMessage;
    }
    if o.retry {
      return X509Lookup;
    }
    if !o.ok {
      return Error;
    }
    if hs.params.tls13 {
      hs.state := Tls13;
      return Ok;
    }
    // The cipher, which CipherChoice finds.
    hs.params := hs.params.(certAuth := o.certAuth);
    hs.state := SelectParameters;
    r := Ok;
  }

  /** The TLS 1.3 machine is not part of this model; `wait13` is what it returns. */
  method DoTls13(hs: Handshake, o: Oracle) returns (r: Wait)
    modifies hs, hs.transcript
    ensures Matches(hs, Tls13Next(old(hs.View()), o), r)
  {
    if o.wait13 == Ok {
      hs.state := FinishServerHandshake;
    }
    r := o.wait13;
  }

  method SettleParameters(hs: Handshake, o: Oracle)
    requires hs.transcript.buffer.Some?
    modifies hs, hs.transcript
    ensures hs.View() == ParametersSettled(old(hs.View()), o)
  {
    // A session that is not resumable is dropped, and only a full handshake asks for a certificate.
    hs.session := o.resume;
    hs.params := hs.params.(ticket := o.ticket, request := !hs.session && o.request && hs.params.certAuth);
    hs.transcript.InitHash();
  }

  method DoSelectParameters(hs: Handshake, o: Oracle) returns (r: Wait)
    requires hs.transcript.buffer.Some?
    modifies hs, hs.transcript
    ensures Matches(hs, SelectParametersNext(old(hs.View()), o), r)
  {
    var msg := hs.GetMessage();
    if msg.None? {
      return WaitMessage;
    }
    if o.retry {
      return if o.unsealing then PendingTicket else PendingSession;
    }
    if !o.ok {
      return Error;
    }
    SettleParameters(hs, o);
    hs.HashMessage(msg.value);
    if !hs.params.request {
      hs.transcript.FreeBuffer();
    }
    hs.NextMessage();
    hs.state := SendServerHello;
    r := Ok;
  }

  method DoSendServerHello(hs: Handshake, o: Oracle) returns (r: Wait)
    modifies hs, hs.transcript
    ensures Matches(hs, SendServerHelloNext(old(hs.View()), o), r)
  {
    if !o.ok {
      return Error;
    }
    hs.params := hs.params.(status := o.status, nextProto := hs.params.nextProto && o.nextProto,
                            channelId := hs.params.channelId && o.channelId);
    hs.AddMessage(Message(ServerHello, o.bodies(ServerHello)));
    hs.state := if hs.session then SendServerFinished else SendServerCertificate;
    r := Ok;
  }

  method DoSendServerCertificate(hs: Handshake, o: Oracle) returns (r: Wait)
    modifies hs, hs.transcript
    ensures Matches(hs, SendServerCertificateNext(old(hs.View()), o), r)
  {
    if (hs.params.certAuth || o.needsKeyExchange) && !o.ok {
      return Error;
    }
    hs.params := hs.params.(needsKeyExchange := o.needsKeyExchange);
    if hs.params.certAuth {
      hs.AddMessage(Message(Certificate, o.bodies(Certificate)));
      if hs.params.status {
        hs.AddMessage(Message(CertificateStatus, o.bodies(CertificateStatus)));
      }
    }
    hs.state := SendServerKeyExchange;
    r := Ok;
  }

  method DoSendServerKeyExchange(hs: Handshake, o: Oracle) returns (r: Wait)
    modifies hs, hs.transcript
    ensures Matches(hs, SendServerKeyExchangeNext(old(hs.View()), o), r)
  {
    if !hs.params.needsKeyExchange {
      hs.state := SendServerHelloDone;
      return Ok;
    }
    if hs.params.certAuth && o.retry {
      return PrivateKeyOperation;
    }
    if !o.ok {
      return Error;
    }
    hs.params := hs.params.(needsKeyExchange := false);
    hs.seen := hs.seen.(keyExchange := true);
    hs.AddMessage(Message(ServerKeyExchange, o.bodies(ServerKeyExchange)));
    hs.state := SendServerHelloDone;
    r := Ok;
  }

  method DoSendServerHelloDone(hs: Handshake, o: Oracle) returns (r: Wait)
    modifies hs, hs.transcript
    ensures Matches(hs, SendServerHelloDoneNext(old(hs.View()), o), r)
  {
    if !o.ok {
      return Error;
    }
    if hs.params.request {
      hs.AddMessage(Message(CertificateRequest, o.bodies(CertificateRequest)));
    }
    hs.AddMessage(Message(ServerHelloDone, o.bodies(ServerHelloDone)));
    hs.state := ReadClientCertificate;
    r := Flush;
  }

  method DoReadClientCertificate(hs: Handshake, o: Oracle) returns (r: Wait)
    modifies hs, hs.transcript
    ensures Matches(hs, ReadClientCertificateNext(old(hs.View()), o), r)
  {
    if !hs.params.request {
      hs.state := VerifyClientCertificate;
      return Ok;
    }
    var msg := hs.GetMessage();
    if msg.None? {
      return WaitMessage;
    }
    if msg.value.kind != Certificate || !o.ok {
      return Error;
    }
    ghost var h1 := hs.View().(params := hs.params.(peerCert := o.peerCert));
    hs.params := hs.params.(peerCert := o.peerCert);
    r := hs.ReadMessage(o, Certificate, VerifyClientCertificate);
    assert hs.View() == Take(h1).(state := VerifyClientCertificate);
    // Without a client certificate the messages are no longer needed.
    if !hs.params.peerCert {
      hs.transcript.FreeBuffer();
    }
  }

  method DoVerifyClientCertificate(hs: Handshake, o: Oracle) returns (r: Wait)
    modifies hs, hs.transcript
    ensures Matches(hs, VerifyClientCertificateNext(old(hs.View()), o), r)
  {
    if hs.params.peerCert {
      if o.retry {
        return CertificateCheck;
      }
      hs.seen := hs.seen.(verified := o.ok && !o.retry);
      if !o.ok {
        return Error;
      }
    }
    hs.state := ReadClientKeyExchange;
    r := Ok;
  }

  method DoReadClientKeyExchange(hs: Handshake, o: Oracle) returns (r: Wait)
    modifies hs, hs.transcript
    ensures Matches(hs, ReadClientKeyExchangeNext(old(hs.View()), o), r)
  {
    var msg := hs.GetMessage();
    if msg.None? {
      return WaitMessage;
    }
    if msg.value.kind != ClientKeyExchange {
      return Error;
    }
    // The private key decrypts the premaster secret, which Pkcs1 unpads.
    if o.retry {
      return PrivateKeyOperation;
    }
    r := hs.ReadMessage(o, ClientKeyExchange, ReadClientCertificateVerify);
  }

  method DoReadClientCertificateVerify(hs: Handshake, o: Oracle) returns (r: Wait)
    modifies hs, hs.transcript
    ensures Matches(hs, ReadClientCertificateVerifyNext(hs.env, old(hs.View()), o), r)
  {
    if !hs.params.peerCert {
      hs.transcript.FreeBuffer();
      hs.state := ReadChangeCipherSpec;
      return Ok;
    }
    var msg := hs.GetMessage();
    if msg.None? {
      return WaitMessage;
    }
    if msg.value.kind != CertificateVerify || !o.ok {
      return Error;
    }
    if !hs.env.verifies(Span(hs.transcript.buffer), msg.value.body) {
      return Error;
    }
    // The signature does not cover its own message, which is hashed only now.
    hs.transcript.FreeBuffer();
    ghost var h1 := hs.View();
    assert h1 == Free(old(hs.View()));
    r := hs.ReadMessage(o, CertificateVerify, ReadChangeCipherSpec);
  }

  method DoReadChangeCipherSpec(hs: Handshake, o: Oracle) returns (r: Wait)
    modifies hs, hs.transcript
    ensures Matches(hs, ReadChangeCipherSpecNext(old(hs.View()), o), r)
  {
    hs.state := ProcessChangeCipherSpec;
    r := WaitCcs;
  }

  method DoProcessChangeCipherSpec(hs: Handshake, o: Oracle) returns (r: Wait)
    modifies hs, hs.transcript
    ensures Matches(hs, ProcessChangeCipherSpecNext(old(hs.View()), o), r)
  {
    if !o.ok {
      return Error;
    }
    hs.log := hs.log + [ReadCipher];
    hs.state := ReadNextProto;
    r := Ok;
  }

  method DoReadNextProto(hs: Handshake, o: Oracle) returns (r: Wait)
    modifies hs, hs.transcript
    ensures Matches(hs, ReadNextProtoNext(old(hs.View()), o), r)
  {
    if !hs.params.nextProto {
      hs.state := ReadChannelId;
      return Ok;
    }
    r := hs.ReadMessage(o, NextProto, ReadChannelId);
  }

  method DoReadChannelId(hs: Handshake, o: Oracle) returns (r: Wait)
    modifies hs, hs.transcript
    ensures Matches(hs, ReadChannelIdNext(old(hs.View()), o), r)
  {
    if !hs.params.channelId {
      hs.state := ReadClientFinished;
      return Ok;
    }
    r := hs.ReadMessage(o, ChannelId, ReadClientFinished);
  }

  method DoReadClientFinished(hs: Handshake, o: Oracle) returns (r: Wait)
    requires hs.transcript.hash.Some?
    modifies hs, hs.transcript
    ensures Matches(hs, ReadClientFinishedNext(hs.env, old(hs.View()), o), r)
  {
    r := hs.GetFinished(o, if hs.session then FinishServerHandshake else SendServerFinished);
  }

  method DoSendServerFinished(hs: Handshake, o: Oracle) returns (r: Wait)
    requires hs.transcript.hash.Some?
    modifies hs, hs.transcript
    ensures Matches(hs, SendServerFinishedNext(hs.env, old(hs.View()), o), r)
  {
    if !o.ok {
      return Error;
    }
    if hs.params.ticket {
      hs.AddMessage(Message(NewSessionTicket, o.bodies(NewSessionTicket)));
    }
    ghost var h1 := hs.View();
    assert h1 == QueueIf(old(hs.View()), h1.params.ticket, Message(NewSessionTicket, o.bodies(NewSessionTicket)));
    hs.ChangeWriteState();
    hs.SendFinished();
    assert hs.View() == QueueFinished(hs.env, ChangeWrite(h1));
    hs.state := if hs.session then ReadChangeCipherSpec else FinishServerHandshake;
    r := Flush;
  }

  method DoFinishServerHandshake(hs: Handshake, o: Oracle) returns (r: Wait)
    modifies hs, hs.transcript
    ensures Matches(hs, FinishServerHandshakeNext(old(hs.View()), o), r)
  {
    hs.state := Done;
    r := Ok;
  }

  /** The switch over the state. */
  method DoState(hs: Handshake, o: Oracle) returns (r: Wait)
    requires Inv(hs.env, hs.View()) && !hs.state.Done?
    modifies hs, hs.transcript
    ensures Matches(hs, Next(hs.env, old(hs.View()), o), r)
  {
    StateReady(hs.env, hs.View());
    hide Inv;
    hide StartAcceptNext, ReadClientHelloNext, SelectCertificateNext, Tls13Next, SelectParametersNext,
      SendServerHelloNext, SendServerCertificateNext, SendServerKeyExchangeNext, SendServerHelloDoneNext,
      ReadClientCertificateNext;
    hide VerifyClientCertificateNext, ReadClientKeyExchangeNext, ReadClientCertificateVerifyNext,
      ReadChangeCipherSpecNext, ProcessChangeCipherSpecNext, ReadNextProtoNext, ReadChannelIdNext,
      ReadClientFinishedNext, SendServerFinishedNext, FinishServerHandshakeNext;
    match hs.state
    case StartAccept => r := DoStartAccept(hs, o);
    case ReadClientHello => r := DoReadClientHello(hs, o);
    case SelectCertificate => r := DoSelectCertificate(hs, o);
    case Tls13 => r := DoTls13(hs, o);
    case SelectParameters => r := DoSelectParameters(hs, o);
    case SendServerHello => r := DoSendServerHello(hs, o);
    case SendServerCertificate => r := DoSendServerCertificate(hs, o);
    case SendServerKeyExchange => r := DoSendServerKeyExchange(hs, o);
    case SendServerHelloDone => r := DoSendServerHelloDone(hs, o);
    case ReadClientCertificate => r := DoReadClientCertificate(hs, o);
    case VerifyClientCertificate => r := DoVerifyClientCertificate(hs, o);
    case ReadClientKeyExchange => r := DoReadClientKeyExchange(hs, o);
    case ReadClientCertificateVerify => r := DoReadClientCertificateVerify(hs, o);
    case ReadChangeCipherSpec => r := DoReadChangeCipherSpec(hs, o);
    case ProcessChangeCipherSpec => r := DoProcessChangeCipherSpec(hs, o);
    case ReadNextProto => r := DoReadNextProto(hs, o);
    case ReadChannelId => r := DoReadChannelId(hs, o);
    case ReadClientFinished => r := DoReadClientFinished(hs, o);
    case SendServerFinished => r := DoSendServerFinished(hs, o);
    case FinishServerHandshake => r := DoFinishServerHandshake(hs, o);
    case _ => r := Ok;
  }

  /** ssl_server_handshake: steps until one has to wait or the handshake is done. `oracle` says what the
      n-th step meets. */
  method ServerHandshake(hs: Handshake, oracle: nat -> Oracle) returns (r: Wait, ghost trace: seq<Hs>)
    requires hs.env.server && Inv(hs.env, hs.View())
    modifies hs, hs.transcript
    ensures TlsRun.Ran(hs.env, old(hs.View()), oracle, trace, r, hs.View())
  {
    hide Inv, Next;
    trace := [hs.View()];
    var n := 0;
    while !hs.state.Done?
      invariant Inv(hs.env, hs.View())
      invariant |trace| > 0 && trace[0] == old(hs.View()) && trace[|trace| - 1] == hs.View()
      invariant n == |trace| - 1
      invariant forall i :: 0 <= i < n ==> TlsRun.GoesOn(hs.env, trace[i], oracle(i), trace[i + 1])
      decreases Rank(hs.session, hs.state)
    {
      ghost var h := hs.View();
      var o := oracle(n);
      r := DoState(hs, o);
      assert TlsRun.Next(hs.env, h, o) == Next(hs.env, h, o);
      if r != Ok {
        return;
      }
      NextKeeps(hs.env, h, o);
      RankFalls(hs.env, h, o);
      RankPositive(hs.env, h);
      assert TlsRun.GoesOn(hs.env, h, o, hs.View());
      trace := trace + [hs.View()];
      n := n + 1;
    }
    r := Ok;
  }
}
