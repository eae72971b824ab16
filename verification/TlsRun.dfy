/** Whole runs of a TLS 1.2 handshake, interrupted and resumed at will, and the agreement of two peers
    that have both finished. */
module TlsRun {
  import opened Common
  import opened TlsTypes
  import TlsClient
  import TlsServer
  import TlsChecks

  function Next(env: Env, h: Hs, o: Oracle): Outcome {
    if env.server then TlsServer.Next(env, h, o) else TlsClient.Next(env, h, o)
  }

  ghost predicate Inv(env: Env, h: Hs) {
    (if env.server then TlsServer.Inv(env, h) else TlsClient.Inv(env, h)) && TlsChecks.Checked(env, h)
  }

  function Rank(env: Env, h: Hs): nat {
    if env.server then TlsServer.Rank(h.session, h.state) else TlsClient.Rank(h.session, h.state)
  }

  /** From one step to the next: what the step waited for has come, and any messages may have come.
      After a fatal error there is no next step. */
  ghost predicate Step(env: Env, h: Hs, h': Hs) {
    exists o: Oracle, more: seq<Message> :: StepWith(env, h, o, more, h')
  }

  ghost predicate StepWith(env: Env, h: Hs, o: Oracle, more: seq<Message>, h': Hs) {
    var out := Next(env, h, o);
    out.wait != Error && h' == Arrived(Resolved(out), more)
  }

  function Arrived(h: Hs, more: seq<Message>): Hs {
    h.(incoming := h.incoming + more)
  }

  /** A run from a new handshake, with or without a session to offer. */
  ghost predicate Run(env: Env, trace: seq<Hs>) {
    && |trace| > 0 && (trace[0] == Start(env, true) || trace[0] == Start(env, false))
    && forall i :: 0 <= i < |trace| - 1 ==> Step(env, trace[i], trace[i + 1])
  }

  /** The machine has run from h on through `trace`, each step meeting what `oracle` says and ready to go on
      after it, and has then stopped with r, in g. */
  ghost predicate Ran(env: Env, h: Hs, oracle: nat -> Oracle, trace: seq<Hs>, r: Wait, g: Hs) {
    && |trace| > 0 && trace[0] == h
    && (forall i :: 0 <= i < |trace| - 1 ==> GoesOn(env, trace[i], oracle(i), trace[i + 1]))
    && Stopped(env, trace[|trace| - 1], oracle(|trace| - 1), r, g)
  }

  ghost predicate GoesOn(env: Env, h: Hs, o: Oracle, g: Hs) {
    !h.state.Done? && Next(env, h, o) == Outcome(g, Ok)
  }

  /** At the end of the handshake, or with what the last step came to; after a fatal error nothing is looked
      at any more. */
  ghost predicate Stopped(env: Env, last: Hs, o: Oracle, r: Wait, g: Hs) {
    if last.state.Done? then r == Ok && g == last
    else
      var out := Next(env, last, o);
      r != Ok && out.wait == r && (r != Error ==> out.hs == g)
  }

  /** There is no other way to run. */
  lemma {:induction false} RanOnce(
    env: Env, h: Hs, oracle: nat -> Oracle, t1: seq<Hs>, r1: Wait, g1: Hs, t2: seq<Hs>, r2: Wait, g2: Hs, i: nat)
    requires Ran(env, h, oracle, t1, r1, g1) && Ran(env, h, oracle, t2, r2, g2)
    ensures i < |t1| ==> i < |t2| && t1[i] == t2[i]
  {
    hide Next;
    if 0 < i < |t1| {
      RanOnce(env, h, oracle, t1, r1, g1, t2, r2, g2, i - 1);
      assert GoesOn(env, t1[i - 1], oracle(i - 1), t1[i - 1 + 1]);
      if i < |t2| { assert GoesOn(env, t2[i - 1], oracle(i - 1), t2[i - 1 + 1]); }
    }
  }

  /** A step from `last` has left g and waits for r. */
  ghost predicate Waiting(env: Env, last: Hs, r: Wait, g: Hs) {
    exists o :: LeftBy(env, last, o, r, g)
  }

  ghost predicate LeftBy(env: Env, last: Hs, o: Oracle, r: Wait, g: Hs) {
    Next(env, last, o) == Outcome(g, r)
  }

  lemma Goes(env: Env, h: Hs, o: Oracle)
    requires Next(env, h, o).wait == Ok
    ensures Step(env, h, Next(env, h, o).hs)
  {
    hide Next;
    assert StepWith(env, h, o, [], Next(env, h, o).hs);
  }

  lemma StartInv(env: Env, offered: bool)
    ensures Inv(env, Start(env, offered))
  {
    assert Tags([]) == [];
  }

  lemma ArrivalKeeps(env: Env, h: Hs, more: seq<Message>)
    requires Inv(env, h)
    ensures Inv(env, Arrived(h, more))
  {
    SameChecks(env, h, more);
    hide TlsClient.Inv, TlsServer.Inv, TlsChecks.Checked;
    if env.server {
      ServerArrival(env, h, more);
    } else {
      ClientArrival(env, h, more);
    }
  }

  lemma SameChecks(env: Env, h: Hs, more: seq<Message>)
    ensures TlsChecks.Checked(env, Arrived(h, more)) == TlsChecks.Checked(env, h)
  {
  }

  lemma ClientArrival(env: Env, h: Hs, more: seq<Message>)
    requires TlsClient.Inv(env, h)
    ensures TlsClient.Inv(env, Arrived(h, more))
  {
    hide Tags, Bound, TlsClient.Flow;
    ClientFlowSame(env, h, more);
  }

  lemma ClientFlowSame(env: Env, h: Hs, more: seq<Message>)
    ensures TlsClient.Flow(env, Arrived(h, more), h.state) == TlsClient.Flow(env, h, h.state)
  {
    hide TlsClient.HelloFlow, TlsClient.ServerFlow, TlsClient.ClientFlow, TlsClient.OwnFinish, TlsClient.PeerFinish;
  }

  lemma ServerArrival(env: Env, h: Hs, more: seq<Message>)
    requires TlsServer.Inv(env, h)
    ensures TlsServer.Inv(env, Arrived(h, more))
  {
    hide Tags, Bound, TlsServer.Flow;
    ServerFlowSame(h, more);
  }

  lemma ServerFlowSame(h: Hs, more: seq<Message>)
    ensures TlsServer.Flow(Arrived(h, more), h.state) == TlsServer.Flow(h, h.state)
  {
    hide TlsServer.ServerFlow, TlsServer.ClientFlow, TlsServer.OwnFinish, TlsServer.PeerFinish;
  }

  lemma StepKeeps(env: Env, h: Hs, h': Hs)
    requires Inv(env, h) && Step(env, h, h')
    ensures Inv(env, h')
  {
    hide TlsClient.Inv, TlsServer.Inv, TlsClient.Next, TlsServer.Next, Resolved, TlsChecks.ClientChecked,
      TlsChecks.ServerChecked;
    var o, more :| StepWith(env, h, o, more, h');
    if env.server {
      TlsServer.NextKeeps(env, h, o);
      TlsChecks.ServerKeepsChecks(env, h, o);
    } else {
      TlsClient.NextKeeps(env, h, o);
      TlsChecks.ClientKeepsChecks(env, h, o);
    }
    ArrivalKeeps(env, Resolved(Next(env, h, o)), more);
  }

  lemma {:induction false} RunInv(env: Env, trace: seq<Hs>, i: nat)
    requires Run(env, trace) && i < |trace|
    ensures Inv(env, trace[i])
  {
    hide Inv, Step, Start;
    if i == 0 {
      StartInv(env, true);
      StartInv(env, false);
    } else {
      RunInv(env, trace, i - 1);
      assert Step(env, trace[i - 1], trace[i - 1 + 1]);
      StepKeeps(env, trace[i - 1], trace[i]);
    }
  }

  /** At every point of every run the transcript covers exactly the messages queued and consumed so
      far, each once and in order, from the last HelloVerifyRequest on; and every Finished and
      CertificateVerify in the log binds the transcript before it. */
  lemma TranscriptExact(env: Env, trace: seq<Hs>, i: nat)
    requires Run(env, trace) && i < |trace| && !trace[i].params.tls13
    ensures Covers(trace[i].transcript, Hashed(trace[i].log)) && Authentic(env, trace[i].log)
    ensures trace[i].transcript.buffer.Some? || trace[i].transcript.hash.Some?
  {
    hide Hashed, Authentic, Covers, Tags, TlsClient.Flow, TlsServer.Flow, TlsChecks.Checked;
    RunInv(env, trace, i);
  }

  /** How often the state changes. */
  ghost function Changes(trace: seq<Hs>): nat {
    if |trace| <= 1 then 0
    else Changes(trace[..|trace| - 1]) + if trace[|trace| - 1].state != trace[|trace| - 2].state then 1 else 0
  }

  lemma StepFalls(env: Env, h: Hs, h': Hs)
    requires Step(env, h, h')
    ensures if h'.state == h.state then Rank(env, h') == Rank(env, h) else Rank(env, h') < Rank(env, h)
  {
    hide TlsClient.Next, TlsServer.Next, TlsClient.Rank, TlsServer.Rank;
    var o, more :| StepWith(env, h, o, more, h');
    if env.server {
      TlsServer.RankFalls(env, h, o);
    } else {
      TlsClient.RankFalls(env, h, o);
    }
  }

  /** However often a handshake is interrupted, its state changes at most 24 times. */
  lemma {:induction false} BoundedChanges(env: Env, trace: seq<Hs>)
    requires Run(env, trace)
    ensures Changes(trace) + Rank(env, trace[|trace| - 1]) <= 24
  {
    hide Step, Start, Rank;
    var n := |trace| - 1;
    if n == 0 {
      StartRank(env);
    } else {
      var init := trace[..n];
      assert forall i :: 0 <= i < |init| - 1 ==> Step(env, init[i], init[i + 1]) by {
        forall i | 0 <= i < |init| - 1 ensures Step(env, init[i], init[i + 1]) {
          assert Step(env, trace[i], trace[i + 1]);
        }
      }
      BoundedChanges(env, init);
      assert Step(env, trace[n - 1], trace[n - 1 + 1]);
      StepFalls(env, trace[n - 1], trace[n]);
    }
  }

  lemma StartRank(env: Env)
    ensures Rank(env, Start(env, true)) <= 24 && Rank(env, Start(env, false)) <= 24
  {
  }

  /** A run that reaches the end without TLS 1.3 has received and checked the peer's Finished once, sent
      its own once, received one ChangeCipherSpec and changed each direction's keys once. The peer's certificate
      has been accepted, where there is one to judge, and a key exchange message has come where the cipher
      needs one. */
  lemma DoneComplete(env: Env, trace: seq<Hs>, i: nat, x: Tag)
    requires Run(env, trace) && i < |trace| && trace[i].state.Done? && !trace[i].params.tls13 && Key(x)
    ensures Count(Tags(trace[i].log), x) == 1 && Authentic(env, trace[i].log)
    ensures trace[i].transcript.hash == Some(Hashed(trace[i].log)) && trace[i].pending == []
    ensures Judges(env, trace[i]) ==> trace[i].seen.verified
    ensures !env.server && !trace[i].session && trace[i].params.needsKeyExchange ==> trace[i].seen.keyExchange
  {
    hide TlsClient.Inv, TlsServer.Inv, Tags, Hashed, Authentic, Count, Step, Start;
    RunInv(env, trace, i);
    DoneRank(trace[i]);
    if env.server {
      TlsServer.DoneComplete(env, trace[i], x);
    } else {
      TlsClient.DoneComplete(env, trace[i], x);
    }
  }

  lemma DoneRank(h: Hs)
    requires h.state.Done?
    ensures TlsClient.Rank(h.session, h.state) == 0 && TlsServer.Rank(h.session, h.state) == 0
  {
  }

  /** The peer authenticates by a certificate: a server in a full handshake with such a cipher, a client that sent
      one. */
  predicate Judges(env: Env, h: Hs) {
    if env.server then h.params.peerCert else !h.session && h.params.certAuth
  }

  /** A client that resumes has offered the session, and does not renegotiate. */
  lemma {:induction false} ResumesOffered(env: Env, trace: seq<Hs>, i: nat)
    requires Run(env, trace) && i < |trace| && !env.server
    ensures trace[i].session ==> trace[0].session
  {
    hide Step, Start, Inv;
    if i > 0 {
      ResumesOffered(env, trace, i - 1);
      assert Step(env, trace[i - 1], trace[i - 1 + 1]);
      RunInv(env, trace, i - 1);
      if trace[i].session { OfferStays(env, trace[i - 1], trace[i]); }
    }
  }

  lemma OfferStays(env: Env, h: Hs, h': Hs)
    requires Inv(env, h) && Step(env, h, h') && !env.server && h'.session
    ensures h.session
  {
    hide TlsClient.Next, TlsClient.Inv, TlsServer.Inv, TlsChecks.Reasonable, TlsChecks.Checked;
    var o, more :| StepWith(env, h, o, more, h');
    if h.params.tls13 {
      SessionStays13(env, h, o);
    } else if h.state.Done? {
      TlsClient.NothingLeft(env, h, o);
    } else {
      TlsChecks.ClientNext(env, h, o);
    }
  }

  lemma SessionStays13(env: Env, h: Hs, o: Oracle)
    requires TlsClient.Inv(env, h) && h.params.tls13
    ensures TlsClient.Next(env, h, o).hs.session == h.session
  {
    hide Tags, Bound, TlsClient.Flow, TlsClient.Rest;
  }

  // Agreement.

  /** A message of this kind is in the transcript. */
  ghost predicate Mentions(messages: seq<Message>, k: Kind) {
    exists m :: m in messages && m.kind == k
  }

  lemma {:induction false} MentionedWasLogged(log: seq<Event>, k: Kind)
    requires Mentions(Hashed(log), k)
    ensures In(k) in Tags(log) || Out(k) in Tags(log)
  {
    if log != [] {
      var init, e := log[..|log| - 1], log[|log| - 1];
      TagsAt(log);
      assert Tags(log) == Tags(init) + [TagOf(e)];
      var m :| m in Hashed(log) && m.kind == k;
      if m in Hashed(init) {
        MentionedWasLogged(init, k);
      } else {
        assert TagOf(e) in Tags(log);
      }
    }
  }

  /** A logged message stays in the transcript until a HelloVerifyRequest. */
  lemma {:induction false} LoggedIsMentioned(log: seq<Event>, i: nat, k: Kind)
    requires i < |log| && k != HelloVerifyRequest && (TagOf(log[i]) == In(k) || TagOf(log[i]) == Out(k))
    requires forall j :: i < j < |log| ==> TagOf(log[j]) != In(HelloVerifyRequest)
    ensures Mentions(Hashed(log), k)
  {
    var init, e := log[..|log| - 1], log[|log| - 1];
    if i == |log| - 1 {
      assert Hashed(log) == Hashed(init) + [e.m];
      assert e.m in Hashed(log);
    } else {
      assert init[i] == log[i];
      LoggedIsMentioned(init, i, k);
      var m :| m in Hashed(init) && m.kind == k;
      assert TagOf(log[|log| - 1]) != In(HelloVerifyRequest);
      assert m in Hashed(log);
    }
  }

  /** Different transcripts have different Finished values. */
  ghost predicate Injective(env: Env) {
    forall a, b, f :: env.mac(a, f) == env.mac(b, f) ==> a == b
  }

  /** Every Finished received here was sent there. */
  ghost predicate FinishedFrom(log: seq<Event>, other: seq<Event>) {
    forall i :: 0 <= i < |log| && TagOf(log[i]) == In(Finished) ==> Sent(log[i].m) in other
  }

  /** The one received is the one sent, so both sides computed it over the same transcript. */
  lemma SameBefore(re: Env, r: seq<Event>, i: nat, se: Env, s: seq<Event>, j: nat)
    requires Authentic(re, r) && Authentic(se, s) && re.mac == se.mac && Injective(re) && re.server != se.server
    requires i < |r| && TagOf(r[i]) == In(Finished) && j < |s| && TagOf(s[j]) == Out(Finished)
    requires FinishedFrom(r, s) && Count(Tags(s), Out(Finished)) == 1
    ensures r[i].m == s[j].m && Hashed(r[..i]) == Hashed(s[..j])
  {
    hide Count, Hashed, Authentic;
    TagsAt(s);
    var k :| 0 <= k < |s| && s[k] == Sent(r[i].m);
    OnlyOnce(Tags(s), Out(Finished), j, k);
    AuthenticAt(re, r, i);
    AuthenticAt(se, s, j);
  }

  /** The transcript of the last Finished has the other one in it, that of the first has none. */
  lemma FirstIsBare(log: seq<Event>, first: nat, x: Tag, y: Tag)
    requires EndsWith(log, first, x, y) && Count(Tags(log), In(Finished)) == 1 && Count(Tags(log), Out(Finished)) == 1
    requires (x == In(Finished) && y == Out(Finished)) || (x == Out(Finished) && y == In(Finished))
    ensures !Mentions(Hashed(log[..first]), Finished)
    ensures Mentions(Hashed(log[..|log| - 1]), Finished)
  {
    hide Count, Hashed;
    if Mentions(Hashed(log[..first]), Finished) {
      MentionedWasLogged(log[..first], Finished);
      TagsAt(log[..first]);
      TagsAt(log);
      var k :| 0 <= k < first && (TagOf(log[k]) == In(Finished) || TagOf(log[k]) == Out(Finished));
      OnlyOnce(Tags(log), TagOf(log[k]), k, if TagOf(log[k]) == x then first else |log| - 1);
    }
    LoggedIsMentioned(log[..|log| - 1], first, Finished);
  }

  /** One side's log, as far as the agreement needs it: `resumed` says in which order the Finished
      messages come, own or peer's first. */
  ghost predicate Closed(env: Env, log: seq<Event>, first: nat, ownFirst: bool) {
    && Authentic(env, log) && Count(Tags(log), In(Finished)) == 1 && Count(Tags(log), Out(Finished)) == 1
    && if ownFirst then EndsWith(log, first, Out(Finished), In(Finished))
       else EndsWith(log, first, In(Finished), Out(Finished))
  }

  lemma LogsAgree(ce: Env, c: seq<Event>, i: nat, ownFirst: bool, se: Env, s: seq<Event>, j: nat, peerFirst: bool)
    requires ce.server != se.server && ce.mac == se.mac && Injective(ce)
    requires Closed(ce, c, i, ownFirst) && Closed(se, s, j, !peerFirst)
    requires FinishedFrom(c, s) && FinishedFrom(s, c)
    ensures ownFirst == peerFirst && Hashed(c) == Hashed(s)
  {
    hide Count, Hashed, Authentic, Tags, Injective, Mentions, FinishedFrom;
    var cOwn, cPeer := if ownFirst then i else |c| - 1, if ownFirst then |c| - 1 else i;
    var sOwn, sPeer := if peerFirst then |s| - 1 else j, if peerFirst then j else |s| - 1;
    SameBefore(ce, c, cPeer, se, s, sOwn);
    SameMac(ce, se);
    SameBefore(se, s, sPeer, ce, c, cOwn);
    FirstIsBare(c, i, TagOf(c[i]), TagOf(c[|c| - 1]));
    FirstIsBare(s, j, TagOf(s[j]), TagOf(s[|s| - 1]));
    assert Mentions(Hashed(c[..cOwn]), Finished) == !ownFirst;
    assert Mentions(Hashed(s[..sPeer]), Finished) == !peerFirst;
    LastIn(c);
    LastIn(s);
  }

  lemma DoneAgree(ce: Env, c: Hs, se: Env, s: Hs)
    requires !ce.server && se.server && ce.mac == se.mac && Injective(ce)
    requires Inv(ce, c) && c.state.Done? && !c.params.tls13
    requires Inv(se, s) && s.state.Done? && !s.params.tls13
    requires FinishedFrom(c.log, s.log) && FinishedFrom(s.log, c.log)
    ensures c.session == s.session && Hashed(c.log) == Hashed(s.log)
  {
    hide TlsClient.Inv, TlsServer.Inv, Count, Hashed, Authentic, Tags, Injective, EndsWith, FinishedFrom;
    var cf := TlsClient.DoneShape(ce, c);
    var sf := TlsServer.DoneShape(se, s);
    TlsClient.DoneComplete(ce, c, In(Finished));
    TlsClient.DoneComplete(ce, c, Out(Finished));
    TlsServer.DoneComplete(se, s, In(Finished));
    TlsServer.DoneComplete(se, s, Out(Finished));
    LogsAgree(ce, c.log, cf, !c.session, se, s.log, sf, !s.session);
  }

  /** When a client and a server with the same keys have both finished, and the Finished messages they
      accepted are the ones the other sent, they agree whether a session was resumed and on every
      message of the handshake. */
  lemma Agreement(ce: Env, client: seq<Hs>, se: Env, server: seq<Hs>)
    requires Run(ce, client) && Run(se, server) && !ce.server && se.server && ce.mac == se.mac && Injective(ce)
    requires var c, s := client[|client| - 1], server[|server| - 1];
      && c.state.Done? && !c.params.tls13 && s.state.Done? && !s.params.tls13
      && FinishedFrom(c.log, s.log) && FinishedFrom(s.log, c.log)
    ensures var c, s := client[|client| - 1], server[|server| - 1];
      c.session == s.session && Hashed(c.log) == Hashed(s.log)
  {
    hide Inv, Injective, FinishedFrom, Hashed, Step;
    RunInv(ce, client, |client| - 1);
    RunInv(se, server, |server| - 1);
    DoneAgree(ce, client[|client| - 1], se, server[|server| - 1]);
  }

  lemma SameMac(a: Env, b: Env)
    requires a.mac == b.mac && Injective(a)
    ensures Injective(b)
  {
    forall x, y, f | b.mac(x, f) == b.mac(y, f) ensures x == y {
      assert a.mac(x, f) == a.mac(y, f);
    }
  }

  lemma LastIn(log: seq<Event>)
    requires log != [] && (TagOf(log[|log| - 1]) == In(Finished) || TagOf(log[|log| - 1]) == Out(Finished))
    ensures Hashed(log) == Hashed(log[..|log| - 1]) + [log[|log| - 1].m]
  {
  }
}
