/** ssl_run_handshake (ssl/handshake.cc): resolves what the handshake waits for and runs the machine
    again. A caller may call it any number of times. */
module TlsDriver {
  import opened TlsTypes
  import TlsClient
  import TlsServer
  import TlsRun
  import TlsClientSteps
  import TlsServerSteps

  /** What the transport does when asked to flush or to read: it would block or fails, it discards a
      record, or it succeeds, with the messages that a read has assembled. */
  datatype Transport = Blocked | Discarded | Succeeded(messages: seq<Message>)

  datatype Result = Completed | ReturnedEarly | Suspended

  /** `trace` is a run, and the handshake stands where its last step left it, waiting for w. After a
      fatal error nothing more is known, and nothing more happens. */
  ghost predicate Standing(env: Env, trace: seq<Hs>, h: Hs, w: Wait) {
    && TlsRun.Run(env, trace)
    && var last := trace[|trace| - 1];
       match w
       case Error => true
       case Ok => h == last
       case _ => TlsRun.Waiting(env, last, w, h)
  }

  lemma StartStands(env: Env, offered: bool)
    ensures Standing(env, [Start(env, offered)], Start(env, offered), Ok)
  {
  }

  /** Once the wait is resolved the run has one more point. */
  lemma ResolveStands(env: Env, trace: seq<Hs>, h: Hs, w: Wait, more: seq<Message>)
    requires Standing(env, trace, h, w) && w != Error && w != Ok
    ensures var g := TlsRun.Arrived(Resolved(Outcome(h, w)), more);
      Standing(env, trace + [g], g, Ok)
  {
    hide TlsRun.Next, Resolved, Start;
    var last := trace[|trace| - 1];
    var g := TlsRun.Arrived(Resolved(Outcome(h, w)), more);
    var o :| TlsRun.LeftBy(env, last, o, w, h);
    assert TlsRun.StepWith(env, last, o, more, g);
    var t := trace + [g];
    forall i | 0 <= i < |t| - 1 ensures TlsRun.Step(env, t[i], t[i + 1]) {
      if i < |trace| - 1 {
        assert TlsRun.Step(env, trace[i], trace[i + 1]);
      }
    }
  }

  /** A step from here fails. */
  ghost predicate Fails(env: Env, trace: seq<Hs>) {
    |trace| > 0 && FailsFrom(env, trace[|trace| - 1])
  }

  ghost predicate FailsFrom(env: Env, h: Hs) { exists o :: FailsBy(env, h, o) }

  ghost predicate FailsBy(env: Env, h: Hs, o: Oracle) { TlsRun.Next(env, h, o).wait == Error }

  /** The machine has run on. */
  lemma RanStands(env: Env, trace: seq<Hs>, h: Hs, oracle: nat -> Oracle, more: seq<Hs>, r: Wait, g: Hs)
    requires Standing(env, trace, h, Ok) && TlsRun.Ran(env, h, oracle, more, r, g)
    ensures Standing(env, trace + more[1..], g, r)
    ensures r == Ok ==> g.state.Done?
    ensures r == Error ==> Fails(env, trace + more[1..])
  {
    hide TlsRun.Next, TlsRun.Step, Start;
    var t := trace + more[1..];
    var last, o := more[|more| - 1], oracle(|more| - 1);
    assert t[|t| - 1] == last && t[0] == trace[0];
    forall i | 0 <= i < |t| - 1 ensures TlsRun.Step(env, t[i], t[i + 1]) {
      if i < |trace| - 1 {
        assert TlsRun.Step(env, trace[i], trace[i + 1]);
      } else {
        var k := i - (|trace| - 1);
        assert TlsRun.GoesOn(env, more[k], oracle(k), more[k + 1]);
        TlsRun.Goes(env, more[k], oracle(k));
      }
    }
    if r == Error {
      assert FailsBy(env, last, o);
    } else if r != Ok {
      assert TlsRun.LeftBy(env, last, o, r, g);
    }
  }

  method DoHandshake(hs: Handshake, oracle: nat -> Oracle) returns (r: Wait, ghost trace: seq<Hs>)
    requires TlsRun.Inv(hs.env, hs.View())
    modifies hs, hs.transcript
    ensures TlsRun.Ran(hs.env, old(hs.View()), oracle, trace, r, hs.View())
  {
    hide TlsClient.Inv, TlsServer.Inv, TlsRun.Ran;
    if hs.env.server {
      r, trace := TlsServerSteps.ServerHandshake(hs, oracle);
    } else {
      r, trace := TlsClientSteps.ClientHandshake(hs, oracle);
    }
  }

  /** Resolves the wait, except for callbacks. `go` says whether the machine may run again, `retry` that
      the same wait is to be tried once more. */
  method Resolve(hs: Handshake, io: Transport, ghost trace: seq<Hs>)
    returns (go: bool, retry: bool, ghost trace': seq<Hs>)
    requires Standing(hs.env, trace, hs.View(), hs.wait)
    requires hs.wait.Flush? || AwaitsPeer(hs.wait)
    modifies hs
    ensures go ==> Standing(hs.env, trace', hs.View(), Ok) && trace <= trace'
    ensures !go ==> hs.View() == old(hs.View()) && hs.wait == old(hs.wait) && trace' == trace
    ensures go == io.Succeeded? && retry == (io.Discarded? && !hs.wait.Flush?)
  {
    hide Standing;
    trace' := trace;
    go, retry := io.Succeeded?, io.Discarded? && !hs.wait.Flush?;
    if io.Succeeded? {
      ghost var h, w := hs.View(), hs.wait;
      ghost var more := if w.WaitMessage? || w.WaitServerHello? then io.messages else [];
      ResolveStands(hs.env, trace, h, w, more);
      if hs.wait.Flush? {
        hs.pending := [];
      } else if hs.wait.WaitCcs? {
        hs.log := hs.log + [ReceivedCcs];
      } else {
        hs.incoming := hs.incoming + io.messages;
      }
      assert hs.View() == TlsRun.Arrived(Resolved(Outcome(h, w)), more);
      trace' := trace + [hs.View()];
    }
  }

  /** The operation will not be tried again in this call: a read goes on after a discarded record. */
  predicate Refused(io: Transport, w: Wait) { io.Blocked? || (io.Discarded? && w.Flush?) }

  /** Why a call came back: what was waited for when it did. The transport was used up or did not deliver, a
      callback or the caller has to act and the run has gone on past that, a step failed, or the handshake is
      complete. */
  ghost predicate CameBack(
    env: Env, trace: seq<Hs>, h: Hs, wait: Wait, why: Wait, r: Result, transport: seq<Transport>, used: nat,
    failed: bool)
  {
    && used <= |transport|
    && if why == Ok then r == Completed && wait == Ok && h.state.Done?
       else if why == Error then r == Suspended && wait == Error && (failed || Fails(env, trace))
       else if why.Flush? || AwaitsPeer(why) then
         && r == Suspended && wait == why
         && (used == |transport| || (used > 0 && Refused(transport[used - 1], why)))
       else
         && r == (if why.EarlyReturn? then ReturnedEarly else Suspended) && wait == Ok
         && |trace| > 0 && Standing(env, trace[..|trace| - 1], h, why)
  }

  /** ssl_run_handshake. `oracle` says what each step of each round meets, `transport` what the successive
      transport operations do; when that is used up the next one blocks. */
  method RunHandshake(hs: Handshake, oracle: (nat, nat) -> Oracle, transport: seq<Transport>, ghost trace: seq<Hs>)
    returns (r: Result, ghost trace': seq<Hs>, ghost why: Wait, ghost used: nat)
    requires Standing(hs.env, trace, hs.View(), hs.wait)
    modifies hs, hs.transcript
    ensures Standing(hs.env, trace', hs.View(), hs.wait) && trace <= trace'
    ensures CameBack(hs.env, trace', hs.View(), hs.wait, why, r, transport, used, old(hs.wait) == Error)
    ensures r == Completed ==> hs.state.Done? && hs.wait == Ok
    ensures old(hs.wait) == Error ==> r == Suspended && hs.wait == Error && hs.View() == old(hs.View())
  {
    hide Standing, Fails;
    trace' := trace;
    var n, round := 0, 0;
    while true
      invariant Standing(hs.env, trace', hs.View(), hs.wait) && trace <= trace'
      invariant 0 <= n <= |transport| && round >= 0
      invariant hs.wait == Error ==> old(hs.wait) == Error
      invariant old(hs.wait) == Error ==> hs.wait == Error && hs.View() == old(hs.View())
      decreases |transport| - n, if hs.wait == Ok then 1 else 0
    {
      why, used := hs.wait, n;
      if hs.wait == Error {
        return Suspended, trace', why, used;
      }
      if hs.wait.Flush? || AwaitsPeer(hs.wait) {
        if n == |transport| {
          return Suspended, trace', why, used;
        }
        var go, retry;
        ghost var t := trace';
        go, retry, trace' := Resolve(hs, transport[n], t);
        n := n + 1;
        if !go {
          if retry {
            continue;
          }
          return Suspended, trace', why, n;
        }
      } else if hs.wait != Ok {
        // A callback or the caller has to act first.
        r := if hs.wait.EarlyReturn? then ReturnedEarly else Suspended;
        ResolveStands(hs.env, trace', hs.View(), hs.wait, []);
        assert TlsRun.Arrived(Resolved(Outcome(hs.View(), hs.wait)), []) == hs.View();
        hs.wait := Ok;
        ghost var before := trace';
        trace' := trace' + [hs.View()];
        assert trace'[..|trace'| - 1] == before;
        return;
      }
      RunsOn(hs.env, trace', hs.View());
      ghost var h := hs.View();
      var w;
      ghost var more;
      ghost var here := (step: nat) => oracle(round, step);
      w, more := DoHandshake(hs, (step: nat) => oracle(round, step));
      RanStands(hs.env, trace', h, (step: nat) => oracle(round, step), more, w, hs.View());
      round := round + 1;
      hs.wait := w;
      trace' := trace' + more[1..];
      if w == Error {
        return Suspended, trace', Error, n;
      }
      if w == Ok {
        return Completed, trace', Ok, n;
      }
    }
  }

  /** A new handshake, driven once. It starts in agreement with the laws over runs, so whatever later
      calls of RunHandshake do is covered by them; one that completes has sent and received each Finished
      once, each over all messages before it, with nothing left unsent. */
  method Connect(env: Env, offered: bool, oracle: (nat, nat) -> Oracle, transport: seq<Transport>)
    returns (hs: Handshake, r: Result, ghost trace: seq<Hs>, ghost why: Wait, ghost used: nat)
    ensures fresh(hs) && fresh(hs.transcript) && hs.env == env
    ensures [Start(env, offered)] <= trace && Standing(env, trace, hs.View(), hs.wait)
    ensures r == Completed && !hs.params.tls13 ==>
              && hs.state.Done? && hs.pending == [] && Authentic(env, hs.log)
              && (TlsRun.Judges(env, hs.View()) ==> hs.seen.verified)
              && forall x :: Key(x) ==> Count(Tags(hs.log), x) == 1
    ensures CameBack(env, trace, hs.View(), hs.wait, why, r, transport, used, false)
  {
    hide Standing, Authentic, Tags, Count;
    hs := new Handshake(env, offered);
    trace := [Start(env, offered)];
    StartStands(env, offered);
    r, trace, why, used := RunHandshake(hs, oracle, transport, trace);
    if r == Completed && !hs.params.tls13 {
      CompletedDone(env, trace, hs.View());
    }
  }

  lemma CompletedDone(env: Env, trace: seq<Hs>, h: Hs)
    requires Standing(env, trace, h, Ok) && h.state.Done? && !h.params.tls13
    ensures h.pending == [] && Authentic(env, h.log) && (TlsRun.Judges(env, h) ==> h.seen.verified)
    ensures forall x :: Key(x) ==> Count(Tags(h.log), x) == 1
  {
    TlsRun.DoneComplete(env, trace, |trace| - 1, W);
    forall x | Key(x) ensures Count(Tags(h.log), x) == 1 {
      TlsRun.DoneComplete(env, trace, |trace| - 1, x);
    }
  }

  lemma RunsOn(env: Env, trace: seq<Hs>, h: Hs)
    requires Standing(env, trace, h, Ok)
    ensures TlsRun.Inv(env, h)
  {
    hide TlsRun.Inv;
    TlsRun.RunInv(env, trace, |trace| - 1);
  }
}
