/** The saturating reference count: the lock-free version, with every interleaving of its
    atomic steps, against the version under a lock. */
module Refcount {

  const MAX := 0xffff_ffff   // CRYPTO_REFCOUNT_MAX

  datatype Op = Inc | Dec

  /** How a call ends; Zero carries the return value of dec_and_test_zero. */
  datatype Result = Done | Zero(z: bool) | Abort

  // --------------------------------------------------------------- the locked version

  /** One call under the lock: the new count and the result. */
  function Locked(c: nat, op: Op): (r: (nat, Result))
    ensures c <= MAX ==> r.0 <= MAX
  {
    match op
    case Inc => (if c < MAX then c + 1 else c, Done)
    case Dec =>
      if c == 0 then (c, Abort)
      else
        var c' := if c < MAX then c - 1 else c;
        (c', Zero(c' == 0))
  }

  /** CRYPTO_refcount_inc and CRYPTO_refcount_dec_and_test_zero between lock and unlock. */
  class LockedCount {
    var count: nat

    constructor (c: nat)
      requires c <= MAX
      ensures count == c
    {
      count := c;
    }

    method Increment()
      requires count <= MAX
      modifies this
      ensures count == Locked(old(count), Inc).0
    {
      if count < MAX { count := count + 1; }
    }

    /** aborted: the process ends. */
    method DecrementAndTestZero() returns (aborted: bool, ret: bool)
      requires count <= MAX
      modifies this
      ensures count == Locked(old(count), Dec).0
      ensures Locked(old(count), Dec).1 == if aborted then Abort else Zero(ret)
    {
      if count == 0 { return true, false; }
      if count < MAX { count := count - 1; }
      return false, count == 0;
    }
  }

  // ------------------------------------------------------------- the lock-free version

  datatype Entry = Entry(thread: nat, op: Op, result: Result)

  /** A thread outside a call, or inside one: expected is its local copy of the count, from
      the log length at which the call began; once the value read decides the outcome, at is
      the index of its entry in the log. */
  datatype Pc = Idle | Busy(op: Op, expected: nat, from: nat, at: int)

  /** A finished call: it began at log length from, ended at log length to, and took effect
      as log entry at. */
  datatype Call = Call(thread: nat, op: Op, result: Result, from: nat, at: nat, to: nat)

  /** log and calls are history variables. */
  datatype State = State(count: nat, pcs: map<nat, Pc>, crashed: bool, log: seq<Entry>, calls: seq<Call>)

  /** Start: enter a call with its atomic load. Try: the next loop test and, if reached, the
      weak compare-and-exchange, which may fail spuriously. */
  datatype Event = Start(thread: nat, op: Op) | Try(thread: nat, spurious: bool)

  function PcOf(s: State, t: nat): Pc {
    if t in s.pcs then s.pcs[t] else Idle
  }

  /** The value just read already fixes the outcome: a saturated count, or zero to a decrement. */
  function Decided(op: Op, v: nat): bool { v == MAX || (op.Dec? && v == 0) }

  /** Reading the count into expected, by the load or by a failed exchange. */
  function Read(s: State, t: nat, op: Op, from: nat): State {
    if Decided(op, s.count) then
      s.(pcs := s.pcs[t := Busy(op, s.count, from, |s.log|)],
         log := s.log + [Entry(t, op, Locked(s.count, op).1)])
    else s.(pcs := s.pcs[t := Busy(op, s.count, from, -1)])
  }

  function Return(s: State, t: nat, op: Op, result: Result, from: nat, at: nat): State {
    s.(pcs := s.pcs[t := Idle], calls := s.calls + [Call(t, op, result, from, at, |s.log|)])
  }

  predicate Enabled(s: State, e: Event) {
    && !s.crashed
    && match e
       case Start(t, _) => PcOf(s, t).Idle?
       case Try(t, _) => PcOf(s, t).Busy?
  }

  function Step(s: State, e: Event): State
    requires Enabled(s, e)
  {
    match e
    case Start(t, op) => Read(s, t, op, |s.log|)
    case Try(t, spurious) =>
      var Busy(op, expected, from, at) := PcOf(s, t);
      if op.Dec? && expected == 0 then
        Return(s, t, op, Abort, from, if at >= 0 then at else 0).(crashed := true)
      else if expected == MAX then
        Return(s, t, op, if op.Inc? then Done else Zero(false), from, if at >= 0 then at else 0)
      else if s.count == expected && !spurious then
        var value := if op.Inc? then expected + 1 else expected - 1;
        var result := if op.Inc? then Done else Zero(value == 0);
        var s' := s.(count := value, log := s.log + [Entry(t, op, result)]);
        Return(s', t, op, result, from, |s.log|)
      else Read(s, t, op, from)
  }

  // ------------------------------------------------------------------- linearisation

  /** The log run through the locked version: the final count, if all results agree. */
  function Replay(c: nat, log: seq<Entry>): (r: (nat, bool))
    decreases |log|
  {
    if log == [] then (c, true)
    else
      var before := Replay(c, log[..|log| - 1]);
      var e := log[|log| - 1];
      (Locked(before.0, e.op).0, before.1 && e.result == Locked(before.0, e.op).1)
  }

  ghost predicate PcOk(s: State, t: nat, pc: Pc) {
    pc.Busy? ==>
      && pc.expected <= MAX && pc.from <= |s.log|
      && (Decided(pc.op, pc.expected) <==> pc.at >= 0)
      && (pc.expected == MAX ==> s.count == MAX)
      && (pc.at >= 0 ==>
            && pc.from <= pc.at < |s.log|
            && s.log[pc.at] == Entry(t, pc.op, Locked(pc.expected, pc.op).1))
  }

  /** A finished call took effect once, between its beginning and its end. */
  ghost predicate CallOk(log: seq<Entry>, c: Call) {
    c.from <= c.at < c.to <= |log| && log[c.at] == Entry(c.thread, c.op, c.result)
  }

  ghost predicate Inv(c0: nat, s: State) {
    && s.count <= MAX && Replay(c0, s.log) == (s.count, true)
    && (forall t :: t in s.pcs ==> PcOk(s, t, s.pcs[t]))
    && (forall k :: 0 <= k < |s.calls| ==> CallOk(s.log, s.calls[k]))
    && Accounted(s)
  }

  /** Log entries and calls match one to one: an entry belongs to a finished call or to the
      decided call a thread is still in, and to no other. */
  ghost predicate Accounted(s: State) {
    && (forall i, j :: 0 <= i < j < |s.calls| ==> s.calls[i].at != s.calls[j].at)
    && (forall k, t :: 0 <= k < |s.calls| && t in s.pcs && s.pcs[t].Busy? ==> s.calls[k].at != s.pcs[t].at)
    && (forall i :: 0 <= i < |s.log| ==> Owned(s, i))
  }

  ghost predicate Owned(s: State, i: nat) {
    || (exists k :: 0 <= k < |s.calls| && s.calls[k].at == i)
    || (exists t :: t in s.pcs && s.pcs[t].Busy? && s.pcs[t].at == i)
  }

  lemma ReplaySnoc(c: nat, log: seq<Entry>, e: Entry)
    ensures Replay(c, log + [e]) ==
              (Locked(Replay(c, log).0, e.op).0, Replay(c, log).1 && e.result == Locked(Replay(c, log).0, e.op).1)
  {
    assert (log + [e])[..|log|] == log;
  }

  lemma ReadAccounted(c0: nat, s: State, t: nat, op: Op, from: nat)
    requires Inv(c0, s) && (PcOf(s, t).Busy? ==> PcOf(s, t).at < 0)
    ensures Accounted(Read(s, t, op, from))
  {
    hide Replay, Locked;
    var s' := Read(s, t, op, from);
    forall i | 0 <= i < |s'.log| ensures Owned(s', i) {
      if i < |s.log| { OwnedStays(s, s', t, i); } else { assert s'.pcs[t].at == i; }
    }
    forall u | u in s.pcs && s.pcs[u].Busy? ensures s.pcs[u].at < |s.log| { assert PcOk(s, u, s.pcs[u]); }
  }

  /** Ownership survives when only a thread that owns nothing moves on. */
  lemma OwnedStays(s: State, s': State, t: nat, i: nat)
    requires i < |s.log| && Owned(s, i) && (PcOf(s, t).Busy? ==> PcOf(s, t).at != i)
    requires s'.calls == s.calls && forall u :: u in s.pcs && u != t ==> u in s'.pcs && s'.pcs[u] == s.pcs[u]
    ensures Owned(s', i)
  {
    if k :| 0 <= k < |s.calls| && s.calls[k].at == i {
      assert s'.calls[k].at == i;
    } else {
      var u :| u in s.pcs && s.pcs[u].Busy? && s.pcs[u].at == i;
      assert s'.pcs[u].at == i;
    }
  }

  lemma ReadKeeps(c0: nat, s: State, t: nat, op: Op, from: nat)
    requires Inv(c0, s) && from <= |s.log|
    requires PcOf(s, t).Busy? ==> PcOf(s, t).at < 0
    ensures Inv(c0, Read(s, t, op, from))
  {
    var s' := Read(s, t, op, from);
    ReadAccounted(c0, s, t, op, from);
    ReplaySnoc(c0, s.log, Entry(t, op, Locked(s.count, op).1));
    hide Replay, Accounted;
    forall u | u in s'.pcs ensures PcOk(s', u, s'.pcs[u]) {
      if u != t { OtherPcOk(s, s', u); } else { ReadPcOk(s, t, op, from); }
    }
  }

  lemma ReadPcOk(s: State, t: nat, op: Op, from: nat)
    requires s.count <= MAX && from <= |s.log|
    ensures var s' := Read(s, t, op, from); PcOk(s', t, s'.pcs[t])
  {
  }

  /** The log grows and the count stays: what other threads have read is still right. */
  lemma OtherPcOk(s: State, s': State, u: nat)
    requires u in s.pcs && PcOk(s, u, s.pcs[u]) && u in s'.pcs && s'.pcs[u] == s.pcs[u]
    requires s.log <= s'.log && (s.count == MAX ==> s'.count == MAX)
    ensures PcOk(s', u, s'.pcs[u])
  {
    hide Locked;
  }

  /** Returning a decided call turns its log entry over to the finished call. */
  lemma ReturnKeeps(c0: nat, s: State, t: nat)
    requires Inv(c0, s) && PcOf(s, t).Busy? && PcOf(s, t).at >= 0
    ensures var Busy(op, expected, from, at) := PcOf(s, t);
            Inv(c0, Return(s, t, op, Locked(expected, op).1, from, at))
  {
    var Busy(op, expected, from, at) := PcOf(s, t);
    var s' := Return(s, t, op, Locked(expected, op).1, from, at);
    assert PcOk(s, t, s.pcs[t]);
    forall i | 0 <= i < |s'.log| ensures Owned(s', i) {
      assert Owned(s, i);
      if i == at {
        assert s'.calls[|s.calls|].at == i;
      } else if k :| 0 <= k < |s.calls| && s.calls[k].at == i {
        assert s'.calls[k].at == i;
      } else {
        var u :| u in s.pcs && s.pcs[u].Busy? && s.pcs[u].at == i;
        assert s'.pcs[u].at == i;
      }
    }
  }

  /** A successful exchange takes effect and returns in one step. */
  lemma SwapKeeps(c0: nat, s: State, t: nat)
    requires Inv(c0, s) && PcOf(s, t).Busy? && PcOf(s, t).at < 0 && s.count == PcOf(s, t).expected
    ensures var Busy(op, expected, from, at) := PcOf(s, t);
            var (value, result) := Locked(expected, op);
            Inv(c0, Return(s.(count := value, log := s.log + [Entry(t, op, result)]), t, op, result, from, |s.log|))
  {
    var Busy(op, expected, from, at) := PcOf(s, t);
    var (value, result) := Locked(expected, op);
    var s' := Return(s.(count := value, log := s.log + [Entry(t, op, result)]), t, op, result, from, |s.log|);
    ReplaySnoc(c0, s.log, Entry(t, op, result));
    SwapAccounted(c0, s, t, s');
    hide Replay, Accounted;
    assert PcOk(s, t, s.pcs[t]);
    forall u | u in s'.pcs ensures PcOk(s', u, s'.pcs[u]) {
      if u != t { assert PcOk(s, u, s.pcs[u]); }
    }
  }

  lemma SwapAccounted(c0: nat, s: State, t: nat, s': State)
    requires Inv(c0, s) && PcOf(s, t).Busy? && PcOf(s, t).at < 0
    requires |s'.log| == |s.log| + 1 && |s'.calls| == |s.calls| + 1 && s'.calls[..|s.calls|] == s.calls
    requires s'.calls[|s.calls|].at == |s.log| && s'.pcs == s.pcs[t := Idle]
    ensures Accounted(s')
  {
    hide Replay, Locked;
    assert forall k :: 0 <= k < |s.calls| ==> s'.calls[k] == s.calls[k];
    forall k | 0 <= k < |s.calls| ensures s.calls[k].at < |s.log| { assert CallOk(s.log, s.calls[k]); }
    forall u | u in s.pcs && s.pcs[u].Busy? ensures s.pcs[u].at < |s.log| { assert PcOk(s, u, s.pcs[u]); }
    forall i | 0 <= i < |s'.log| ensures Owned(s', i) {
      if i == |s.log| {
        assert s'.calls[|s.calls|].at == i;
      } else {
        assert Owned(s, i);
        if k :| 0 <= k < |s.calls| && s.calls[k].at == i {
          assert s'.calls[k].at == i;
        } else {
          var u :| u in s.pcs && s.pcs[u].Busy? && s.pcs[u].at == i;
          assert s'.pcs[u].at == i;
        }
      }
    }
  }

  lemma StepKeeps(c0: nat, s: State, e: Event)
    requires Inv(c0, s) && Enabled(s, e)
    ensures Inv(c0, Step(s, e))
  {
    hide Replay, Accounted;
    match e
    case Start(t, op) => ReadKeeps(c0, s, t, op, |s.log|);
    case Try(t, spurious) =>
      var Busy(op, expected, from, at) := PcOf(s, t);
      assert PcOk(s, t, s.pcs[t]);
      hide Inv, Return;
      if at >= 0 {
        ReturnKeeps(c0, s, t);
        var s' := Return(s, t, op, Locked(expected, op).1, from, at);
        CrashedKeeps(c0, s');
      } else if s.count == expected && !spurious {
        SwapKeeps(c0, s, t);
      } else {
        ReadKeeps(c0, s, t, op, from);
      }
  }

  lemma CrashedKeeps(c0: nat, s: State)
    requires Inv(c0, s)
    ensures Inv(c0, s.(crashed := true))
  {
    var s' := s.(crashed := true);
    forall i | 0 <= i < |s.log| ensures Owned(s', i) { assert Owned(s, i); }
  }

  // ------------------------------------------------------------------------- runs

  function Init(c0: nat): State { State(c0, map[], false, [], []) }

  /** An interleaving: every step is enabled when it is taken. */
  predicate Legal(s: State, events: seq<Event>)
    decreases |events|
  {
    events == [] || (Enabled(s, events[0]) && Legal(Step(s, events[0]), events[1..]))
  }

  function Run(s: State, events: seq<Event>): State
    requires Legal(s, events)
    decreases |events|
  {
    if events == [] then s else Run(Step(s, events[0]), events[1..])
  }

  lemma {:induction false} RunKeeps(c0: nat, s: State, events: seq<Event>)
    requires Inv(c0, s) && Legal(s, events)
    ensures Inv(c0, Run(s, events))
    decreases |events|
  {
    if events != [] {
      StepKeeps(c0, s, events[0]);
      RunKeeps(c0, Step(s, events[0]), events[1..]);
    }
  }

  /** Linearisability: under every interleaving with spurious failures, the calls take effect
      one at a time in log order, each inside its own duration and at an entry of its own,
      with exactly the counts and results of the locked version. */
  lemma Linearises(c0: nat, events: seq<Event>)
    requires c0 <= MAX && Legal(Init(c0), events)
    ensures var s := Run(Init(c0), events);
            && Replay(c0, s.log) == (s.count, true)
            && (forall c :: c in s.calls ==> CallOk(s.log, c))
            && (forall i, j :: 0 <= i < j < |s.calls| ==> s.calls[i].at != s.calls[j].at)
            && (forall i, j :: 0 <= i < |s.calls| && 0 <= j < |s.calls| && s.calls[i].to <= s.calls[j].from ==>
                  s.calls[i].at < s.calls[j].at)
            && (forall i :: 0 <= i < |s.log| ==> Owned(s, i))
  {
    RunKeeps(c0, Init(c0), events);
    var s := Run(Init(c0), events);
    forall i, j | 0 <= i < |s.calls| && 0 <= j < |s.calls| && s.calls[i].to <= s.calls[j].from
      ensures s.calls[i].at < s.calls[j].at
    {
      assert CallOk(s.log, s.calls[i]) && CallOk(s.log, s.calls[j]);
    }
  }

  // -------------------------------------------------- what the locked version promises

  function Increments(log: seq<Entry>): nat
    decreases |log|
  {
    if log == [] then 0
    else Increments(log[..|log| - 1]) + if log[|log| - 1].op.Inc? then 1 else 0
  }

  /** Decrements that did not abort. */
  function Decrements(log: seq<Entry>): nat
    decreases |log|
  {
    if log == [] then 0
    else Decrements(log[..|log| - 1]) + if log[|log| - 1].result.Zero? then 1 else 0
  }

  /** The count before entry i. */
  function Before(c: nat, log: seq<Entry>, i: nat): nat
    requires i <= |log|
  {
    Replay(c, log[..i]).0
  }

  /** A saturated count never changes again, and an unsaturated one is exactly the initial
      count plus increments minus decrements. */
  lemma {:induction false} CountExactly(c: nat, log: seq<Entry>)
    requires c <= MAX && Replay(c, log).1
    ensures if exists i :: 0 <= i <= |log| && Before(c, log, i) == MAX then Replay(c, log).0 == MAX
            else Replay(c, log).0 == c + Increments(log) - Decrements(log)
    ensures Replay(c, log).0 <= MAX
    decreases |log|
  {
    assert log[..|log|] == log;
    if log != [] {
      var init := log[..|log| - 1];
      CountExactly(c, init);
      assert forall i :: 0 <= i < |log| ==> init[..i] == log[..i];
      if i :| 0 <= i <= |log| && Before(c, log, i) == MAX {
        if i < |log| { assert Before(c, init, i) == MAX; }
      } else {
        assert forall i :: 0 <= i < |log| ==> Before(c, init, i) == Before(c, log, i);
        assert Before(c, log, |log| - 1) != MAX && Before(c, log, |log|) != MAX;
      }
    } else {
      assert Before(c, log, 0) == c;
    }
  }

  lemma BeforeNext(c: nat, log: seq<Entry>, i: nat)
    requires i < |log| && Replay(c, log).1
    ensures Replay(c, log[..i + 1]).1
    ensures Before(c, log, i + 1) == Locked(Before(c, log, i), log[i].op).0
    ensures log[i].result == Locked(Before(c, log, i), log[i].op).1
  {
    PrefixAgrees(c, log, i + 1);
    assert log[..i + 1][..i] == log[..i];
  }

  lemma {:induction false} PrefixAgrees(c: nat, log: seq<Entry>, i: nat)
    requires i <= |log| && Replay(c, log).1
    ensures Replay(c, log[..i]).1
    decreases |log|
  {
    if i < |log| {
      PrefixAgrees(c, log[..|log| - 1], i);
      assert log[..|log| - 1][..i] == log[..i];
    } else {
      assert log[..i] == log;
    }
  }

  /** From zero, without increments, every later call aborts. */
  lemma {:induction false} ZeroIsFinal(c: nat, log: seq<Entry>, i: nat, j: nat)
    requires Replay(c, log).1 && i <= j < |log| && Before(c, log, i) == 0
    requires forall k :: 0 <= k < |log| && log[k].op.Inc? ==> Before(c, log, k) != 0
    ensures Before(c, log, j) == 0 && log[j].result == Abort
    decreases j
  {
    if i < j {
      ZeroIsFinal(c, log, i, j - 1);
      BeforeNext(c, log, j - 1);
    }
    BeforeNext(c, log, j);
  }

  /** At most one decrement reports zero if nobody increments a count of zero, under every
      interleaving of the lock-free version. */
  lemma OneZero(c0: nat, events: seq<Event>, i: nat, j: nat)
    requires c0 <= MAX && Legal(Init(c0), events)
    requires i < j < |Run(Init(c0), events).log|
    requires forall k :: 0 <= k < |Run(Init(c0), events).log| && Run(Init(c0), events).log[k].op.Inc? ==>
               Before(c0, Run(Init(c0), events).log, k) != 0
    ensures !(Run(Init(c0), events).log[i].result == Zero(true) && Run(Init(c0), events).log[j].result == Zero(true))
  {
    Linearises(c0, events);
    var log := Run(Init(c0), events).log;
    if log[i].result == Zero(true) {
      BeforeNext(c0, log, i);
      ZeroIsFinal(c0, log, i + 1, j);
    }
  }

  /** The count under every interleaving: fixed once saturated, exact until then. */
  lemma LockFreeCount(c0: nat, events: seq<Event>)
    requires c0 <= MAX && Legal(Init(c0), events)
    ensures var s := Run(Init(c0), events);
            if exists i :: 0 <= i <= |s.log| && Before(c0, s.log, i) == MAX then s.count == MAX
            else s.count == c0 + Increments(s.log) - Decrements(s.log)
  {
    Linearises(c0, events);
    CountExactly(c0, Run(Init(c0), events).log);
  }
}
