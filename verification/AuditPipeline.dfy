/**
 The audit event pipeline: producers that queue an event on a bounded channel or, when it is
 full, log it themselves under the lock; one consumer that batches events and flushes them under
 the same lock, for which it may wait while producers log; and a shutdown that flushes only the
 consumer's own batch. Producers keep using the channel while a flush is going on, so a flush is
 one step per event here.

 A run is a sequence of actions of any number of producers, the consumer and `Close`. The history
 variables `queued` and `overflowed` list the events accepted each way, in order; the position of
 an event in `overflowed` is its ticket.
 */
module AuditPipeline {
  datatype Event = Event(kind: string, success: bool, body: string)

  datatype Level = Minimal | Standard | Comprehensive

  datatype Config = Config(enabled: bool, level: Level, events: seq<string>, rate: real, bufferSize: nat)

  const CRITICAL := {"message_failed", "auth_failure", "policy_violation"}

  /** The filters of `LogAuditEvent`; `sampled` is the outcome of sampling by the clock. */
  predicate Accepts(c: Config, kind: string, sampled: bool) {
    && c.enabled
    && (|c.events| == 0 || kind in c.events)
    && match c.level
       case Comprehensive => true
       case Minimal => kind in CRITICAL
       case Standard => c.rate >= 1.0 || (c.rate > 0.0 && sampled)
  }

  // ---- Metrics ----

  datatype Metrics = Metrics(total: nat, byType: map<string, nat>, successful: nat, failed: nat)

  const ZERO := Metrics(0, map[], 0, 0)

  function Of(m: map<string, nat>, k: string): nat { if k in m then m[k] else 0 }

  /** `updateMetrics`. */
  function Record(m: Metrics, e: Event): Metrics {
    Metrics(m.total + 1, m.byType[e.kind := Of(m.byType, e.kind) + 1],
            if e.success then m.successful + 1 else m.successful,
            if e.success then m.failed else m.failed + 1)
  }

  // ---- State and steps ----

  datatype Logged = Async(event: Event) | Sync(event: Event, ticket: nat)

  datatype Consumer = Waiting | Locking(last: bool) | Flushing(next: nat, last: bool) | Stopped

  datatype State = State(
    config: Config, chan: seq<Event>, buffer: seq<Event>, consumer: Consumer, closed: bool,
    pending: set<nat>, log: seq<Logged>, metrics: Metrics, queued: seq<Event>, overflowed: seq<Event>)

  datatype Action =
    | Submit(event: Event, sampled: bool)
    | HandOver(event: Event, sampled: bool)
    | LogOverflow(ticket: nat)
    | Receive
    | TimerTick
    | TakeLock
    | FlushNext
    | FlushDone
    | Close
    | SeeShutdown

  /** Overflow logging takes and releases the lock in one step, so only a flush can hold it. */
  predicate LockFree(s: State) { !s.consumer.Flushing? }

  predicate Enabled(s: State, a: Action) {
    match a
    case Submit(_, _) => true
    case HandOver(_, _) => s.config.bufferSize == 0 && s.consumer == Waiting
    case LogOverflow(t) => t in s.pending && t < |s.overflowed| && LockFree(s)
    case Receive => s.consumer == Waiting && |s.chan| > 0
    case TimerTick => s.consumer == Waiting
    case TakeLock => s.consumer.Locking?
    case FlushNext => s.consumer.Flushing? && s.consumer.next < |s.buffer|
    case FlushDone => s.consumer.Flushing? && s.consumer.next >= |s.buffer|
    case Close => !s.closed
    case SeeShutdown => s.consumer == Waiting && s.closed
  }

  /** `logEventSynchronously` as far as it concerns the log and the counters. */
  function LogOne(s: State, l: Logged): State {
    s.(log := s.log + [l], metrics := Record(s.metrics, l.event))
  }

  function Buffered(s: State, e: Event): State {
    var s' := s.(buffer := s.buffer + [e]);
    if |s'.buffer| >= s.config.bufferSize then s'.(consumer := Locking(false)) else s'
  }

  function Apply(s: State, a: Action): State
    requires Enabled(s, a)
  {
    match a
    case Submit(e, sampled) =>
      if !Accepts(s.config, e.kind, sampled) then s
      else if |s.chan| < s.config.bufferSize then s.(chan := s.chan + [e], queued := s.queued + [e])
      else s.(pending := s.pending + {|s.overflowed|}, overflowed := s.overflowed + [e])
    case HandOver(e, sampled) =>
      if !Accepts(s.config, e.kind, sampled) then s else Buffered(s.(queued := s.queued + [e]), e)
    case LogOverflow(t) => LogOne(s, Sync(s.overflowed[t], t)).(pending := s.pending - {t})
    case Receive => Buffered(s.(chan := s.chan[1..]), s.chan[0])
    case TimerTick => if |s.buffer| > 0 then s.(consumer := Locking(false)) else s
    case TakeLock => s.(consumer := Flushing(0, s.consumer.last))
    case FlushNext =>
      LogOne(s, Async(s.buffer[s.consumer.next])).(consumer := s.consumer.(next := s.consumer.next + 1))
    case FlushDone =>
      if s.consumer.last then s.(consumer := Stopped) else s.(consumer := Waiting, buffer := [])
    case Close => s.(closed := true)
    case SeeShutdown => if |s.buffer| > 0 then s.(consumer := Locking(true)) else s.(consumer := Stopped)
  }

  predicate Feasible(s: State, run: seq<Action>)
    decreases |run|
  {
    |run| == 0 || (Enabled(s, run[0]) && Feasible(Apply(s, run[0]), run[1..]))
  }

  function After(s: State, run: seq<Action>): State
    requires Feasible(s, run)
    decreases |run|
  {
    if |run| == 0 then s else After(Apply(s, run[0]), run[1..])
  }

  function Initial(c: Config): State { State(c, [], [], Waiting, false, {}, [], ZERO, [], []) }

  ghost predicate Reachable(s: State) {
    exists c, run :: Feasible(Initial(c), run) && After(Initial(c), run) == s
  }

  // ---- Reading the log ----

  /** Events the consumer has logged, in order. */
  function AsyncEvents(log: seq<Logged>): seq<Event> {
    if |log| == 0 then []
    else
      var l := log[|log| - 1];
      AsyncEvents(log[..|log| - 1]) + (if l.Async? then [l.event] else [])
  }

  /** How often a ticket has been logged. */
  function TimesLogged(log: seq<Logged>, ticket: nat): nat {
    if |log| == 0 then 0
    else
      var l := log[|log| - 1];
      TimesLogged(log[..|log| - 1], ticket) + (if l.Sync? && l.ticket == ticket then 1 else 0)
  }

  function Tally(log: seq<Logged>): Metrics {
    if |log| == 0 then ZERO else Record(Tally(log[..|log| - 1]), log[|log| - 1].event)
  }

  /** Events the consumer holds that are not logged yet. */
  function Unflushed(s: State): seq<Event> {
    match s.consumer
    case Waiting => s.buffer
    case Locking(_) => s.buffer
    case Flushing(next, _) => if next <= |s.buffer| then s.buffer[next..] else []
    case Stopped => []
  }

  lemma LogStep(log: seq<Logged>, l: Logged)
    ensures AsyncEvents(log + [l]) == AsyncEvents(log) + (if l.Async? then [l.event] else [])
    ensures forall t :: TimesLogged(log + [l], t) == TimesLogged(log, t) + (if l.Sync? && l.ticket == t then 1 else 0)
    ensures Tally(log + [l]) == Record(Tally(log), l.event)
  {
  }

  // ---- Invariant ----

  ghost predicate QueueOk(s: State) {
    AsyncEvents(s.log) + Unflushed(s) + s.chan == s.queued
  }

  ghost predicate TicketsOk(s: State) {
    && (forall t :: t in s.pending ==> t < |s.overflowed|)
    && (forall t: nat :: TimesLogged(s.log, t) == if t < |s.overflowed| && t !in s.pending then 1 else 0)
    && (forall i :: 0 <= i < |s.log| && s.log[i].Sync? ==>
          s.log[i].ticket < |s.overflowed| && s.log[i].event == s.overflowed[s.log[i].ticket])
  }

  ghost predicate Inv(s: State) { QueueOk(s) && ShapeOk(s) && TicketsOk(s) && s.metrics == Tally(s.log) }

  /** The first event of the second part becomes the last of the first. */
  lemma MoveOver(a: seq<Event>, e: Event, b: seq<Event>, c: seq<Event>)
    ensures a + ([e] + b) + c == a + [e] + b + c
  {
  }

  lemma HandDown(a: seq<Event>, b: seq<Event>, e: Event, c: seq<Event>)
    ensures a + b + ([e] + c) == a + (b + [e]) + c
  {
  }

  lemma SubmitKeepsQueue(s: State, e: Event, sampled: bool)
    requires QueueOk(s)
    ensures QueueOk(Apply(s, Submit(e, sampled)))
  {
    assert AsyncEvents(s.log) + Unflushed(s) + (s.chan + [e]) == s.queued + [e];
  }

  lemma HandOverKeepsQueue(s: State, e: Event, sampled: bool)
    requires QueueOk(s) && Enabled(s, HandOver(e, sampled)) && s.chan == []
    ensures QueueOk(Apply(s, HandOver(e, sampled)))
  {
  }

  lemma ReceiveKeepsQueue(s: State)
    requires QueueOk(s) && Enabled(s, Receive)
    ensures QueueOk(Apply(s, Receive))
  {
    var e, rest := s.chan[0], s.chan[1..];
    assert s.chan == [e] + rest;
    assert (s.buffer + [e])[0..] == s.buffer + [e];
    HandDown(AsyncEvents(s.log), s.buffer, e, rest);
  }

  lemma FlushKeepsQueue(s: State)
    requires QueueOk(s) && Enabled(s, FlushNext)
    ensures QueueOk(Apply(s, FlushNext))
  {
    var s' := Apply(s, FlushNext);
    var e := s.buffer[s.consumer.next];
    LogStep(s.log, Async(e));
    assert Unflushed(s) == [e] + Unflushed(s');
    MoveOver(AsyncEvents(s.log), e, Unflushed(s'), s.chan);
  }

  lemma OverflowKeepsQueue(s: State, t: nat)
    requires QueueOk(s) && Enabled(s, LogOverflow(t))
    ensures QueueOk(Apply(s, LogOverflow(t)))
  {
  }

  lemma BatchKeepsQueue(s: State, a: Action)
    requires QueueOk(s) && Enabled(s, a) && (a.TimerTick? || a.TakeLock? || a.FlushDone? || a.Close? || a.SeeShutdown?)
    ensures QueueOk(Apply(s, a))
  {
  }

  lemma QueueKept(s: State, a: Action)
    requires Inv(s) && Enabled(s, a)
    ensures QueueOk(Apply(s, a))
  {
    match a
    case Submit(e, sampled) => SubmitKeepsQueue(s, e, sampled);
    case HandOver(e, sampled) => HandOverKeepsQueue(s, e, sampled);
    case LogOverflow(t) => OverflowKeepsQueue(s, t);
    case Receive => ReceiveKeepsQueue(s);
    case FlushNext => FlushKeepsQueue(s);
    case _ => BatchKeepsQueue(s, a);
  }

  lemma OverflowKeepsTickets(s: State, t: nat)
    requires TicketsOk(s) && Enabled(s, LogOverflow(t))
    ensures TicketsOk(Apply(s, LogOverflow(t)))
  {
    LogStep(s.log, Sync(s.overflowed[t], t));
  }

  lemma SubmitKeepsTickets(s: State, e: Event, sampled: bool)
    requires TicketsOk(s)
    ensures TicketsOk(Apply(s, Submit(e, sampled)))
  {
  }

  lemma FlushKeepsTickets(s: State)
    requires TicketsOk(s) && Enabled(s, FlushNext)
    ensures TicketsOk(Apply(s, FlushNext))
  {
    LogStep(s.log, Async(s.buffer[s.consumer.next]));
  }

  lemma OtherKeepsTickets(s: State, a: Action)
    requires TicketsOk(s) && Enabled(s, a) && !a.Submit? && !a.LogOverflow? && !a.FlushNext?
    ensures TicketsOk(Apply(s, a))
  {
    var s' := Apply(s, a);
    assert s'.log == s.log && s'.pending == s.pending && s'.overflowed == s.overflowed;
  }

  lemma TicketsKept(s: State, a: Action)
    requires Inv(s) && Enabled(s, a)
    ensures TicketsOk(Apply(s, a))
  {
    match a
    case Submit(e, sampled) => SubmitKeepsTickets(s, e, sampled);
    case LogOverflow(t) => OverflowKeepsTickets(s, t);
    case FlushNext => FlushKeepsTickets(s);
    case _ => OtherKeepsTickets(s, a);
  }

  lemma MetricsKept(s: State, a: Action)
    requires s.metrics == Tally(s.log) && Enabled(s, a)
    ensures Apply(s, a).metrics == Tally(Apply(s, a).log)
  {
    match a
    case LogOverflow(t) => LogStep(s.log, Sync(s.overflowed[t], t));
    case FlushNext => LogStep(s.log, Async(s.buffer[s.consumer.next]));
    case _ =>
  }

  /** The channel is within its capacity, and the consumer ends only after `Close`. */
  predicate ShapeOk(s: State) {
    && |s.chan| <= s.config.bufferSize
    && (s.consumer.Locking? && s.consumer.last ==> s.closed)
    && (s.consumer.Flushing? ==> s.consumer.next <= |s.buffer| && (s.consumer.last ==> s.closed))
    && (s.consumer == Stopped ==> s.closed)
  }

  lemma ShapeKept(s: State, a: Action)
    requires ShapeOk(s) && Enabled(s, a)
    ensures ShapeOk(Apply(s, a))
  {
  }

  lemma StepKeeps(s: State, a: Action)
    requires Inv(s) && Enabled(s, a)
    ensures Inv(Apply(s, a))
  {
    QueueKept(s, a);
    TicketsKept(s, a);
    MetricsKept(s, a);
    ShapeKept(s, a);
  }

  lemma {:induction false} RunKeeps(s: State, run: seq<Action>)
    requires Inv(s) && Feasible(s, run)
    ensures Inv(After(s, run))
    decreases |run|
  {
    if |run| > 0 {
      StepKeeps(s, run[0]);
      RunKeeps(Apply(s, run[0]), run[1..]);
    }
  }

  lemma ReachableInv(s: State)
    requires Reachable(s)
    ensures Inv(s)
  {
    var c, run :| Feasible(Initial(c), run) && After(Initial(c), run) == s;
    RunKeeps(Initial(c), run);
  }

  // ---- Guarantees ----

  /** First in, first out, nothing lost and nothing twice, at every moment of every run. */
  lemma QueueConserved(s: State)
    requires Reachable(s)
    ensures AsyncEvents(s.log) + Unflushed(s) + s.chan == s.queued
    ensures |s.chan| <= s.config.bufferSize
  {
    ReachableInv(s);
  }

  /** Every overflow event is logged exactly once by its producer, or still waits for the lock. */
  lemma OverflowLoggedOnce(s: State, ticket: nat)
    requires Reachable(s)
    ensures TimesLogged(s.log, ticket) == if ticket < |s.overflowed| && ticket !in s.pending then 1 else 0
    ensures forall i :: 0 <= i < |s.log| && s.log[i].Sync? ==>
              s.log[i].ticket < |s.overflowed| && s.log[i].event == s.overflowed[s.log[i].ticket]
  {
    ReachableInv(s);
  }

  /** Once the consumer has stopped, its log never grows again. */
  lemma {:induction false} StoppedForever(s: State, more: seq<Action>)
    requires Inv(s) && s.consumer == Stopped && Feasible(s, more)
    ensures After(s, more).consumer == Stopped
    ensures AsyncEvents(After(s, more).log) == AsyncEvents(s.log)
    decreases |more|
  {
    if |more| > 0 {
      var s' := Apply(s, more[0]);
      if more[0].LogOverflow? {
        LogStep(s.log, Sync(s.overflowed[more[0].ticket], more[0].ticket));
      }
      StepKeeps(s, more[0]);
      StoppedForever(s', more[1..]);
    }
  }

  lemma NothingAdded(a: seq<Event>, b: seq<Event>)
    ensures a == a + b <==> b == []
    ensures a + [] == a
  {
    assert |a + b| == |a| + |b|;
  }

  /**
   After shutdown the queued events never logged are exactly the contents of the channel; so
   everything queued is logged if and only if the channel is empty when the consumer stops and
   nothing is queued later.
   */
  lemma ShutdownDropsChannel(s: State, more: seq<Action>)
    requires Reachable(s) && s.consumer == Stopped && Feasible(s, more)
    ensures var s' := After(s, more);
            && AsyncEvents(s'.log) + s'.chan == s'.queued
            && AsyncEvents(s'.log) == AsyncEvents(s.log)
            && (AsyncEvents(s'.log) == s'.queued <==> s'.chan == [])
  {
    ReachableInv(s);
    StoppedForever(s, more);
    RunKeeps(s, more);
    NothingAdded(AsyncEvents(After(s, more).log), After(s, more).chan);
  }

  /** An event accepted before `Close` can be lost: a run that queues it and shuts down. */
  lemma QueuedEventCanBeLost(c: Config, e: Event) returns (s: State)
    requires c.bufferSize > 0 && Accepts(c, e.kind, true)
    ensures Reachable(s) && s.consumer == Stopped && s.queued == [e] && AsyncEvents(s.log) == []
  {
    var s0 := Initial(c);
    var run := [Submit(e, true), Close, SeeShutdown];
    var s1 := Apply(s0, run[0]);
    var s2 := Apply(s1, run[1]);
    s := Apply(s2, run[2]);
    assert run[1..] == [Close, SeeShutdown] && run[1..][1..] == [SeeShutdown] && run[1..][1..][1..] == [];
    assert Feasible(s, []) && After(s, []) == s;
    assert Feasible(s2, [SeeShutdown]) && After(s2, [SeeShutdown]) == s;
    assert Feasible(s1, run[1..]) && After(s1, run[1..]) == s;
    assert Feasible(s0, run) && After(s0, run) == s;
  }

  // ---- Counters ----

  ghost function Sum(m: map<string, nat>): nat
    decreases |m|
  {
    if m == map[] then 0
    else
      var k :| k in m;
      assert |m - {k}| < |m| by { assert m.Keys == (m - {k}).Keys + {k}; }
      m[k] + Sum(m - {k})
  }

  lemma {:induction false} SumRemove(m: map<string, nat>, k: string)
    requires k in m
    ensures Sum(m) == m[k] + Sum(m - {k})
    decreases |m|
  {
    assert m != map[];
    var j :| j in m && Sum(m) == m[j] + Sum(m - {j});
    if j != k {
      assert |m - {j}| < |m| by { assert m.Keys == (m - {j}).Keys + {j}; }
      assert |m - {k}| < |m| by { assert m.Keys == (m - {k}).Keys + {k}; }
      SumRemove(m - {j}, k);
      SumRemove(m - {k}, j);
      assert m - {j} - {k} == m - {k} - {j};
    }
  }

  lemma SumUpdate(m: map<string, nat>, k: string, v: nat)
    ensures Sum(m[k := v]) + Of(m, k) == Sum(m) + v
  {
    SumRemove(m[k := v], k);
    assert m[k := v] - {k} == m - {k};
    if k in m {
      SumRemove(m, k);
    } else {
      assert m - {k} == m;
    }
  }

  function OfKind(log: seq<Logged>, kind: string): nat {
    if |log| == 0 then 0
    else OfKind(log[..|log| - 1], kind) + (if log[|log| - 1].event.kind == kind then 1 else 0)
  }

  lemma {:induction false} TallyBalanced(log: seq<Logged>)
    ensures var m := Tally(log); m.total == |log| && m.total == m.successful + m.failed && m.total == Sum(m.byType)
    ensures forall k :: Of(Tally(log).byType, k) == OfKind(log, k)
  {
    if |log| > 0 {
      var m, e := Tally(log[..|log| - 1]), log[|log| - 1].event;
      TallyBalanced(log[..|log| - 1]);
      SumUpdate(m.byType, e.kind, Of(m.byType, e.kind) + 1);
    }
  }

  /** Total = successful + failed = sum over types = events logged, each type counted right. */
  lemma MetricsBalanced(s: State)
    requires Reachable(s)
    ensures s.metrics.total == |s.log| == s.metrics.successful + s.metrics.failed
    ensures s.metrics.total == Sum(s.metrics.byType)
    ensures forall k :: Of(s.metrics.byType, k) == OfKind(s.log, k)
  {
    ReachableInv(s);
    TallyBalanced(s.log);
  }
}
