/**
 What the lifecycle manager guarantees in every interleaving: the callback protocol of each
 registration, ownership of records in transition, and the finality of stopped and failed.
 */
module LifecycleGuarantees {
  import opened Text
  import opened LifecycleTable
  import opened Lifecycle

  /** A state some run from the empty manager reaches. */
  ghost predicate Reachable(s: System) {
    exists run :: Feasible(EMPTY, run) && After(EMPTY, run) == s
  }

  lemma ReachableInv(s: System)
    requires Reachable(s)
    ensures Inv(s)
  {
    var run :| Feasible(EMPTY, run) && After(EMPTY, run) == s;
    RunKeeps(EMPTY, run);
  }

  // ---- Callbacks ----

  function Order(call: Callback): nat {
    match call case OnInitialize => 0 case OnStart => 1 case OnStop => 2 case OnShutdown => 3
  }

  /** Invocations are in strictly rising order, so each callback is invoked at most once. */
  ghost predicate InvokedInOrder(h: seq<Signal>) {
    forall i, j :: 0 <= i < j < |h| && h[i].Invoke? && h[j].Invoke? ==> Order(h[i].call) < Order(h[j].call)
  }

  /** No callback is invoked before every earlier callback of the handler has succeeded. */
  ghost predicate InvokedAfterSuccess(h: seq<Signal>, managed: bool) {
    forall j, d :: 0 <= j < |h| && h[j].Invoke? && Makes(d, managed) && Order(d) < Order(h[j].call) ==>
      Return(d, true) in h[..j]
  }

  /** Every return follows its own invocation, and nothing follows a failure. */
  ghost predicate ReturnsMatch(h: seq<Signal>) {
    && (forall j :: 0 <= j < |h| && h[j].Return? ==> j > 0 && h[j - 1] == Invoke(h[j].call))
    && (forall j :: 0 <= j < |h| && h[j].Return? && !h[j].ok ==> j == |h| - 1)
  }

  ghost predicate OnceInOrder(h: seq<Signal>, managed: bool) {
    && InvokedInOrder(h)
    && InvokedAfterSuccess(h, managed)
    && ReturnsMatch(h)
    && forall i :: 0 <= i < |h| ==> Makes(h[i].call, managed)
  }

  /** A legal history, position by position. */
  ghost predicate Shape(h: seq<Signal>, managed: bool) {
    && |h| <= 2 * |Calls(managed)|
    && (forall i :: 0 <= i < |h| ==> h[i].call == Calls(managed)[i / 2])
    && (forall i :: 0 <= i < |h| ==> (h[i].Invoke? <==> i % 2 == 0))
    && (forall i :: 0 <= i < |h| - 1 && h[i].Return? ==> h[i].ok)
  }

  lemma ExtendedShape(managed: bool, n: nat)
    requires n < |Calls(managed)|
    ensures Shape(Rounds(managed, n) + [Invoke(Calls(managed)[n])], managed)
    ensures Shape(Rounds(managed, n) + [Invoke(Calls(managed)[n]), Return(Calls(managed)[n], false)], managed)
  {
  }

  lemma LegalShape(h: seq<Signal>, managed: bool)
    requires Legal(h, managed)
    ensures Shape(h, managed)
  {
    var n: nat :| n <= |Calls(managed)| &&
      (|| h == Rounds(managed, n)
       || (n < |Calls(managed)| &&
           (|| h == Rounds(managed, n) + [Invoke(Calls(managed)[n])]
            || h == Rounds(managed, n) + [Invoke(Calls(managed)[n]), Return(Calls(managed)[n], false)])));
    if h != Rounds(managed, n) {
      ExtendedShape(managed, n);
    }
  }

  lemma ShapeInOrder(h: seq<Signal>, managed: bool)
    requires Shape(h, managed)
    ensures InvokedInOrder(h)
  {
  }

  lemma ShapeAfterSuccess(h: seq<Signal>, managed: bool)
    requires Shape(h, managed)
    ensures InvokedAfterSuccess(h, managed)
  {
    forall j, d | 0 <= j < |h| && h[j].Invoke? && Makes(d, managed) && Order(d) < Order(h[j].call)
      ensures Return(d, true) in h[..j]
    {
      var k := 2 * Place(d, managed) + 1;
      assert k / 2 == Place(d, managed) && Calls(managed)[k / 2] == d;
      assert k < j;
      assert h[..j][k] == Return(d, true);
    }
  }

  lemma LegalIsOnceInOrder(h: seq<Signal>, managed: bool)
    requires Legal(h, managed)
    ensures OnceInOrder(h, managed)
  {
    LegalShape(h, managed);
    ShapeInOrder(h, managed);
    ShapeAfterSuccess(h, managed);
  }

  /** The history of any record at any time is legal, whoever is working on it. */
  lemma HistoriesLegal(s: System, r: nat)
    requires Inv(s) && r < |s.table.records|
    ensures Legal(History(s.trace, r), s.table.records[r].managed)
  {
    var rec := s.table.records[r];
    assert RecordOk(s, r);
    if Transitional(rec.phase) {
      var t :| Owns(s, t, r);
      assert OwnerOk(s, s.ops[t]);
      OwnerLegal(s.ops[t], rec.managed, History(s.trace, r));
    } else if rec.phase == Created {
      RoundsAreLegal(rec.managed, 0);
    } else if rec.phase != Failed {
      var k := if rec.phase == Initialized then DoInitialize else if rec.phase == Started then DoStart else DoStop;
      RoundsAreLegal(rec.managed, DoneAfter(k, rec.managed));
    }
  }

  lemma OwnerLegal(op: Operation, managed: bool, h: seq<Signal>)
    requires Owning(op) && OwnerHistory(op, managed, h)
    ensures Legal(h, managed)
  {
  }

  /** Main result on callbacks, over every interleaving of any number of operations. */
  lemma CallbacksOnceInOrder(s: System, r: nat)
    requires Reachable(s) && r < |s.table.records|
    ensures OnceInOrder(History(s.trace, r), s.table.records[r].managed)
  {
    ReachableInv(s);
    HistoriesLegal(s, r);
    LegalIsOnceInOrder(History(s.trace, r), s.table.records[r].managed);
  }

  /** A phase that claims success is backed by the successes; a life ends with all of them. */
  lemma PhasesAreEarned(s: System, r: nat, d: Callback)
    requires Reachable(s) && r < |s.table.records|
    ensures var rec := s.table.records[r];
            var h := History(s.trace, r);
            && (rec.phase == Created ==> h == [])
            && (Makes(d, rec.managed) && rec.phase == Initialized ==> (Return(d, true) in h <==> d == OnInitialize))
            && (Makes(d, rec.managed) && rec.phase == Started ==> (Return(d, true) in h <==> Order(d) <= 1))
            && (Makes(d, rec.managed) && rec.phase == Stopped ==> Return(d, true) in h)
  {
    ReachableInv(s);
    var rec, h := s.table.records[r], History(s.trace, r);
    assert RecordOk(s, r);
    if Makes(d, rec.managed) && rec.phase in {Initialized, Started, Stopped} {
      var k := if rec.phase == Initialized then DoInitialize else if rec.phase == Started then DoStart else DoStop;
      RoundsContain(rec.managed, DoneAfter(k, rec.managed), d);
    }
  }

  lemma RoundsContain(managed: bool, n: nat, d: Callback)
    requires n <= |Calls(managed)| && Makes(d, managed)
    ensures Return(d, true) in Rounds(managed, n) <==> Place(d, managed) < n
  {
    var k := Place(d, managed);
    if k < n {
      assert Rounds(managed, n)[2 * k + 1] == Return(Calls(managed)[k], true);
    }
    if Return(d, true) in Rounds(managed, n) {
      var i :| 0 <= i < 2 * n && Rounds(managed, n)[i] == Return(d, true);
      assert i / 2 < n && Calls(managed)[i / 2] == d;
    }
  }

  // ---- Ownership ----

  /** A record is in transition exactly when one operation owns it, and then only one does. */
  lemma OwnedExactlyInTransition(s: System, r: nat)
    requires Reachable(s) && r < |s.table.records|
    ensures Transitional(s.table.records[r].phase) <==> exists t :: Owns(s, t, r)
    ensures forall t, u :: Owns(s, t, r) && Owns(s, u, r) ==> t == u
  {
    ReachableInv(s);
    assert RecordOk(s, r);
    forall t | Owns(s, t, r) ensures Transitional(s.table.records[r].phase) {
      assert OwnerOk(s, s.ops[t]);
    }
  }

  /**
   Until its last state write, an operation's record is still the one the map holds under its
   ID, so the write by ID in `setFailedState` and a write through the pointer are the same write.
   */
  lemma WritesHitOwnRecord(s: System, t: nat, reason: string)
    requires Reachable(s) && t in s.ops && Owning(s.ops[t])
    ensures var op := s.ops[t];
            && WellFormed(s.table)
            && op.record < |s.table.records|
            && Registered(s, op.record)
            && s.table.records[op.record].phase == Busy(op.kind)
            && SetFailed(s.table, op.id, reason) == SetPhase(s.table, op.record, Failed, Some(reason))
  {
    ReachableInv(s);
    assert OwnerOk(s, s.ops[t]);
  }

  /** An error is recorded exactly on failed records. */
  lemma ErrorExactlyWhenFailed(s: System, r: nat)
    requires Reachable(s) && r < |s.table.records|
    ensures s.table.records[r].phase == Failed <==> s.table.records[r].error.Some?
  {
    ReachableInv(s);
    assert RecordOk(s, r);
  }

  // ---- Finality ----

  lemma TerminalStep(s: System, a: Action, r: nat)
    requires Inv(s) && Enabled(s, a)
    requires r < |s.table.records| && Terminal(s.table.records[r].phase)
    ensures var s' := Apply(s, a);
            && r < |s'.table.records|
            && s'.table.records[r] == s.table.records[r]
            && History(s'.trace, r) == History(s.trace, r)
            && (!Registered(s, r) ==> !Registered(s', r))
  {
    RestingUnowned(s, r);
    match a
    case InvokeAct(t) =>
      assert OwnerOk(s, s.ops[t]);
      HistoryStep(s.trace, Entry(s.ops[t].record, Invoke(s.ops[t].stage.call)), r);
    case ReturnAct(t, ok) =>
      assert OwnerOk(s, s.ops[t]);
      HistoryStep(s.trace, Entry(s.ops[t].record, Return(s.ops[t].stage.call, ok)), r);
    case FailAct(t, reason) => assert OwnerOk(s, s.ops[t]);
    case _ =>
  }

  /**
   Stopped and failed are never left, no callback follows them, and an unregistered record
   never comes back: registering the ID again makes a new record.
   */
  lemma {:induction false} TerminalForever(s: System, more: seq<Action>, r: nat)
    requires Inv(s) && Feasible(s, more)
    requires r < |s.table.records| && Terminal(s.table.records[r].phase)
    ensures var s' := After(s, more);
            && r < |s'.table.records|
            && s'.table.records[r] == s.table.records[r]
            && History(s'.trace, r) == History(s.trace, r)
            && (!Registered(s, r) ==> !Registered(s', r))
    decreases |more|
  {
    if |more| > 0 {
      TerminalStep(s, more[0], r);
      StepKeeps(s, more[0]);
      TerminalForever(Apply(s, more[0]), more[1..], r);
    }
  }

  /** A record leaves the table only stopped or failed, and is silent from then on. */
  lemma UnregisteredIsSilent(s: System, more: seq<Action>, r: nat)
    requires Reachable(s) && Feasible(s, more)
    requires r < |s.table.records| && !Registered(s, r)
    ensures Terminal(s.table.records[r].phase)
    ensures History(After(s, more).trace, r) == History(s.trace, r)
    ensures !Registered(After(s, more), r)
  {
    ReachableInv(s);
    assert RecordOk(s, r);
    TerminalForever(s, more, r);
  }

  // ---- Progress ----

  /** Upper bound on the actions an operation still takes. */
  function StepsLeft(stage: Stage): nat {
    match stage
    case PreHooks => 7
    case Ready(c) => if c == OnStop then 6 else 4
    case InCall(c) => if c == OnStop then 5 else 3
    case Committing => 2
    case Failing => 1
    case PostHooks => 1
  }

  function Mover(a: Action): Option<nat> {
    match a
    case RegisterAct(_) => None
    case UnregisterAct(_) => None
    case BeginAct(t, _, _) => Some(t)
    case HooksAct(t, _) => Some(t)
    case InvokeAct(t) => Some(t)
    case ReturnAct(t, _) => Some(t)
    case CommitAct(t) => Some(t)
    case FailAct(t, _) => Some(t)
    case FinishAct(t) => Some(t)
  }

  /** No operation ever blocks another: one in flight always has a next action. */
  lemma OperationsNeverBlock(s: System, t: nat)
    requires Reachable(s) && t in s.ops
    ensures exists a :: Mover(a) == Some(t) && Enabled(s, a)
  {
    ReachableInv(s);
    var op := s.ops[t];
    assert OwnerOk(s, op);
    var a := match op.stage
      case PreHooks => HooksAct(t, true)
      case Ready(_) => InvokeAct(t)
      case InCall(_) => ReturnAct(t, true)
      case Committing => CommitAct(t)
      case Failing => FailAct(t, "")
      case PostHooks => FinishAct(t);
    assert Enabled(s, a);
  }

  /** An operation's own action uses up its bound; the actions of others leave it alone. */
  lemma StepUsesBound(s: System, a: Action, t: nat)
    requires Enabled(s, a) && t in s.ops
    ensures Mover(a) == Some(t) ==>
              t !in Apply(s, a).ops || StepsLeft(Apply(s, a).ops[t].stage) < StepsLeft(s.ops[t].stage)
    ensures Mover(a) != Some(t) ==> t in Apply(s, a).ops && Apply(s, a).ops[t] == s.ops[t]
  {
  }

  function OwnActions(run: seq<Action>, t: nat): nat {
    if |run| == 0 then 0 else (if Mover(run[0]) == Some(t) then 1 else 0) + OwnActions(run[1..], t)
  }

  ghost predicate InFlightThroughout(s: System, run: seq<Action>, t: nat)
    requires Feasible(s, run)
    decreases |run|
  {
    t in s.ops && (|run| == 0 || InFlightThroughout(Apply(s, run[0]), run[1..], t))
  }

  /**
   However the other operations are interleaved, an operation takes fewer than seven actions
   while it is in flight. With `OperationsNeverBlock`, each one ends once its user code returns.
   */
  lemma {:induction false} OperationsTerminate(s: System, run: seq<Action>, t: nat)
    requires Feasible(s, run) && InFlightThroughout(s, run, t)
    ensures t in After(s, run).ops
    ensures OwnActions(run, t) + StepsLeft(After(s, run).ops[t].stage) <= StepsLeft(s.ops[t].stage) <= 7
    decreases |run|
  {
    if |run| > 0 {
      StepUsesBound(s, run[0], t);
      OperationsTerminate(Apply(s, run[0]), run[1..], t);
    }
  }
}
