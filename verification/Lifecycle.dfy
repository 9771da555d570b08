/**
 Concurrent use of the lifecycle manager. Any number of threads register, unregister and run
 InitializeHandler, StartHandler and StopHandler on any IDs; the lock is held only inside the
 critical sections of `LifecycleTable`, so hooks and handler callbacks of one operation run
 interleaved with every other operation. A run is a sequence of actions; an action names the
 operation that moves and the outcome of the user code it ran. InitializeAll, StartAll and
 StopAll are threads that begin one operation per ID, so their runs are among these.

 The trace records every callback invocation and return, tagged with the registration record
 it was made for.
 */
module Lifecycle {
  import opened Text
  import opened LifecycleTable

  datatype Callback = OnInitialize | OnStart | OnStop | OnShutdown

  datatype Signal = Invoke(call: Callback) | Return(call: Callback, ok: bool)

  datatype Entry = Entry(record: nat, signal: Signal)

  /** Where an operation stands between its first critical section and its end. */
  datatype Stage =
    | PreHooks
    | Ready(call: Callback)
    | InCall(call: Callback)
    | Committing
    | Failing
    | PostHooks

  datatype Operation = Operation(kind: Kind, id: string, record: nat, stage: Stage)

  datatype System = System(table: Table, ops: map<nat, Operation>, trace: seq<Entry>)

  datatype Action =
    | RegisterAct(handler: Option<Handler>)
    | UnregisterAct(id: string)
    | BeginAct(op: nat, kind: Kind, id: string)
    | HooksAct(op: nat, ok: bool)
    | InvokeAct(op: nat)
    | ReturnAct(op: nat, ok: bool)
    | CommitAct(op: nat)
    | FailAct(op: nat, reason: string)
    | FinishAct(op: nat)

  const EMPTY := System(Table(map[], []), map[], [])

  // ---- Steps ----

  /** Stage after the leading hooks; only StopHandler goes on when one of them fails. */
  function AfterHooks(kind: Kind, managed: bool, ok: bool): Stage {
    match kind
    case DoInitialize => if ok then Ready(OnInitialize) else Failing
    case DoStart => if !ok then Failing else if managed then Ready(OnStart) else Committing
    case DoStop => if managed then Ready(OnStop) else Ready(OnShutdown)
  }

  function AfterReturn(call: Callback, ok: bool): Stage {
    if !ok then Failing else if call == OnStop then Ready(OnShutdown) else Committing
  }

  predicate Owning(op: Operation) { op.stage != PostHooks }

  predicate AtStage(s: System, t: nat, stage: Stage) { t in s.ops && s.ops[t].stage == stage }

  predicate RecordKnown(s: System, t: nat) {
    t in s.ops && s.ops[t].record < |s.table.records|
  }

  ghost predicate Enabled(s: System, a: Action) {
    WellFormed(s.table) &&
    match a
    case RegisterAct(_) => true
    case UnregisterAct(_) => true
    case BeginAct(t, _, _) => t !in s.ops
    case HooksAct(t, _) => AtStage(s, t, PreHooks) && RecordKnown(s, t)
    case InvokeAct(t) => t in s.ops && s.ops[t].stage.Ready?
    case ReturnAct(t, _) => t in s.ops && s.ops[t].stage.InCall?
    case CommitAct(t) => AtStage(s, t, Committing) && RecordKnown(s, t)
    case FailAct(t, _) => AtStage(s, t, Failing)
    case FinishAct(t) => AtStage(s, t, PostHooks)
  }

  function MoveTo(s: System, t: nat, stage: Stage): System
    requires t in s.ops
  {
    s.(ops := s.ops[t := s.ops[t].(stage := stage)])
  }

  function Emit(s: System, r: nat, signal: Signal): System {
    s.(trace := s.trace + [Entry(r, signal)])
  }

  ghost function Apply(s: System, a: Action): System
    requires Enabled(s, a)
  {
    match a
    case RegisterAct(h) => s.(table := Register(s.table, h))
    case UnregisterAct(id) => s.(table := Unregister(s.table, id))
    case BeginAct(t, kind, id) =>
      (match BeginAnswer(s.table, kind, id)
       case Refused(_) => s
       case Owned(r) =>
         s.(table := Begin(s.table, kind, id), ops := s.ops[t := Operation(kind, id, r, PreHooks)]))
    case HooksAct(t, ok) =>
      MoveTo(s, t, AfterHooks(s.ops[t].kind, s.table.records[s.ops[t].record].managed, ok))
    case InvokeAct(t) =>
      var c := s.ops[t].stage.call;
      Emit(MoveTo(s, t, InCall(c)), s.ops[t].record, Invoke(c))
    case ReturnAct(t, ok) =>
      var c := s.ops[t].stage.call;
      Emit(MoveTo(s, t, AfterReturn(c, ok)), s.ops[t].record, Return(c, ok))
    case CommitAct(t) =>
      MoveTo(s, t, PostHooks).(table := Commit(s.table, s.ops[t].kind, s.ops[t].record))
    case FailAct(t, reason) =>
      s.(table := SetFailed(s.table, s.ops[t].id, reason), ops := s.ops - {t})
    case FinishAct(t) => s.(ops := s.ops - {t})
  }

  /** Every state of a run is reached by an enabled action from the one before. */
  ghost predicate Feasible(s: System, run: seq<Action>)
    decreases |run|
  {
    |run| == 0 || (Enabled(s, run[0]) && Feasible(Apply(s, run[0]), run[1..]))
  }

  ghost function After(s: System, run: seq<Action>): System
    requires Feasible(s, run)
    decreases |run|
  {
    if |run| == 0 then s else After(Apply(s, run[0]), run[1..])
  }

  // ---- The callback protocol of one record ----

  /** Callbacks a complete life makes, in order; plain handlers have no Start and Stop. */
  function Calls(managed: bool): seq<Callback> {
    if managed then [OnInitialize, OnStart, OnStop, OnShutdown] else [OnInitialize, OnShutdown]
  }

  /** History of a record whose first `n` callbacks were made and all succeeded. */
  function Rounds(managed: bool, n: nat): seq<Signal>
    requires n <= |Calls(managed)|
  {
    seq(2 * n, i requires 0 <= i < 2 * n =>
      var c := Calls(managed)[i / 2];
      if i % 2 == 0 then Invoke(c) else Return(c, true))
  }

  /** A history that stops after whole rounds, inside a callback, or at a failed one. */
  ghost predicate Legal(h: seq<Signal>, managed: bool) {
    exists n: nat | n <= |Calls(managed)| ::
      || h == Rounds(managed, n)
      || (n < |Calls(managed)| &&
          (|| h == Rounds(managed, n) + [Invoke(Calls(managed)[n])]
           || h == Rounds(managed, n) + [Invoke(Calls(managed)[n]), Return(Calls(managed)[n], false)]))
  }

  function History(trace: seq<Entry>, r: nat): seq<Signal> {
    if |trace| == 0 then []
    else
      var e := trace[|trace| - 1];
      History(trace[..|trace| - 1], r) + (if e.record == r then [e.signal] else [])
  }

  // ---- Invariant ----

  /** How many callbacks have succeeded when an operation of this kind begins. */
  function DoneBefore(kind: Kind, managed: bool): nat {
    match kind case DoInitialize => 0 case DoStart => 1 case DoStop => if managed then 2 else 1
  }

  function DoneAfter(kind: Kind, managed: bool): nat {
    match kind
    case DoInitialize => 1
    case DoStart => if managed then 2 else 1
    case DoStop => if managed then 4 else 2
  }

  /** The kind of operation that makes a callback, and the callback's place in `Calls`. */
  function MadeBy(call: Callback): Kind {
    match call
    case OnInitialize => DoInitialize
    case OnStart => DoStart
    case _ => DoStop
  }

  function Place(call: Callback, managed: bool): nat {
    match call
    case OnInitialize => 0
    case OnStart => 1
    case OnStop => 2
    case OnShutdown => if managed then 3 else 1
  }

  predicate Makes(call: Callback, managed: bool) { managed || call == OnInitialize || call == OnShutdown }

  /** What the owner's stage says about the history of the record it works on. */
  ghost predicate OwnerHistory(op: Operation, managed: bool, h: seq<Signal>) {
    match op.stage
    case PreHooks => h == Rounds(managed, DoneBefore(op.kind, managed))
    case Ready(c) => Makes(c, managed) && MadeBy(c) == op.kind && h == Rounds(managed, Place(c, managed))
    case InCall(c) => Makes(c, managed) && MadeBy(c) == op.kind && h == Rounds(managed, Place(c, managed)) + [Invoke(c)]
    case Committing => h == Rounds(managed, DoneAfter(op.kind, managed))
    case Failing => Legal(h, managed)
    case PostHooks => true
  }

  /** What the phase says about the history of a record no operation owns. */
  ghost predicate SettledHistory(rec: Record, h: seq<Signal>) {
    match rec.phase
    case Created => h == Rounds(rec.managed, 0)
    case Initialized => h == Rounds(rec.managed, DoneAfter(DoInitialize, rec.managed))
    case Started => h == Rounds(rec.managed, DoneAfter(DoStart, rec.managed))
    case Stopped => h == Rounds(rec.managed, DoneAfter(DoStop, rec.managed))
    case Failed => Legal(h, rec.managed)
    case _ => true
  }

  /** The operation works on the record its ID names, in the phase its kind put it in. */
  ghost predicate OwnerOk(s: System, op: Operation) {
    && op.record < |s.table.records|
    && (Owning(op) ==>
          && op.id in s.table.handlers
          && s.table.handlers[op.id] == op.record
          && s.table.records[op.record].phase == Busy(op.kind)
          && OwnerHistory(op, s.table.records[op.record].managed, History(s.trace, op.record)))
  }

  ghost predicate OwnersOk(s: System) {
    forall t :: t in s.ops ==> OwnerOk(s, s.ops[t])
  }

  ghost predicate OwnersDistinct(s: System) {
    forall t, u :: t in s.ops && u in s.ops && t != u && Owning(s.ops[t]) && Owning(s.ops[u]) ==>
      s.ops[t].record != s.ops[u].record
  }

  ghost predicate Owns(s: System, t: nat, r: nat) {
    t in s.ops && Owning(s.ops[t]) && s.ops[t].record == r
  }

  ghost predicate Registered(s: System, r: nat) {
    r < |s.table.records| && var id := s.table.records[r].id;
    id in s.table.handlers && s.table.handlers[id] == r
  }

  ghost predicate RecordOk(s: System, r: nat)
    requires r < |s.table.records|
  {
    var rec := s.table.records[r];
    && (Transitional(rec.phase) ==> exists t :: Owns(s, t, r))
    && SettledHistory(rec, History(s.trace, r))
    && (!Registered(s, r) ==> Terminal(rec.phase))
    && (rec.phase == Failed <==> rec.error.Some?)
  }

  ghost predicate RecordsOk(s: System) {
    forall r :: 0 <= r < |s.table.records| ==> RecordOk(s, r)
  }

  ghost predicate TraceOk(s: System) {
    forall i :: 0 <= i < |s.trace| ==> s.trace[i].record < |s.table.records|
  }

  ghost predicate Inv(s: System) {
    && WellFormed(s.table)
    && OwnersOk(s)
    && OwnersDistinct(s)
    && RecordsOk(s)
    && TraceOk(s)
  }

  // ---- The invariant is kept by every action ----

  lemma HistoryEmpty(trace: seq<Entry>, r: nat)
    requires forall i :: 0 <= i < |trace| ==> trace[i].record < r
    ensures History(trace, r) == []
  {
  }

  lemma HistoryStep(trace: seq<Entry>, e: Entry, r: nat)
    ensures History(trace + [e], r) == History(trace, r) + (if e.record == r then [e.signal] else [])
  {
  }

  lemma NewRecordOk(s: System, h: Option<Handler>)
    requires Inv(s) && RegisterAnswer(s.table.handlers.Keys, h) == None
    ensures RecordOk(s.(table := Register(s.table, h)), |s.table.records|)
  {
    HistoryEmpty(s.trace, |s.table.records|);
    assert Rounds(h.value.managed, 0) == [];
  }

  lemma OldRecordOk(s: System, h: Option<Handler>, r: nat)
    requires Inv(s) && RegisterAnswer(s.table.handlers.Keys, h) == None && r < |s.table.records|
    ensures RecordOk(s.(table := Register(s.table, h)), r)
  {
    var s' := s.(table := Register(s.table, h));
    assert RecordOk(s, r);
    if Transitional(s.table.records[r].phase) {
      var t :| Owns(s, t, r);
      assert Owns(s', t, r);
    }
  }

  lemma RegisterKeeps(s: System, h: Option<Handler>)
    requires Inv(s)
    ensures Inv(s.(table := Register(s.table, h)))
  {
    var s' := s.(table := Register(s.table, h));
    if RegisterAnswer(s.table.handlers.Keys, h) == None {
      forall r | 0 <= r < |s'.table.records| ensures RecordOk(s', r) {
        if r < |s.table.records| {
          OldRecordOk(s, h, r);
        } else {
          NewRecordOk(s, h);
        }
      }
      forall t | t in s'.ops ensures OwnerOk(s', s'.ops[t]) {
        assert OwnerOk(s, s.ops[t]);
      }
    }
  }

  lemma UnregisterKeeps(s: System, id: string)
    requires Inv(s)
    ensures Inv(s.(table := Unregister(s.table, id)))
  {
    var s' := s.(table := Unregister(s.table, id));
    if UnregisterAnswer(s.table, id) == None {
      forall r | 0 <= r < |s'.table.records| ensures RecordOk(s', r) {
        assert RecordOk(s, r);
        if Transitional(s.table.records[r].phase) {
          var t :| Owns(s, t, r);
          assert Owns(s', t, r);
        }
      }
      forall t | t in s'.ops ensures OwnerOk(s', s'.ops[t]) {
        assert OwnerOk(s, s.ops[t]);
      }
    }
  }

  /** Only operation `t` and its record changed between the two states. */
  ghost predicate Touches(s: System, s': System, t: nat, r: nat) {
    && s'.table.handlers == s.table.handlers
    && |s'.table.records| == |s.table.records|
    && (forall q :: 0 <= q < |s.table.records| && q != r ==> s'.table.records[q] == s.table.records[q])
    && (r < |s.table.records| ==> s'.table.records[r].id == s.table.records[r].id)
    && (forall u :: u != t ==> (u in s'.ops <==> u in s.ops))
    && (forall u :: u != t && u in s.ops ==> s'.ops[u] == s.ops[u])
    && (t in s'.ops ==> s'.ops[t].record == r)
    && (s'.trace == s.trace || exists g :: s'.trace == s.trace + [Entry(r, g)])
  }

  /** The histories of the other records do not grow. */
  lemma HistoryElsewhere(s: System, s': System, t: nat, r: nat, q: nat)
    requires Inv(s) && Owns(s, t, r) && Touches(s, s', t, r) && q != r
    ensures History(s'.trace, q) == History(s.trace, q)
  {
    if s'.trace != s.trace {
      var g :| s'.trace == s.trace + [Entry(r, g)];
      HistoryStep(s.trace, Entry(r, g), q);
    }
  }

  lemma OtherRecordOk(s: System, s': System, t: nat, r: nat, q: nat)
    requires Inv(s) && Owns(s, t, r) && Touches(s, s', t, r) && q != r && q < |s'.table.records|
    ensures RecordOk(s', q)
  {
    HistoryElsewhere(s, s', t, r, q);
    assert RecordOk(s, q);
    if Transitional(s.table.records[q].phase) {
      var u :| Owns(s, u, q);
      assert Owns(s', u, q);
    }
  }

  lemma OtherOwnerOk(s: System, s': System, t: nat, r: nat, u: nat)
    requires Inv(s) && Owns(s, t, r) && Touches(s, s', t, r) && u != t && u in s'.ops
    ensures OwnerOk(s', s'.ops[u])
  {
    assert OwnerOk(s, s.ops[u]);
    if Owning(s.ops[u]) {
      HistoryElsewhere(s, s', t, r, s.ops[u].record);
    }
  }

  /** Everything but the operation that moved and its record keeps its part of the invariant. */
  lemma OthersKept(s: System, s': System, t: nat, r: nat)
    requires Inv(s) && Owns(s, t, r) && Touches(s, s', t, r)
    ensures WellFormed(s'.table) && OwnersDistinct(s') && TraceOk(s')
    ensures forall u :: u in s'.ops && u != t ==> OwnerOk(s', s'.ops[u])
    ensures forall q :: 0 <= q < |s'.table.records| && q != r ==> RecordOk(s', q)
  {
    assert OwnerOk(s, s.ops[t]);
    forall u | u in s'.ops && u != t ensures OwnerOk(s', s'.ops[u]) {
      OtherOwnerOk(s, s', t, r, u);
    }
    forall q | 0 <= q < |s'.table.records| && q != r ensures RecordOk(s', q) {
      OtherRecordOk(s, s', t, r, q);
    }
  }

  /** A record that is not in transition has no owner. */
  lemma RestingUnowned(s: System, r: nat)
    requires Inv(s) && r < |s.table.records| && !Transitional(s.table.records[r].phase)
    ensures forall u :: u in s.ops && Owning(s.ops[u]) ==> s.ops[u].record != r
  {
  }

  lemma BeginKeeps(s: System, t: nat, kind: Kind, id: string)
    requires Inv(s) && Enabled(s, BeginAct(t, kind, id))
    ensures Inv(Apply(s, BeginAct(t, kind, id)))
  {
    var s' := Apply(s, BeginAct(t, kind, id));
    if BeginAnswer(s.table, kind, id).Owned? {
      var r := s.table.handlers[id];
      assert RecordOk(s, r);
      RestingUnowned(s, r);
      assert Owns(s', t, r);
      assert OwnerOk(s', s'.ops[t]);
      forall u | u in s'.ops && u != t ensures OwnerOk(s', s'.ops[u]) {
        assert OwnerOk(s, s.ops[u]);
      }
      forall q | 0 <= q < |s'.table.records| ensures RecordOk(s', q) {
        assert RecordOk(s, q);
        if q != r && Transitional(s.table.records[q].phase) {
          var u :| Owns(s, u, q);
          assert Owns(s', u, q);
        }
      }
    }
  }

  lemma RoundsAreLegal(managed: bool, n: nat)
    requires n <= |Calls(managed)|
    ensures Legal(Rounds(managed, n), managed)
  {
  }

  lemma HookedHistory(op: Operation, managed: bool, h: seq<Signal>, ok: bool)
    requires op.stage == PreHooks && OwnerHistory(op, managed, h)
    ensures OwnerHistory(op.(stage := AfterHooks(op.kind, managed, ok)), managed, h)
  {
  }

  lemma HooksKeep(s: System, t: nat, ok: bool)
    requires Inv(s) && Enabled(s, HooksAct(t, ok))
    ensures Inv(Apply(s, HooksAct(t, ok)))
  {
    var s' := Apply(s, HooksAct(t, ok));
    var op := s.ops[t];
    var r := op.record;
    assert OwnerOk(s, op) && RecordOk(s, r);
    OthersKept(s, s', t, r);
    HookedHistory(op, s.table.records[r].managed, History(s.trace, r), ok);
    assert OwnerOk(s', s'.ops[t]);
    assert Owns(s', t, r);
    assert RecordOk(s', r);
  }

  lemma InvokeKeeps(s: System, t: nat)
    requires Inv(s) && Enabled(s, InvokeAct(t))
    ensures Inv(Apply(s, InvokeAct(t)))
  {
    var s' := Apply(s, InvokeAct(t));
    var op := s.ops[t];
    var r := op.record;
    assert OwnerOk(s, op) && RecordOk(s, r);
    OthersKept(s, s', t, r);
    HistoryStep(s.trace, Entry(r, Invoke(op.stage.call)), r);
    assert OwnerOk(s', s'.ops[t]);
    assert Owns(s', t, r);
    assert RecordOk(s', r);
  }

  /** A success completes one more round. */
  lemma RoundCompleted(managed: bool, n: nat)
    requires n < |Calls(managed)|
    ensures Rounds(managed, n) + [Invoke(Calls(managed)[n])] + [Return(Calls(managed)[n], true)]
            == Rounds(managed, n + 1)
  {
  }

  lemma FailureIsLegal(managed: bool, n: nat)
    requires n < |Calls(managed)|
    ensures Legal(Rounds(managed, n) + [Invoke(Calls(managed)[n])] + [Return(Calls(managed)[n], false)], managed)
  {
  }

  /** The owner's stage and the record's history move on together when a callback returns. */
  lemma ReturnedHistory(op: Operation, managed: bool, h: seq<Signal>, ok: bool)
    requires op.stage.InCall? && OwnerHistory(op, managed, h)
    ensures var c := op.stage.call;
            OwnerHistory(op.(stage := AfterReturn(c, ok)), managed, h + [Return(c, ok)])
  {
    var c := op.stage.call;
    var n := Place(c, managed);
    assert Calls(managed)[n] == c;
    RoundCompleted(managed, n);
    FailureIsLegal(managed, n);
  }

  lemma ReturnKeeps(s: System, t: nat, ok: bool)
    requires Inv(s) && Enabled(s, ReturnAct(t, ok))
    ensures Inv(Apply(s, ReturnAct(t, ok)))
  {
    var s' := Apply(s, ReturnAct(t, ok));
    var op := s.ops[t];
    var r, c := op.record, op.stage.call;
    assert OwnerOk(s, op) && RecordOk(s, r);
    OthersKept(s, s', t, r);
    HistoryStep(s.trace, Entry(r, Return(c, ok)), r);
    ReturnedHistory(op, s.table.records[r].managed, History(s.trace, r), ok);
    assert OwnerOk(s', s'.ops[t]);
    assert Owns(s', t, r);
    assert RecordOk(s', r);
  }

  lemma CommittedRecord(s: System, t: nat)
    requires Inv(s) && Enabled(s, CommitAct(t))
    ensures RecordOk(Apply(s, CommitAct(t)), s.ops[t].record)
  {
    assert OwnerOk(s, s.ops[t]) && RecordOk(s, s.ops[t].record);
  }

  lemma CommitKeeps(s: System, t: nat)
    requires Inv(s) && Enabled(s, CommitAct(t))
    ensures Inv(Apply(s, CommitAct(t)))
  {
    var s' := Apply(s, CommitAct(t));
    var op := s.ops[t];
    assert OwnerOk(s, op) && RecordOk(s, op.record);
    OthersKept(s, s', t, op.record);
    CommittedRecord(s, t);
  }

  lemma FailKeeps(s: System, t: nat, reason: string)
    requires Inv(s) && Enabled(s, FailAct(t, reason))
    ensures Inv(Apply(s, FailAct(t, reason)))
  {
    var s' := Apply(s, FailAct(t, reason));
    var op := s.ops[t];
    assert OwnerOk(s, op) && RecordOk(s, op.record);
    OthersKept(s, s', t, op.record);
    assert RecordOk(s', op.record);
  }

  lemma FinishKeeps(s: System, t: nat)
    requires Inv(s) && Enabled(s, FinishAct(t))
    ensures Inv(Apply(s, FinishAct(t)))
  {
    var s' := Apply(s, FinishAct(t));
    forall u | u in s'.ops ensures OwnerOk(s', s'.ops[u]) {
      assert OwnerOk(s, s.ops[u]);
    }
    forall q | 0 <= q < |s'.table.records| ensures RecordOk(s', q) {
      assert RecordOk(s, q);
      if Transitional(s.table.records[q].phase) {
        var u :| Owns(s, u, q);
        assert Owns(s', u, q);
      }
    }
  }

  lemma StepKeeps(s: System, a: Action)
    requires Inv(s) && Enabled(s, a)
    ensures Inv(Apply(s, a))
  {
    match a
    case RegisterAct(h) => RegisterKeeps(s, h);
    case UnregisterAct(id) => UnregisterKeeps(s, id);
    case BeginAct(t, kind, id) => BeginKeeps(s, t, kind, id);
    case HooksAct(t, ok) => HooksKeep(s, t, ok);
    case InvokeAct(t) => InvokeKeeps(s, t);
    case ReturnAct(t, ok) => ReturnKeeps(s, t, ok);
    case CommitAct(t) => CommitKeeps(s, t);
    case FailAct(t, reason) => FailKeeps(s, t, reason);
    case FinishAct(t) => FinishKeeps(s, t);
  }

  lemma {:induction false} RunKeeps(s: System, run: seq<Action>)
    requires Inv(s) && Feasible(s, run)
    ensures Inv(After(s, run))
    decreases |run|
  {
    if |run| > 0 {
      StepKeeps(s, run[0]);
      RunKeeps(Apply(s, run[0]), run[1..]);
    }
  }
}
