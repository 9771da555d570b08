/**
 The handler table of `HandlerLifecycleManager`: one record per registration, a map from
 handler ID to the record it currently names, and one function per critical section (the
 code between a lock and the matching unlock). `HandlerLifecycleManager` below performs the
 same critical sections in place on heap records; each method is proved against its function.

 A record is named by its position in the order of registration, so that the pointer a
 running operation holds and the record the map holds under an ID can be told apart.
 */
module LifecycleTable {
  import opened Text

  /** `managed` tells whether the handler also implements `LifecycleHandler` (Start and Stop). */
  datatype Handler = Handler(id: string, managed: bool)

  datatype Phase =
    | Created | Initializing | Initialized | Starting | Started | Stopping | Stopped | Failed

  datatype Kind = DoInitialize | DoStart | DoStop

  datatype Failure =
    | NilHandler | EmptyId | AlreadyRegistered | NotRegistered | WrongState(current: Phase)

  datatype Begun = Owned(record: nat) | Refused(failure: Failure)

  datatype Record = Record(id: string, managed: bool, phase: Phase, error: Option<string>)

  datatype Table = Table(handlers: map<string, nat>, records: seq<Record>)

  ghost predicate WellFormed(t: Table) {
    forall id :: id in t.handlers ==>
      t.handlers[id] < |t.records| && t.records[t.handlers[id]].id == id
  }

  function Source(kind: Kind): Phase {
    match kind case DoInitialize => Created case DoStart => Initialized case DoStop => Started
  }

  function Busy(kind: Kind): Phase {
    match kind case DoInitialize => Initializing case DoStart => Starting case DoStop => Stopping
  }

  function Target(kind: Kind): Phase {
    match kind case DoInitialize => Initialized case DoStart => Started case DoStop => Stopped
  }

  predicate Terminal(p: Phase) { p == Stopped || p == Failed }

  predicate Transitional(p: Phase) { p == Initializing || p == Starting || p == Stopping }

  /** What `RegisterHandler` answers, decided on the IDs already taken. */
  function RegisterAnswer(taken: set<string>, handler: Option<Handler>): Option<Failure> {
    match handler
    case None => Some(NilHandler)
    case Some(h) =>
      if h.id == "" then Some(EmptyId)
      else if h.id in taken then Some(AlreadyRegistered)
      else None
  }

  function Register(t: Table, handler: Option<Handler>): Table {
    if RegisterAnswer(t.handlers.Keys, handler).Some? then t
    else
      var h := handler.value;
      Table(t.handlers[h.id := |t.records|], t.records + [Record(h.id, h.managed, Created, None)])
  }

  function UnregisterAnswer(t: Table, id: string): Option<Failure>
    requires WellFormed(t)
  {
    if id !in t.handlers then Some(NotRegistered)
    else if !Terminal(t.records[t.handlers[id]].phase) then
      Some(WrongState(t.records[t.handlers[id]].phase))
    else None
  }

  function Unregister(t: Table, id: string): Table
    requires WellFormed(t)
  {
    if UnregisterAnswer(t, id).Some? then t else t.(handlers := t.handlers - {id})
  }

  function SetPhase(t: Table, r: nat, phase: Phase, error: Option<string>): Table
    requires r < |t.records|
  {
    t.(records := t.records[r := t.records[r].(phase := phase, error := error)])
  }

  function BeginAnswer(t: Table, kind: Kind, id: string): Begun
    requires WellFormed(t)
  {
    if id !in t.handlers then Refused(NotRegistered)
    else if t.records[t.handlers[id]].phase != Source(kind) then
      Refused(WrongState(t.records[t.handlers[id]].phase))
    else Owned(t.handlers[id])
  }

  /** First critical section of InitializeHandler, StartHandler and StopHandler. */
  function Begin(t: Table, kind: Kind, id: string): Table
    requires WellFormed(t)
  {
    match BeginAnswer(t, kind, id)
    case Refused(_) => t
    case Owned(r) => SetPhase(t, r, Busy(kind), t.records[r].error)
  }

  /** Last critical section of a successful operation: a write through the pointer held. */
  function Commit(t: Table, kind: Kind, r: nat): Table
    requires r < |t.records|
  {
    SetPhase(t, r, Target(kind), None)
  }

  /** `setFailedState`: a write to whatever record the map holds under the ID now. */
  function SetFailed(t: Table, id: string, reason: string): Table
    requires WellFormed(t)
  {
    if id in t.handlers then SetPhase(t, t.handlers[id], Failed, Some(reason)) else t
  }

  class HandlerState {
    const id: string
    const managed: bool
    ghost const number: nat  // position in the order of registration
    var state: Phase
    var error: Option<string>

    constructor (id: string, managed: bool, ghost number: nat)
      ensures this.id == id && this.managed == managed && this.number == number
      ensures state == Created && error == None
    {
      this.id, this.managed, this.number := id, managed, number;
      state, error := Created, None;
    }

    function Value(): Record
      reads this
    {
      Record(id, managed, state, error)
    }
  }

  class HandlerLifecycleManager {
    var handlers: map<string, HandlerState>
    ghost var registered: seq<HandlerState>  // every record ever made, oldest first

    ghost predicate Valid()
      reads this, registered
    {
      && (forall i :: 0 <= i < |registered| ==> registered[i].number == i)
      && (forall id :: id in handlers ==>
            && handlers[id].id == id
            && handlers[id].number < |registered|
            && registered[handlers[id].number] == handlers[id])
    }

    ghost function View(): Table
      requires Valid()
      reads this, registered
    {
      Table(map id | id in handlers :: handlers[id].number,
            seq(|registered|, i requires 0 <= i < |registered| reads this, registered => registered[i].Value()))
    }

    lemma ViewWellFormed()
      requires Valid()
      ensures WellFormed(View())
    {
    }

    constructor ()
      ensures Valid() && View() == Table(map[], [])
    {
      handlers, registered := map[], [];
    }

    /** The record of a new handler, appended and entered in the map. */
    method AddRecord(h: Handler)
      requires Valid() && h.id !in handlers
      modifies this
      ensures Valid()
      ensures View().handlers == old(View()).handlers[h.id := |old(View()).records|]
      ensures View().records == old(View()).records + [Record(h.id, h.managed, Created, None)]
    {
      var state := new HandlerState(h.id, h.managed, |registered|);
      registered := registered + [state];
      handlers := handlers[h.id := state];
    }

    method RegisterHandler(handler: Option<Handler>) returns (err: Option<Failure>)
      requires Valid()
      modifies this
      ensures Valid()
      ensures err == RegisterAnswer(old(handlers.Keys), handler)
      ensures View() == Register(old(View()), handler)
    {
      match handler {
        case None => return Some(NilHandler);
        case Some(h) =>
          if h.id == "" { return Some(EmptyId); }
          if h.id in handlers { return Some(AlreadyRegistered); }
          AddRecord(h);
          err := None;
      }
    }

    method UnregisterHandler(id: string) returns (err: Option<Failure>)
      requires Valid()
      modifies this`handlers
      ensures Valid()
      ensures old(WellFormed(View()))
      ensures err == old(UnregisterAnswer(View(), id))
      ensures View() == Unregister(old(View()), id)
    {
      ViewWellFormed();
      if id !in handlers { return Some(NotRegistered); }
      var state := handlers[id];
      if state.state != Stopped && state.state != Failed { return Some(WrongState(state.state)); }
      handlers := handlers - {id};
      err := None;
    }

    method BeginOperation(kind: Kind, id: string) returns (err: Option<Failure>, state: HandlerState?)
      requires Valid()
      modifies registered
      ensures Valid()
      ensures old(WellFormed(View()))
      ensures View() == Begin(old(View()), kind, id)
      ensures match old(BeginAnswer(View(), kind, id))
              case Refused(f) => err == Some(f)
              case Owned(r) => err == None && state == registered[r]
    {
      ViewWellFormed();
      state := null;
      if id !in handlers { return Some(NotRegistered), null; }
      state := handlers[id];
      if state.state != Source(kind) { return Some(WrongState(state.state)), null; }
      state.state := Busy(kind);
      err := None;
      assert View().records == Begin(old(View()), kind, id).records;
    }

    method CommitOperation(kind: Kind, state: HandlerState)
      requires Valid() && state.number < |registered| && registered[state.number] == state
      modifies state
      ensures Valid()
      ensures View() == Commit(old(View()), kind, state.number)
    {
      state.state := Target(kind);
      state.error := None;
      assert View().records == Commit(old(View()), kind, state.number).records;
    }

    method SetFailedState(id: string, reason: string)
      requires Valid()
      modifies registered
      ensures Valid()
      ensures old(WellFormed(View()))
      ensures View() == SetFailed(old(View()), id, reason)
    {
      ViewWellFormed();
      if id in handlers {
        var state := handlers[id];
        state.state := Failed;
        state.error := Some(reason);
        assert View().records == SetFailed(old(View()), id, reason).records;
      }
    }
  }
}
