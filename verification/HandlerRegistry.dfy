/**
 The dynamic handler registry. Its operations hold one lock, so a run is a sequence of whole
 operations; the answers of the underlying registry and of the handler callbacks are part of
 each operation. `history` records the callbacks made on each current record.
 */
module HandlerRegistry {
  datatype Event =
    | Initialized
    | InitializeFailed
    | ShutDown        // the record's flag is cleared
    | ShutDownFailed  // the flag stays
    | ShutDownLeaving // during an unregistration, which drops the record or else keeps its flag

  datatype State = State(flags: map<string, bool>, started: bool, history: map<string, seq<Event>>)

  datatype Op =
    | Register(id: string, topics: nat, accepted: bool, initializes: bool)
    | Unregister(id: string, released: bool)
    | Start(works: set<string>)
    | Shutdown(works: set<string>)

  const INITIAL := State(map[], false, map[])

  // ---- Operations ----

  predicate Registrable(s: State, op: Op)
    requires op.Register?
  {
    op.id != "" && op.topics > 0 && op.id !in s.flags && op.accepted && (s.started ==> op.initializes)
  }

  /** A record's flag after a start (`on`) or a shutdown came to it, with a callback that `works`. */
  function VisitedFlag(flag: bool, on: bool, works: bool): bool { if works then on else flag }

  /** The callback made then, none if the record is already in the wanted condition. */
  function VisitEvents(flag: bool, on: bool, works: bool): seq<Event> {
    if flag == on then []
    else if on then [if works then Initialized else InitializeFailed]
    else [if works then ShutDown else ShutDownFailed]
  }

  /** Flag and history of a record once the records outside `rest` have been visited. */
  function FlagAt(s: State, on: bool, works: set<string>, rest: set<string>, id: string): bool
    requires id in s.flags
  {
    if id in rest then s.flags[id] else VisitedFlag(s.flags[id], on, id in works)
  }

  function HistoryAt(s: State, on: bool, works: set<string>, rest: set<string>, id: string): seq<Event>
    requires id in s.flags && id in s.history
  {
    if id in rest then s.history[id] else s.history[id] + VisitEvents(s.flags[id], on, id in works)
  }

  function Flags(s: State, on: bool, works: set<string>, rest: set<string>): map<string, bool> {
    map id | id in s.flags :: FlagAt(s, on, works, rest, id)
  }

  function History(s: State, on: bool, works: set<string>, rest: set<string>): map<string, seq<Event>>
    requires s.history.Keys == s.flags.Keys
  {
    map id | id in s.flags :: HistoryAt(s, on, works, rest, id)
  }

  /** Every record visited so far is in the wanted condition. */
  predicate AllAt(s: State, on: bool, works: set<string>, rest: set<string>) {
    forall id :: id in s.flags && id !in rest ==> FlagAt(s, on, works, rest, id) == on
  }

  function Apply(s: State, op: Op): State
    requires s.history.Keys == s.flags.Keys
  {
    match op
    case Register(id, _, _, _) =>
      if !Registrable(s, op) then s
      else State(s.flags[id := s.started], s.started, s.history[id := if s.started then [Initialized] else []])
    case Unregister(id, released) =>
      if id == "" || id !in s.flags then s
      else if released then State(s.flags - {id}, s.started, s.history - {id})
      else if s.flags[id] then s.(history := s.history[id := s.history[id] + [ShutDownLeaving]])
      else s
    case Start(works) =>
      if s.started then s
      else State(Flags(s, true, works, {}), AllAt(s, true, works, {}), History(s, true, works, {}))
    case Shutdown(works) =>
      if !s.started then s
      else State(Flags(s, false, works, {}), false, History(s, false, works, {}))
  }

  // ---- Histories ----

  /** Which callbacks a record in the given condition may see, and its condition afterwards. */
  predicate Allowed(flag: bool, e: Event) { e.Initialized? || e.InitializeFailed? <==> !flag }

  function Next(flag: bool, e: Event): bool {
    if e.Initialized? then true else if e.ShutDown? then false else flag
  }

  function Condition(h: seq<Event>): bool {
    if h == [] then false else Next(Condition(h[..|h| - 1]), h[|h| - 1])
  }

  /** Initialize is called only on a record that is not initialized, Shutdown only on one that is. */
  predicate Legal(h: seq<Event>) {
    forall i :: 0 <= i < |h| ==> Allowed(Condition(h[..i]), h[i])
  }

  predicate Faithful(s: State, id: string)
    requires id in s.flags && id in s.history
  {
    Legal(s.history[id]) && Condition(s.history[id]) == s.flags[id]
  }

  predicate Inv(s: State) {
    s.history.Keys == s.flags.Keys
    && (forall id :: id in s.flags ==> Faithful(s, id))
    && (s.started ==> forall id :: id in s.flags ==> s.flags[id])
  }

  lemma Extended(h: seq<Event>, e: Event)
    requires Legal(h) && Allowed(Condition(h), e)
    ensures Legal(h + [e]) && Condition(h + [e]) == Next(Condition(h), e)
  {
    var g := h + [e];
    assert g[..|h|] == h;
    forall i | 0 <= i < |g| ensures Allowed(Condition(g[..i]), g[i]) {
      if i < |h| {
        assert g[..i] == h[..i];
      }
    }
  }

  lemma StepKeeps(s: State, op: Op)
    requires Inv(s)
    ensures Inv(Apply(s, op))
  {
    var t := Apply(s, op);
    match op
    case Register(id, _, _, _) => RegisterKeeps(s, op);
    case Unregister(id, _) =>
      if id in s.flags && s.flags[id] {
        Extended(s.history[id], ShutDownLeaving);
      }
    case Start(works) =>
      if !s.started {
        VisitKeeps(s, true, works);
      }
    case Shutdown(works) =>
      if s.started {
        VisitKeeps(s, false, works);
      }
  }

  lemma RegisterKeeps(s: State, op: Op)
    requires Inv(s) && op.Register?
    ensures Inv(Apply(s, op))
  {
  }

  lemma RecordKeeps(h: seq<Event>, on: bool, works: bool)
    requires Legal(h)
    ensures
      var g := h + VisitEvents(Condition(h), on, works);
      Legal(g) && Condition(g) == VisitedFlag(Condition(h), on, works)
  {
    if Condition(h) == on {
      assert h + [] == h;
    } else {
      Extended(h, VisitEvents(Condition(h), on, works)[0]);
    }
  }

  lemma VisitKeeps(s: State, on: bool, works: set<string>)
    requires Inv(s)
    ensures forall started, id :: id in s.flags ==>
        Faithful(State(Flags(s, on, works, {}), started, History(s, on, works, {})), id)
  {
    forall started: bool, id | id in s.flags
      ensures Faithful(State(Flags(s, on, works, {}), started, History(s, on, works, {})), id)
    {
      assert Faithful(s, id);
      RecordKeeps(s.history[id], on, id in works);
    }
  }

  // ---- Whole runs ----

  ghost predicate Leads(s: State, ops: seq<Op>, t: State)
    decreases |ops|
  {
    if ops == [] then s == t
    else s.history.Keys == s.flags.Keys && Leads(Apply(s, ops[0]), ops[1..], t)
  }

  lemma {:induction false} RunKeeps(s: State, ops: seq<Op>, t: State)
    requires Inv(s) && Leads(s, ops, t)
    ensures Inv(t)
    decreases |ops|
  {
    if ops != [] {
      StepKeeps(s, ops[0]);
      RunKeeps(Apply(s, ops[0]), ops[1..], t);
    }
  }

  ghost predicate Reachable(t: State) { exists ops :: Leads(INITIAL, ops, t) }

  lemma ReachableInv(t: State)
    requires Reachable(t)
    ensures Inv(t)
  {
    var ops :| Leads(INITIAL, ops, t);
    RunKeeps(INITIAL, ops, t);
  }

  /** While the registry is started every handler in it is initialized. */
  lemma StartedMeansInitialized(t: State, id: string)
    requires Reachable(t) && t.started && id in t.flags
    ensures t.flags[id]
  {
    ReachableInv(t);
  }

  lemma {:induction false} StaysInitialized(h: seq<Event>, i: nat, j: nat)
    requires i < j <= |h| && h[i].Initialized? && forall k :: i < k < j ==> !h[k].ShutDown?
    ensures Condition(h[..j])
    decreases j
  {
    assert h[..j][..j - 1] == h[..j - 1];
    if i < j - 1 {
      StaysInitialized(h, i, j - 1);
    }
  }

  /** Between two successful initializations of a record lies a successful shutdown. */
  lemma InitializedOncePerShutdown(t: State, id: string, i: nat, j: nat)
    requires Reachable(t) && id in t.history && i < j < |t.history[id]|
    requires t.history[id][i].Initialized? && (t.history[id][j].Initialized? || t.history[id][j].InitializeFailed?)
    ensures exists k :: i < k < j && t.history[id][k].ShutDown?
  {
    ReachableInv(t);
    var h := t.history[id];
    assert Faithful(t, id);
    assert Allowed(Condition(h[..j]), h[j]);
    if forall k :: i < k < j ==> !h[k].ShutDown? {
      StaysInitialized(h, i, j);
    }
  }

  lemma {:induction false} StaysDown(h: seq<Event>, i: nat, j: nat)
    requires i < j <= |h| && h[i].ShutDown? && forall k :: i < k < j ==> !h[k].Initialized?
    ensures !Condition(h[..j])
    decreases j
  {
    assert h[..j][..j - 1] == h[..j - 1];
    if i < j - 1 {
      StaysDown(h, i, j - 1);
    }
  }

  /**
   Between a successful shutdown of a record and its next shutdown callback lies a successful
   initialization: shutdowns repeat only after one that failed or did not clear the flag.
   */
  lemma ShutDownOncePerInitialize(t: State, id: string, i: nat, j: nat)
    requires Reachable(t) && id in t.history && i < j < |t.history[id]|
    requires t.history[id][i].ShutDown?
    requires !t.history[id][j].Initialized? && !t.history[id][j].InitializeFailed?
    ensures exists k :: i < k < j && t.history[id][k].Initialized?
  {
    ReachableInv(t);
    var h := t.history[id];
    assert Faithful(t, id);
    assert Allowed(Condition(h[..j]), h[j]);
    if forall k :: i < k < j ==> !h[k].Initialized? {
      StaysDown(h, i, j);
    }
  }

  /** Shutdown callbacks on one record are not paired: a failed unregistration repeats them. */
  lemma ShutdownCanRepeat(t: State)
    requires t == State(map["a" := true], true, map["a" := [Initialized, ShutDownLeaving, ShutDownLeaving]])
    ensures Reachable(t)
  {
    var r, u := Register("a", 1, true, true), Unregister("a", false);
    var ops := [Start({}), r, u, u];
    var s1 := State(map[], true, map[]);
    var s2 := State(map["a" := true], true, map["a" := [Initialized]]);
    var s3 := State(map["a" := true], true, map["a" := [Initialized] + [ShutDownLeaving]]);
    assert Apply(INITIAL, Start({})) == s1;
    assert Apply(s1, r) == s2;
    assert Apply(s2, u) == s3;
    assert [Initialized] + [ShutDownLeaving] + [ShutDownLeaving] == t.history["a"];
    assert Apply(s3, u) == t;
    assert Leads(t, [], t);
    assert Leads(s3, [u], t) by { assert [u][1..] == []; }
    assert Leads(s2, [u, u], t) by { assert [u, u][1..] == [u]; }
    assert Leads(s1, [r, u, u], t) by { assert [r, u, u][1..] == [u, u]; }
    assert Leads(INITIAL, ops, t) by { assert ops[1..] == [r, u, u]; }
  }

  // ---- The registry ----

  class DynamicHandlerRegistry {
    var flags: map<string, bool>
    var started: bool
    ghost var history: map<string, seq<Event>>

    ghost function View(): State
      reads this
    {
      State(flags, started, history)
    }

    ghost predicate Valid()
      reads this
    {
      Inv(View())
    }

    constructor ()
      ensures Valid() && View() == INITIAL
    {
      flags, started, history := map[], false, map[];
    }

    method RegisterHandler(id: string, topics: nat, accepted: bool, initializes: bool) returns (ok: bool)
      requires Valid()
      modifies this
      ensures Valid() && View() == Apply(old(View()), Register(id, topics, accepted, initializes))
      ensures ok == Registrable(old(View()), Register(id, topics, accepted, initializes))
    {
      StepKeeps(View(), Register(id, topics, accepted, initializes));
      if id == "" || topics == 0 || id in flags || !accepted {
        return false;
      }
      var initialized := false;
      if started {
        if !initializes {
          return false;
        }
        initialized := true;
      }
      history := history[id := if initialized then [Initialized] else []];
      flags := flags[id := initialized];
      ok := true;
    }

    method UnregisterHandler(id: string, released: bool) returns (ok: bool)
      requires Valid()
      modifies this
      ensures Valid() && View() == Apply(old(View()), Unregister(id, released))
      ensures ok == (id in old(flags) && id != "" && released)
    {
      StepKeeps(View(), Unregister(id, released));
      if id == "" || id !in flags {
        return false;
      }
      if !released {
        if flags[id] {
          history := history[id := history[id] + [ShutDownLeaving]];
        }
        return false;
      }
      flags := flags - {id};
      history := history - {id};
      ok := true;
    }

    /** One record of the start loop. */
    method InitializeOne(id: string, works: set<string>) returns (ok: bool)
      requires id in flags && id in history
      modifies this
      ensures started == old(started)
      ensures flags == old(flags)[id := VisitedFlag(old(flags)[id], true, id in works)]
      ensures history == old(history)[id := old(history)[id] + VisitEvents(old(flags)[id], true, id in works)]
      ensures ok == (flags[id] == true)
    {
      ok := true;
      if flags[id] == true {
        assert history[id] + [] == history[id];
      } else {
        history := history[id := history[id] + [if id in works then Initialized else InitializeFailed]];
        if id in works {
          flags := flags[id := true];
        } else {
          ok := false;
        }
      }
    }

    method InitializeEach(works: set<string>) returns (ok: bool)
      requires history.Keys == flags.Keys
      modifies this
      ensures started == old(started)
      ensures flags == Flags(old(View()), true, works, {}) && history == History(old(View()), true, works, {})
      ensures ok == AllAt(old(View()), true, works, {})
    {
      ghost var s := View();
      var rest := flags.Keys;
      ok := true;
      FirstVisit(s, true, works);
      while rest != {}
        invariant started == s.started && rest <= s.flags.Keys == s.history.Keys
        invariant flags == Flags(s, true, works, rest) && history == History(s, true, works, rest)
        invariant ok == AllAt(s, true, works, rest)
      {
        var id :| id in rest;
        NextFlags(s, true, works, rest, id);
        NextHistory(s, true, works, rest, id);
        NextAll(s, true, works, rest, id);
        var one := InitializeOne(id, works);
        ok := ok && one;
        rest := rest - {id};
      }
    }

    method Start(works: set<string>) returns (ok: bool)
      requires Valid()
      modifies this
      ensures Valid() && View() == Apply(old(View()), Op.Start(works))
      ensures ok == (!old(started) && started)
    {
      ghost var s := View();
      StepKeeps(s, Op.Start(works));
      if started {
        return false;
      }
      ok := InitializeEach(works);
      if ok {
        started := true;
      }
    }

    /** One record of the shutdown loop. */
    method ShutDownOne(id: string, works: set<string>) returns (ok: bool)
      requires id in flags && id in history
      modifies this
      ensures started == old(started)
      ensures flags == old(flags)[id := VisitedFlag(old(flags)[id], false, id in works)]
      ensures history == old(history)[id := old(history)[id] + VisitEvents(old(flags)[id], false, id in works)]
      ensures ok == (flags[id] == false)
    {
      ok := true;
      if flags[id] == false {
        assert history[id] + [] == history[id];
      } else {
        history := history[id := history[id] + [if id in works then ShutDown else ShutDownFailed]];
        if id in works {
          flags := flags[id := false];
        } else {
          ok := false;
        }
      }
    }

    method ShutDownEach(works: set<string>) returns (ok: bool)
      requires history.Keys == flags.Keys
      modifies this
      ensures started == old(started)
      ensures flags == Flags(old(View()), false, works, {}) && history == History(old(View()), false, works, {})
      ensures ok == AllAt(old(View()), false, works, {})
    {
      ghost var s := View();
      var rest := flags.Keys;
      ok := true;
      FirstVisit(s, false, works);
      while rest != {}
        invariant started == s.started && rest <= s.flags.Keys == s.history.Keys
        invariant flags == Flags(s, false, works, rest) && history == History(s, false, works, rest)
        invariant ok == AllAt(s, false, works, rest)
      {
        var id :| id in rest;
        NextFlags(s, false, works, rest, id);
        NextHistory(s, false, works, rest, id);
        NextAll(s, false, works, rest, id);
        var one := ShutDownOne(id, works);
        ok := ok && one;
        rest := rest - {id};
      }
    }

    method Shutdown(works: set<string>) returns (ok: bool)
      requires Valid()
      modifies this
      ensures Valid() && View() == Apply(old(View()), Op.Shutdown(works))
      ensures ok == (old(started) ==> AllAt(old(View()), false, works, {}))
    {
      ghost var s := View();
      ok := true;
      if started {
        ok := ShutDownEach(works);
        started := false;
      }
      StepKeeps(s, Op.Shutdown(works));
    }
  }

  lemma FirstVisit(s: State, on: bool, works: set<string>)
    requires s.history.Keys == s.flags.Keys
    ensures Flags(s, on, works, s.flags.Keys) == s.flags && History(s, on, works, s.flags.Keys) == s.history
  {
  }

  lemma NextFlags(s: State, on: bool, works: set<string>, rest: set<string>, id: string)
    requires rest <= s.flags.Keys && id in rest
    ensures Flags(s, on, works, rest)[id] == s.flags[id]
    ensures Flags(s, on, works, rest - {id}) ==
        Flags(s, on, works, rest)[id := VisitedFlag(s.flags[id], on, id in works)]
  {
  }

  lemma NextAll(s: State, on: bool, works: set<string>, rest: set<string>, id: string)
    requires id in s.flags && id in rest
    ensures AllAt(s, on, works, rest - {id}) <==>
      AllAt(s, on, works, rest) && VisitedFlag(s.flags[id], on, id in works) == on
  {
  }

  lemma NextHistory(s: State, on: bool, works: set<string>, rest: set<string>, id: string)
    requires s.history.Keys == s.flags.Keys && rest <= s.flags.Keys && id in rest
    ensures History(s, on, works, rest)[id] == s.history[id]
    ensures
      History(s, on, works, rest - {id}) ==
      History(s, on, works, rest)[id := s.history[id] + VisitEvents(s.flags[id], on, id in works)]
  {
  }
}
