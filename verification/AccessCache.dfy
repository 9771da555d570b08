/**
 `CheckAccess` with its decision cache, run concurrently with the six mutators. The cache is
 looked up without the provider's lock; evaluation, the cache write and the return happen under
 the read lock; a mutator changes the stores, clears the cache and returns under the write lock.
 Each of these is a step here, and a run is a sequence of steps of any number of checks and
 writers, with the clock advancing in between.

 `past` keeps the stores as they were before each mutation, oldest first, so that a decision can
 be tagged with the version of the stores it was computed from; `completed` counts the mutations
 that have returned. The program keeps neither, nor `until`, the instant at which the evaluation that
 made a decision ended; the decision's own timestamp is where that evaluation began.
 */
module AccessCache {
  import opened AccessRules

  datatype Tagged = Tagged(decision: Decision, version: nat, until: nat)

  datatype Stage =
    | Begun
    | Missed
    | Locked(timestamp: nat)
    | Decided(decision: Decision, until: nat)
    | Stored(decision: Decision, until: nat)
    | Done(result: Tagged, at: nat, hit: bool)

  datatype Check = Check(request: Request, since: nat, stage: Stage)

  datatype Writer = NoWriter | Holding(mutation: Mutation) | Mutated | Cleared

  datatype State = State(
    past: seq<Stores>, stores: Stores, items: map<string, Tagged>, ttl: nat, now: nat,
    checks: map<nat, Check>, writer: Writer, completed: nat)

  datatype Action =
    | BeginCheck(check: nat, request: Request)
    | LookUp(check: nat)
    | TakeReadLock(check: nat)
    | Decide(check: nat, allowed: bool, reason: Reason)
    | StoreDecision(check: nat)
    | ReturnDecision(check: nat)
    | TakeWriteLock(mutation: Mutation)
    | ChangeStores
    | ClearCache
    | ReleaseWriteLock
    | DropExpired
    | Tick(seconds: nat)

  /** The cache key: user, resource name and permission joined by colons. */
  function Key(req: Request): string {
    req.user + [':'] + (req.resource.name + [':'] + req.permission)
  }

  function Version(s: State): nat { |s.past| }

  /** The stores at a version that has existed. */
  function At(s: State, v: nat): Stores
    requires v <= Version(s)
  {
    if v < |s.past| then s.past[v] else s.stores
  }

  predicate ReadLocked(c: Check) { c.stage.Locked? || c.stage.Decided? || c.stage.Stored? }

  predicate Expired(s: State, d: Decision) { s.now > d.timestamp + s.ttl }

  ghost predicate Enabled(s: State, a: Action) {
    match a
    case BeginCheck(c, _) => c !in s.checks
    case LookUp(c) => c in s.checks && s.checks[c].stage == Begun
    case TakeReadLock(c) => c in s.checks && s.checks[c].stage == Missed && s.writer == NoWriter
    case Decide(c, allowed, reason) =>
      && c in s.checks && s.checks[c].stage.Locked?
      && Permits(s.stores, s.checks[c].request, s.checks[c].stage.timestamp, s.now, allowed, reason)
    case StoreDecision(c) => c in s.checks && s.checks[c].stage.Decided?
    case ReturnDecision(c) => c in s.checks && s.checks[c].stage.Stored?
    case TakeWriteLock(_) => s.writer == NoWriter && forall c :: c in s.checks ==> !ReadLocked(s.checks[c])
    case ChangeStores => s.writer.Holding?
    case ClearCache => s.writer == Mutated
    case ReleaseWriteLock => s.writer == Cleared
    case DropExpired => true
    case Tick(_) => true
  }

  function MoveTo(s: State, c: nat, stage: Stage): State
    requires c in s.checks
  {
    s.(checks := s.checks[c := s.checks[c].(stage := stage)])
  }

  ghost function Apply(s: State, a: Action): State
    requires Enabled(s, a)
  {
    match a
    case BeginCheck(c, req) => s.(checks := s.checks[c := Check(req, s.completed, Begun)])
    case LookUp(c) =>
      var k := Key(s.checks[c].request);
      if k in s.items && !Expired(s, s.items[k].decision) then MoveTo(s, c, Done(s.items[k], s.now, true))
      else MoveTo(s, c, Missed)
    case TakeReadLock(c) => MoveTo(s, c, Locked(s.now))
    case Decide(c, allowed, reason) =>
      var check := s.checks[c];
      MoveTo(s, c, Decided(Decision(allowed, reason, check.request, check.stage.timestamp), s.now))
    case StoreDecision(c) =>
      var d, until := s.checks[c].stage.decision, s.checks[c].stage.until;
      MoveTo(s, c, Stored(d, until)).(items := s.items[Key(d.request) := Tagged(d, Version(s), until)])
    case ReturnDecision(c) =>
      MoveTo(s, c, Done(Tagged(s.checks[c].stage.decision, Version(s), s.checks[c].stage.until), s.now, false))
    case TakeWriteLock(m) => s.(writer := Holding(m))
    case ChangeStores =>
      s.(past := s.past + [s.stores], stores := Mutate(s.stores, s.writer.mutation), writer := Mutated)
    case ClearCache => s.(items := map[], writer := Cleared)
    case ReleaseWriteLock => s.(writer := NoWriter, completed := s.completed + 1)
    case DropExpired => s.(items := map k | k in s.items && !Expired(s, s.items[k].decision) :: s.items[k])
    case Tick(n) => s.(now := s.now + n)
  }

  ghost predicate Feasible(s: State, run: seq<Action>)
    decreases |run|
  {
    |run| == 0 || (Enabled(s, run[0]) && Feasible(Apply(s, run[0]), run[1..]))
  }

  ghost function After(s: State, run: seq<Action>): State
    requires Feasible(s, run)
    decreases |run|
  {
    if |run| == 0 then s else After(Apply(s, run[0]), run[1..])
  }

  /** A new provider over given stores, with an empty cache. */
  predicate Fresh(s: State) {
    s.past == [] && s.items == map[] && s.checks == map[] && s.writer == NoWriter && s.completed == 0
  }

  ghost predicate Reachable(s: State) {
    exists s0, run :: Fresh(s0) && Feasible(s0, run) && After(s0, run) == s
  }

  // ---- Invariant ----

  /** The evaluator could make the decision on its version, between its timestamp and its end. */
  ghost predicate Justified(s: State, x: Tagged) {
    && x.version <= Version(s)
    && x.decision.timestamp <= x.until <= s.now
    && PermitsDecision(At(s, x.version), x.until, x.decision)
  }

  ghost predicate ItemOk(s: State, k: string)
    requires k in s.items
  {
    && k == Key(s.items[k].decision.request)
    && Justified(s, s.items[k])
    && (s.writer != Mutated ==> s.items[k].version == Version(s))
    && s.items[k].version >= s.completed
  }

  ghost predicate CheckOk(s: State, c: Check) {
    && c.since <= s.completed
    && (ReadLocked(c) ==> s.writer == NoWriter)
    && match c.stage
       case Locked(ts) => ts <= s.now
       case Decided(d, until) => d.request == c.request && Justified(s, Tagged(d, Version(s), until))
       case Stored(d, until) => d.request == c.request && Justified(s, Tagged(d, Version(s), until))
       case Done(x, at, hit) =>
         && x.until <= at <= s.now
         && Justified(s, x)
         && x.version >= c.since
         && (if hit then Key(x.decision.request) == Key(c.request) && at <= x.decision.timestamp + s.ttl
             else x.decision.request == c.request)
       case _ => true
  }

  ghost predicate Inv(s: State) {
    && s.completed + (if s.writer == Mutated || s.writer == Cleared then 1 else 0) == Version(s)
    && (s.writer == Cleared ==> s.items == map[])
    && (forall k :: k in s.items ==> ItemOk(s, k))
    && (forall c :: c in s.checks ==> CheckOk(s, s.checks[c]))
  }

  /** Stores of a version never change, and the clock never goes back. */
  ghost predicate Extends(s: State, s': State) {
    && s.now <= s'.now
    && Version(s) <= Version(s')
    && s.completed <= s'.completed
    && s'.ttl == s.ttl
    && forall v: nat :: v <= Version(s) ==> At(s', v) == At(s, v)
  }

  lemma StepExtends(s: State, a: Action)
    requires Enabled(s, a)
    ensures Extends(s, Apply(s, a))
  {
  }

  lemma JustifiedLater(s: State, s': State, x: Tagged)
    requires Justified(s, x) && Extends(s, s')
    ensures Justified(s', x)
  {
  }

  lemma ItemsKept(s: State, a: Action)
    requires Inv(s) && Enabled(s, a)
    ensures forall k :: k in Apply(s, a).items ==> ItemOk(Apply(s, a), k)
  {
    var s' := Apply(s, a);
    StepExtends(s, a);
    forall k | k in s'.items ensures ItemOk(s', k) {
      if k in s.items && s'.items[k] == s.items[k] {
        assert ItemOk(s, k);
        JustifiedLater(s, s', s.items[k]);
      } else {
        var check := s.checks[a.check];
        assert CheckOk(s, check);
        JustifiedLater(s, s', Tagged(check.stage.decision, Version(s), check.stage.until));
      }
    }
  }

  lemma LookUpKept(s: State, c: nat)
    requires Inv(s) && Enabled(s, LookUp(c))
    ensures CheckOk(Apply(s, LookUp(c)), Apply(s, LookUp(c)).checks[c])
  {
    var s' := Apply(s, LookUp(c));
    assert CheckOk(s, s.checks[c]);
    var k := Key(s.checks[c].request);
    StepExtends(s, LookUp(c));
    if k in s.items {
      assert ItemOk(s, k);
      JustifiedLater(s, s', s.items[k]);
    }
  }

  lemma DecideKept(s: State, c: nat, allowed: bool, reason: Reason)
    requires Inv(s) && Enabled(s, Decide(c, allowed, reason))
    ensures CheckOk(Apply(s, Decide(c, allowed, reason)), Apply(s, Decide(c, allowed, reason)).checks[c])
  {
    var s' := Apply(s, Decide(c, allowed, reason));
    assert CheckOk(s, s.checks[c]);
    assert PermitsDecision(At(s', Version(s')), s.now, s'.checks[c].stage.decision);
  }

  /** A check that the action does not move stays right. */
  lemma OtherCheckKept(s: State, a: Action, c: nat)
    requires Inv(s) && Enabled(s, a) && c in s.checks && Apply(s, a).checks[c] == s.checks[c]
    ensures CheckOk(Apply(s, a), s.checks[c])
  {
    var s', check := Apply(s, a), s.checks[c];
    assert CheckOk(s, check);
    StepExtends(s, a);
    match check.stage
    case Decided(d, until) => JustifiedLater(s, s', Tagged(d, Version(s), until));
    case Stored(d, until) => JustifiedLater(s, s', Tagged(d, Version(s), until));
    case Done(x, _, _) => JustifiedLater(s, s', x);
    case _ =>
  }

  lemma StoredKept(s: State, a: Action, c: nat)
    requires Inv(s) && Enabled(s, a) && (a == StoreDecision(c) || a == ReturnDecision(c))
    ensures CheckOk(Apply(s, a), Apply(s, a).checks[c])
  {
    var check := s.checks[c];
    assert CheckOk(s, check);
    StepExtends(s, a);
    JustifiedLater(s, Apply(s, a), Tagged(check.stage.decision, Version(s), check.stage.until));
  }

  lemma ChecksKept(s: State, a: Action)
    requires Inv(s) && Enabled(s, a)
    ensures forall c :: c in Apply(s, a).checks ==> CheckOk(Apply(s, a), Apply(s, a).checks[c])
  {
    var s' := Apply(s, a);
    forall c | c in s'.checks ensures CheckOk(s', s'.checks[c]) {
      if c in s.checks && s'.checks[c] == s.checks[c] {
        OtherCheckKept(s, a, c);
      } else {
        match a
        case LookUp(_) => LookUpKept(s, c);
        case Decide(_, allowed, reason) => DecideKept(s, c, allowed, reason);
        case StoreDecision(_) => StoredKept(s, a, c);
        case ReturnDecision(_) => StoredKept(s, a, c);
        case TakeReadLock(_) => assert CheckOk(s, s.checks[c]);
        case _ =>
      }
    }
  }

  lemma StepKeeps(s: State, a: Action)
    requires Inv(s) && Enabled(s, a)
    ensures Inv(Apply(s, a))
  {
    ItemsKept(s, a);
    ChecksKept(s, a);
  }

  lemma {:induction false} RunKeeps(s: State, run: seq<Action>)
    requires Inv(s) && Feasible(s, run)
    ensures Inv(After(s, run))
    decreases |run|
  {
    if |run| > 0 {
      StepKeeps(s, run[0]);
      RunKeeps(Apply(s, run[0]), run[1..]);
    }
  }

  lemma ReachableInv(s: State)
    requires Reachable(s)
    ensures Inv(s)
  {
    var s0, run :| Fresh(s0) && Feasible(s0, run) && After(s0, run) == s;
    RunKeeps(s0, run);
  }
}
