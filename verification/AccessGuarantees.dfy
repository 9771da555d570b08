/**
 What the cached `CheckAccess` guarantees next to the mutators, and when a cached decision may
 stand in for a fresh evaluation.
 */
module AccessGuarantees {
  import opened Text
  import opened AccessRules
  import opened AccessCache

  // ---- Coherence ----

  /**
   Whenever no mutator is between its change and its cache clear (in particular whenever none
   holds the lock), every cached decision is one the evaluator could have made on the current
   stores while it ran, from the decision's timestamp to the end of that evaluation. How long ago
   that was does not matter.
   */
  lemma CacheCoherent(s: State, k: string)
    requires Reachable(s) && k in s.items && s.writer != Mutated
    ensures var x := s.items[k];
            && k == Key(x.decision.request)
            && x.decision.timestamp <= x.until <= s.now
            && PermitsDecision(s.stores, x.until, x.decision)
  {
    ReachableInv(s);
    assert ItemOk(s, k);
    assert At(s, Version(s)) == s.stores;
  }

  /**
   A check that began after a mutation returned never yields a decision made before it: the
   decision was computed from the stores of a version no older than the mutations completed at
   its beginning. A hit is no older than the TTL.
   */
  lemma NoStaleDecision(s: State, c: nat)
    requires Reachable(s) && c in s.checks && s.checks[c].stage.Done?
    ensures var check := s.checks[c];
            var x := check.stage.result;
            && check.since <= x.version <= Version(s)
            && x.decision.timestamp <= x.until <= check.stage.at <= s.now
            && PermitsDecision(At(s, x.version), x.until, x.decision)
            && Key(x.decision.request) == Key(check.request)
            && (check.stage.hit ==> check.stage.at <= x.decision.timestamp + s.ttl)
            && (!check.stage.hit ==> x.decision.request == check.request)
  {
    ReachableInv(s);
    assert CheckOk(s, s.checks[c]);
  }

  // ---- From a window of instants to one ----

  /** While no rule changes its answer, the evaluator answers as at the first instant. */
  lemma SteadyWindow(s: Stores, req: Request, lo: nat, hi: nat, allowed: bool, reason: Reason)
    requires lo <= hi && Steady(s, req, lo, hi)
    ensures Permits(s, req, lo, hi, allowed, reason) <==> Permits(s, req, lo, lo, allowed, reason)
  {
  }

  /** Time only takes entries away: one that decides at an instant decides at every earlier one. */
  lemma EntriesOnlyExpire(e: Entry, req: Request, lo: nat, t: nat)
    requires lo <= t && EntryDecides(e, req, t)
    ensures EntryDecides(e, req, lo)
  {
  }

  /** No entry decides the request at the instant. */
  ghost predicate NoEntryAt(s: Stores, req: Request, t: nat) {
    forall k :: k in s.entries ==> !EntryDecides(s.entries[k], req, t)
  }

  /** None of the first `n` candidates grants at the instant. */
  ghost predicate NoneGrantsAt(cs: seq<(Policy, string)>, n: nat, req: Request, t: nat)
    requires n <= |cs|
  {
    forall i :: 0 <= i < n ==> !PolicyGrants(cs[i].0, req, t)
  }

  /** Position of the first occurrence of a candidate, or the length if there is none. */
  function FirstOf(cs: seq<(Policy, string)>, c: (Policy, string)): (i: nat)
    ensures i <= |cs| && (i < |cs| ==> cs[i] == c)
    ensures forall j :: 0 <= j < i ==> cs[j] != c
  {
    if |cs| == 0 || cs[0] == c then 0 else 1 + FirstOf(cs[1..], c)
  }

  /**
   What the rules must have answered at the timestamp itself: nothing for a decision by an entry;
   that no entry decided, that the policy granted, and that none before it did, for a decision by
   a policy; and that neither an entry nor a policy applied for a denial by default.
   */
  ghost predicate RulesAgreeAt(s: Stores, d: Decision) {
    var cs := Candidates(s.roles, d.request.roles);
    match d.reason
    case ByEntry(_, _) => true
    case ByPolicy(policy, role) =>
      && NoEntryAt(s, d.request, d.timestamp)
      && PolicyGrants(policy, d.request, d.timestamp)
      && NoneGrantsAt(cs, FirstOf(cs, (policy, role)), d.request, d.timestamp)
    case ByDefault =>
      NoEntryAt(s, d.request, d.timestamp) && NoneGrantsAt(cs, |cs|, d.request, d.timestamp)
  }

  lemma AtInstant(s: Stores, req: Request, t: nat)
    ensures NoEntryDecides(s, req, t, t) <==> NoEntryAt(s, req, t)
    ensures forall e :: EntryMayDecide(e, req, t, t) <==> EntryDecides(e, req, t)
    ensures forall p :: PolicyMayGrant(p, req, t, t) <==> PolicyGrants(p, req, t)
    ensures forall p :: PolicyMayPass(p, req, t, t) <==> !PolicyGrants(p, req, t)
  {
    assert forall e :: EntryMayPass(e, req, t, t) <==> !EntryDecides(e, req, t);
  }

  /** A decision made between its timestamp and `until` is right at its timestamp iff the rules agree. */
  lemma RightAtTimestampIff(s: Stores, d: Decision, until: nat)
    requires d.timestamp <= until && PermitsDecision(s, until, d)
    ensures PermitsDecision(s, d.timestamp, d) <==> RulesAgreeAt(s, d)
  {
    AtInstant(s, d.request, d.timestamp);
    match d.reason
    case ByEntry(_, _) => EntryRightAtTimestamp(s, d, until);
    case ByPolicy(_, _) => PolicyRightAtTimestamp(s, d, until);
    case ByDefault =>
  }

  lemma EntryRightAtTimestamp(s: Stores, d: Decision, until: nat)
    requires d.timestamp <= until && PermitsDecision(s, until, d) && d.reason.ByEntry?
    ensures PermitsDecision(s, d.timestamp, d)
  {
    var k :| k in s.entries && EntryMayDecide(s.entries[k], d.request, d.timestamp, until)
      && d.reason.effect == s.entries[k].effect && d.reason.entityId == s.entries[k].entityId
      && d.allowed == (d.reason.effect == "allow");
    var t: nat :| d.timestamp <= t <= until && EntryDecides(s.entries[k], d.request, t);
    EntriesOnlyExpire(s.entries[k], d.request, d.timestamp, t);
    AtInstant(s, d.request, d.timestamp);
  }

  lemma PolicyRightAtTimestamp(s: Stores, d: Decision, until: nat)
    requires d.timestamp <= until && PermitsDecision(s, until, d) && d.reason.ByPolicy?
    ensures PermitsDecision(s, d.timestamp, d) <==> RulesAgreeAt(s, d)
  {
    var q, t := d.request, d.timestamp;
    var cs := Candidates(s.roles, q.roles);
    var c := (d.reason.policy, d.reason.role);
    var first := FirstOf(cs, c);
    AtInstant(s, q, t);
    assert c in cs;
    assert first < |cs|;
    if PermitsDecision(s, t, d) {
      var i :| 0 <= i < |cs| && cs[i] == c && PolicyMayGrant(c.0, q, t, t) && PassedOver(cs, i, q, t, t);
      assert first <= i;
      assert forall j :: 0 <= j < first ==> PolicyMayPass(cs[j].0, q, t, t);
    }
    if RulesAgreeAt(s, d) {
      assert PassedOver(cs, first, q, t, t);
    }
  }

  /**
   A cached decision is right at its own timestamp if and only if the rules agree there. A decision
   by an entry always is, whatever else changed while it was evaluated or has expired since.
   */
  lemma CacheCoherentAtTimestamp(s: State, k: string)
    requires Reachable(s) && k in s.items && s.writer != Mutated
    ensures PermitsDecision(s.stores, s.items[k].decision.timestamp, s.items[k].decision) <==>
      RulesAgreeAt(s.stores, s.items[k].decision)
  {
    CacheCoherent(s, k);
    RightAtTimestampIff(s.stores, s.items[k].decision, s.items[k].until);
  }

  /** In particular it is right there if no rule changed its answer during the evaluation. */
  lemma SteadyDecisionIsRight(s: State, k: string)
    requires Reachable(s) && k in s.items && s.writer != Mutated
    requires Steady(s.stores, s.items[k].decision.request, s.items[k].decision.timestamp, s.items[k].until)
    ensures PermitsDecision(s.stores, s.items[k].decision.timestamp, s.items[k].decision)
  {
    CacheCoherent(s, k);
    var d := s.items[k].decision;
    SteadyWindow(s.stores, d.request, d.timestamp, s.items[k].until, d.allowed, d.reason);
  }

  // ---- Requests that share a key ----

  /** The key identifies user, resource name and permission when user and permission have no colon. */
  lemma KeyInjective(q: Request, q': Request)
    requires ':' !in q.user && ':' !in q'.user && ':' !in q.permission && ':' !in q'.permission
    requires Key(q) == Key(q')
    ensures q.user == q'.user && q.resource.name == q'.resource.name && q.permission == q'.permission
  {
    var rest, rest' := q.resource.name + [':'] + q.permission, q'.resource.name + [':'] + q'.permission;
    PairInjective(q.user, rest, q'.user, rest', ':');
    PairInjectiveRight(q.resource.name, q.permission, q'.resource.name, q'.permission, ':');
  }

  /** The two requests put the same question to every rule. */
  ghost predicate SameQuestion(q: Request, q': Request) {
    && q.user == q'.user
    && q.permission == q'.permission
    && q.resource.kind == q'.resource.kind
    && q.resource.name == q'.resource.name
    && forall n :: n in q.roles <==> n in q'.roles
  }

  lemma SameAnswers(q: Request, q': Request)
    requires SameQuestion(q, q')
    ensures forall e, t: nat :: EntryDecides(e, q, t) <==> EntryDecides(e, q', t)
    ensures forall p, t: nat :: PolicyGrants(p, q, t) <==> PolicyGrants(p, q', t)
  {
  }

  /** So every rule may decide, or pass, on the one exactly as on the other. */
  lemma SameWindow(q: Request, q': Request, lo: nat, hi: nat)
    requires SameQuestion(q, q')
    ensures forall e :: EntryMayDecide(e, q', lo, hi) ==> EntryMayDecide(e, q, lo, hi)
    ensures forall e :: EntryMayPass(e, q', lo, hi) ==> EntryMayPass(e, q, lo, hi)
    ensures forall p :: PolicyMayGrant(p, q', lo, hi) ==> PolicyMayGrant(p, q, lo, hi)
    ensures forall p :: PolicyMayPass(p, q', lo, hi) ==> PolicyMayPass(p, q, lo, hi)
  {
    SameAnswers(q, q');
  }

  lemma {:induction false} CandidateMembers(roles: map<string, Role>, names: seq<string>, p: Policy, n: string)
    ensures (p, n) in Candidates(roles, names) <==>
            n in names && n in roles && roles[n].active && p in roles[n].policies
  {
    if |names| > 0 {
      var m := names[0];
      CandidateMembers(roles, names[1..], p, n);
      if m in roles && roles[m].active {
        var ls := Labelled(roles[m].policies, m);
        if p in roles[m].policies && m == n {
          var i :| 0 <= i < |roles[m].policies| && roles[m].policies[i] == p;
          assert ls[i] == (p, n);
        }
      }
    }
  }

  lemma SameCandidates(roles: map<string, Role>, q: Request, q': Request)
    requires SameQuestion(q, q')
    ensures forall c :: c in Candidates(roles, q.roles) <==> c in Candidates(roles, q'.roles)
  {
    forall c: (Policy, string) ensures c in Candidates(roles, q.roles) <==> c in Candidates(roles, q'.roles) {
      CandidateMembers(roles, q.roles, c.0, c.1);
      CandidateMembers(roles, q'.roles, c.0, c.1);
      assert c == (c.0, c.1);
    }
  }

  /**
   If some candidate may grant, there is a first one that may while all before it may be passed
   over: either that candidate itself, or an earlier one that grants throughout the window.
   */
  lemma {:induction false} SomeFirstGrant(cs: seq<(Policy, string)>, n: nat, i: nat, q: Request, lo: nat, hi: nat)
    returns (j: nat)
    requires n <= i < |cs| && lo <= hi
    requires PassedOver(cs, n, q, lo, hi) && PolicyMayGrant(cs[i].0, q, lo, hi)
    ensures j < |cs| && PassedOver(cs, j, q, lo, hi) && PolicyMayGrant(cs[j].0, q, lo, hi)
    decreases i - n
  {
    if n == i {
      j := n;
    } else if PolicyMayPass(cs[n].0, q, lo, hi) {
      j := SomeFirstGrant(cs, n + 1, i, q, lo, hi);
    } else {
      assert PolicyGrants(cs[n].0, q, lo);
      j := n;
    }
  }

  /** Some evaluation between the instants allows (or denies) the request. */
  ghost predicate Answers(s: Stores, q: Request, lo: nat, hi: nat, allowed: bool) {
    exists reason :: Permits(s, q, lo, hi, allowed, reason)
  }

  /** The same question gets the same answers, even if the roles are listed in another order. */
  lemma SameQuestionAnswered(s: Stores, q: Request, q': Request, lo: nat, hi: nat, allowed: bool, reason: Reason)
    requires SameQuestion(q, q') && lo <= hi && Permits(s, q', lo, hi, allowed, reason)
    ensures Answers(s, q, lo, hi, allowed)
  {
    SameWindow(q, q', lo, hi);
    var cs, cs' := Candidates(s.roles, q.roles), Candidates(s.roles, q'.roles);
    match reason
    case ByEntry(_, _) =>
      assert Permits(s, q, lo, hi, allowed, reason);
    case ByPolicy(policy, role) =>
      var i :| 0 <= i < |cs'| && cs'[i] == (policy, role) && PolicyMayGrant(policy, q', lo, hi);
      SameCandidates(s.roles, q, q');
      assert cs'[i] in cs;
      var k :| 0 <= k < |cs| && cs[k] == cs'[i];
      var j := SomeFirstGrant(cs, 0, k, q, lo, hi);
      assert cs[j] == (cs[j].0, cs[j].1);
      assert Permits(s, q, lo, hi, allowed, ByPolicy(cs[j].0, cs[j].1));
    case ByDefault =>
      SameCandidates(s.roles, q, q');
      forall i | 0 <= i < |cs| ensures PolicyMayPass(cs[i].0, q, lo, hi) {
        assert cs[i] in cs';
        var k :| 0 <= k < |cs'| && cs'[k] == cs[i];
        assert PolicyMayPass(cs'[k].0, q', lo, hi);
      }
      assert Permits(s, q, lo, hi, allowed, ByDefault);
  }

  /**
   Cached and uncached checks agree up to staleness: the answer a check returns is one a fresh
   evaluation of its own request could have given on stores no older than its beginning, provided
   the decision was made for the same question. By `KeyInjective`, when users and permissions have
   no colon, requests with one key ask the same question if they agree on resource type and roles.
   */
  lemma CachedAgreesWithFresh(s: State, c: nat)
    requires Reachable(s) && c in s.checks && s.checks[c].stage.Done?
    requires SameQuestion(s.checks[c].request, s.checks[c].stage.result.decision.request)
    ensures var check := s.checks[c];
            var x := check.stage.result;
            && check.since <= x.version <= Version(s)
            && Answers(At(s, x.version), check.request, x.decision.timestamp, x.until, x.decision.allowed)
  {
    NoStaleDecision(s, c);
    var x := s.checks[c].stage.result;
    var d := x.decision;
    SameQuestionAnswered(At(s, x.version), s.checks[c].request, d.request, d.timestamp, x.until, d.allowed, d.reason);
  }

  // ---- Exactly when sharing a key is harmless ----

  /** Some evaluation at instant `t` allows (or denies) the request. */
  ghost predicate Possible(s: Stores, q: Request, t: nat, allowed: bool) { Answers(s, q, t, t, allowed) }

  /** An answer for `q'` may be handed to `q`, whatever the stores. */
  ghost predicate Interchangeable(q: Request, q': Request) {
    forall s: Stores, t: nat, allowed: bool :: Possible(s, q', t, allowed) ==> Possible(s, q, t, allowed)
  }

  /** Either no candidate grants, or there is a first one that does. */
  lemma {:induction false} FirstGrant(cs: seq<(Policy, string)>, n: nat, q: Request, t: nat) returns (i: nat)
    requires n <= |cs| && PassedOver(cs, n, q, t, t)
    ensures n <= i <= |cs| && PassedOver(cs, i, q, t, t)
    ensures i < |cs| ==> PolicyGrants(cs[i].0, q, t)
    decreases |cs| - n
  {
    if n == |cs| || PolicyGrants(cs[n].0, q, t) {
      i := n;
    } else {
      i := FirstGrant(cs, n + 1, q, t);
    }
  }

  /** With no deciding entry, the answer at an instant is whether some role policy grants. */
  lemma PossibleByPolicies(s: Stores, q: Request, t: nat)
    requires NoEntryDecides(s, q, t, t)
    ensures Possible(s, q, t, exists c | c in Candidates(s.roles, q.roles) :: PolicyGrants(c.0, q, t))
    ensures !Possible(s, q, t, !exists c | c in Candidates(s.roles, q.roles) :: PolicyGrants(c.0, q, t))
  {
    var cs := Candidates(s.roles, q.roles);
    var i := FirstGrant(cs, 0, q, t);
    if i < |cs| {
      assert PolicyMayGrant(cs[i].0, q, t, t);
      assert cs[i] in cs;
      assert Permits(s, q, t, t, true, ByPolicy(cs[i].0, cs[i].1));
    } else {
      assert Permits(s, q, t, t, false, ByDefault);
      forall c | c in cs ensures !PolicyGrants(c.0, q, t) {
        var j :| 0 <= j < |cs| && cs[j] == c;
        assert PolicyMayPass(cs[j].0, q, t, t);
      }
    }
  }

  /** Stores with one entry. */
  function OneEntry(e: Entry): Stores { Stores(map[], map[], map["e" := e]) }

  lemma OneEntryAnswer(e: Entry, q: Request, t: nat)
    requires e.effect == "allow"
    ensures Possible(OneEntry(e), q, t, EntryDecides(e, q, t))
    ensures !Possible(OneEntry(e), q, t, !EntryDecides(e, q, t))
  {
    var s := OneEntry(e);
    if EntryDecides(e, q, t) {
      assert EntryMayDecide(s.entries["e"], q, t, t);
      assert Permits(s, q, t, t, true, ByEntry("allow", e.entityId));
      assert !EntryMayPass(s.entries["e"], q, t, t);
    } else {
      assert EntryMayPass(s.entries["e"], q, t, t);
      assert !EntryMayDecide(s.entries["e"], q, t, t);
      PossibleByPolicies(s, q, t);
      NoCandidates(q.roles);
    }
  }

  lemma {:induction false} NoCandidates(names: seq<string>)
    ensures Candidates(map[], names) == []
  {
    if |names| > 0 {
      NoCandidates(names[1..]);
    }
  }

  /** Covers every name of its resource type. */
  function AllNames(kind: string): Resource { Resource(kind, "", "*") }

  lemma AllNamesCovers(kind: string, target: Resource)
    ensures Covers(AllNames(kind), target) <==> kind == target.kind
  {
    assert IndexOf("*", '*') == 0 && Split("*", '*') == [""] + [""];
  }

  lemma BothCovered(q: Request, q': Request)
    ensures AnyCovers([AllNames(q.resource.kind), AllNames(q'.resource.kind)], q.resource)
    ensures AnyCovers([AllNames(q.resource.kind), AllNames(q'.resource.kind)], q'.resource)
  {
    var rs := [AllNames(q.resource.kind), AllNames(q'.resource.kind)];
    AllNamesCovers(q.resource.kind, q.resource);
    AllNamesCovers(q'.resource.kind, q'.resource);
    assert Covers(rs[0], q.resource) && Covers(rs[1], q'.resource);
  }

  /** Whatever the difference between two questions, one entry answers them differently. */
  lemma Distinguish(q: Request, q': Request) returns (e: Entry)
    requires !SameQuestion(q, q')
    ensures e.effect == "allow" && forall t: nat :: EntryDecides(e, q, t) != EntryDecides(e, q', t)
  {
    var kinds := [AllNames(q.resource.kind), AllNames(q'.resource.kind)];
    var perms := [q.permission, q'.permission];
    BothCovered(q, q');
    if q.user != q'.user {
      e := Entry("user", q.user, kinds, perms, "allow", None);
    } else if q.permission != q'.permission {
      e := Entry("", "", kinds, [q.permission], "allow", None);
    } else if q.resource.kind != q'.resource.kind {
      e := Entry("", "", [AllNames(q.resource.kind)], perms, "allow", None);
      AllNamesCovers(q.resource.kind, q.resource);
      AllNamesCovers(q.resource.kind, q'.resource);
      assert Covers(e.resources[0], q.resource);
    } else if q.resource.name != q'.resource.name {
      var name := if q.resource.name != "" then q.resource.name else q'.resource.name;
      e := Entry("", "", [Resource(q.resource.kind, name, "")], perms, "allow", None);
      assert Covers(e.resources[0], q.resource) != Covers(e.resources[0], q'.resource);
    } else {
      var n :| (n in q.roles) != (n in q'.roles);
      e := Entry("role", n, kinds, perms, "allow", None);
    }
  }

  /**
   Handing one request the other's decision is right for all stores if and only if the two ask
   the same question: same user, permission, resource type and name, and the same set of roles.
   */
  lemma SharedKeySafeIff(q: Request, q': Request)
    ensures Interchangeable(q, q') <==> SameQuestion(q, q')
  {
    if SameQuestion(q, q') {
      forall s: Stores, t: nat, allowed: bool | Possible(s, q', t, allowed) ensures Possible(s, q, t, allowed) {
        var reason :| Permits(s, q', t, t, allowed, reason);
        SameQuestionAnswered(s, q, q', t, t, allowed, reason);
      }
    } else {
      var e := Distinguish(q, q');
      OneEntryAnswer(e, q, 0);
      OneEntryAnswer(e, q', 0);
    }
  }

  /** A colon in a user lets two users share a key, although they ask different questions. */
  lemma KeyCollides(user: string, more: string, name: string, roles: seq<string>, kind: string, permission: string)
    ensures
      var q := Request(user + [':'] + more, roles, Resource(kind, name, ""), permission);
      var q' := Request(user, roles, Resource(kind, more + [':'] + name, ""), permission);
      Key(q) == Key(q') && !SameQuestion(q, q')
  {
    assert (user + [':'] + more) + [':'] + (name + [':'] + permission) ==
           user + [':'] + ((more + [':'] + name) + [':'] + permission);
    assert |user + [':'] + more| != |user|;
  }

  // ---- The failing case, as a run ----

  lemma {:induction false} RunExtends(s0: State, run: seq<Action>, a: Action)
    requires Feasible(s0, run) && Enabled(After(s0, run), a)
    ensures Feasible(s0, run + [a]) && After(s0, run + [a]) == Apply(After(s0, run), a)
    decreases |run|
  {
    if |run| == 0 {
      assert ([a])[1..] == [];
      assert run + [a] == [a];
      assert Feasible(Apply(s0, a), []);
    } else {
      assert (run + [a])[1..] == run[1..] + [a];
      RunExtends(Apply(s0, run[0]), run[1..], a);
    }
  }

  lemma ReachableStep(s: State, a: Action)
    requires Reachable(s) && Enabled(s, a)
    ensures Reachable(Apply(s, a))
  {
    var s0, run :| Fresh(s0) && Feasible(s0, run) && After(s0, run) == s;
    RunExtends(s0, run, a);
  }

  /** The first half of a check that misses: up to holding the read lock. */
  lemma BeginLocked(s: State, c: nat, q: Request) returns (s': State)
    requires Reachable(s) && c !in s.checks && s.writer == NoWriter && Key(q) !in s.items
    ensures Reachable(s') && s' == s.(checks := s.checks[c := Check(q, s.completed, Locked(s.now))])
  {
    ReachableStep(s, BeginCheck(c, q));
    var s1 := Apply(s, BeginCheck(c, q));
    ReachableStep(s1, LookUp(c));
    var s2 := Apply(s1, LookUp(c));
    ReachableStep(s2, TakeReadLock(c));
    s' := Apply(s2, TakeReadLock(c));
  }

  /** The second half: the decision is made and cached. */
  lemma DecideAndStore(s: State, c: nat, allowed: bool, reason: Reason) returns (s': State)
    requires Reachable(s) && c in s.checks && s.checks[c].stage.Locked?
    requires Permits(s.stores, s.checks[c].request, s.checks[c].stage.timestamp, s.now, allowed, reason)
    ensures Reachable(s') && s'.writer == s.writer && s'.stores == s.stores && s'.now == s.now && s'.past == s.past
    ensures s'.checks.Keys == s.checks.Keys
    ensures
      var q := s.checks[c].request;
      && Key(q) in s'.items
      && s'.items[Key(q)].decision == Decision(allowed, reason, q, s.checks[c].stage.timestamp)
  {
    ReachableStep(s, Decide(c, allowed, reason));
    var s1 := Apply(s, Decide(c, allowed, reason));
    ReachableStep(s1, StoreDecision(c));
    s' := Apply(s1, StoreDecision(c));
  }

  /** One check of a request on an empty cache, up to the point where its decision is cached. */
  lemma CheckStores(s: State, c: nat, q: Request, allowed: bool, reason: Reason) returns (s': State)
    requires Reachable(s) && c !in s.checks && s.writer == NoWriter && Key(q) !in s.items
    requires Permits(s.stores, q, s.now, s.now, allowed, reason)
    ensures Reachable(s') && s'.writer == NoWriter && s'.stores == s.stores && s'.now == s.now && s'.past == s.past
    ensures forall k :: k in s'.checks ==> k in s.checks || k == c
    ensures Key(q) in s'.items && s'.items[Key(q)].decision == Decision(allowed, reason, q, s.now)
  {
    var s1 := BeginLocked(s, c, q);
    s' := DecideAndStore(s1, c, allowed, reason);
  }

  /** One check of a request whose key is cached and not expired. */
  lemma CheckHits(s: State, c: nat, q: Request) returns (s': State)
    requires Reachable(s) && c !in s.checks && Key(q) in s.items && !Expired(s, s.items[Key(q)].decision)
    ensures Reachable(s') && s'.writer == s.writer && s'.stores == s.stores && s'.now == s.now && s'.past == s.past
    ensures c in s'.checks && s'.checks[c].request == q && s'.checks[c].stage == Done(s.items[Key(q)], s.now, true)
  {
    ReachableStep(s, BeginCheck(c, q));
    var s1 := Apply(s, BeginCheck(c, q));
    ReachableStep(s1, LookUp(c));
    s' := Apply(s1, LookUp(c));
  }

  /**
   The condition of `SharedKeySafeIff` is needed on the running system: whenever two requests share
   a key without asking the same question (another type, other roles, or another user through a
   colon, as in `KeyCollides`), some run with no mutation at all answers the one with a decision
   made for the other that no evaluation of it on the stores makes.
   */
  lemma SharedKeyAnswersWrongly(q: Request, q': Request) returns (s: State, c: nat)
    requires Key(q) == Key(q') && !SameQuestion(q, q')
    ensures Reachable(s) && s.past == [] && s.writer == NoWriter
    ensures c in s.checks && s.checks[c].request == q && s.checks[c].stage.Done?
    ensures s.checks[c].stage.result.decision.request == q'
    ensures !Possible(s.stores, q, s.now, s.checks[c].stage.result.decision.allowed)
  {
    var e := Distinguish(q, q');
    var stores := OneEntry(e);
    var s0 := State([], stores, map[], 60, 0, map[], NoWriter, 0);
    assert Fresh(s0) && Feasible(s0, []) && After(s0, []) == s0;
    OneEntryAnswer(e, q, 0);
    OneEntryAnswer(e, q', 0);
    var allowed := EntryDecides(e, q', 0);
    var reason :| Permits(stores, q', 0, 0, allowed, reason);
    var s1 := CheckStores(s0, 0, q', allowed, reason);
    c := 1;
    s := CheckHits(s1, c, q);
  }

  /**
   The condition of `CacheCoherentAtTimestamp` can fail. Whenever an entry allows a request up to
   an instant, a check stamped at that instant that reaches the entry a second later caches a
   denial, and no evaluation at its timestamp denies the request.
   */
  lemma ExpiryDuringEvaluation(e: Entry, q: Request, t: nat) returns (s: State)
    requires e.effect == "allow" && e.expiresAt == Some(t) && EntryDecides(e, q, t)
    ensures Reachable(s) && s.past == [] && s.writer == NoWriter && s.stores == OneEntry(e) && Key(q) in s.items
    ensures s.items[Key(q)].decision == Decision(false, ByDefault, q, t)
    ensures !Possible(s.stores, q, t, false) && !RulesAgreeAt(s.stores, s.items[Key(q)].decision)
  {
    var stores := OneEntry(e);
    var s0 := State([], stores, map[], 60, t, map[], NoWriter, 0);
    assert Fresh(s0) && Feasible(s0, []) && After(s0, []) == s0;
    OneEntryAnswer(e, q, t);
    DeniedAfterExpiry(e, q, t);
    s := CheckSpansTick(s0, 0, q, false, ByDefault);
    assert "e" in s.stores.entries;
  }

  lemma DeniedAfterExpiry(e: Entry, q: Request, t: nat)
    requires e.expiresAt == Some(t)
    ensures Permits(OneEntry(e), q, t, t + 1, false, ByDefault)
  {
    var s := OneEntry(e);
    assert !EntryDecides(s.entries["e"], q, t + 1);
    assert EntryMayPass(s.entries["e"], q, t, t + 1);
    NoCandidates(q.roles);
  }

  /** One check on an empty cache whose evaluation takes a second. */
  lemma CheckSpansTick(s: State, c: nat, q: Request, allowed: bool, reason: Reason) returns (s': State)
    requires Reachable(s) && c !in s.checks && s.writer == NoWriter && Key(q) !in s.items
    requires Permits(s.stores, q, s.now, s.now + 1, allowed, reason)
    ensures Reachable(s') && s'.writer == NoWriter && s'.stores == s.stores && s'.past == s.past
    ensures Key(q) in s'.items && s'.items[Key(q)].decision == Decision(allowed, reason, q, s.now)
  {
    var s1 := BeginLocked(s, c, q);
    ReachableStep(s1, Tick(1));
    s' := DecideAndStore(Apply(s1, Tick(1)), c, allowed, reason);
  }
}
