/**
 `MemoryAccessControlProvider` and `AccessControlCache` in place, one call at a time: the loops
 of `CheckAccess` against the evaluation relation, the mutators against `Mutate`, and the
 coherence of the cache as what every call keeps. `AccessCache` covers the interleavings.
 */
module AccessProvider {
  import opened Text
  import opened AccessRules
  import AccessCache

  /** `time.Now`: some instant no earlier than the last one read. */
  class Clock {
    var now: nat

    method Read() returns (t: nat)
      modifies this
      ensures old(now) <= now == t
    {
      var elapsed: int := *;
      if elapsed > 0 {
        now := now + elapsed;
      }
      t := now;
    }
  }

  class AccessControlCache {
    var items: map<string, Decision>
    ghost var ends: map<string, nat> // when the evaluation behind each item ended
    const ttl: nat

    constructor (ttl: nat)
      ensures items == map[] && this.ttl == ttl
    {
      items, ends, this.ttl := map[], map[], ttl;
    }

    method Get(req: Request, clock: Clock) returns (d: Option<Decision>)
      modifies clock
      ensures clock.now >= old(clock.now)
      ensures d.Some? ==>
                && AccessCache.Key(req) in items && d.value == items[AccessCache.Key(req)]
                && clock.now <= d.value.timestamp + ttl
      ensures d.None? ==>
                AccessCache.Key(req) !in items || clock.now > items[AccessCache.Key(req)].timestamp + ttl
    {
      var key := AccessCache.Key(req);
      if key !in items { return None; }
      var now := clock.Read();
      if now > items[key].timestamp + ttl { return None; }
      return Some(items[key]);
    }

    method Set(d: Decision, ghost until: nat)
      modifies this
      ensures items == old(items)[AccessCache.Key(d.request) := d]
      ensures ends == old(ends)[AccessCache.Key(d.request) := until]
    {
      items := items[AccessCache.Key(d.request) := d];
      ends := ends[AccessCache.Key(d.request) := until];
    }

    method Clear()
      modifies this
      ensures items == map[]
    {
      items := map[];
    }

    /** One round of the cleanup routine. */
    method Cleanup(clock: Clock)
      modifies this`items, clock
      ensures clock.now >= old(clock.now)
      ensures items == map k | k in old(items) && clock.now <= old(items)[k].timestamp + ttl :: old(items)[k]
    {
      var now := clock.Read();
      ghost var before := items;
      var rest := items.Keys;
      while rest != {}
        invariant rest <= before.Keys && clock.now == now
        invariant forall k :: k in items <==> k in before && (k in rest || now <= before[k].timestamp + ttl)
        invariant forall k :: k in items ==> items[k] == before[k]
      {
        var key :| key in rest;
        rest := rest - {key};
        if now > items[key].timestamp + ttl {
          items := items - {key};
        }
      }
    }
  }

  /** A wider window only adds ways to pass a rule. */
  lemma WindowGrows(req: Request, lo: nat, hi: nat, hi': nat)
    requires lo <= hi <= hi'
    ensures forall e :: EntryMayPass(e, req, lo, hi) ==> EntryMayPass(e, req, lo, hi')
    ensures forall p :: PolicyMayPass(p, req, lo, hi) ==> PolicyMayPass(p, req, lo, hi')
  {
  }

  lemma {:induction false} CandidatesSplit(roles: map<string, Role>, names: seq<string>, i: nat)
    requires i <= |names|
    ensures Candidates(roles, names) == Candidates(roles, names[..i]) + Candidates(roles, names[i..])
  {
    if i == 0 {
      assert names[..0] == [] && names[0..] == names;
    } else {
      CandidatesSplit(roles, names[1..], i - 1);
      assert names[..i][1..] == names[1..][..i - 1];
      assert names[1..][i - 1..] == names[i..];
    }
  }

  class MemoryAccessControlProvider {
    var policies: map<string, Policy>
    var roles: map<string, Role>
    var entries: map<string, Entry>
    const cache: AccessControlCache?
    const clock: Clock

    constructor (ttl: nat, clock: Clock)
      ensures View() == Stores(map[], map[], map[]) && this.clock == clock && Coherent()
      ensures cache != null <==> ttl > 0
    {
      policies, roles, entries, this.clock := map[], map[], map[], clock;
      if ttl > 0 {
        cache := new AccessControlCache(ttl);
      } else {
        cache := null;
      }
    }

    ghost function View(): Stores
      reads this
    {
      Stores(policies, roles, entries)
    }

    /** Every cached decision is filed under its key and was possible on the current stores. */
    ghost predicate Coherent()
      reads this, clock, cache
    {
      cache != null ==>
        forall k :: k in cache.items ==> k in cache.ends && Possible(k, cache.items[k], cache.ends[k])
    }

    /** An evaluation on the current stores from the decision's timestamp to `until` could make it. */
    ghost predicate Possible(k: string, d: Decision, until: nat)
      reads this, clock
    {
      k == AccessCache.Key(d.request) && d.timestamp <= until <= clock.now && PermitsDecision(View(), until, d)
    }

    /** The loop over the direct entries, in any order. */
    method FindEntry(req: Request, ghost lo: nat) returns (found: Option<Entry>)
      requires lo <= clock.now
      modifies clock
      ensures clock.now >= old(clock.now)
      ensures found.None? ==> NoEntryDecides(View(), req, lo, clock.now)
      ensures found.Some? ==>
                exists k | k in entries :: entries[k] == found.value && EntryMayDecide(entries[k], req, lo, clock.now)
    {
      found := None;
      var rest := entries.Keys;
      while rest != {} && found == None
        invariant rest <= entries.Keys && clock.now >= old(clock.now)
        invariant found.None? ==> forall k :: k in entries && k !in rest ==>
            EntryMayPass(entries[k], req, lo, clock.now)
        invariant found.Some? ==>
                    exists k | k in entries :: entries[k] == found.value &&
                        EntryMayDecide(entries[k], req, lo, clock.now)
      {
        var k :| k in rest;
        rest := rest - {k};
        ghost var before := clock.now;
        var now := clock.Read();
        WindowGrows(req, lo, before, now);
        if EntryDecides(entries[k], req, now) {
          found := Some(entries[k]);
        }
      }
    }

    /** The loop over one role's policies: the first that grants, all earlier ones passed over. */
    method FindInRole(ps: seq<Policy>, req: Request, ghost lo: nat) returns (found: Option<nat>)
      requires lo <= clock.now
      modifies clock
      ensures clock.now >= old(clock.now)
      ensures found.Some? ==> found.value < |ps| && PolicyMayGrant(ps[found.value], req, lo, clock.now)
      ensures forall j :: 0 <= j < (if found.Some? then found.value else |ps|) ==>
          PolicyMayPass(ps[j], req, lo, clock.now)
    {
      found := None;
      var i := 0;
      while i < |ps| && found == None
        invariant 0 <= i <= |ps| && clock.now >= old(clock.now)
        invariant found.Some? ==> found.value < |ps| && PolicyMayGrant(ps[found.value], req, lo, clock.now)
        invariant forall j :: 0 <= j < (if found.Some? then found.value else i) ==>
            PolicyMayPass(ps[j], req, lo, clock.now)
        decreases |ps| - i, found.None?
      {
        ghost var before := clock.now;
        var now := clock.Read();
        WindowGrows(req, lo, before, now);
        if PolicyGrants(ps[i], req, now) {
          found := Some(i);
        } else {
          i := i + 1;
        }
      }
    }

    /** One role of the request: its policies if it exists and is active. */
    method TryRole(name: string, req: Request, ghost lo: nat)
      returns (found: Option<(Policy, string)>, ghost passed: nat)
      requires lo <= clock.now
      modifies clock
      ensures clock.now >= old(clock.now)
      ensures FoundAmong(RolePart(roles, name), found, passed, req, lo, clock.now)
    {
      found, passed := None, 0;
      if name in roles && roles[name].active {
        var ps := roles[name].policies;
        var j := FindInRole(ps, req, lo);
        passed := if j.Some? then j.value else |ps|;
        if j.Some? {
          found := Some((ps[j.value], name));
        }
      }
    }

    /** The loop over the request's roles. */
    method FindPolicy(req: Request, ghost lo: nat) returns (found: Option<(Policy, string)>, ghost passed: nat)
      requires lo <= clock.now
      modifies clock
      ensures clock.now >= old(clock.now)
      ensures FoundAmong(Candidates(roles, req.roles), found, passed, req, lo, clock.now)
    {
      found, passed := None, 0;
      var i := 0;
      while i < |req.roles| && found == None
        invariant 0 <= i <= |req.roles| && clock.now >= old(clock.now)
        invariant FoundAmong(Candidates(roles, req.roles[..i]), found, passed, req, lo, clock.now)
      {
        ghost var done := Candidates(roles, req.roles[..i]);
        ghost var before := clock.now;
        OneMoreRole(roles, req.roles, i);
        ghost var more;
        found, more := TryRole(req.roles[i], req, lo);
        WindowGrows(req, lo, before, clock.now);
        FoundLater(done, RolePart(roles, req.roles[i]), found, more, req, lo, clock.now);
        passed := |done| + more;
        i := i + 1;
      }
      FoundEarly(roles, req.roles, i, found, passed, req, lo, clock.now);
    }

    /** Evaluation without the cache, in the order entries, role policies, default. */
    method Evaluate(req: Request) returns (d: Decision)
      modifies clock
      ensures d.request == req && old(clock.now) <= d.timestamp <= clock.now
      ensures PermitsDecision(View(), clock.now, d)
    {
      var timestamp := clock.Read();
      var entry := FindEntry(req, timestamp);
      if entry.Some? {
        var e := entry.value;
        return Decision(e.effect == "allow", ByEntry(e.effect, e.entityId), req, timestamp);
      }
      ghost var before := clock.now;
      var policy, passed := FindPolicy(req, timestamp);
      WindowGrows(req, timestamp, before, clock.now);
      if policy.Some? {
        return Decision(true, ByPolicy(policy.value.0, policy.value.1), req, timestamp);
      }
      return Decision(false, ByDefault, req, timestamp);
    }

    /** `until` is when the evaluation behind the decision ended: before the call if it was cached. */
    method CheckAccess(req: Request) returns (d: Decision, ghost until: nat)
      requires Coherent()
      modifies clock, cache
      ensures Coherent() && clock.now >= old(clock.now)
      ensures Possible(AccessCache.Key(req), d, until)
      ensures
        || (d.request == req && old(clock.now) <= d.timestamp)
        || (cache != null && AccessCache.Key(req) in old(cache.items) && d == old(cache.items)[AccessCache.Key(req)]
            && until <= old(clock.now) && clock.now <= d.timestamp + cache.ttl)
      ensures cache != null ==> AccessCache.Key(req) in cache.items && cache.items[AccessCache.Key(req)] == d
    {
      if cache != null {
        var cached := cache.Get(req, clock);
        if cached.Some? {
          return cached.value, cache.ends[AccessCache.Key(req)];
        }
      }
      d := Evaluate(req);
      until := clock.now;
      if cache != null {
        cache.Set(d, until);
      }
    }

    method AddPolicy(policy: Policy)
      requires Coherent()
      modifies this, cache
      ensures Coherent() && View() == Mutate(old(View()), Mutation.AddPolicy(policy))
      ensures cache != null ==> cache.items == map[]
    {
      policies := policies[policy.name := policy];
      if cache != null { cache.Clear(); }
    }

    method RemovePolicy(name: string)
      requires Coherent()
      modifies this, cache
      ensures Coherent() && View() == Mutate(old(View()), Mutation.RemovePolicy(name))
      ensures cache != null ==> cache.items == map[]
    {
      policies := policies - {name};
      StripFromRoles(name);
      if cache != null { cache.Clear(); }
    }

    /** The loop that takes a policy out of every role. */
    method StripFromRoles(name: string)
      modifies this`roles
      ensures roles == map k | k in old(roles) :: old(roles)[k].(policies := Without(old(roles)[k].policies, name))
    {
      ghost var before := roles;
      var rest := roles.Keys;
      while rest != {}
        invariant rest <= before.Keys && roles.Keys == before.Keys
        invariant forall k :: k in before ==>
                    roles[k] ==
                    if k in rest then before[k] else before[k].(policies := Without(before[k].policies, name))
      {
        var k :| k in rest;
        rest := rest - {k};
        var filtered := Filter(roles[k].policies, name);
        roles := roles[k := roles[k].(policies := filtered)];
      }
    }

    method AddRole(role: Role)
      requires Coherent()
      modifies this, cache
      ensures Coherent() && View() == Mutate(old(View()), Mutation.AddRole(role))
      ensures cache != null ==> cache.items == map[]
    {
      roles := roles[role.name := role];
      if cache != null { cache.Clear(); }
    }

    method RemoveRole(name: string)
      requires Coherent()
      modifies this, cache
      ensures Coherent() && View() == Mutate(old(View()), Mutation.RemoveRole(name))
      ensures cache != null ==> cache.items == map[]
    {
      roles := roles - {name};
      if cache != null { cache.Clear(); }
    }

    method AddAccessControlEntry(entry: Entry)
      requires Coherent()
      modifies this, cache
      ensures Coherent() && View() == Mutate(old(View()), AddEntry(entry))
      ensures cache != null ==> cache.items == map[]
    {
      entries := entries[EntryId(entry) := entry];
      if cache != null { cache.Clear(); }
    }

    method RemoveAccessControlEntry(id: string)
      requires Coherent()
      modifies this, cache
      ensures Coherent() && View() == Mutate(old(View()), RemoveEntry(id))
      ensures cache != null ==> cache.items == map[]
    {
      entries := entries - {id};
      if cache != null { cache.Clear(); }
    }
  }

  /** The candidates one role contributes. */
  function RolePart(roles: map<string, Role>, name: string): seq<(Policy, string)> {
    if name in roles && roles[name].active then Labelled(roles[name].policies, name) else []
  }

  /** The search passed over the first candidates and found the next one, or passed over all. */
  ghost predicate FoundAmong(
    cs: seq<(Policy, string)>, found: Option<(Policy, string)>, passed: nat, req: Request, lo: nat, hi: nat) {
    && passed <= |cs| && PassedOver(cs, passed, req, lo, hi)
    && (found.None? ==> passed == |cs|)
    && (found.Some? ==> passed < |cs| && cs[passed] == found.value && PolicyMayGrant(found.value.0, req, lo, hi))
  }

  /** The candidates of one more role follow those of the roles before it. */
  lemma OneMoreRole(roles: map<string, Role>, names: seq<string>, i: nat)
    requires i < |names|
    ensures Candidates(roles, names[..i + 1]) == Candidates(roles, names[..i]) + RolePart(roles, names[i])
  {
    CandidatesSplit(roles, names[..i + 1], i);
    assert names[..i + 1][..i] == names[..i] && names[..i + 1][i..] == [names[i]];
    assert Candidates(roles, [names[i]][1..]) == [];
  }

  /** A search that passed over all of `done` and went on in `part`. */
  lemma FoundLater(
    done: seq<(Policy, string)>, part: seq<(Policy, string)>, found: Option<(Policy, string)>, more: nat,
    req: Request, lo: nat, hi: nat)
    requires PassedOver(done, |done|, req, lo, hi) && FoundAmong(part, found, more, req, lo, hi)
    ensures FoundAmong(done + part, found, |done| + more, req, lo, hi)
  {
  }

  /** A search that stopped early has found its candidate among all of them. */
  lemma FoundEarly(
    roles: map<string, Role>, names: seq<string>, i: nat, found: Option<(Policy, string)>, passed: nat,
    req: Request, lo: nat, hi: nat)
    requires i <= |names| && (found.None? ==> i == |names|)
    requires FoundAmong(Candidates(roles, names[..i]), found, passed, req, lo, hi)
    ensures FoundAmong(Candidates(roles, names), found, passed, req, lo, hi)
  {
    CandidatesSplit(roles, names, i);
    if i == |names| {
      assert names[..i] == names;
    }
  }

  lemma {:induction false} WithoutSplit(ps: seq<Policy>, qs: seq<Policy>, name: string)
    ensures Without(ps + qs, name) == Without(ps, name) + Without(qs, name)
  {
    if |ps| == 0 {
      assert ps + qs == qs;
    } else {
      assert (ps + qs)[1..] == ps[1..] + qs;
      WithoutSplit(ps[1..], qs, name);
    }
  }

  method Filter(ps: seq<Policy>, name: string) returns (kept: seq<Policy>)
    ensures kept == Without(ps, name)
  {
    kept := [];
    for i := 0 to |ps|
      invariant kept == Without(ps[..i], name)
    {
      assert ps[..i + 1] == ps[..i] + [ps[i]];
      WithoutSplit(ps[..i], [ps[i]], name);
      if ps[i].name != name {
        kept := kept + [ps[i]];
      }
    }
    assert ps[..|ps|] == ps;
  }
}
