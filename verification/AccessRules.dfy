/**
 The rule evaluator of `MemoryAccessControlProvider`, without its cache. Time is a number of
 seconds counted from a Sunday midnight. The provider reads the clock again for every rule it
 tests, so a decision is related to the window of instants the evaluation ran in; and it walks
 its entries in map order, so evaluation is a relation, not a function.
 */
module AccessRules {
  import opened Text

  datatype Resource = Resource(kind: string, name: string, pattern: string)

  datatype TimeRange = TimeRange(start: string, end: string)

  datatype Restrictions = Restrictions(days: seq<int>, ranges: seq<TimeRange>)

  datatype Policy = Policy(
    name: string, resources: seq<Resource>, permissions: seq<string>, enabled: bool, times: Option<Restrictions>)

  datatype Role = Role(name: string, policies: seq<Policy>, active: bool)

  datatype Entry = Entry(
    entityType: string, entityId: string, resources: seq<Resource>, permissions: seq<string>,
    effect: string, expiresAt: Option<nat>)

  datatype Stores = Stores(policies: map<string, Policy>, roles: map<string, Role>, entries: map<string, Entry>)

  datatype Request = Request(user: string, roles: seq<string>, resource: Resource, permission: string)

  datatype Reason = ByEntry(effect: string, entityId: string) | ByPolicy(policy: Policy, role: string) | ByDefault

  datatype Decision = Decision(allowed: bool, reason: Reason, request: Request, timestamp: nat)

  // ---- Rules ----

  /** `Resource.Matches`: exact name, one-star prefix pattern, or exact pattern. */
  predicate Covers(r: Resource, target: Resource) {
    r.kind == target.kind &&
    if r.name != "" && r.name == target.name then true
    else if r.pattern != "" then
      var parts := Split(r.pattern, '*');
      if |parts| == 2 then parts[0] <= target.name else r.pattern == target.name
    else false
  }

  predicate AnyCovers(rs: seq<Resource>, target: Resource) {
    exists i :: 0 <= i < |rs| && Covers(rs[i], target)
  }

  function Weekday(t: nat): int { t / 86400 % 7 }

  function Digits(n: nat): string { ['0' + (n / 10 % 10) as char, '0' + (n % 10) as char] }

  /** Time of day in the layout "15:04". */
  function TimeOfDay(t: nat): string { Digits(t / 3600 % 24) + ":" + Digits(t / 60 % 60) }

  /** Byte-wise string order. */
  predicate Leq(a: string, b: string) {
    |a| == 0 || (|b| > 0 && (a[0] < b[0] || (a[0] == b[0] && Leq(a[1..], b[1..]))))
  }

  predicate ConditionsHold(p: Policy, t: nat) {
    p.times.Some? ==>
      && (|p.times.value.days| > 0 ==> Weekday(t) in p.times.value.days)
      && (|p.times.value.ranges| > 0 ==>
            exists i :: 0 <= i < |p.times.value.ranges|
              && Leq(p.times.value.ranges[i].start, TimeOfDay(t)) && Leq(TimeOfDay(t), p.times.value.ranges[i].end))
  }

  predicate EntryMatches(e: Entry, req: Request, t: nat) {
    && !(e.entityType == "user" && e.entityId != req.user)
    && !(e.entityType == "role" && e.entityId !in req.roles)
    && !(e.expiresAt.Some? && t > e.expiresAt.value)
    && AnyCovers(e.resources, req.resource)
  }

  predicate EntryDecides(e: Entry, req: Request, t: nat) {
    EntryMatches(e, req, t) && req.permission in e.permissions
  }

  predicate PolicyGrants(p: Policy, req: Request, t: nat) {
    p.enabled && AnyCovers(p.resources, req.resource) && req.permission in p.permissions && ConditionsHold(p, t)
  }

  /** Policies of the request's active roles, in the order they are tried. */
  function Candidates(roles: map<string, Role>, names: seq<string>): seq<(Policy, string)> {
    if |names| == 0 then []
    else
      var n := names[0];
      (if n in roles && roles[n].active then Labelled(roles[n].policies, n) else []) + Candidates(roles, names[1..])
  }

  function Labelled(ps: seq<Policy>, role: string): seq<(Policy, string)> {
    seq(|ps|, i requires 0 <= i < |ps| => (ps[i], role))
  }

  // ---- Evaluation between two instants ----

  ghost predicate EntryMayDecide(e: Entry, req: Request, lo: nat, hi: nat) {
    exists t: nat | lo <= t <= hi :: EntryDecides(e, req, t)
  }

  ghost predicate EntryMayPass(e: Entry, req: Request, lo: nat, hi: nat) {
    exists t: nat | lo <= t <= hi :: !EntryDecides(e, req, t)
  }

  ghost predicate PolicyMayGrant(p: Policy, req: Request, lo: nat, hi: nat) {
    exists t: nat | lo <= t <= hi :: PolicyGrants(p, req, t)
  }

  ghost predicate PolicyMayPass(p: Policy, req: Request, lo: nat, hi: nat) {
    exists t: nat | lo <= t <= hi :: !PolicyGrants(p, req, t)
  }

  ghost predicate NoEntryDecides(s: Stores, req: Request, lo: nat, hi: nat) {
    forall k :: k in s.entries ==> EntryMayPass(s.entries[k], req, lo, hi)
  }

  ghost predicate PassedOver(cs: seq<(Policy, string)>, n: nat, req: Request, lo: nat, hi: nat)
    requires n <= |cs|
  {
    forall i :: 0 <= i < n ==> PolicyMayPass(cs[i].0, req, lo, hi)
  }

  /** The evaluator may answer this when it runs between `lo` and `hi` on these stores. */
  ghost predicate Permits(s: Stores, req: Request, lo: nat, hi: nat, allowed: bool, reason: Reason) {
    match reason
    case ByEntry(effect, entityId) =>
      exists k | k in s.entries ::
        && EntryMayDecide(s.entries[k], req, lo, hi)
        && effect == s.entries[k].effect && entityId == s.entries[k].entityId
        && allowed == (effect == "allow")
    case ByPolicy(policy, role) =>
      var cs := Candidates(s.roles, req.roles);
      && NoEntryDecides(s, req, lo, hi) && allowed
      && exists i | 0 <= i < |cs| ::
           cs[i] == (policy, role) && PolicyMayGrant(policy, req, lo, hi) && PassedOver(cs, i, req, lo, hi)
    case ByDefault =>
      var cs := Candidates(s.roles, req.roles);
      NoEntryDecides(s, req, lo, hi) && !allowed && PassedOver(cs, |cs|, req, lo, hi)
  }

  ghost predicate PermitsDecision(s: Stores, hi: nat, d: Decision) {
    Permits(s, d.request, d.timestamp, hi, d.allowed, d.reason)
  }

  /** No rule of the stores changes its answer for the request between the two instants. */
  ghost predicate Steady(s: Stores, req: Request, lo: nat, hi: nat) {
    var cs := Candidates(s.roles, req.roles);
    && (forall k, t: nat | k in s.entries && lo <= t <= hi ::
          EntryDecides(s.entries[k], req, t) == EntryDecides(s.entries[k], req, lo))
    && (forall i, t: nat | 0 <= i < |cs| && lo <= t <= hi ::
          PolicyGrants(cs[i].0, req, t) == PolicyGrants(cs[i].0, req, lo))
  }

  // ---- Mutations ----

  datatype Mutation =
    | AddPolicy(policy: Policy)
    | RemovePolicy(name: string)
    | AddRole(role: Role)
    | RemoveRole(name: string)
    | AddEntry(entry: Entry)
    | RemoveEntry(id: string)

  function Without(ps: seq<Policy>, name: string): seq<Policy> {
    if |ps| == 0 then []
    else if ps[0].name == name then Without(ps[1..], name)
    else [ps[0]] + Without(ps[1..], name)
  }

  function EntryId(e: Entry): string {
    e.entityType + ":" + e.entityId + ":" + (if |e.resources| > 0 then e.resources[0].kind else "")
  }

  function Mutate(s: Stores, m: Mutation): Stores {
    match m
    case AddPolicy(p) => s.(policies := s.policies[p.name := p])
    case RemovePolicy(n) =>
      s.(policies := s.policies - {n},
         roles := map k | k in s.roles :: s.roles[k].(policies := Without(s.roles[k].policies, n)))
    case AddRole(r) => s.(roles := s.roles[r.name := r])
    case RemoveRole(n) => s.(roles := s.roles - {n})
    case AddEntry(e) => s.(entries := s.entries[EntryId(e) := e])
    case RemoveEntry(id) => s.(entries := s.entries - {id})
  }
}
