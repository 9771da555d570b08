/**
 Role-based access control: roles and role assignments updated in place, and the permission
 look-up that drops permissions whose rendering was already seen.
 */
module Rbac {
  import opened Authz
  import opened AuthzCover

  datatype State = State(roles: map<string, seq<Perm>>, users: map<string, seq<string>>)

  datatype Op =
    | AddRole(role: string, perms: seq<Perm>)
    | RemoveRole(role: string)
    | AssignRole(user: string, role: string)
    | RevokeRole(user: string, role: string)

  function Assigned(s: State, user: string): seq<string> { if user in s.users then s.users[user] else [] }

  function Drop(roles: seq<string>, role: string): seq<string> {
    if roles == [] then []
    else if roles[0] != role then [roles[0]] + Drop(roles[1..], role)
    else Drop(roles[1..], role)
  }

  function Apply(s: State, op: Op): State {
    match op
    case AddRole(role, perms) => s.(roles := s.roles[role := perms])
    case RemoveRole(role) => State(s.roles - {role}, map u | u in s.users :: Drop(s.users[u], role))
    case AssignRole(user, role) =>
      if role !in s.roles || role in Assigned(s, user) then s
      else s.(users := s.users[user := Assigned(s, user) + [role]])
    case RevokeRole(user, role) => s.(users := s.users[user := Drop(Assigned(s, user), role)])
  }

  // ---- Filtering ----

  predicate Distinct(roles: seq<string>) {
    forall i, j :: 0 <= i < j < |roles| ==> roles[i] != roles[j]
  }

  lemma {:induction false} DropMembers(roles: seq<string>, role: string, r: string)
    ensures r in Drop(roles, role) <==> r in roles && r != role
  {
    if roles != [] {
      assert roles == [roles[0]] + roles[1..];
      DropMembers(roles[1..], role, r);
    }
  }

  lemma {:induction false} DropDistinct(roles: seq<string>, role: string)
    requires Distinct(roles)
    ensures Distinct(Drop(roles, role))
  {
    if roles != [] {
      DropDistinct(roles[1..], role);
      DropMembers(roles[1..], role, roles[0]);
    }
  }

  lemma {:induction false} DropLast(roles: seq<string>, r: string, role: string)
    ensures Drop(roles + [r], role) == if r != role then Drop(roles, role) + [r] else Drop(roles, role)
  {
    if roles == [] {
      assert roles + [r] == [r] && [r][1..] == [];
    } else {
      assert (roles + [r])[1..] == roles[1..] + [r];
      DropLast(roles[1..], r, role);
    }
  }

  // ---- Whole runs ----

  predicate Sound(s: State, user: string) {
    Distinct(Assigned(s, user)) && forall r :: r in Assigned(s, user) ==> r in s.roles
  }

  /** Every assigned role exists and is assigned once. */
  ghost predicate Consistent(s: State) { forall user :: Sound(s, user) }

  lemma StepKeepsUser(s: State, op: Op, user: string)
    requires Sound(s, user)
    ensures Sound(Apply(s, op), user)
  {
    match op
    case AddRole(_, _) =>
    case RemoveRole(role) => DroppedSound(s, user, role);
    case AssignRole(_, _) =>
    case RevokeRole(_, role) => DroppedSound(s, user, role);
  }

  lemma DroppedSound(s: State, user: string, role: string)
    requires Sound(s, user)
    ensures Distinct(Drop(Assigned(s, user), role))
    ensures forall r :: r in Drop(Assigned(s, user), role) ==> r in s.roles && r != role
  {
    DropDistinct(Assigned(s, user), role);
    forall r | r in Drop(Assigned(s, user), role) ensures r in s.roles && r != role {
      DropMembers(Assigned(s, user), role, r);
    }
  }

  function Run(s: State, ops: seq<Op>): State
    decreases |ops|
  {
    if ops == [] then s else Run(Apply(s, ops[0]), ops[1..])
  }

  /** Every run of the four operations keeps assigned roles existing and duplicate-free. */
  lemma {:induction false} RunKeeps(s: State, ops: seq<Op>)
    requires Consistent(s)
    ensures Consistent(Run(s, ops))
    decreases |ops|
  {
    if ops != [] {
      forall user ensures Sound(Apply(s, ops[0]), user) {
        StepKeepsUser(s, ops[0], user);
      }
      RunKeeps(Apply(s, ops[0]), ops[1..]);
    }
  }

  // ---- Look-up ----

  function PermsOf(s: State, role: string): seq<Perm> { if role in s.roles then s.roles[role] else [] }

  /** The permissions of the roles, in order. */
  function Gather(s: State, roles: seq<string>): seq<Perm> {
    if roles == [] then [] else Gather(s, roles[..|roles| - 1]) + PermsOf(s, roles[|roles| - 1])
  }

  function Texts(perms: seq<Perm>): set<string> { set p | p in perms :: Render(p) }

  /** The first permission of each rendering, in order. */
  function Dedup(perms: seq<Perm>): seq<Perm> {
    if perms == [] then []
    else
      var init, p := perms[..|perms| - 1], perms[|perms| - 1];
      if Render(p) in Texts(init) then Dedup(init) else Dedup(init) + [p]
  }

  /** Some assigned role has a matching permission. */
  ghost predicate Via(s: State, user: string, wanted: Perm) {
    exists role :: role in Assigned(s, user) && Any(PermsOf(s, role), wanted)
  }

  predicate NoCollisions(perms: seq<Perm>) {
    forall p, q :: p in perms && q in perms && Render(p) == Render(q) ==> p == q
  }

  lemma {:induction false} DedupMember(perms: seq<Perm>, p: Perm)
    ensures p in Dedup(perms) ==> p in perms
  {
    if perms != [] {
      var init := perms[..|perms| - 1];
      DedupMember(init, p);
      assert perms == init + [perms[|perms| - 1]];
    }
  }

  lemma {:induction false} DedupTexts(perms: seq<Perm>)
    ensures Texts(Dedup(perms)) == Texts(perms)
  {
    if perms != [] {
      var init, p := perms[..|perms| - 1], perms[|perms| - 1];
      DedupTexts(init);
      assert perms == init + [p];
      assert Texts(perms) == Texts(init) + {Render(p)};
      assert Texts(Dedup(init) + [p]) == Texts(Dedup(init)) + {Render(p)};
    }
  }

  lemma {:induction false} DedupDistinct(perms: seq<Perm>)
    ensures forall i, j :: 0 <= i < j < |Dedup(perms)| ==> Render(Dedup(perms)[i]) != Render(Dedup(perms)[j])
  {
    if perms != [] {
      var init := perms[..|perms| - 1];
      DedupDistinct(init);
      DedupTexts(init);
      forall i | 0 <= i < |Dedup(init)| ensures Render(Dedup(init)[i]) in Texts(Dedup(init)) {
        assert Dedup(init)[i] in Dedup(init);
      }
    }
  }

  lemma DedupKeeps(perms: seq<Perm>, p: Perm)
    requires NoCollisions(perms) && p in perms
    ensures p in Dedup(perms)
  {
    DedupTexts(perms);
    assert Render(p) in Texts(perms);
    var q :| q in Dedup(perms) && Render(q) == Render(p);
    DedupMember(perms, q);
  }

  /** De-duplication keeps every permission iff no two different ones render alike. */
  lemma DedupKeepsIff(perms: seq<Perm>)
    ensures (forall p :: p in perms ==> p in Dedup(perms)) <==> NoCollisions(perms)
  {
    if NoCollisions(perms) {
      forall p | p in perms ensures p in Dedup(perms) {
        DedupKeeps(perms, p);
      }
    }
    if forall p :: p in perms ==> p in Dedup(perms) {
      DedupDistinct(perms);
      forall p, q | p in perms && q in perms && Render(p) == Render(q) ensures p == q {
        var i :| 0 <= i < |Dedup(perms)| && Dedup(perms)[i] == p;
        var j :| 0 <= j < |Dedup(perms)| && Dedup(perms)[j] == q;
      }
    }
  }

  lemma {:induction false} GatherAny(s: State, roles: seq<string>, wanted: Perm)
    ensures Any(Gather(s, roles), wanted) <==> exists role :: role in roles && Any(PermsOf(s, role), wanted)
  {
    if roles != [] {
      var init, last := roles[..|roles| - 1], roles[|roles| - 1];
      GatherAny(s, init, wanted);
      AnyCat(Gather(s, init), PermsOf(s, last), wanted);
      assert roles == init + [last];
    }
  }

  /** De-duplication never adds a decision. */
  lemma DedupAnySound(perms: seq<Perm>, wanted: Perm)
    requires Any(Dedup(perms), wanted)
    ensures Any(perms, wanted)
  {
    var i :| 0 <= i < |Dedup(perms)| && Matches(Dedup(perms)[i], wanted);
    DedupMember(perms, Dedup(perms)[i]);
    var j :| 0 <= j < |perms| && perms[j] == Dedup(perms)[i];
  }

  /** Every permission, kept or dropped, is subsumed by one that is kept. */
  predicate Covered(perms: seq<Perm>) {
    forall q :: q in perms ==> exists p :: p in Dedup(perms) && Subsumes(p, q)
  }

  /** If the survivors cover all permissions it loses no decision. */
  lemma DedupAny(perms: seq<Perm>, wanted: Perm)
    requires Covered(perms)
    ensures Any(Dedup(perms), wanted) <==> Any(perms, wanted)
  {
    if Any(perms, wanted) {
      var i :| 0 <= i < |perms| && Matches(perms[i], wanted);
      assert perms[i] in perms;
      var p :| p in Dedup(perms) && Subsumes(p, perms[i]);
      SubsumesIff(p, perms[i]);
      var j :| 0 <= j < |Dedup(perms)| && Dedup(perms)[j] == p;
    }
    if Any(Dedup(perms), wanted) {
      DedupAnySound(perms, wanted);
    }
  }

  /** The survivors pass the probes for every permission. */
  ghost predicate AllPass(perms: seq<Perm>) { forall q :: q in perms ==> PassesProbes(Dedup(perms), q) }

  /** Exactly then no decision is lost, however long the list. */
  lemma DedupLosesNothingIff(perms: seq<Perm>)
    ensures (forall w :: Any(Dedup(perms), w) <==> Any(perms, w)) <==> AllPass(perms)
  {
    if AllPass(perms) {
      forall w ensures Any(Dedup(perms), w) <==> Any(perms, w) {
        DedupMatches(perms, w);
      }
    }
    if forall w :: Any(Dedup(perms), w) <==> Any(perms, w) {
      forall q | q in perms ensures PassesProbes(Dedup(perms), q) {
        var i :| 0 <= i < |perms| && perms[i] == q;
        forall w | Matches(q, w) ensures Any(Dedup(perms), w) {
          assert Matches(perms[i], w);
        }
        CoversIff(Dedup(perms), q);
      }
    }
  }

  lemma DedupMatches(perms: seq<Perm>, w: Perm)
    requires AllPass(perms)
    ensures Any(Dedup(perms), w) <==> Any(perms, w)
  {
    if Any(perms, w) {
      var i :| 0 <= i < |perms| && Matches(perms[i], w);
      assert perms[i] in perms;
      CoversIff(Dedup(perms), perms[i]);
    }
    if Any(Dedup(perms), w) {
      DedupAnySound(perms, w);
    }
  }

  /** With fewer than 256 survivors the probes pass exactly if the survivors cover. */
  lemma AllPassIff(perms: seq<Perm>)
    requires |Dedup(perms)| < 256
    ensures AllPass(perms) <==> Covered(perms)
  {
    forall q | q in perms
      ensures PassesProbes(Dedup(perms), q) <==> exists p :: p in Dedup(perms) && Subsumes(p, q)
    {
      PassesProbesIff(Dedup(perms), q);
    }
  }

  lemma NoCollisionsCovered(perms: seq<Perm>)
    requires NoCollisions(perms)
    ensures Covered(perms)
  {
    forall q | q in perms ensures exists p :: p in Dedup(perms) && Subsumes(p, q) {
      DedupKeeps(perms, q);
      assert Subsumes(q, q);
    }
  }

  ghost predicate AllColonFree(perms: seq<Perm>) { forall p :: p in perms ==> ColonFree(p) }

  lemma ColonFreeCovered(perms: seq<Perm>)
    requires AllColonFree(perms)
    ensures NoCollisions(perms) && Covered(perms)
  {
    forall p, q | p in perms && q in perms && Render(p) == Render(q) ensures p == q {
      RenderInjective(p, q);
    }
    NoCollisionsCovered(perms);
  }

  function UserPerms(s: State, user: string): seq<Perm> { Gather(s, Assigned(s, user)) }

  /** What `HasPermission` answers. */
  ghost predicate Lookup(s: State, user: string, wanted: Perm) { Any(Dedup(UserPerms(s, user)), wanted) }

  /** The look-up allows exactly what some assigned role allows, if the survivors cover. */
  lemma LookupIsVia(s: State, user: string, wanted: Perm)
    requires Covered(UserPerms(s, user))
    ensures Lookup(s, user, wanted) <==> Via(s, user, wanted)
  {
    DedupAny(UserPerms(s, user), wanted);
    GatherAny(s, Assigned(s, user), wanted);
  }

  /** A user loses no decision iff the permissions kept pass the probes for all of them. */
  lemma LookupIsViaIff(s: State, user: string)
    ensures (forall w :: Lookup(s, user, w) <==> Via(s, user, w)) <==> AllPass(UserPerms(s, user))
  {
    DedupLosesNothingIff(UserPerms(s, user));
    forall w ensures Via(s, user, w) <==> Any(UserPerms(s, user), w) {
      GatherAny(s, Assigned(s, user), w);
    }
  }

  /** In general the look-up may only lose decisions. */
  lemma LookupSound(s: State, user: string, wanted: Perm)
    requires Lookup(s, user, wanted)
    ensures Via(s, user, wanted)
  {
    DedupAnySound(UserPerms(s, user), wanted);
    GatherAny(s, Assigned(s, user), wanted);
  }

  lemma DedupPair(p: Perm, q: Perm)
    requires Render(p) == Render(q)
    ensures Dedup([p, q]) == [p]
  {
    assert [p, q][..1] == [p] && [p][..0] == [];
    assert p in [p] && Render(q) in Texts([p]);
    assert Dedup([p]) == [p];
  }

  /** A user who holds `p` and then `q`, rendered alike, loses no decision iff `p` subsumes `q`. */
  lemma PairLosesNothingIff(s: State, user: string, p: Perm, q: Perm)
    requires UserPerms(s, user) == [p, q] && Render(p) == Render(q)
    ensures (forall w :: Lookup(s, user, w) <==> Via(s, user, w)) <==> Subsumes(p, q)
  {
    DedupPair(p, q);
    LookupIsViaIff(s, user);
    AllPassIff([p, q]);
    assert p in [p] && p in [p, q] && q in [p, q] && Subsumes(p, p);
  }

  /** A state in which one user holds exactly `p` and then `q`, through one role. */
  function PairState(user: string, role: string, p: Perm, q: Perm): State {
    State(map[role := [p, q]], map[user := [role]])
  }

  lemma PairHeld(user: string, role: string, p: Perm, q: Perm)
    ensures UserPerms(PairState(user, role, p, q), user) == [p, q]
  {
    var s := PairState(user, role, p, q);
    assert [role][..0] == [];
    assert Gather(s, []) == [] && [] + [p, q] == [p, q];
  }

  /** Whenever `p` does not subsume a `q` rendered alike, some state and request show the loss. */
  lemma LookupLosesOnCollision(user: string, role: string, p: Perm, q: Perm) returns (s: State, wanted: Perm)
    requires Render(p) == Render(q) && !Subsumes(p, q)
    ensures Via(s, user, wanted) && !Lookup(s, user, wanted)
  {
    s := PairState(user, role, p, q);
    PairHeld(user, role, p, q);
    PairLosesNothingIff(s, user, p, q);
    wanted :| Lookup(s, user, wanted) != Via(s, user, wanted);
    if Lookup(s, user, wanted) {
      LookupSound(s, user, wanted);
    }
  }

  // ---- Decisions after an operation ----

  /** Assigning an existing role adds exactly that role's decisions, to that user only. */
  lemma AssignAdds(s: State, user: string, role: string, other: string, wanted: Perm)
    requires role in s.roles
    ensures Via(Apply(s, AssignRole(user, role)), other, wanted) <==>
      Via(s, other, wanted) || (other == user && Any(s.roles[role], wanted))
  {
    var t := Apply(s, AssignRole(user, role));
    assert forall r :: PermsOf(t, r) == PermsOf(s, r);
    assert forall r :: r in Assigned(t, other) <==> r in Assigned(s, other) || (other == user && r == role);
  }

  /** Revoking a role leaves exactly the decisions of the user's other roles. */
  lemma RevokeLeaves(s: State, user: string, role: string, other: string, wanted: Perm)
    ensures Via(Apply(s, RevokeRole(user, role)), other, wanted) <==>
      exists r :: r in Assigned(s, other) && (other == user ==> r != role) && Any(PermsOf(s, r), wanted)
  {
    var t := Apply(s, RevokeRole(user, role));
    assert forall r :: PermsOf(t, r) == PermsOf(s, r);
    forall r ensures r in Assigned(t, other) <==> r in Assigned(s, other) && (other == user ==> r != role) {
      DropMembers(Assigned(s, user), role, r);
    }
  }

  /** Removing a role leaves exactly the decisions of the other roles, for every user. */
  lemma RemoveLeaves(s: State, role: string, user: string, wanted: Perm)
    ensures Via(Apply(s, RemoveRole(role)), user, wanted) <==>
      exists r :: r in Assigned(s, user) && r != role && Any(PermsOf(s, r), wanted)
  {
    var t := Apply(s, RemoveRole(role));
    assert forall r :: r != role ==> PermsOf(t, r) == PermsOf(s, r);
    forall r ensures r in Assigned(t, user) <==> r in Assigned(s, user) && r != role {
      DropMembers(Assigned(s, user), role, r);
    }
  }
}
