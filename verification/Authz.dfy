/**
 The permission algebra: rendering, wildcard matching and its composition, and the access
 control list whose entries are granted and revoked.
 */
module Authz {
  import opened Text

  datatype Perm = Perm(resource: string, action: string, scope: string)

  // ---- Rendering ----

  function Render(p: Perm): string {
    if p.scope != "" then p.resource + ":" + (p.action + ":" + p.scope) else p.resource + ":" + p.action
  }

  predicate ColonFree(p: Perm) { ':' !in p.resource && ':' !in p.action }

  /** The rendering identifies a permission whose resource and action have no colon. */
  lemma RenderInjective(p: Perm, q: Perm)
    requires ColonFree(p) && ColonFree(q) && Render(p) == Render(q)
    ensures p == q
  {
    var a := if p.scope != "" then p.action + ":" + p.scope else p.action;
    var b := if q.scope != "" then q.action + ":" + q.scope else q.action;
    if p.scope != "" {
      assert a[|p.action|] == ':';
    }
    if q.scope != "" {
      assert b[|q.action|] == ':';
    }
    PairInjective(p.resource, a, q.resource, b, ':');
    if p.scope != "" && q.scope != "" {
      PairInjective(p.action, p.scope, q.action, q.scope, ':');
    }
  }

  /** With a colon in the action two permissions can share a rendering. */
  lemma RenderCollides()
    ensures Render(Perm("t", "a:b", "")) == Render(Perm("t", "a", "b"))
  {
  }

  // ---- Matching ----

  predicate ScopeMatches(held: string, wanted: string) {
    held == "" || held == "*" || held == wanted || (HasSuffix(held, "*") && TrimSuffix(held, "*") <= wanted)
  }

  predicate Matches(held: Perm, wanted: Perm) {
    (held.resource == "*" || held.resource == wanted.resource)
    && (held.action == "*" || held.action == wanted.action)
    && ScopeMatches(held.scope, wanted.scope)
  }

  lemma MatchesReflexive(p: Perm)
    ensures Matches(p, p)
  {
  }

  lemma StarSuffix(s: string)
    ensures HasSuffix(s, "*") <==> s != "" && s[|s| - 1] == '*'
  {
  }

  lemma DoubleStarSuffix(s: string)
    ensures HasSuffix(s, "**") <==> |s| >= 2 && s[|s| - 1] == '*' && s[|s| - 2] == '*'
  {
  }

  lemma ScopesCompose(q: string, p: string, r: string)
    requires !HasSuffix(q, "**") && ScopeMatches(q, p) && ScopeMatches(p, r)
    ensures ScopeMatches(q, r)
  {
  }

  ghost predicate Composes(q: Perm) {
    forall p, r :: Matches(q, p) && Matches(p, r) ==> Matches(q, r)
  }

  lemma DoubleStarFails(q: Perm) returns (p: Perm, r: Perm)
    requires HasSuffix(q.scope, "**")
    ensures Matches(q, p) && Matches(p, r) && !Matches(q, r)
  {
    var s := q.scope;
    StarSuffix(s);
    DoubleStarSuffix(s);
    var once := TrimSuffix(s, "*");
    StarSuffix(once);
    var twice := TrimSuffix(once, "*");
    p, r := q.(scope := once), q.(scope := twice);
  }

  /** Matching by `q` composes with every further match iff its scope does not end in two stars. */
  lemma ComposesIff(q: Perm)
    ensures Composes(q) <==> !HasSuffix(q.scope, "**")
  {
    if HasSuffix(q.scope, "**") {
      var p, r := DoubleStarFails(q);
    } else {
      forall p, r | Matches(q, p) && Matches(p, r) ensures Matches(q, r) {
        ScopesCompose(q.scope, p.scope, r.scope);
      }
    }
  }

  // ---- Subsumption ----

  predicate AnyScope(s: string) { s == "" || s == "*" }

  predicate NameSubsumes(p: string, q: string) { p == "*" || p == q }

  /** Decided on the two scopes alone: `p` is a wildcard, the same scope, or a prefix pattern of it. */
  predicate ScopeSubsumes(p: string, q: string) {
    AnyScope(p) || (!AnyScope(q) && (p == q || (HasSuffix(p, "*") && TrimSuffix(p, "*") <= TrimSuffix(q, "*"))))
  }

  predicate Subsumes(p: Perm, q: Perm) {
    NameSubsumes(p.resource, q.resource) && NameSubsumes(p.action, q.action) && ScopeSubsumes(p.scope, q.scope)
  }

  lemma ScopeSubsumedMatches(p: string, q: string, w: string)
    requires ScopeSubsumes(p, q) && ScopeMatches(q, w)
    ensures ScopeMatches(p, w)
  {
  }

  /** A scope that `q` matches and `p` does not. */
  lemma ScopeWitness(p: string, q: string) returns (w: string)
    requires !ScopeSubsumes(p, q)
    ensures ScopeMatches(q, w) && !ScopeMatches(p, w)
  {
    StarSuffix(p);
    if AnyScope(q) {
      w := if HasSuffix(p, "*") then "" else p + "x";
      assert |p + "x"| != |p|;
    } else {
      StarSuffix(q);
      var base := TrimSuffix(q, "*");
      w := if p == base then base + "x" else base;
      assert base <= w && |base + "x"| != |base|;
    }
  }

  /** A name that `q` matches, avoiding what `p` matches unless `p` subsumes `q`. */
  function NameWitness(p: string, q: string): string { if q == "*" then p + "x" else q }

  lemma NameWitnessWorks(p: string, q: string)
    ensures q == "*" || q == NameWitness(p, q)
    ensures !NameSubsumes(p, q) ==> p != "*" && p != NameWitness(p, q)
  {
    assert |p + "x"| != |p|;
  }

  /** Subsumption is exactly inclusion of everything matched. */
  lemma SubsumesIff(p: Perm, q: Perm)
    ensures Subsumes(p, q) <==> forall w :: Matches(q, w) ==> Matches(p, w)
  {
    if Subsumes(p, q) {
      forall w | Matches(q, w) ensures Matches(p, w) {
        ScopeSubsumedMatches(p.scope, q.scope, w.scope);
      }
    } else {
      var w := Unsubsumed(p, q);
    }
  }

  lemma Unsubsumed(p: Perm, q: Perm) returns (w: Perm)
    requires !Subsumes(p, q)
    ensures Matches(q, w) && !Matches(p, w)
  {
    NameWitnessWorks(p.resource, q.resource);
    NameWitnessWorks(p.action, q.action);
    w := Perm(NameWitness(p.resource, q.resource), NameWitness(p.action, q.action), q.scope);
    if !ScopeSubsumes(p.scope, q.scope) {
      var scope := ScopeWitness(p.scope, q.scope);
      w := w.(scope := scope);
    }
  }

  // ---- Lists of permissions ----

  ghost predicate Any(perms: seq<Perm>, wanted: Perm) {
    exists i :: 0 <= i < |perms| && Matches(perms[i], wanted)
  }

  method AnyMatches(perms: seq<Perm>, wanted: Perm) returns (found: bool)
    ensures found == Any(perms, wanted)
  {
    found := false;
    for i := 0 to |perms|
      invariant found == exists j :: 0 <= j < i && Matches(perms[j], wanted)
    {
      if Matches(perms[i], wanted) {
        found := true;
      }
    }
  }

  lemma AnyCat(a: seq<Perm>, b: seq<Perm>, wanted: Perm)
    ensures Any(a + b, wanted) <==> Any(a, wanted) || Any(b, wanted)
  {
    var c := a + b;
    assert forall i :: 0 <= i < |a| ==> c[i] == a[i];
    assert forall i :: 0 <= i < |b| ==> c[|a| + i] == b[i];
    if Any(c, wanted) {
      var i :| 0 <= i < |c| && Matches(c[i], wanted);
      assert i >= |a| ==> Matches(b[i - |a|], wanted);
    }
    if Any(b, wanted) {
      var i :| 0 <= i < |b| && Matches(b[i], wanted);
      assert Matches(c[|a| + i], wanted);
    }
  }

  /** The permissions that do not render as `text`, in order. */
  function Without(perms: seq<Perm>, text: string): seq<Perm> {
    if perms == [] then []
    else if Render(perms[0]) != text then [perms[0]] + Without(perms[1..], text)
    else Without(perms[1..], text)
  }

  lemma {:induction false} WithoutMembers(perms: seq<Perm>, text: string, p: Perm)
    ensures p in Without(perms, text) <==> p in perms && Render(p) != text
  {
    if perms != [] {
      assert perms == [perms[0]] + perms[1..];
      WithoutMembers(perms[1..], text, p);
    }
  }

  lemma WithoutLast(perms: seq<Perm>, p: Perm, text: string)
    ensures Without(perms + [p], text) == if Render(p) != text then Without(perms, text) + [p] else Without(perms, text)
  {
    WithoutCat(perms, [p], text);
    assert [p][1..] == [];
  }

  lemma {:induction false} WithoutCat(a: seq<Perm>, b: seq<Perm>, text: string)
    ensures Without(a + b, text) == Without(a, text) + Without(b, text)
  {
    if a == [] {
      assert a + b == b;
    } else {
      assert (a + b)[1..] == a[1..] + b;
      WithoutCat(a[1..], b, text);
    }
  }

  lemma {:induction false} WithoutAbsent(perms: seq<Perm>, text: string)
    requires forall p :: p in perms ==> Render(p) != text
    ensures Without(perms, text) == perms
  {
    if perms != [] {
      assert perms == [perms[0]] + perms[1..];
      WithoutAbsent(perms[1..], text);
    }
  }

  // ---- The access control list ----

  type Acl = map<string, seq<Perm>>

  function Held(acl: Acl, user: string): seq<Perm> { if user in acl then acl[user] else [] }

  function Grant(acl: Acl, user: string, p: Perm): Acl { acl[user := Held(acl, user) + [p]] }

  function Revoke(acl: Acl, user: string, p: Perm): Acl { acl[user := Without(Held(acl, user), Render(p))] }

  class AclProvider {
    var acl: Acl

    constructor (acl: Acl)
      ensures this.acl == acl
    {
      this.acl := acl;
    }

    method HasPermission(user: string, wanted: Perm) returns (allowed: bool)
      ensures allowed == Any(Held(acl, user), wanted)
    {
      allowed := AnyMatches(Held(acl, user), wanted);
    }

    method GrantPermission(user: string, p: Perm)
      modifies this
      ensures acl == Grant(old(acl), user, p)
    {
      var perms := if user in acl then acl[user] else [];
      acl := acl[user := perms + [p]];
    }

    method RevokePermission(user: string, p: Perm)
      modifies this
      ensures acl == Revoke(old(acl), user, p)
    {
      var perms := if user in acl then acl[user] else [];
      var kept := FilterOut(perms, Render(p));
      acl := acl[user := kept];
    }
  }

  /** The filtering loop of a revocation. */
  method FilterOut(perms: seq<Perm>, text: string) returns (kept: seq<Perm>)
    ensures kept == Without(perms, text)
  {
    kept := [];
    for i := 0 to |perms|
      invariant kept == Without(perms[..i], text)
    {
      assert perms[..i + 1] == perms[..i] + [perms[i]];
      WithoutLast(perms[..i], perms[i], text);
      if Render(perms[i]) != text {
        kept := kept + [perms[i]];
      }
    }
    assert perms[..|perms|] == perms;
  }

  /** A grant adds exactly the decisions its permission matches, and only for its user. */
  lemma GrantAdds(acl: Acl, user: string, p: Perm, other: string, wanted: Perm)
    ensures Any(Held(Grant(acl, user, p), other), wanted) <==>
      Any(Held(acl, other), wanted) || (other == user && Matches(p, wanted))
  {
    AnyCat(Held(acl, user), [p], wanted);
    assert Any([p], wanted) <==> Matches([p][0], wanted);
  }

  /** Granting what a held, composing permission subsumes changes no decision of any user. */
  lemma SubsumedGrantIdle(acl: Acl, user: string, q: Perm, p: Perm, other: string, wanted: Perm)
    requires q in Held(acl, user) && Matches(q, p) && !HasSuffix(q.scope, "**")
    ensures Any(Held(Grant(acl, user, p), other), wanted) <==> Any(Held(acl, other), wanted)
  {
    GrantAdds(acl, user, p, other, wanted);
    ComposesIff(q);
  }

  /** Revoking right after granting leaves what revoking alone leaves. */
  lemma RevokeUndoesGrant(acl: Acl, user: string, p: Perm)
    ensures Revoke(Grant(acl, user, p), user, p) == Revoke(acl, user, p)
    ensures (forall x :: x in Held(acl, user) ==> Render(x) != Render(p)) ==>
      Held(Revoke(Grant(acl, user, p), user, p), user) == Held(acl, user)
  {
    var held := Held(acl, user);
    WithoutLast(held, p, Render(p));
    if forall x :: x in held ==> Render(x) != Render(p) {
      WithoutAbsent(held, Render(p));
    }
  }

  /** No other held permission renders like `p`. */
  predicate RendersAlone(perms: seq<Perm>, p: Perm) {
    forall x :: x in perms && Render(x) == Render(p) ==> x == p
  }

  /** A revocation removes its permission and nothing else iff no other held one renders like it. */
  lemma RevokeRemovesExactlyIff(acl: Acl, user: string, p: Perm)
    ensures (forall x :: x in Held(Revoke(acl, user, p), user) <==> x in Held(acl, user) && x != p) <==>
      RendersAlone(Held(acl, user), p)
  {
    forall x ensures x in Held(Revoke(acl, user, p), user) <==> x in Held(acl, user) && Render(x) != Render(p) {
      WithoutMembers(Held(acl, user), Render(p), x);
    }
  }

  lemma ColonFreeRendersAlone(perms: seq<Perm>, p: Perm)
    requires ColonFree(p) && forall x :: x in perms ==> ColonFree(x)
    ensures RendersAlone(perms, p)
  {
    forall x | x in perms && Render(x) == Render(p) ensures x == p {
      RenderInjective(x, p);
    }
  }
}
