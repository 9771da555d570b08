/**
 When a list of permissions matches everything another permission matches. Finitely many requests
 tell, for every list. One subsuming member is enough; and below 256 members it is needed too,
 because some byte is then left unused by their scopes. So lost decisions and idle grants have
 exact conditions that can be computed.
 */
module AuthzCover {
  import opened Text
  import opened Authz

  // ---- Something no member mentions ----

  function Longest(names: seq<string>): (n: nat)
    ensures forall i :: 0 <= i < |names| ==> |names[i]| <= n
  {
    if names == [] then 0
    else
      var n := Longest(names[..|names| - 1]);
      if |names[|names| - 1]| > n then |names[|names| - 1]| else n
  }

  function Fresh(names: seq<string>): (s: string)
    ensures s !in names && s != "*"
  {
    seq(Longest(names) + 2, i => 'x')
  }

  lemma {:induction false} UnusedByte(used: set<char>, n: nat) returns (c: char)
    requires |used| < n <= 256
    ensures c !in used && c as int < n
    decreases n
  {
    var last := (n - 1) as char;
    if last in used {
      c := UnusedByte(used - {last}, n - 1);
    } else {
      c := last;
    }
  }

  /** The bytes that scopes have at position `at`. */
  function BytesAt(perms: seq<Perm>, at: nat): (used: set<char>)
    ensures |used| <= |perms|
    ensures forall i :: 0 <= i < |perms| && at < |perms[i].scope| ==> perms[i].scope[at] in used
  {
    if perms == [] then {}
    else
      var used := BytesAt(perms[..|perms| - 1], at);
      var scope := perms[|perms| - 1].scope;
      if at < |scope| then used + {scope[at]} else used
  }

  // ---- The witness ----

  function Resources(perms: seq<Perm>): seq<string> { seq(|perms|, i requires 0 <= i < |perms| => perms[i].resource) }

  function Actions(perms: seq<Perm>): seq<string> { seq(|perms|, i requires 0 <= i < |perms| => perms[i].action) }

  /** A name that `q` matches, and of the others only those that subsume it. */
  function ProbeName(names: seq<string>, q: string): string { if q == "*" then Fresh(names) else q }

  lemma ProbeNameWorks(names: seq<string>, q: string, i: nat)
    requires i < |names| && (names[i] == "*" || names[i] == ProbeName(names, q))
    ensures NameSubsumes(names[i], q)
  {
  }

  /** A scope that `q` matches, and of the members' scopes only those that subsume it. */
  lemma ProbeScope(perms: seq<Perm>, q: string) returns (w: string)
    requires |perms| < 256
    ensures ScopeMatches(q, w)
    ensures forall i :: 0 <= i < |perms| && ScopeMatches(perms[i].scope, w) ==> ScopeSubsumes(perms[i].scope, q)
  {
    StarSuffix(q);
    if AnyScope(q) {
      w := "";
    } else if !HasSuffix(q, "*") {
      w := q;
    } else {
      var base := TrimSuffix(q, "*");
      var c := UnusedByte(BytesAt(perms, |base|), 256);
      w := base + [c];
      forall i | 0 <= i < |perms| && ScopeMatches(perms[i].scope, w) ensures ScopeSubsumes(perms[i].scope, q) {
        ProbeScopeWorks(perms[i].scope, base, c, q);
      }
    }
  }

  lemma ProbeScopeWorks(p: string, base: string, c: char, q: string)
    requires !AnyScope(q) && HasSuffix(q, "*") && base == TrimSuffix(q, "*")
    requires ScopeMatches(p, base + [c]) && (|base| < |p| ==> p[|base|] != c)
    ensures ScopeSubsumes(p, q)
  {
    StarSuffix(p);
    assert (base + [c])[|base|] == c;
    if !AnyScope(p) {
      var prefix := TrimSuffix(p, "*");
      assert prefix <= base + [c];
      assert |prefix| <= |base|;
      assert prefix == (base + [c])[..|prefix|] == base[..|prefix|];
    }
  }

  lemma ProbeWorks(perms: seq<Perm>, q: Perm, w: Perm, i: nat)
    requires i < |perms| && Matches(perms[i], w)
    requires w.resource == ProbeName(Resources(perms), q.resource) && w.action == ProbeName(Actions(perms), q.action)
    requires ScopeMatches(perms[i].scope, w.scope) ==> ScopeSubsumes(perms[i].scope, q.scope)
    ensures Subsumes(perms[i], q)
  {
    ProbeNameWorks(Resources(perms), q.resource, i);
    ProbeNameWorks(Actions(perms), q.action, i);
  }

  lemma Probe(perms: seq<Perm>, q: Perm) returns (w: Perm)
    requires |perms| < 256
    ensures Matches(q, w) && forall i :: 0 <= i < |perms| && Matches(perms[i], w) ==> Subsumes(perms[i], q)
  {
    var scope := ProbeScope(perms, q.scope);
    w := Perm(ProbeName(Resources(perms), q.resource), ProbeName(Actions(perms), q.action), scope);
    forall i | 0 <= i < |perms| && Matches(perms[i], w) ensures Subsumes(perms[i], q) {
      ProbeWorks(perms, q, w, i);
    }
  }

  // ---- Finitely many requests tell ----

  function Scopes(perms: seq<Perm>): seq<string> { seq(|perms|, i requires 0 <= i < |perms| => perms[i].scope) }

  /**
   The scopes to try: one, or for a prefix pattern its continuations up to one character beyond
   the longest scope involved.
   */
  predicate Probes(perms: seq<Perm>, q: Perm, scope: string) {
    if AnyScope(q.scope) then scope == ""
    else if !HasSuffix(q.scope, "*") then scope == q.scope
    else TrimSuffix(q.scope, "*") <= scope && |scope| <= 1 + Longest([q.scope] + Scopes(perms))
  }

  /** A request that `q` matches: a fresh name wherever `q` has a wildcard. */
  function ProbeRequest(perms: seq<Perm>, q: Perm, scope: string): Perm {
    Perm(ProbeName(Resources(perms), q.resource), ProbeName(Actions(perms), q.action), scope)
  }

  /** Every request to try is matched by some member. */
  ghost predicate PassesProbes(perms: seq<Perm>, q: Perm) {
    forall scope :: Probes(perms, q, scope) ==> Any(perms, ProbeRequest(perms, q, scope))
  }

  /** The scope to try on behalf of a scope that `q` matches. */
  function ProbeFor(perms: seq<Perm>, q: Perm, scope: string): string {
    var bound := 1 + Longest([q.scope] + Scopes(perms));
    if AnyScope(q.scope) then "" else if |scope| <= bound then scope else scope[..bound]
  }

  lemma ProbeForProbes(perms: seq<Perm>, q: Perm, scope: string)
    requires ScopeMatches(q.scope, scope)
    ensures Probes(perms, q, ProbeFor(perms, q, scope))
  {
    StarSuffix(q.scope);
    var scopes := [q.scope] + Scopes(perms);
    assert scopes[0] == q.scope;
  }

  /** A member that matches the scope tried matches the scope it stands for. */
  lemma ProbeForStands(perms: seq<Perm>, q: Perm, scope: string, i: nat)
    requires i < |perms| && ScopeMatches(perms[i].scope, ProbeFor(perms, q, scope))
    ensures ScopeMatches(perms[i].scope, scope)
  {
    var p := perms[i].scope;
    StarSuffix(p);
    var scopes := [q.scope] + Scopes(perms);
    assert scopes[i + 1] == p;
  }

  lemma ProbeStands(perms: seq<Perm>, q: Perm, w: Perm)
    requires Matches(q, w) && Any(perms, ProbeRequest(perms, q, ProbeFor(perms, q, w.scope)))
    ensures Any(perms, w)
  {
    var i :| 0 <= i < |perms| && Matches(perms[i], ProbeRequest(perms, q, ProbeFor(perms, q, w.scope)));
    ProbeForStands(perms, q, w.scope, i);
    ProbeNameWorks(Resources(perms), q.resource, i);
    ProbeNameWorks(Actions(perms), q.action, i);
    assert Matches(perms[i], w);
  }

  lemma ProbeMatched(perms: seq<Perm>, q: Perm, scope: string)
    requires Probes(perms, q, scope)
    ensures Matches(q, ProbeRequest(perms, q, scope))
  {
  }

  /** A list, however long, matches all that `q` matches iff it passes the finitely many probes. */
  lemma CoversIff(perms: seq<Perm>, q: Perm)
    ensures (forall w :: Matches(q, w) ==> Any(perms, w)) <==> PassesProbes(perms, q)
  {
    if forall w :: Matches(q, w) ==> Any(perms, w) {
      forall scope | Probes(perms, q, scope) ensures Any(perms, ProbeRequest(perms, q, scope)) {
        ProbeMatched(perms, q, scope);
      }
    }
    if PassesProbes(perms, q) {
      forall w | Matches(q, w) ensures Any(perms, w) {
        ProbeForProbes(perms, q, w.scope);
        ProbeStands(perms, q, w);
      }
    }
  }

  /** Fewer than 256 permissions match all that `q` matches iff one of them subsumes `q`. */
  lemma CoversAloneIff(perms: seq<Perm>, q: Perm)
    requires |perms| < 256
    ensures (forall w :: Matches(q, w) ==> Any(perms, w)) <==> exists p :: p in perms && Subsumes(p, q)
  {
    if p :| p in perms && Subsumes(p, q) {
      SubsumesIff(p, q);
      var i :| 0 <= i < |perms| && perms[i] == p;
      forall w | Matches(q, w) ensures Any(perms, w) {
        assert Matches(perms[i], w);
      }
    } else {
      var w := Probe(perms, q);
    }
  }

  /** One pattern for each continuation of "a", and "a" itself. */
  function Continuations(chars: seq<char>): seq<Perm> {
    seq(|chars|, i requires 0 <= i < |chars| => Perm("*", "*", ['a', chars[i], '*'])) + [Perm("*", "*", "a")]
  }

  /**
   Without a bound that fails: patterns for every character cover "a*" together, and none of them
   alone.
   */
  lemma TogetherNotAlone(chars: seq<char>, q: Perm)
    requires (forall c: char :: c in chars) && q == Perm("*", "*", "a*")
    ensures forall w :: Matches(q, w) ==> Any(Continuations(chars), w)
    ensures !exists p :: p in Continuations(chars) && Subsumes(p, q)
  {
    var perms := Continuations(chars);
    assert TrimSuffix("a*", "*") == "a";
    forall c: char ensures HasSuffix(['a', c, '*'], "*") && TrimSuffix(['a', c, '*'], "*") == ['a', c] {
      StarSuffix(['a', c, '*']);
    }
    forall w | Matches(q, w) ensures Any(perms, w) {
      if w.scope == "a" {
        assert Matches(perms[|chars|], w);
      } else {
        assert |w.scope| >= 2 && w.scope[1] in chars;
        var i :| 0 <= i < |chars| && chars[i] == w.scope[1];
        assert ['a', chars[i]] == w.scope[..2];
        assert Matches(perms[i], w);
      }
    }
  }

  /** A grant changes no decision of any user iff the held permissions pass the probes for it. */
  lemma GrantIdleIff(acl: Acl, user: string, q: Perm)
    ensures (forall other, w :: Any(Held(Grant(acl, user, q), other), w) <==> Any(Held(acl, other), w)) <==>
      PassesProbes(Held(acl, user), q)
  {
    var held := Held(acl, user);
    CoversIff(held, q);
    if PassesProbes(held, q) {
      forall other, w ensures Any(Held(Grant(acl, user, q), other), w) <==> Any(Held(acl, other), w) {
        GrantAdds(acl, user, q, other, w);
        assert Matches(q, w) ==> Any(held, w);
      }
    } else {
      var w :| Matches(q, w) && !Any(held, w);
      GrantAdds(acl, user, q, user, w);
    }
  }

  /** With fewer than 256 held permissions that is: iff one of them subsumes it. */
  lemma PassesProbesIff(perms: seq<Perm>, q: Perm)
    requires |perms| < 256
    ensures PassesProbes(perms, q) <==> exists p :: p in perms && Subsumes(p, q)
  {
    CoversIff(perms, q);
    CoversAloneIff(perms, q);
  }
}
