/** The role-based provider as it updates its two maps in place. */
module RbacProvider {
  import opened Authz
  import opened Rbac

  lemma TextsLast(perms: seq<Perm>, p: Perm)
    ensures Texts(perms + [p]) == Texts(perms) + {Render(p)}
  {
  }

  lemma DedupLast(perms: seq<Perm>, p: Perm)
    ensures Dedup(perms + [p]) == if Render(p) in Texts(perms) then Dedup(perms) else Dedup(perms) + [p]
  {
  }

  lemma GatherLast(s: State, roles: seq<string>, role: string)
    ensures Gather(s, roles + [role]) == Gather(s, roles) + PermsOf(s, role)
  {
  }

  /** The inner loop over one role's permissions. */
  method Collect(rolePerms: seq<Perm>, perms: seq<Perm>, seen: set<string>, ghost before: seq<Perm>)
    returns (perms': seq<Perm>, seen': set<string>)
    requires perms == Dedup(before) && seen == Texts(before)
    ensures perms' == Dedup(before + rolePerms) && seen' == Texts(before + rolePerms)
  {
    perms', seen' := perms, seen;
    assert before + [] == before;
    for i := 0 to |rolePerms|
      invariant perms' == Dedup(before + rolePerms[..i]) && seen' == Texts(before + rolePerms[..i])
    {
      var p := rolePerms[i];
      ghost var done := before + rolePerms[..i];
      assert before + rolePerms[..i + 1] == done + [p];
      DedupLast(done, p);
      TextsLast(done, p);
      if Render(p) !in seen' {
        perms' := perms' + [p];
        seen' := seen' + {Render(p)};
      }
    }
    assert rolePerms[..|rolePerms|] == rolePerms;
  }

  class RbacAuthorizationProvider {
    var roles: map<string, seq<Perm>>
    var users: map<string, seq<string>>

    function View(): State
      reads this
    {
      State(roles, users)
    }

    constructor (roles: map<string, seq<Perm>>, users: map<string, seq<string>>)
      ensures View() == State(roles, users)
    {
      this.roles, this.users := roles, users;
    }

    method GetPermissions(user: string) returns (perms: seq<Perm>)
      ensures perms == Dedup(UserPerms(View(), user))
    {
      perms := [];
      if user !in users {
        return;
      }
      var granted := users[user];
      var seen: set<string> := {};
      for i := 0 to |granted|
        invariant perms == Dedup(Gather(View(), granted[..i])) && seen == Texts(Gather(View(), granted[..i]))
      {
        var role := granted[i];
        ghost var before := Gather(View(), granted[..i]);
        assert granted[..i + 1] == granted[..i] + [role];
        GatherLast(View(), granted[..i], role);
        if role in roles {
          perms, seen := Collect(roles[role], perms, seen, before);
        } else {
          assert before + [] == before;
        }
      }
      assert granted[..|granted|] == granted;
    }

    method HasPermission(user: string, wanted: Perm) returns (allowed: bool)
      ensures allowed <==> Lookup(View(), user, wanted)
      ensures allowed ==> Via(View(), user, wanted)
      ensures Covered(UserPerms(View(), user)) ==> (allowed <==> Via(View(), user, wanted))
    {
      var perms := GetPermissions(user);
      allowed := AnyMatches(perms, wanted);
      if allowed {
        LookupSound(View(), user, wanted);
      }
      if Covered(UserPerms(View(), user)) {
        LookupIsVia(View(), user, wanted);
      }
    }

    method AddRole(role: string, perms: seq<Perm>)
      modifies this
      ensures View() == Apply(old(View()), Op.AddRole(role, perms))
    {
      roles := roles[role := perms];
    }

    method RemoveRole(role: string)
      modifies this
      ensures View() == Apply(old(View()), Op.RemoveRole(role))
    {
      roles := roles - {role};
      var rest := users.Keys;
      while rest != {}
        invariant roles == old(roles) - {role}
        invariant rest <= users.Keys == old(users).Keys
        invariant forall u :: u in rest ==> users[u] == old(users)[u]
        invariant forall u :: u in users && u !in rest ==> users[u] == Drop(old(users)[u], role)
      {
        var u :| u in rest;
        rest := rest - {u};
        var kept := Filter(users[u], role);
        users := users[u := kept];
      }
    }

    method AssignRole(user: string, role: string) returns (ok: bool)
      modifies this
      ensures ok == (role in old(roles))
      ensures View() == Apply(old(View()), Op.AssignRole(user, role))
    {
      if role !in roles {
        return false;
      }
      var granted := if user in users then users[user] else [];
      var found := false;
      for i := 0 to |granted|
        invariant found == (role in granted[..i])
        invariant View() == old(View())
      {
        assert granted[..i + 1] == granted[..i] + [granted[i]];
        if granted[i] == role {
          found := true;
        }
      }
      assert granted[..|granted|] == granted;
      if !found {
        users := users[user := granted + [role]];
      }
      return true;
    }

    method RevokeRole(user: string, role: string)
      modifies this
      ensures View() == Apply(old(View()), Op.RevokeRole(user, role))
    {
      var granted := if user in users then users[user] else [];
      var kept := Filter(granted, role);
      users := users[user := kept];
    }
  }

  /** The filtering loop that removal and revocation share. */
  method Filter(roles: seq<string>, role: string) returns (kept: seq<string>)
    ensures kept == Drop(roles, role)
  {
    kept := [];
    for i := 0 to |roles|
      invariant kept == Drop(roles[..i], role)
    {
      assert roles[..i + 1] == roles[..i] + [roles[i]];
      DropLast(roles[..i], roles[i], role);
      if roles[i] != role {
        kept := kept + [roles[i]];
      }
    }
    assert roles[..|roles|] == roles;
  }
}
