/** What every run of the role service keeps, what one call undoes, and what its listing contains. */
module RbacLaws {
  import opened Wrappers
  import opened Text
  import opened Rbac

  datatype Operation = AddRole(role: SimpleRole) | AssignRole(user: string, name: string) | RemoveRole(user: string, name: string)

  function Step(s: State, op: Operation): State {
    match op
    case AddRole(role) => Added(s, role)
    case AssignRole(user, name) => var r := Assigned(s, user, name); if r.Ok? then r.value else s
    case RemoveRole(user, name) => var r := Removed(s, user, name); if r.Ok? then r.value else s
  }

  function After(s: State, ops: seq<Operation>): State {
    if ops == [] then s else Step(After(s, ops[..|ops| - 1]), ops[|ops| - 1])
  }

  predicate Distinct(list: seq<string>) {
    forall i, j | 0 <= i < j < |list| :: list[i] != list[j]
  }

  /** Every listed user has at least one role, none twice, each of them existing. */
  ghost predicate Valid(s: State) {
    forall u | u in s.userRoles ::
      && s.userRoles[u] != [] && Distinct(s.userRoles[u])
      && forall r | r in s.userRoles[u] :: r in s.roles
  }

  lemma {:induction false} WithoutMeaning(list: seq<string>, role: string)
    ensures forall r :: r in Without(list, role) <==> r in list && r != role
    ensures |Without(list, role)| <= |list|
    ensures |Without(list, role)| == |list| <==> role !in list
    ensures role !in list ==> Without(list, role) == list
    ensures Distinct(list) ==> Distinct(Without(list, role))
  {
    if list == [] {
    } else {
      var rest := list[1..];
      WithoutMeaning(rest, role);
      assert list == [list[0]] + rest;
      assert Distinct(list) ==> list[0] !in rest && Distinct(rest);
      if list[0] != role {
        var kept := Without(rest, role);
        assert Without(list, role) == [list[0]] + kept;
        assert forall i | 1 <= i < |kept| + 1 :: ([list[0]] + kept)[i] == kept[i - 1];
      }
    }
  }

  lemma {:induction false} WithoutLast(list: seq<string>, role: string)
    requires role !in list
    ensures Without(list + [role], role) == list
  {
    if list == [] {
      assert [role][1..] == [];
    } else {
      assert (list + [role])[1..] == list[1..] + [role];
      WithoutLast(list[1..], role);
      assert list == [list[0]] + list[1..];
    }
  }

  lemma StepKeepsValid(s: State, op: Operation)
    requires Valid(s)
    ensures Valid(Step(s, op))
  {
    if op.RemoveRole? && op.user in s.userRoles {
      WithoutMeaning(s.userRoles[op.user], op.name);
    }
  }

  /** The invariant holds over every run from an empty or a default service. */
  lemma {:induction false} ValidAlways(start: State, ops: seq<Operation>)
    requires start == EMPTY || start == DEFAULT
    ensures Valid(After(start, ops))
  {
    if ops == [] {
    } else {
      ValidAlways(start, ops[..|ops| - 1]);
      StepKeepsValid(After(start, ops[..|ops| - 1]), ops[|ops| - 1]);
    }
  }

  /** Removing a role just assigned restores the whole state. */
  lemma RemoveUndoesAssign(s: State, user: string, role: string)
    requires Valid(s) && Assigned(s, user, role).Ok?
    ensures Removed(Assigned(s, user, role).value, user, role) == Ok(s)
  {
    var list := RolesOf(s, user);
    WithoutLast(list, role);
    var s1 := Assigned(s, user, role).value;
    if user in s.userRoles {
      assert s1.userRoles[user := list] == s.userRoles;
    } else {
      assert s1.userRoles - {user} == s.userRoles;
    }
  }

  lemma TwoDistinctRoles(list: seq<string>, role: string) returns (other: string)
    requires |list| >= 2 && Distinct(list)
    ensures other in list && other != role
  {
    other := if list[0] != role then list[0] else list[1];
  }

  /** A removal succeeds exactly when the user has the role, and takes away that role and nothing else. */
  lemma RemoveMeaning(s: State, user: string, role: string)
    requires Valid(s)
    ensures Removed(s, user, role).Ok? <==> role in RolesOf(s, user)
    ensures Removed(s, user, role).Ok? ==>
              var s' := Removed(s, user, role).value;
              && s'.roles == s.roles
              && (forall u, r :: r in RolesOf(s', u) <==> r in RolesOf(s, u) && !(u == user && r == role))
              && (user !in s'.userRoles <==> RolesOf(s, user) == [role])
  {
    if user in s.userRoles {
      var list := s.userRoles[user];
      WithoutMeaning(list, role);
      if role in list {
        var kept := Without(list, role);
        if |list| >= 2 {
          var other := TwoDistinctRoles(list, role);
          assert other in kept;
        }
      }
    }
  }

  /** An assignment succeeds exactly for an existing role not yet held, and gives that role and nothing else. */
  lemma AssignMeaning(s: State, user: string, role: string)
    ensures Assigned(s, user, role).Ok? <==> role in s.roles && role !in RolesOf(s, user)
    ensures Assigned(s, user, role).Ok? ==>
              var s' := Assigned(s, user, role).value;
              && s'.roles == s.roles
              && (forall u, r :: r in RolesOf(s', u) <==> r in RolesOf(s, u) || (u == user && r == role))
              && RolesOf(s', user) == RolesOf(s, user) + [role]
  {
  }

  /** Adding a role changes nothing but what that name stands for, so only its holders can gain or lose by it. */
  lemma AddMeaning(s: State, role: SimpleRole, user: string, r: string, perm: SimplePermission)
    ensures Holds(Added(s, role), user, r, perm) <==>
            if r == role.name then user in s.userRoles && r in s.userRoles[user] && perm in role.permissions
            else Holds(s, user, r, perm)
  {
  }

  /** Some permission of the role covers the one asked for. */
  ghost predicate RoleCovers(s: State, r: string, permission: string) {
    r in s.roles && exists perm :: perm in s.roles[r].permissions && PermissionCovers(perm, permission)
  }

  /** The two default roles: `admin` covers everything, `user` reading and writing users; nobody holds either. */
  lemma DefaultRolesCover(r: string, permission: string)
    ensures RoleCovers(DEFAULT, r, permission) <==>
            r == "admin" || (r == "user" && permission in {"user:read", "user:write"})
    ensures DEFAULT.userRoles == map[]
    ensures Names(DEFAULT.roles["admin"].permissions) == {"admin:all"}
    ensures forall p | p in DEFAULT.roles["user"].permissions :: p.name == Pair(p.resource, p.action)
  {
    assert DEFAULT.roles.Keys == {"admin", "user"};
    AdminCovers(permission);
    UserCovers(permission);
    hide PermissionCovers, Names, Pair;
  }

  lemma AdminCovers(permission: string)
    ensures RoleCovers(DEFAULT, "admin", permission)
    ensures Names(DEFAULT.roles["admin"].permissions) == {"admin:all"}
  {
    var all := SimplePermission("admin:all", "*", "*");
    var perms := DEFAULT.roles["admin"].permissions;
    assert perms == [all] && all in perms;
    NamesCons(all, []);
    assert [all] + [] == [all];
    CoversMeaning(all, permission);
  }

  lemma UserCovers(permission: string)
    ensures RoleCovers(DEFAULT, "user", permission) <==> permission in {"user:read", "user:write"}
    ensures forall p | p in DEFAULT.roles["user"].permissions :: p.name == Pair(p.resource, p.action)
  {
    var toRead := SimplePermission("user:read", "user", "read");
    var toWrite := SimplePermission("user:write", "user", "write");
    var perms := DEFAULT.roles["user"].permissions;
    assert perms == [toRead, toWrite];
    assert Pair("user", "read") == "user:read" && Pair("user", "write") == "user:write";
    hide PermissionCovers, Pair, DEFAULT;
    NamedPairCovers(toRead, "read", permission);
    NamedPairCovers(toWrite, "write", permission);
    OneOfTwoCovers(toRead, toWrite, permission);
  }

  lemma OneOfTwoCovers(p: SimplePermission, q: SimplePermission, permission: string)
    ensures (exists perm :: perm in [p, q] && PermissionCovers(perm, permission)) <==>
            PermissionCovers(p, permission) || PermissionCovers(q, permission)
  {
    hide PermissionCovers;
    assert p in [p, q] && q in [p, q];
  }

  lemma NamedPairCovers(perm: SimplePermission, action: string, permission: string)
    requires perm == SimplePermission(Pair("user", action), "user", action) && ':' !in action && action != "*"
    ensures PermissionCovers(perm, permission) <==> permission == Pair("user", action)
  {
    hide Split, Pair;
    SplitOfPair("user", action);
    if |Split(permission, ':')| == 2 {
      PairOfSplit(permission);
    }
  }

  // ----- The listing

  ghost predicate DistinctNames(perms: seq<SimplePermission>) {
    forall i, j | 0 <= i < j < |perms| :: perms[i].name != perms[j].name
  }

  lemma {:induction false} CollectMeaning(perms: seq<SimplePermission>, more: seq<SimplePermission>)
    requires DistinctNames(perms)
    ensures DistinctNames(Collect(perms, more))
    ensures Names(Collect(perms, more)) == Names(perms) + Names(more)
    ensures forall p | p in Collect(perms, more) :: p in perms || p in more
    decreases |more|
  {
    if more == [] {
    } else {
      var p, rest := more[0], more[1..];
      assert more == [p] + rest;
      assert Names(more) == {p.name} + Names(rest) by {
        NamesCons(p, rest);
      }
      if p.name in Names(perms) {
        CollectMeaning(perms, rest);
      } else {
        NamesSnoc(perms, p);
        assert forall q | q in perms :: q.name in Names(perms);
        CollectMeaning(perms + [p], rest);
      }
    }
  }

  lemma NamesCons(p: SimplePermission, rest: seq<SimplePermission>)
    ensures Names([p] + rest) == {p.name} + Names(rest)
  {
    assert forall q :: q in [p] + rest <==> q == p || q in rest;
  }

  ghost predicate HoldsThrough(s: State, names: seq<string>, p: SimplePermission) {
    exists r :: r in names && r in s.roles && p in s.roles[r].permissions
  }

  lemma HoldsThroughSnoc(s: State, rest: seq<string>, last: string, p: SimplePermission)
    ensures HoldsThrough(s, rest + [last], p) <==>
            HoldsThrough(s, rest, p) || (last in s.roles && p in s.roles[last].permissions)
  {
    var all := rest + [last];
    assert forall r :: r in all <==> r in rest || r == last;
  }

  lemma {:induction false} ThroughMeaning(s: State, names: seq<string>)
    ensures var perms := PermissionsThrough(s, names);
            && DistinctNames(perms)
            && (forall p | p in perms :: HoldsThrough(s, names, p))
            && (forall p | HoldsThrough(s, names, p) :: p.name in Names(perms))
  {
    if names == [] {
    } else {
      var rest, last := names[..|names| - 1], names[|names| - 1];
      assert names == rest + [last];
      ThroughMeaning(s, rest);
      forall p {
        HoldsThroughSnoc(s, rest, last, p);
      }
      if last in s.roles {
        CollectMeaning(PermissionsThrough(s, rest), s.roles[last].permissions);
      }
    }
  }

  /** The listing holds each permission name the user has through some role exactly once, and nothing else. */
  lemma ListsEachNameOnce(s: State, user: string)
    ensures var perms := PermissionsThrough(s, RolesOf(s, user));
            && DistinctNames(perms)
            && (forall name :: name in Names(perms) <==> exists r, p :: Holds(s, user, r, p) && p.name == name)
            && (forall p | p in perms :: exists r :: Holds(s, user, r, p))
  {
    var names := RolesOf(s, user);
    var perms := PermissionsThrough(s, names);
    ThroughMeaning(s, names);
    forall p | p in perms
      ensures exists r :: Holds(s, user, r, p)
    {
      var r :| r in names && r in s.roles && p in s.roles[r].permissions;
      assert Holds(s, user, r, p);
    }
    forall r, p | Holds(s, user, r, p)
      ensures p.name in Names(perms)
    {
      assert HoldsThrough(s, names, p);
    }
  }

  // ----- The order of the listing

  /** Every permission met through the roles, in the order of the roles and within each. */
  function Met(s: State, names: seq<string>): seq<SimplePermission> {
    if names == [] then []
    else
      var last := names[|names| - 1];
      Met(s, names[..|names| - 1]) + if last in s.roles then s.roles[last].permissions else []
  }

  /** The permissions of the list whose name none before them has. */
  function FirstOfEachName(list: seq<SimplePermission>): seq<SimplePermission> {
    if list == [] then []
    else
      var rest, last := list[..|list| - 1], list[|list| - 1];
      FirstOfEachName(rest) + if exists p | p in rest :: p.name == last.name then [] else [last]
  }

  lemma {:induction false} FirstKeepsNames(list: seq<SimplePermission>)
    ensures Names(FirstOfEachName(list)) == Names(list)
  {
    if list == [] {
    } else {
      var rest, last := list[..|list| - 1], list[|list| - 1];
      FirstKeepsNames(rest);
      assert list == rest + [last];
      NamesSnoc(rest, last);
      NamesSnoc(FirstOfEachName(rest), last);
      assert FirstOfEachName(rest) + [] == FirstOfEachName(rest);
    }
  }

  lemma FirstSnoc(list: seq<SimplePermission>, p: SimplePermission)
    ensures FirstOfEachName(list + [p]) == FirstOfEachName(list) + if p.name in Names(list) then [] else [p]
  {
    assert (list + [p])[..|list|] == list;
  }

  lemma CollectOne(perms: seq<SimplePermission>, p: SimplePermission, rest: seq<SimplePermission>)
    ensures Collect(perms, [p] + rest) == Collect(perms + if p.name in Names(perms) then [] else [p], rest)
  {
    assert ([p] + rest)[1..] == rest && perms + [] == perms;
  }

  lemma {:induction false} CollectKeepsFirst(before: seq<SimplePermission>, more: seq<SimplePermission>)
    ensures Collect(FirstOfEachName(before), more) == FirstOfEachName(before + more)
    decreases |more|
  {
    if more == [] {
      assert before + more == before;
    } else {
      hide Collect, FirstOfEachName, Names;
      var p, rest := more[0], more[1..];
      assert more == [p] + rest && before + more == before + [p] + rest;
      FirstKeepsNames(before);
      FirstSnoc(before, p);
      CollectOne(FirstOfEachName(before), p, rest);
      CollectKeepsFirst(before + [p], rest);
    }
  }

  /** The listing is what the roles give, in their order, without every permission whose name came before. */
  lemma {:induction false} ListsInOrder(s: State, names: seq<string>)
    ensures PermissionsThrough(s, names) == FirstOfEachName(Met(s, names))
  {
    if names == [] {
    } else {
      var rest, last := names[..|names| - 1], names[|names| - 1];
      ListsInOrder(s, rest);
      if last in s.roles {
        CollectKeepsFirst(Met(s, rest), s.roles[last].permissions);
      } else {
        assert Met(s, rest) + [] == Met(s, rest);
      }
    }
  }
}
