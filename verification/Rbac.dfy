/** The in-memory role service: named roles, and each user's list of role names. */
module Rbac {
  import opened Wrappers
  import opened Text

  datatype SimplePermission = SimplePermission(name: string, resource: string, action: string)

  datatype SimpleRole = SimpleRole(name: string, permissions: seq<SimplePermission>)

  datatype RbacError = NoSuchRole | AlreadyHasRole | NoRolesAssigned | LacksRole

  datatype State = State(roles: map<string, SimpleRole>, userRoles: map<string, seq<string>>)

  const EMPTY := State(map[], map[])

  const DEFAULT := State(
    map["admin" := SimpleRole("admin", [SimplePermission("admin:all", "*", "*")]),
        "user" := SimpleRole("user", [SimplePermission("user:read", "user", "read"),
                                      SimplePermission("user:write", "user", "write")])],
    map[])

  /** One permission of a role against the one asked for. */
  predicate PermissionCovers(perm: SimplePermission, permission: string) {
    || perm.name == permission
    || (perm.resource == "*" && perm.action == "*")
    || var required, parts := Split(permission, ':'), Split(perm.name, ':');
       && |required| == 2 && |parts| == 2
       && (parts[0] == "*" || parts[0] == required[0])
       && (parts[1] == "*" || parts[1] == required[1])
  }

  function Pair(resource: string, action: string): string {
    resource + ":" + action
  }

  predicate IsPart(s: string) {
    ':' !in s
  }

  /** The name is the one asked for, both fields are `*`, or the name is a wildcard of the pair asked for. */
  ghost predicate CoversByName(perm: SimplePermission, permission: string) {
    || perm.name == permission
    || (perm.resource == "*" && perm.action == "*")
    || exists r, a | IsPart(r) && IsPart(a) ::
         permission == Pair(r, a) && perm.name in {Pair("*", a), Pair(r, "*"), "*:*"}
  }

  lemma SplitOfPair(r: string, a: string)
    requires IsPart(r) && IsPart(a)
    ensures Split(Pair(r, a), ':') == [r, a]
  {
    JoinTwo(r, a, ':');
    SplitOfJoin([r, a], ':');
  }

  lemma PairOfSplit(s: string)
    requires |Split(s, ':')| == 2
    ensures var parts := Split(s, ':'); IsPart(parts[0]) && IsPart(parts[1]) && s == Pair(parts[0], parts[1])
  {
    var parts := Split(s, ':');
    SplitRebuilds(s, ':');
    JoinTwo(parts[0], parts[1], ':');
    assert parts == [parts[0], parts[1]];
  }

  /**
   A permission named by a pair covers a pair exactly when the names are equal, or both its fields are
   `*`, or both halves of its name are `*` or the half asked for.
   */
  lemma PairCovers(perm: SimplePermission, pr: string, pa: string, r: string, a: string)
    requires ':' !in pr && ':' !in pa && ':' !in r && ':' !in a && perm.name == pr + ":" + pa
    ensures PermissionCovers(perm, r + ":" + a) <==>
            || perm.name == r + ":" + a
            || (perm.resource == "*" && perm.action == "*")
            || ((pr == "*" || pr == r) && (pa == "*" || pa == a))
  {
    SplitOfPair(r, a);
    SplitOfPair(pr, pa);
    hide Split;
  }

  /** Between any two names, one of them no pair, only equality covers, unless both fields are `*`. */
  lemma OtherNameCovers(perm: SimplePermission, permission: string)
    requires (forall r, a | IsPart(r) && IsPart(a) :: perm.name != Pair(r, a)) ||
             (forall r, a | IsPart(r) && IsPart(a) :: permission != Pair(r, a))
    ensures PermissionCovers(perm, permission) <==>
            perm.name == permission || (perm.resource == "*" && perm.action == "*")
  {
    if |Split(perm.name, ':')| == 2 && |Split(permission, ':')| == 2 {
      PairOfSplit(perm.name);
      PairOfSplit(permission);
    }
    hide Split;
  }

  /** So what covers a pair is its own name and its three wildcards, or a permission with both fields `*`. */
  lemma CoversMeaning(perm: SimplePermission, permission: string)
    ensures PermissionCovers(perm, permission) <==> CoversByName(perm, permission)
  {
    if |Split(permission, ':')| == 2 {
      PairOfSplit(permission);
      hide Split, Pair;
      PairMeaning(perm, Split(permission, ':')[0], Split(permission, ':')[1]);
    } else {
      hide Split, Pair;
      forall r, a | IsPart(r) && IsPart(a)
        ensures permission != Pair(r, a)
      {
        SplitOfPair(r, a);
      }
    }
  }

  lemma PairMeaning(perm: SimplePermission, r: string, a: string)
    requires IsPart(r) && IsPart(a)
    ensures PermissionCovers(perm, Pair(r, a)) <==> CoversByName(perm, Pair(r, a))
  {
    hide Split, Pair;
    StarPair();
    SplitOfPair(r, a);
    SplitOfPair("*", a);
    SplitOfPair(r, "*");
    SplitOfPair("*", "*");
    if |Split(perm.name, ':')| == 2 {
      PairOfSplit(perm.name);
    }
    forall r', a' | IsPart(r') && IsPart(a') && Pair(r, a) == Pair(r', a')
      ensures r' == r && a' == a
    {
      SplitOfPair(r', a');
      assert [r', a'][0] == r' && [r', a'][1] == a';
    }
  }

  lemma StarPair()
    ensures Pair("*", "*") == "*:*" && IsPart("*")
  {
  }

  function RolesOf(s: State, user: string): seq<string> {
    if user in s.userRoles then s.userRoles[user] else []
  }

  /** `perm` comes to `user` through the role named `r`. */
  predicate Holds(s: State, user: string, r: string, perm: SimplePermission) {
    user in s.userRoles && r in s.userRoles[user] && r in s.roles && perm in s.roles[r].permissions
  }

  /** `retain`: the list without `role`. */
  function Without(list: seq<string>, role: string): seq<string> {
    if list == [] then []
    else if list[0] == role then Without(list[1..], role)
    else [list[0]] + Without(list[1..], role)
  }

  /** Assigning a role: the new state, or why not. */
  function Assigned(s: State, user: string, role: string): Result<State, RbacError> {
    if role !in s.roles then Err(NoSuchRole)
    else if role in RolesOf(s, user) then Err(AlreadyHasRole)
    else Ok(s.(userRoles := s.userRoles[user := RolesOf(s, user) + [role]]))
  }

  /** Removing a role: the new state, or why not. A user left without roles is forgotten. */
  function Removed(s: State, user: string, role: string): Result<State, RbacError> {
    if user !in s.userRoles then Err(NoRolesAssigned)
    else
      var rest := Without(s.userRoles[user], role);
      if |rest| == |s.userRoles[user]| then Err(LacksRole)
      else if rest == [] then Ok(s.(userRoles := s.userRoles - {user}))
      else Ok(s.(userRoles := s.userRoles[user := rest]))
  }

  function Added(s: State, role: SimpleRole): State {
    s.(roles := s.roles[role.name := role])
  }

  /** Adding one role's permissions to a list, each name once. */
  function Collect(perms: seq<SimplePermission>, more: seq<SimplePermission>): seq<SimplePermission>
    decreases |more|
  {
    if more == [] then perms
    else Collect(if more[0].name in Names(perms) then perms else perms + [more[0]], more[1..])
  }

  function Names(perms: seq<SimplePermission>): set<string> {
    set p | p in perms :: p.name
  }

  class InMemoryPermissionService {
    var roles: map<string, SimpleRole>
    var userRoles: map<string, seq<string>>

    ghost function Contents(): State
      reads this
    {
      State(roles, userRoles)
    }

    constructor ()
      ensures Contents() == DEFAULT
    {
      roles, userRoles := DEFAULT.roles, map[];
    }

    constructor Empty()
      ensures Contents() == EMPTY
    {
      roles, userRoles := map[], map[];
    }

    method AddRole(role: SimpleRole)
      modifies this
      ensures Contents() == Added(old(Contents()), role)
      ensures roles == old(roles)[role.name := role] && userRoles == old(userRoles)
    {
      roles := roles[role.name := role];
    }

    method AssignRole(user: string, role: string) returns (r: Result<(), RbacError>)
      modifies this
      ensures var outcome := Assigned(old(Contents()), user, role);
              if outcome.Ok? then r.Ok? && Contents() == outcome.value
              else r == Err(outcome.error) && Contents() == old(Contents())
      ensures roles == old(roles)
      ensures r == Err(NoSuchRole) <==> role !in roles
      ensures r == Err(AlreadyHasRole) <==> role in roles && user in old(userRoles) && role in old(userRoles)[user]
      ensures r.Ok? ==>
                user in userRoles && userRoles == old(userRoles)[user := userRoles[user]] &&
                userRoles[user] == (if user in old(userRoles) then old(userRoles)[user] else []) + [role]
      ensures r.Err? ==> r.error in {NoSuchRole, AlreadyHasRole} && userRoles == old(userRoles)
    {
      if role !in roles {
        return Err(NoSuchRole);
      }
      var list := if user in userRoles then userRoles[user] else [];
      if role in list {
        return Err(AlreadyHasRole);
      }
      userRoles := userRoles[user := list + [role]];
      r := Ok(());
    }

    method RemoveRole(user: string, role: string) returns (r: Result<(), RbacError>)
      modifies this
      ensures var outcome := Removed(old(Contents()), user, role);
              if outcome.Ok? then r.Ok? && Contents() == outcome.value
              else r == Err(outcome.error) && Contents() == old(Contents())
    {
      if user !in userRoles {
        return Err(NoRolesAssigned);
      }
      var kept := Without(userRoles[user], role);
      if |kept| == |userRoles[user]| {
        return Err(LacksRole);
      }
      if kept == [] {
        userRoles := userRoles - {user};
      } else {
        userRoles := userRoles[user := kept];
      }
      r := Ok(());
    }

    method HasPermission(user: string, permission: string) returns (allowed: bool)
      ensures allowed <==> exists r, perm :: Holds(Contents(), user, r, perm) && CoversByName(perm, permission)
    {
      forall perm {
        CoversMeaning(perm, permission);
      }
      hide PermissionCovers, CoversByName;
      if user !in userRoles {
        return false;
      }
      var names := userRoles[user];
      for i := 0 to |names|
        invariant forall k, perm | 0 <= k < i && Holds(Contents(), user, names[k], perm) :: !PermissionCovers(perm, permission)
      {
        if names[i] in roles {
          var perms := roles[names[i]].permissions;
          for j := 0 to |perms|
            invariant forall k | 0 <= k < j :: !PermissionCovers(perms[k], permission)
          {
            if PermissionCovers(perms[j], permission) {
              assert Holds(Contents(), user, names[i], perms[j]);
              return true;
            }
          }
        }
      }
      allowed := false;
    }

    method GetUserPermissions(user: string) returns (permissions: seq<SimplePermission>)
      ensures permissions == PermissionsThrough(Contents(), RolesOf(Contents(), user))
    {
      permissions := [];
      var seen: set<string> := {};
      if user !in userRoles {
        return;
      }
      var names := userRoles[user];
      for i := 0 to |names|
        invariant permissions == PermissionsThrough(Contents(), names[..i])
        invariant seen == Names(permissions)
      {
        assert names[..i + 1][..i] == names[..i];
        if names[i] in roles {
          var perms := roles[names[i]].permissions;
          ghost var start := permissions;
          for j := 0 to |perms|
            invariant Collect(start, perms) == Collect(permissions, perms[j..])
            invariant seen == Names(permissions)
          {
            assert perms[j..][0] == perms[j] && perms[j..][1..] == perms[j + 1..];
            if perms[j].name !in seen {
              seen := seen + {perms[j].name};
              NamesSnoc(permissions, perms[j]);
              permissions := permissions + [perms[j]];
            }
          }
        }
      }
      assert names[..|names|] == names;
    }
  }

  /** The permissions listed for role names in order, each permission name once. */
  function PermissionsThrough(s: State, names: seq<string>): seq<SimplePermission> {
    if names == [] then []
    else
      var rest, last := PermissionsThrough(s, names[..|names| - 1]), names[|names| - 1];
      if last in s.roles then Collect(rest, s.roles[last].permissions) else rest
  }

  lemma NamesSnoc(perms: seq<SimplePermission>, p: SimplePermission)
    ensures Names(perms + [p]) == Names(perms) + {p.name}
  {
    assert forall q :: q in perms + [p] <==> q in perms || q == p;
  }
}
