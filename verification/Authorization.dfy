/** Role-based authorization over two tables, with a per-user cache of the permissions they give. */
module Authorization {
  import opened Wrappers
  import opened Basics

  datatype Permission = Permission(name: string)

  type Roles = map<string, set<string>>
  type RolePermissions = map<string, set<Permission>>

  datatype Tables = Tables(rolePermissions: RolePermissions, userRoles: Roles)

  function RolesOf(userRoles: Roles, user: string): set<string> {
    if user in userRoles then userRoles[user] else {}
  }

  /** What some role of `roles` gives. */
  function UnionOf(roles: set<string>, rolePermissions: RolePermissions): set<Permission> {
    set r, p | r in roles && r in rolePermissions && p in rolePermissions[r] :: p
  }

  /** The union of the roles' permissions, or the guest's when that union is empty. */
  function FetchFor(roles: set<string>, rolePermissions: RolePermissions): set<Permission> {
    var union := UnionOf(roles, rolePermissions);
    if union == {} && "guest" in rolePermissions then rolePermissions["guest"] else union
  }

  function Fetch(t: Tables, user: string): set<Permission> {
    FetchFor(RolesOf(t.userRoles, user), t.rolePermissions)
  }

  // ----- The cache

  datatype CachedEntry = CachedEntry(permissions: set<Permission>, expiresAt: int)

  type Cache = map<string, CachedEntry>

  function Lookup(cache: Cache, user: string, now: int): Option<set<Permission>> {
    if user in cache && cache[user].expiresAt > now then Some(cache[user].permissions) else None
  }

  datatype Config = Config(cacheTtlSeconds: nat, enablePermissionCaching: bool)

  function Ttl(c: Config): nat {
    c.cacheTtlSeconds * SECOND
  }

  // ----- The operations

  datatype State = State(tables: Tables, cache: Cache)

  datatype Operation =
    | Check(user: string, lookAt: int, storeAt: int)
    | Grant(role: string, permission: Permission)
    | Revoke(role: string, permission: Permission)
    | Assign(user: string, role: string)
    | Remove(user: string, role: string)
    | ClearUser(user: string)
    | ClearAll

  /** What `get_cached_permissions` returns. */
  function CheckAnswer(s: State, op: Operation, c: Config): set<Permission>
    requires op.Check?
  {
    var hit := Lookup(s.cache, op.user, op.lookAt);
    if c.enablePermissionCaching && hit.Some? then hit.value else Fetch(s.tables, op.user)
  }

  /** The cache it leaves. */
  function CheckCache(s: State, op: Operation, c: Config): Cache
    requires op.Check?
  {
    if !c.enablePermissionCaching || Lookup(s.cache, op.user, op.lookAt).Some? then s.cache
    else s.cache[op.user := CachedEntry(Fetch(s.tables, op.user), op.storeAt + Ttl(c))]
  }

  function Granted(rp: RolePermissions, role: string, p: Permission): RolePermissions {
    rp[role := (if role in rp then rp[role] else {}) + {p}]
  }

  function Revoked(rp: RolePermissions, role: string, p: Permission): RolePermissions {
    if role in rp then rp[role := rp[role] - {p}] else rp
  }

  function Assigned(ur: Roles, user: string, role: string): Roles {
    ur[user := RolesOf(ur, user) + {role}]
  }

  function Removed(ur: Roles, user: string, role: string): Roles {
    if user in ur then ur[user := ur[user] - {role}] else ur
  }

  function Step(s: State, op: Operation, c: Config): State {
    match op
    case Check(_, _, _) => s.(cache := CheckCache(s, op, c))
    case Grant(role, p) => s.(tables := s.tables.(rolePermissions := Granted(s.tables.rolePermissions, role, p)))
    case Revoke(role, p) => s.(tables := s.tables.(rolePermissions := Revoked(s.tables.rolePermissions, role, p)))
    case Assign(user, role) =>
      State(s.tables.(userRoles := Assigned(s.tables.userRoles, user, role)), s.cache - {user})
    case Remove(user, role) =>
      State(s.tables.(userRoles := Removed(s.tables.userRoles, user, role)), s.cache - {user})
    case ClearUser(user) => s.(cache := s.cache - {user})
    case ClearAll => s.(cache := map[])
  }

  /** The in-memory cache backend. */
  class PermissionCache {
    var cache: Cache

    constructor ()
      ensures cache == map[]
    {
      cache := map[];
    }

    method Get(user: string, now: int) returns (hit: Option<set<Permission>>)
      ensures hit == Lookup(cache, user, now)
    {
      if user in cache {
        if cache[user].expiresAt > now {
          return Some(cache[user].permissions);
        }
      }
      return None;
    }

    method Set(user: string, permissions: set<Permission>, ttlSeconds: nat, now: int)
      modifies this
      ensures cache == old(cache)[user := CachedEntry(permissions, now + ttlSeconds * SECOND)]
    {
      var expiresAt := now + ttlSeconds * SECOND;
      cache := cache[user := CachedEntry(permissions, expiresAt)];
    }

    method Delete(user: string)
      modifies this
      ensures cache == old(cache) - {user}
    {
      cache := cache - {user};
    }

    method Clear()
      modifies this
      ensures cache == map[]
    {
      cache := map[];
    }
  }

  /** The service: the two tables and the cache backend. */
  class AuthorizationService {
    var rolePermissions: RolePermissions
    var userRoles: Roles
    const cache: PermissionCache
    const config: Config

    ghost function Contents(): State
      reads this, cache
    {
      State(Tables(rolePermissions, userRoles), cache.cache)
    }

    constructor (rolePermissions: RolePermissions, config: Config)
      ensures Contents() == State(Tables(rolePermissions, map[]), map[])
      ensures this.config == config && fresh(cache)
    {
      this.rolePermissions, userRoles := rolePermissions, map[];
      this.config := config;
      cache := new PermissionCache();
    }

    method FetchUserPermissions(user: string) returns (permissions: set<Permission>)
      ensures permissions == Fetch(Contents().tables, user)
    {
      var roles := if user in userRoles then userRoles[user] else {};
      permissions := {};
      var rest := roles;
      while rest != {}
        invariant rest <= roles
        invariant permissions == UnionOf(roles - rest, rolePermissions)
      {
        var role :| role in rest;
        rest := rest - {role};
        if role in rolePermissions {
          permissions := permissions + rolePermissions[role];
        }
      }
      assert roles - {} == roles;
      if permissions == {} && "guest" in rolePermissions {
        permissions := permissions + rolePermissions["guest"];
      }
    }

    method GetCachedPermissions(user: string, lookAt: int, storeAt: int) returns (permissions: set<Permission>)
      modifies cache
      ensures permissions == CheckAnswer(old(Contents()), Check(user, lookAt, storeAt), config)
      ensures Contents() == Step(old(Contents()), Check(user, lookAt, storeAt), config)
    {
      if config.enablePermissionCaching {
        var hit := cache.Get(user, lookAt);
        if hit.Some? {
          return hit.value;
        }
      }
      permissions := FetchUserPermissions(user);
      if config.enablePermissionCaching {
        cache.Set(user, permissions, config.cacheTtlSeconds, storeAt);
      }
    }

    method UserHasPermission(user: string, permission: Permission, lookAt: int, storeAt: int) returns (allowed: bool)
      modifies cache
      ensures allowed <==> permission in CheckAnswer(old(Contents()), Check(user, lookAt, storeAt), config)
      ensures Contents() == Step(old(Contents()), Check(user, lookAt, storeAt), config)
    {
      var permissions := GetCachedPermissions(user, lookAt, storeAt);
      allowed := permission in permissions;
    }

    method GrantPermissionToRole(role: string, permission: Permission)
      modifies this
      ensures Contents() == Step(old(Contents()), Grant(role, permission), config)
      ensures forall r, q :: (r in rolePermissions && q in rolePermissions[r]) <==>
                || (r in old(rolePermissions) && q in old(rolePermissions)[r])
                || (r == role && q == permission)
    {
      if role !in rolePermissions {
        rolePermissions := rolePermissions[role := {}];
      }
      rolePermissions := rolePermissions[role := rolePermissions[role] + {permission}];
    }

    method RevokePermissionFromRole(role: string, permission: Permission)
      modifies this
      ensures Contents() == Step(old(Contents()), Revoke(role, permission), config)
      ensures forall r, q :: (r in rolePermissions && q in rolePermissions[r]) <==>
                r in old(rolePermissions) && q in old(rolePermissions)[r] && !(r == role && q == permission)
    {
      if role in rolePermissions {
        rolePermissions := rolePermissions[role := rolePermissions[role] - {permission}];
      }
    }

    method AssignRoleToUser(user: string, role: string)
      modifies this, cache
      ensures Contents() == Step(old(Contents()), Assign(user, role), config)
      ensures forall u, r :: (u in userRoles && r in userRoles[u]) <==>
                (u in old(userRoles) && r in old(userRoles)[u]) || (u == user && r == role)
    {
      if user !in userRoles {
        userRoles := userRoles[user := {}];
      }
      userRoles := userRoles[user := userRoles[user] + {role}];
      cache.Delete(user);
    }

    method RemoveRoleFromUser(user: string, role: string)
      modifies this, cache
      ensures Contents() == Step(old(Contents()), Remove(user, role), config)
      ensures forall u, r :: (u in userRoles && r in userRoles[u]) <==>
                u in old(userRoles) && r in old(userRoles)[u] && !(u == user && r == role)
    {
      if user in userRoles {
        userRoles := userRoles[user := userRoles[user] - {role}];
      }
      cache.Delete(user);
    }

    method ClearUserCache(user: string)
      modifies cache
      ensures Contents() == Step(old(Contents()), ClearUser(user), config)
    {
      cache.Delete(user);
    }

    method ClearAllCache()
      modifies cache
      ensures Contents() == Step(old(Contents()), ClearAll, config)
    {
      cache.Clear();
    }
  }
}
