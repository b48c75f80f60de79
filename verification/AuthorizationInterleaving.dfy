/**
 Checks, role changes, permission changes and clears running together, one step per lock acquisition
 or protected action. A schedule is any sequence of thread steps and clock ticks in which no check
 lingers longer than `delay` between its fetch and its return.
 */
module AuthorizationInterleaving {
  import opened Wrappers
  import opened Authorization

  /** Where a call stands, and which guards on the two tables that means it holds. */
  datatype Thread =
    | CheckCall(user: string)
    | CheckMissed(user: string)
    | CheckHasRoles(user: string, roles: set<string>)                                  // user_roles.read()
    | CheckComputed(user: string, permissions: set<Permission>, fetchedAt: int)        // both read guards
    | CheckFetched(user: string, permissions: set<Permission>, fetchedAt: int)
    | CheckStamped(user: string, permissions: set<Permission>, fetchedAt: int, expiresAt: int)
    | CheckStored(user: string, permissions: set<Permission>, fetchedAt: int)
    | CheckDone(user: string, permissions: set<Permission>, at: int, fromCache: bool)
    | RoleCall(user: string, role: string, assign: bool)
    | RoleHolds(user: string, role: string, assign: bool)                              // user_roles.write()
    | RoleChanged(user: string)                                                        // user_roles.write()
    | RoleCleared                                                                      // user_roles.write()
    | PermissionCall(role: string, permission: Permission, grant: bool)
    | PermissionHolds(role: string, permission: Permission, grant: bool)               // role_permissions.write()
    | PermissionChanged                                                                // role_permissions.write()
    | ClearCall
    | ClearUserCall(user: string)
    | AdminDone

  /** A history variable: the tables at a moment. */
  datatype Moment = Moment(at: int, tables: Tables)

  datatype World = World(
    tables: Tables, cache: Cache, clock: int,
    rolesReaders: set<nat>, rolesWriter: Option<nat>, permsReaders: set<nat>, permsWriter: Option<nat>,
    threads: map<nat, Thread>, past: seq<Moment>
  )

  datatype Params = Params(config: Config, delay: nat)

  datatype Move = Tick(ticks: nat) | Act(thread: nat)

  predicate Enabled(w: World, i: nat) {
    && i in w.threads
    && match w.threads[i]
       case CheckMissed(_) => w.rolesWriter.None?
       case CheckHasRoles(_, _) => w.permsWriter.None?
       case RoleCall(_, _, _) => w.rolesWriter.None? && w.rolesReaders == {}
       case PermissionCall(_, _, _) => w.permsWriter.None? && w.permsReaders == {}
       case CheckDone(_, _, _, _) => false
       case AdminDone => false
       case _ => true
  }

  function CheckStep(w: World, i: nat, p: Params): World
    requires Enabled(w, i)
  {
    match w.threads[i]
    case CheckCall(user) =>
      var hit := if p.config.enablePermissionCaching then Lookup(w.cache, user, w.clock) else None;
      w.(threads := w.threads[i := if hit.Some? then CheckDone(user, hit.value, w.clock, true) else CheckMissed(user)])
    case CheckMissed(user) =>
      w.(rolesReaders := w.rolesReaders + {i},
         threads := w.threads[i := CheckHasRoles(user, RolesOf(w.tables.userRoles, user))])
    case CheckHasRoles(user, roles) =>
      w.(permsReaders := w.permsReaders + {i},
         threads := w.threads[i := CheckComputed(user, FetchFor(roles, w.tables.rolePermissions), w.clock)])
    case CheckComputed(user, permissions, fetchedAt) =>
      w.(rolesReaders := w.rolesReaders - {i}, permsReaders := w.permsReaders - {i},
         threads := w.threads[i := CheckFetched(user, permissions, fetchedAt)])
    case CheckFetched(user, permissions, fetchedAt) =>
      w.(threads := w.threads[i := if p.config.enablePermissionCaching
                                   then CheckStamped(user, permissions, fetchedAt, w.clock + Ttl(p.config))
                                   else CheckDone(user, permissions, w.clock, false)])
    case CheckStamped(user, permissions, fetchedAt, expiresAt) =>
      w.(cache := w.cache[user := CachedEntry(permissions, expiresAt)],
         threads := w.threads[i := CheckStored(user, permissions, fetchedAt)])
    case CheckStored(user, permissions, fetchedAt) =>
      w.(threads := w.threads[i := CheckDone(user, permissions, w.clock, false)])
    case _ => w
  }

  function AdminStep(w: World, i: nat): World
    requires Enabled(w, i)
  {
    match w.threads[i]
    case RoleCall(user, role, assign) =>
      w.(rolesWriter := Some(i), threads := w.threads[i := RoleHolds(user, role, assign)])
    case RoleHolds(user, role, assign) =>
      var ur := w.tables.userRoles;
      w.(tables := w.tables.(userRoles := if assign then Assigned(ur, user, role) else Removed(ur, user, role)),
         threads := w.threads[i := RoleChanged(user)])
    case RoleChanged(user) =>
      w.(cache := w.cache - {user}, threads := w.threads[i := RoleCleared])
    case RoleCleared =>
      w.(rolesWriter := None, threads := w.threads[i := AdminDone])
    case PermissionCall(role, permission, grant) =>
      w.(permsWriter := Some(i), threads := w.threads[i := PermissionHolds(role, permission, grant)])
    case PermissionHolds(role, permission, grant) =>
      var rp := w.tables.rolePermissions;
      w.(tables := w.tables.(rolePermissions := if grant then Granted(rp, role, permission) else Revoked(rp, role, permission)),
         threads := w.threads[i := PermissionChanged])
    case PermissionChanged =>
      w.(permsWriter := None, threads := w.threads[i := AdminDone])
    case ClearCall =>
      w.(cache := map[], threads := w.threads[i := AdminDone])
    case ClearUserCall(user) =>
      w.(cache := w.cache - {user}, threads := w.threads[i := AdminDone])
    case _ => w
  }

  predicate IsCheck(t: Thread) {
    || t.CheckCall? || t.CheckMissed? || t.CheckHasRoles? || t.CheckComputed? || t.CheckFetched?
    || t.CheckStamped? || t.CheckStored? || t.CheckDone?
  }

  predicate CanMove(w: World, m: Move) {
    m.Act? ==> Enabled(w, m.thread)
  }

  /** A move, without recording it. */
  function Effect(w: World, m: Move, p: Params): World
    requires CanMove(w, m)
  {
    match m
    case Tick(ticks) => w.(clock := w.clock + ticks)
    case Act(i) => if IsCheck(w.threads[i]) then CheckStep(w, i, p) else AdminStep(w, i)
  }

  function Moved(w: World, m: Move, p: Params): World
    requires CanMove(w, m)
  {
    var w' := Effect(w, m, p);
    w'.(past := w.past + [Moment(w'.clock, w'.tables)])
  }

  /** No check has been between its fetch and its return for longer than `delay`. */
  ghost predicate Prompt(w: World, delay: nat) {
    forall j | j in w.threads && Carries(w.threads[j]) :: w.clock - w.threads[j].fetchedAt <= delay
  }

  predicate Carries(t: Thread) {
    t.CheckComputed? || t.CheckFetched? || t.CheckStamped? || t.CheckStored?
  }

  ghost predicate Legal(w: World, moves: seq<Move>, p: Params)
    decreases |moves|, 0
  {
    moves != [] ==>
      && Legal(w, moves[..|moves| - 1], p)
      && CanMove(Exec(w, moves[..|moves| - 1], p), moves[|moves| - 1])
      && Prompt(Moved(Exec(w, moves[..|moves| - 1], p), moves[|moves| - 1], p), p.delay)
  }

  ghost function Exec(w: World, moves: seq<Move>, p: Params): World
    requires Legal(w, moves, p)
    decreases |moves|, 1
  {
    if moves == [] then w else Moved(Exec(w, moves[..|moves| - 1], p), moves[|moves| - 1], p)
  }

  /** All calls are yet to start, no lock is held, nothing is cached; the tables are arbitrary. */
  ghost predicate Initial(w: World) {
    && w.cache == map[] && w.past == [Moment(w.clock, w.tables)]
    && w.rolesReaders == {} && w.rolesWriter.None? && w.permsReaders == {} && w.permsWriter.None?
    && forall j | j in w.threads :: w.threads[j].CheckCall? || IsAdminCall(w.threads[j])
  }

  predicate IsAdminCall(t: Thread) {
    t.RoleCall? || t.PermissionCall? || t.ClearCall? || t.ClearUserCall?
  }

  /** The recorded past is the schedule's own trace of the tables. */
  lemma {:induction false} PastIsTrace(w: World, moves: seq<Move>, p: Params, n: nat)
    requires Initial(w) && Legal(w, moves, p) && n <= |moves|
    ensures Legal(w, moves[..n], p) && |Exec(w, moves, p).past| == |moves| + 1
    ensures Exec(w, moves, p).past[n] == Moment(Exec(w, moves[..n], p).clock, Exec(w, moves[..n], p).tables)
    decreases |moves|
  {
    hide Effect, Prompt;
    if moves == [] {
    } else if n == |moves| {
      assert moves[..n] == moves;
      PastIsTrace(w, moves[..n - 1], p, n - 1);
    } else {
      PastIsTrace(w, moves[..|moves| - 1], p, n);
      assert moves[..|moves| - 1][..n] == moves[..n];
    }
  }

  // ----- Locks

  predicate HoldsRolesWrite(t: Thread) {
    t.RoleHolds? || t.RoleChanged? || t.RoleCleared?
  }

  predicate HoldsPermsWrite(t: Thread) {
    t.PermissionHolds? || t.PermissionChanged?
  }

  ghost predicate RolesLock(w: World) {
    && (forall j | j in w.threads :: w.threads[j].CheckHasRoles? || w.threads[j].CheckComputed? <==> j in w.rolesReaders)
    && (forall j | j in w.threads :: HoldsRolesWrite(w.threads[j]) <==> w.rolesWriter == Some(j))
    && (w.rolesWriter.Some? ==> w.rolesWriter.value in w.threads && w.rolesReaders == {})
    && w.rolesReaders <= w.threads.Keys
  }

  ghost predicate PermsLock(w: World) {
    && (forall j | j in w.threads :: w.threads[j].CheckComputed? <==> j in w.permsReaders)
    && (forall j | j in w.threads :: HoldsPermsWrite(w.threads[j]) <==> w.permsWriter == Some(j))
    && (w.permsWriter.Some? ==> w.permsWriter.value in w.threads && w.permsReaders == {})
    && w.permsReaders <= w.threads.Keys
  }

  /** Under the read guard the roles a check copied are still the user's roles. */
  ghost predicate RolesCurrent(w: World) {
    forall j | j in w.threads && w.threads[j].CheckHasRoles? ::
      w.threads[j].roles == RolesOf(w.tables.userRoles, w.threads[j].user)
  }

  /** Under both read guards what a check computed is still the fetch on the tables as they stand. */
  ghost predicate ComputedCurrent(w: World) {
    forall j | j in w.threads && w.threads[j].CheckComputed? ::
      w.threads[j].permissions == Fetch(w.tables, w.threads[j].user)
  }

  ghost predicate Inv(w: World) {
    RolesLock(w) && PermsLock(w) && RolesCurrent(w) && ComputedCurrent(w) && w.past != []
  }

  lemma RolesLockCheck(w: World, i: nat, p: Params)
    requires RolesLock(w) && Enabled(w, i) && IsCheck(w.threads[i])
    ensures RolesLock(CheckStep(w, i, p))
  {
  }

  lemma RolesLockAdmin(w: World, i: nat)
    requires RolesLock(w) && Enabled(w, i) && !IsCheck(w.threads[i])
    ensures RolesLock(AdminStep(w, i))
  {
  }

  lemma RolesLockStep(w: World, m: Move, p: Params)
    requires RolesLock(w) && CanMove(w, m)
    ensures RolesLock(Moved(w, m, p))
  {
    if m.Act? {
      if IsCheck(w.threads[m.thread]) {
        RolesLockCheck(w, m.thread, p);
      } else {
        RolesLockAdmin(w, m.thread);
      }
    }
    assert RolesLock(Effect(w, m, p));
    hide Effect;
  }

  lemma PermsLockCheck(w: World, i: nat, p: Params)
    requires PermsLock(w) && Enabled(w, i) && IsCheck(w.threads[i])
    ensures PermsLock(CheckStep(w, i, p))
  {
  }

  lemma PermsLockAdmin(w: World, i: nat)
    requires PermsLock(w) && Enabled(w, i) && !IsCheck(w.threads[i])
    ensures PermsLock(AdminStep(w, i))
  {
  }

  lemma PermsLockStep(w: World, m: Move, p: Params)
    requires PermsLock(w) && CanMove(w, m)
    ensures PermsLock(Moved(w, m, p))
  {
    if m.Act? {
      if IsCheck(w.threads[m.thread]) {
        PermsLockCheck(w, m.thread, p);
      } else {
        PermsLockAdmin(w, m.thread);
      }
    }
    assert PermsLock(Effect(w, m, p));
    hide Effect;
  }

  lemma RolesCurrentStep(w: World, m: Move, p: Params)
    requires Inv(w) && CanMove(w, m)
    ensures RolesCurrent(Moved(w, m, p))
  {
    hide PermsLock, ComputedCurrent, FetchFor, Fetch, Lookup, Granted, Revoked;
    if m.Act? && w.threads[m.thread].RoleHolds? {
      assert forall j | j in w.threads :: !w.threads[j].CheckHasRoles?;
    }
  }

  lemma ComputedCurrentCheck(w: World, i: nat, p: Params)
    requires ComputedCurrent(w) && RolesCurrent(w) && Enabled(w, i) && IsCheck(w.threads[i])
    ensures ComputedCurrent(CheckStep(w, i, p))
  {
    hide FetchFor, Lookup;
  }

  lemma ComputedCurrentAdmin(w: World, i: nat)
    requires Inv(w) && Enabled(w, i) && !IsCheck(w.threads[i])
    ensures ComputedCurrent(AdminStep(w, i))
  {
    if w.threads[i].RoleHolds? || w.threads[i].PermissionHolds? {
      assert forall j | j in w.threads :: !w.threads[j].CheckComputed?;
    }
    hide RolesLock, PermsLock, Fetch, Assigned, Removed, Granted, Revoked;
  }

  lemma ComputedCurrentStep(w: World, m: Move, p: Params)
    requires Inv(w) && CanMove(w, m)
    ensures ComputedCurrent(Moved(w, m, p))
  {
    if m.Act? {
      if IsCheck(w.threads[m.thread]) {
        ComputedCurrentCheck(w, m.thread, p);
      } else {
        ComputedCurrentAdmin(w, m.thread);
      }
    }
    assert ComputedCurrent(Effect(w, m, p));
    hide Effect;
  }

  lemma {:induction false} InvHolds(w: World, moves: seq<Move>, p: Params)
    requires Inv(w) && Legal(w, moves, p)
    ensures Inv(Exec(w, moves, p))
    decreases |moves|
  {
    hide Effect, RolesLock, PermsLock, RolesCurrent, ComputedCurrent;
    if moves == [] {
    } else {
      var rest, m := moves[..|moves| - 1], moves[|moves| - 1];
      InvHolds(w, rest, p);
      RolesLockStep(Exec(w, rest, p), m, p);
      PermsLockStep(Exec(w, rest, p), m, p);
      RolesCurrentStep(Exec(w, rest, p), m, p);
      ComputedCurrentStep(Exec(w, rest, p), m, p);
    }
  }

  lemma SomeCallCanStep(w: World, i: nat) returns (j: nat)
    requires RolesLock(w) && PermsLock(w)
    requires i in w.threads && !w.threads[i].CheckDone? && !w.threads[i].AdminDone?
    ensures Enabled(w, j)
  {
    if w.permsWriter.Some? {
      j := w.permsWriter.value;
    } else if w.rolesWriter.Some? {
      j := w.rolesWriter.value;
    } else if w.permsReaders != {} {
      j :| j in w.permsReaders;
    } else if w.rolesReaders != {} {
      j :| j in w.rolesReaders;
    } else {
      j := i;
    }
  }

  /** The lock order has no cycle: in every reachable world, some unfinished call can step. */
  lemma NeverStuck(w: World, moves: seq<Move>, p: Params, i: nat) returns (j: nat)
    requires Initial(w) && Legal(w, moves, p)
    requires i in Exec(w, moves, p).threads
    requires !Exec(w, moves, p).threads[i].CheckDone? && !Exec(w, moves, p).threads[i].AdminDone?
    ensures Enabled(Exec(w, moves, p), j)
  {
    InvHolds(w, moves, p);
    hide Legal, Exec, RolesLock, PermsLock, Enabled;
    j := SomeCallCanStep(Exec(w, moves, p), i);
  }

  // ----- Every answer is a fetch at some moment

  /** `permissions` is what a fetch for `user` gave at a moment numbered `since` or later, not before time `earliest`. */
  ghost predicate WasFetch(w: World, since: nat, user: string, permissions: set<Permission>, earliest: int) {
    exists n :: since <= n < |w.past| && w.past[n].at >= earliest && Fetch(w.past[n].tables, user) == permissions
  }

  /** Where what a call carries, or answered, came from. */
  ghost predicate Traced(w: World, since: nat, t: Thread, p: Params) {
    match t
    case CheckComputed(user, permissions, fetchedAt) => WasFetch(w, since, user, permissions, fetchedAt)
    case CheckFetched(user, permissions, fetchedAt) => WasFetch(w, since, user, permissions, fetchedAt)
    case CheckStamped(user, permissions, fetchedAt, expiresAt) =>
      WasFetch(w, since, user, permissions, fetchedAt) && expiresAt <= fetchedAt + p.delay + Ttl(p.config)
    case CheckStored(user, permissions, fetchedAt) => WasFetch(w, since, user, permissions, fetchedAt)
    case CheckDone(user, permissions, at, fromCache) =>
      WasFetch(w, since, user, permissions,
               if fromCache then at - p.delay - Ttl(p.config) + 1 else at - p.delay)
    case _ => true
  }

  /** Everything cached for `user`, carried by one of its checks or answered dates from `since` on. */
  ghost predicate UserInv(w: World, since: nat, user: string, p: Params) {
    && (user in w.cache ==>
          WasFetch(w, since, user, w.cache[user].permissions, w.cache[user].expiresAt - p.delay - Ttl(p.config)))
    && (forall j | j in w.threads && IsCheck(w.threads[j]) && w.threads[j].user == user ::
          Traced(w, since, w.threads[j], p))
  }

  lemma WasFetchStays(
    w: World, m: Move, p: Params, since: nat, user: string, permissions: set<Permission>, earliest: int, sooner: int
  )
    requires CanMove(w, m) && sooner <= earliest && WasFetch(w, since, user, permissions, earliest)
    ensures WasFetch(Moved(w, m, p), since, user, permissions, sooner)
  {
    hide Effect;
    var n :| since <= n < |w.past| && w.past[n].at >= earliest && Fetch(w.past[n].tables, user) == permissions;
    assert Moved(w, m, p).past[n] == w.past[n];
  }

  lemma TracedStays(w: World, m: Move, p: Params, since: nat, t: Thread)
    requires CanMove(w, m) && Traced(w, since, t, p)
    ensures Traced(Moved(w, m, p), since, t, p)
  {
    hide Effect, WasFetch, Moved;
    match t {
      case CheckComputed(u, ps, f) => WasFetchStays(w, m, p, since, u, ps, f, f);
      case CheckFetched(u, ps, f) => WasFetchStays(w, m, p, since, u, ps, f, f);
      case CheckStamped(u, ps, f, _) => WasFetchStays(w, m, p, since, u, ps, f, f);
      case CheckStored(u, ps, f) => WasFetchStays(w, m, p, since, u, ps, f, f);
      case CheckDone(u, ps, at, fromCache) =>
        var earliest := if fromCache then at - p.delay - Ttl(p.config) + 1 else at - p.delay;
        WasFetchStays(w, m, p, since, u, ps, earliest, earliest);
      case _ =>
    }
  }

  /** The step that reads the role table computes the fetch on one snapshot: both tables as they stand. */
  lemma ComputeIsFetch(w: World, i: nat, p: Params, since: nat)
    requires Inv(w) && Enabled(w, i) && w.threads[i].CheckHasRoles? && since < |w.past|
    ensures var w' := Moved(w, Act(i), p);
            w'.threads[i].CheckComputed? && Traced(w', since, w'.threads[i], p)
  {
    var w' := Moved(w, Act(i), p);
    var t := w.threads[i];
    assert w'.past[|w.past|] == Moment(w.clock, w.tables);
    assert Fetch(w'.past[|w.past|].tables, t.user) == FetchFor(t.roles, w.tables.rolePermissions);
  }

  /** The step of a check itself keeps what it carries traced. */
  lemma OwnStepTraced(w: World, i: nat, p: Params, since: nat, user: string)
    requires Inv(w) && Enabled(w, i) && Prompt(w, p.delay) && since < |w.past|
    requires IsCheck(w.threads[i]) && w.threads[i].user == user && UserInv(w, since, user, p)
    ensures var w' := Moved(w, Act(i), p);
            i in w'.threads && IsCheck(w'.threads[i]) && w'.threads[i].user == user &&
            Traced(w', since, w'.threads[i], p)
  {
    hide RolesLock, PermsLock, WasFetch;
    var t := w.threads[i];
    match t {
      case CheckCall(u) =>
        var hit := Lookup(w.cache, u, w.clock);
        if hit.Some? {
          WasFetchStays(w, Act(i), p, since, u, hit.value, w.cache[u].expiresAt - p.delay - Ttl(p.config),
                        w.clock - p.delay - Ttl(p.config) + 1);
        }
      case CheckHasRoles(_, _) => ComputeIsFetch(w, i, p, since);
      case CheckComputed(u, ps, f) => WasFetchStays(w, Act(i), p, since, u, ps, f, f);
      case CheckFetched(u, ps, f) =>
        WasFetchStays(w, Act(i), p, since, u, ps, f, f);
        WasFetchStays(w, Act(i), p, since, u, ps, f, w.clock - p.delay);
      case CheckStamped(u, ps, f, _) => WasFetchStays(w, Act(i), p, since, u, ps, f, f);
      case CheckStored(u, ps, f) => WasFetchStays(w, Act(i), p, since, u, ps, f, w.clock - p.delay);
      case _ =>
    }
  }

  lemma CacheTraced(w: World, m: Move, p: Params, since: nat, user: string)
    requires CanMove(w, m) && UserInv(w, since, user, p)
    ensures var w' := Moved(w, m, p);
            user in w'.cache ==>
              WasFetch(w', since, user, w'.cache[user].permissions,
                       w'.cache[user].expiresAt - p.delay - Ttl(p.config))
  {
    hide WasFetch;
    var w' := Moved(w, m, p);
    if user in w'.cache {
      if m.Act? && w.threads[m.thread].CheckStamped? && w.threads[m.thread].user == user {
        var t := w.threads[m.thread];
        WasFetchStays(w, m, p, since, user, t.permissions, t.fetchedAt, t.expiresAt - p.delay - Ttl(p.config));
      } else {
        var earliest := w.cache[user].expiresAt - p.delay - Ttl(p.config);
        WasFetchStays(w, m, p, since, user, w.cache[user].permissions, earliest, earliest);
      }
    }
  }

  lemma OthersUnchanged(w: World, m: Move, p: Params, j: nat)
    requires CanMove(w, m) && j in Moved(w, m, p).threads && m != Act(j)
    ensures j in w.threads && Moved(w, m, p).threads[j] == w.threads[j]
  {
  }

  lemma StillThere(w: World, m: Move, p: Params, j: nat)
    requires CanMove(w, m) && j in w.threads && m != Act(j)
    ensures j in Moved(w, m, p).threads && Moved(w, m, p).threads[j] == w.threads[j]
  {
  }

  lemma CheckStaysCheck(w: World, i: nat, p: Params)
    requires Enabled(w, i)
    ensures IsCheck(Moved(w, Act(i), p).threads[i]) == IsCheck(w.threads[i])
    ensures IsCheck(w.threads[i]) ==> Moved(w, Act(i), p).threads[i].user == w.threads[i].user
  {
  }

  lemma UserInvStep(w: World, m: Move, p: Params, since: nat, user: string)
    requires Inv(w) && CanMove(w, m) && Prompt(w, p.delay) && since < |w.past|
    requires UserInv(w, since, user, p)
    ensures UserInv(Moved(w, m, p), since, user, p)
  {
    hide Moved, Traced, WasFetch, Inv, Prompt;
    var w' := Moved(w, m, p);
    CacheTraced(w, m, p, since, user);
    forall j | j in w'.threads && IsCheck(w'.threads[j]) && w'.threads[j].user == user
      ensures Traced(w', since, w'.threads[j], p)
    {
      if m == Act(j) {
        CheckStaysCheck(w, j, p);
        OwnStepTraced(w, j, p, since, user);
      } else {
        OthersUnchanged(w, m, p, j);
        TracedStays(w, m, p, since, w.threads[j]);
      }
    }
  }

  lemma PastGrows(w: World, moves: seq<Move>, p: Params)
    requires Legal(w, moves, p) && moves != []
    ensures |Exec(w, moves, p).past| == |Exec(w, moves[..|moves| - 1], p).past| + 1
    ensures Prompt(Exec(w, moves, p), p.delay)
  {
  }

  lemma {:induction false} UserInvHolds(
    w: World, moves: seq<Move>, p: Params, since: nat, user: string
  )
    requires Inv(w) && Prompt(w, p.delay) && Legal(w, moves, p) && since < |w.past|
    requires UserInv(w, since, user, p)
    ensures UserInv(Exec(w, moves, p), since, user, p)
    ensures |Exec(w, moves, p).past| >= |w.past| && Prompt(Exec(w, moves, p), p.delay)
    decreases |moves|
  {
    hide Moved, UserInv, Inv, Prompt;
    if moves == [] {
    } else {
      var rest := moves[..|moves| - 1];
      UserInvHolds(w, rest, p, since, user);
      InvHolds(w, rest, p);
      PastGrows(w, moves, p);
      UserInvStep(Exec(w, rest, p), moves[|moves| - 1], p, since, user);
    }
  }

  /** A traced answer, as the moment it dates from. */
  lemma AnswerMoment(w: World, since: nat, i: nat, p: Params) returns (n: nat)
    requires i in w.threads && w.threads[i].CheckDone? && Traced(w, since, w.threads[i], p)
    ensures since <= n < |w.past| && Fetch(w.past[n].tables, w.threads[i].user) == w.threads[i].permissions
    ensures var done := w.threads[i];
            w.past[n].at >= if done.fromCache then done.at - p.delay - Ttl(p.config) + 1 else done.at - p.delay
  {
    var done := w.threads[i];
    var earliest := if done.fromCache then done.at - p.delay - Ttl(p.config) + 1 else done.at - p.delay;
    n :| since <= n < |w.past| && w.past[n].at >= earliest && Fetch(w.past[n].tables, done.user) == done.permissions;
  }

  lemma InitialUserInv(w: World, p: Params, user: string)
    requires Initial(w)
    ensures Inv(w) && Prompt(w, p.delay) && UserInv(w, 0, user, p)
  {
  }

  /**
   Bounded staleness, in every interleaving: what a check answers at `at` is the fetch on the tables
   as they stood together at one moment; within `delay` before `at` when it fetched, and less than the
   time to live plus `delay` before `at` when it read the cache.
   */
  lemma BoundedStaleness(w: World, moves: seq<Move>, p: Params, i: nat) returns (n: nat)
    requires Initial(w) && Legal(w, moves, p)
    requires i in Exec(w, moves, p).threads && Exec(w, moves, p).threads[i].CheckDone?
    ensures n <= |moves| && Legal(w, moves[..n], p)
    ensures var done, moment := Exec(w, moves, p).threads[i], Exec(w, moves[..n], p);
            && done.permissions == Fetch(moment.tables, done.user)
            && (done.fromCache ==> done.at - moment.clock < Ttl(p.config) + p.delay)
            && (!done.fromCache ==> done.at - moment.clock <= p.delay)
  {
    var now := Exec(w, moves, p);
    var done := now.threads[i];
    InitialUserInv(w, p, done.user);
    hide Initial, Inv, Legal, Prompt, Traced, Fetch;
    UserInvHolds(w, moves, p, 0, done.user);
    n := AnswerMoment(now, 0, i, p);
    PastIsTrace(w, moves, p, 0);
    PastIsTrace(w, moves, p, n);
  }

  lemma LegalSnoc(w: World, moves: seq<Move>, m: Move, p: Params)
    requires Legal(w, moves, p) && CanMove(Exec(w, moves, p), m) && Prompt(Moved(Exec(w, moves, p), m, p), p.delay)
    ensures Legal(w, moves + [m], p) && Exec(w, moves + [m], p) == Moved(Exec(w, moves, p), m, p)
  {
    assert (moves + [m])[..|moves|] == moves;
  }

  // ----- Which answers can be out of date

  /** Some moment numbered `since` or later had this fetch for `user`. */
  ghost predicate Dated(w: World, since: nat, user: string, permissions: set<Permission>) {
    exists n :: since <= n < |w.past| && Fetch(w.past[n].tables, user) == permissions
  }

  /** A live entry of `user` differs from a fetch made now. */
  predicate EntryOutdated(w: World, user: string) {
    user in w.cache && w.cache[user].expiresAt > w.clock && w.cache[user].permissions != Fetch(w.tables, user)
  }

  /** A check on its way to store, for some time to come, what differs from a fetch made now. */
  predicate CarriesOutdated(w: World, t: Thread, user: string, p: Params) {
    match t
    case CheckFetched(u, permissions, _) => u == user && permissions != Fetch(w.tables, user) && Ttl(p.config) > 0
    case CheckStamped(u, permissions, _, expiresAt) =>
      u == user && permissions != Fetch(w.tables, user) && expiresAt > w.clock
    case _ => false
  }

  ghost predicate Outdated(w: World, user: string, p: Params) {
    && p.config.enablePermissionCaching
    && (EntryOutdated(w, user) || exists j :: j in w.threads && CarriesOutdated(w, w.threads[j], user, p))
  }

  /** What a check may bring into the cache dates from `since` on, or is not answered once there. */
  ghost predicate StoresDated(w: World, since: nat, t: Thread, p: Params) {
    match t
    case CheckComputed(user, permissions, _) => Dated(w, since, user, permissions)
    case CheckFetched(user, permissions, _) => Dated(w, since, user, permissions) || Ttl(p.config) == 0
    case CheckStamped(user, permissions, _, expiresAt) => Dated(w, since, user, permissions) || expiresAt <= w.clock
    case _ => true
  }

  /** What a check carries, or has answered, dates from `since` on. */
  ghost predicate AnswersDated(w: World, since: nat, t: Thread, user: string) {
    IsCheck(t) && t.user == user && (Carries(t) || t.CheckDone? ==> Dated(w, since, user, t.permissions))
  }

  ghost predicate EntryDated(w: World, since: nat, user: string) {
    user in w.cache ==> w.cache[user].expiresAt <= w.clock || Dated(w, since, user, w.cache[user].permissions)
  }

  ghost predicate ThreadsDated(w: World, since: nat, user: string, p: Params) {
    forall j | j in w.threads && IsCheck(w.threads[j]) && w.threads[j].user == user ::
      StoresDated(w, since, w.threads[j], p)
  }

  /** Nothing older than `since` can reach check `i` of `user`. */
  ghost predicate FreshInv(w: World, since: nat, i: nat, user: string, p: Params) {
    && (p.config.enablePermissionCaching ==> EntryDated(w, since, user) && ThreadsDated(w, since, user, p))
    && i in w.threads && AnswersDated(w, since, w.threads[i], user)
  }

  lemma DatedStays(w: World, m: Move, p: Params, since: nat, user: string, permissions: set<Permission>)
    requires CanMove(w, m) && Dated(w, since, user, permissions)
    ensures Dated(Moved(w, m, p), since, user, permissions)
  {
    hide Effect;
    var n :| since <= n < |w.past| && Fetch(w.past[n].tables, user) == permissions;
    assert Moved(w, m, p).past[n] == w.past[n];
  }

  lemma ComputedIsDated(w: World, i: nat, p: Params, since: nat)
    requires Inv(w) && Enabled(w, i) && w.threads[i].CheckHasRoles? && since < |w.past|
    ensures var t' := Moved(w, Act(i), p).threads[i];
            t'.CheckComputed? && t'.user == w.threads[i].user && Dated(Moved(w, Act(i), p), since, t'.user, t'.permissions)
  {
    ComputeIsFetch(w, i, p, since);
    var w' := Moved(w, Act(i), p);
    var t := w'.threads[i];
    var n :| since <= n < |w'.past| && w'.past[n].at >= t.fetchedAt && Fetch(w'.past[n].tables, t.user) == t.permissions;
  }

  lemma ClockNeverBack(w: World, m: Move, p: Params)
    requires CanMove(w, m)
    ensures w.clock <= Moved(w, m, p).clock
  {
  }

  lemma EntryDatedStep(w: World, m: Move, p: Params, since: nat, user: string)
    requires CanMove(w, m) && EntryDated(w, since, user) && ThreadsDated(w, since, user, p)
    ensures EntryDated(Moved(w, m, p), since, user)
  {
    hide Dated;
    var w' := Moved(w, m, p);
    if user in w'.cache {
      var permissions := w'.cache[user].permissions;
      if Dated(w, since, user, permissions) {
        DatedStays(w, m, p, since, user, permissions);
      }
    }
  }

  lemma OwnStoreDated(w: World, i: nat, p: Params, since: nat)
    requires Inv(w) && Enabled(w, i) && IsCheck(w.threads[i]) && since < |w.past|
    requires StoresDated(w, since, w.threads[i], p)
    ensures var w' := Moved(w, Act(i), p);
            StoresDated(w', since, w'.threads[i], p)
  {
    hide RolesLock, PermsLock, RolesCurrent, ComputedCurrent, Dated;
    var t := w.threads[i];
    if t.CheckHasRoles? {
      ComputedIsDated(w, i, p, since);
    } else if Carries(t) && Dated(w, since, t.user, t.permissions) {
      DatedStays(w, Act(i), p, since, t.user, t.permissions);
    }
  }

  lemma OtherStoreDated(w: World, m: Move, p: Params, since: nat, t: Thread)
    requires CanMove(w, m) && StoresDated(w, since, t, p)
    ensures StoresDated(Moved(w, m, p), since, t, p)
  {
    hide Dated, Moved;
    ClockNeverBack(w, m, p);
    if Carries(t) && Dated(w, since, t.user, t.permissions) {
      DatedStays(w, m, p, since, t.user, t.permissions);
    }
  }

  lemma ThreadsDatedStep(w: World, m: Move, p: Params, since: nat, user: string)
    requires Inv(w) && CanMove(w, m) && since < |w.past| && ThreadsDated(w, since, user, p)
    ensures ThreadsDated(Moved(w, m, p), since, user, p)
  {
    hide Moved, Inv, StoresDated;
    var w' := Moved(w, m, p);
    forall j | j in w'.threads && IsCheck(w'.threads[j]) && w'.threads[j].user == user
      ensures StoresDated(w', since, w'.threads[j], p)
    {
      if m == Act(j) {
        CheckStaysCheck(w, j, p);
        OwnStoreDated(w, j, p, since);
      } else {
        OthersUnchanged(w, m, p, j);
        OtherStoreDated(w, m, p, since, w.threads[j]);
      }
    }
  }

  lemma OwnAnswerDated(w: World, i: nat, p: Params, since: nat, user: string)
    requires Inv(w) && Enabled(w, i) && since < |w.past| && AnswersDated(w, since, w.threads[i], user)
    requires p.config.enablePermissionCaching ==> EntryDated(w, since, user)
    ensures var w' := Moved(w, Act(i), p);
            i in w'.threads && AnswersDated(w', since, w'.threads[i], user)
  {
    hide RolesLock, PermsLock, RolesCurrent, ComputedCurrent, Dated;
    var t := w.threads[i];
    if t.CheckHasRoles? {
      ComputedIsDated(w, i, p, since);
    } else if t.CheckCall? {
      if p.config.enablePermissionCaching && Lookup(w.cache, user, w.clock).Some? {
        DatedStays(w, Act(i), p, since, user, w.cache[user].permissions);
      }
    } else if Carries(t) {
      DatedStays(w, Act(i), p, since, user, t.permissions);
    }
  }

  lemma OtherAnswerDated(w: World, m: Move, p: Params, since: nat, t: Thread, user: string)
    requires CanMove(w, m) && AnswersDated(w, since, t, user)
    ensures AnswersDated(Moved(w, m, p), since, t, user)
  {
    hide Dated, Moved;
    if Carries(t) || t.CheckDone? {
      DatedStays(w, m, p, since, user, t.permissions);
    }
  }

  lemma FreshInvStep(w: World, m: Move, p: Params, since: nat, i: nat, user: string)
    requires Inv(w) && CanMove(w, m) && since < |w.past| && FreshInv(w, since, i, user, p)
    ensures FreshInv(Moved(w, m, p), since, i, user, p)
  {
    hide Moved, Inv, EntryDated, ThreadsDated, AnswersDated;
    if p.config.enablePermissionCaching {
      EntryDatedStep(w, m, p, since, user);
      ThreadsDatedStep(w, m, p, since, user);
    }
    if m == Act(i) {
      OwnAnswerDated(w, i, p, since, user);
    } else {
      StillThere(w, m, p, i);
      OtherAnswerDated(w, m, p, since, w.threads[i], user);
    }
  }

  lemma {:induction false} FreshInvHolds(w: World, moves: seq<Move>, p: Params, since: nat, i: nat, user: string)
    requires Inv(w) && Legal(w, moves, p) && since < |w.past| && FreshInv(w, since, i, user, p)
    ensures FreshInv(Exec(w, moves, p), since, i, user, p) && |Exec(w, moves, p).past| >= |w.past|
    decreases |moves|
  {
    hide Moved, FreshInv, Inv, Prompt;
    if moves == [] {
    } else {
      var rest := moves[..|moves| - 1];
      FreshInvHolds(w, rest, p, since, i, user);
      InvHolds(w, rest, p);
      PastGrows(w, moves, p);
      FreshInvStep(Exec(w, rest, p), moves[|moves| - 1], p, since, i, user);
    }
  }

  /** In a reachable world the last recorded moment is now, and the locks and carried values are in order. */
  lemma ReachableWorld(start: World, before: seq<Move>, p: Params)
    requires Initial(start) && Legal(start, before, p)
    ensures var now := Exec(start, before, p);
            && Inv(now) && Prompt(now, p.delay) && |now.past| == |before| + 1
            && now.past[|before|] == Moment(now.clock, now.tables)
  {
    InvHolds(start, before, p);
    PastIsTrace(start, before, p, |before|);
    assert before[..|before|] == before;
    if before == [] {
    } else {
      PastGrows(start, before, p);
    }
  }

  lemma NothingOutdated(w: World, i: nat, user: string, p: Params)
    requires Inv(w) && w.past[|w.past| - 1].tables == w.tables && !Outdated(w, user, p)
    requires i in w.threads && (w.threads[i].CheckCall? || w.threads[i].CheckMissed? || w.threads[i].CheckHasRoles?)
    requires w.threads[i].user == user
    ensures FreshInv(w, |w.past| - 1, i, user, p)
  {
    hide Fetch;
    assert Dated(w, |w.past| - 1, user, Fetch(w.tables, user));
  }

  /**
   In every interleaving: from a moment on at which no live entry of a user is out of date, and no
   check of the user is carrying an outdated set to the cache, every check of the user that has not
   fetched yet answers a fetch on the tables at that moment or later.
   */
  lemma FreshUnlessOutdated(start: World, before: seq<Move>, during: seq<Move>, p: Params, i: nat) returns (n: nat)
    requires Initial(start) && Legal(start, before, p) && Legal(Exec(start, before, p), during, p)
    requires var now := Exec(start, before, p);
             && i in now.threads && (now.threads[i].CheckCall? || now.threads[i].CheckMissed? || now.threads[i].CheckHasRoles?)
             && !Outdated(now, now.threads[i].user, p)
    requires var ended := Exec(Exec(start, before, p), during, p);
             i in ended.threads && ended.threads[i].CheckDone?
    ensures var now, ended := Exec(start, before, p), Exec(Exec(start, before, p), during, p);
            && |now.past| - 1 <= n < |ended.past| && ended.threads[i].user == now.threads[i].user
            && ended.threads[i].permissions == Fetch(ended.past[n].tables, now.threads[i].user)
  {
    var now := Exec(start, before, p);
    var ended := Exec(now, during, p);
    var user, since := now.threads[i].user, |now.past| - 1;
    hide Inv, Moved, Legal, Prompt, Initial, Outdated;
    ReachableWorld(start, before, p);
    NothingOutdated(now, i, user, p);
    FreshInvHolds(now, during, p, since, i, user);
    n :| since <= n < |ended.past| && Fetch(ended.past[n].tables, user) == ended.threads[i].permissions;
  }

  // ----- The exact condition

  /** Check `i`, not started in `w`, answers after `during` a set that has been no fetch since. */
  ghost predicate AnsweredStale(w: World, during: seq<Move>, p: Params, user: string, i: nat) {
    && w.past != [] && Legal(w, during, p) && i in w.threads && w.threads[i] == CheckCall(user)
    && var ended := Exec(w, during, p);
       && i in ended.threads && ended.threads[i].CheckDone?
       && !Dated(ended, |w.past| - 1, user, ended.threads[i].permissions)
  }

  ghost predicate Waiting(w: World, i: nat, user: string) {
    i in w.threads && w.threads[i] == CheckCall(user)
  }

  /** Without a change of the tables the only fetch since is the one on them. */
  ghost predicate SameTablesSince(w: World, since: nat) {
    forall n | since <= n < |w.past| :: w.past[n].tables == w.tables
  }

  /** A live entry differing from the fetch answers the check that looks it up. */
  lemma EntryComesTrue(w: World, p: Params, since: nat, user: string, i: nat)
    requires Waiting(w, i, user) && p.config.enablePermissionCaching && EntryOutdated(w, user)
    requires Prompt(w, p.delay) && SameTablesSince(w, since)
    ensures var w' := Moved(w, Act(i), p);
            && CanMove(w, Act(i)) && Prompt(w', p.delay) && i in w'.threads && w'.threads[i].CheckDone?
            && !Dated(w', since, user, w'.threads[i].permissions)
  {
    hide Fetch;
    var w' := Moved(w, Act(i), p);
    assert w'.threads[i] == CheckDone(user, w.cache[user].permissions, w.clock, true);
    assert w'.tables == w.tables && SameTablesSince(w', since);
  }

  /** Storing what a check carries makes the user's entry outdated, at the same tables and time. */
  lemma StampedComesTrue(w: World, p: Params, since: nat, user: string, j: nat)
    requires j in w.threads && w.threads[j].CheckStamped? && CarriesOutdated(w, w.threads[j], user, p)
    requires Prompt(w, p.delay) && SameTablesSince(w, since)
    ensures var w' := Moved(w, Act(j), p);
            && CanMove(w, Act(j)) && Prompt(w', p.delay) && SameTablesSince(w', since) && EntryOutdated(w', user)
            && forall i | i != j :: Waiting(w, i, user) ==> Waiting(w', i, user)
  {
    hide Fetch;
    assert Moved(w, Act(j), p).tables == w.tables;
  }

  lemma FetchedComesTrue(w: World, p: Params, since: nat, user: string, j: nat)
    requires p.config.enablePermissionCaching
    requires j in w.threads && w.threads[j].CheckFetched? && CarriesOutdated(w, w.threads[j], user, p)
    requires Prompt(w, p.delay) && SameTablesSince(w, since)
    ensures var w' := Moved(w, Act(j), p);
            && CanMove(w, Act(j)) && Prompt(w', p.delay) && SameTablesSince(w', since)
            && j in w'.threads && w'.threads[j].CheckStamped? && CarriesOutdated(w', w'.threads[j], user, p)
            && forall i | i != j :: Waiting(w, i, user) ==> Waiting(w', i, user)
  {
    hide Fetch;
    assert Moved(w, Act(j), p).tables == w.tables;
  }

  /** `moves` has led from `w` to a world with the same tables in which check `i` is still to start. */
  ghost predicate SameTablesAfter(w: World, moves: seq<Move>, p: Params, user: string, i: nat) {
    && w.past != [] && Waiting(w, i, user) && Legal(w, moves, p)
    && var w' := Exec(w, moves, p);
       Prompt(w', p.delay) && SameTablesSince(w', |w.past| - 1) && Waiting(w', i, user)
  }

  lemma EntryAnswered(w: World, moves: seq<Move>, p: Params, user: string, i: nat)
    requires SameTablesAfter(w, moves, p, user, i)
    requires p.config.enablePermissionCaching && EntryOutdated(Exec(w, moves, p), user)
    ensures AnsweredStale(w, moves + [Act(i)], p, user, i)
  {
    hide Moved, Dated, EntryOutdated, SameTablesSince, Prompt, Legal;
    EntryComesTrue(Exec(w, moves, p), p, |w.past| - 1, user, i);
    LegalSnoc(w, moves, Act(i), p);
  }

  lemma StampedAnswered(w: World, moves: seq<Move>, p: Params, user: string, i: nat, j: nat)
    requires SameTablesAfter(w, moves, p, user, i) && p.config.enablePermissionCaching
    requires var w' := Exec(w, moves, p);
             j in w'.threads && w'.threads[j].CheckStamped? && CarriesOutdated(w', w'.threads[j], user, p)
    ensures AnsweredStale(w, moves + [Act(j)] + [Act(i)], p, user, i)
  {
    hide Moved, EntryOutdated, CarriesOutdated, SameTablesSince, Prompt, Legal;
    StampedComesTrue(Exec(w, moves, p), p, |w.past| - 1, user, j);
    LegalSnoc(w, moves, Act(j), p);
    EntryAnswered(w, moves + [Act(j)], p, user, i);
  }

  lemma FetchedAnswered(w: World, moves: seq<Move>, p: Params, user: string, i: nat, j: nat)
    requires SameTablesAfter(w, moves, p, user, i) && p.config.enablePermissionCaching
    requires var w' := Exec(w, moves, p);
             j in w'.threads && w'.threads[j].CheckFetched? && CarriesOutdated(w', w'.threads[j], user, p)
    ensures AnsweredStale(w, moves + [Act(j)] + [Act(j)] + [Act(i)], p, user, i)
  {
    hide Moved, EntryOutdated, CarriesOutdated, SameTablesSince, Prompt, Legal;
    FetchedComesTrue(Exec(w, moves, p), p, |w.past| - 1, user, j);
    LegalSnoc(w, moves, Act(j), p);
    StampedAnswered(w, moves + [Act(j)], p, user, i, j);
  }

  /** Whatever is outdated can be answered: store it if need be, then let the waiting check look it up. */
  lemma OutdatedComesTrue(w: World, p: Params, user: string, i: nat) returns (during: seq<Move>)
    requires w.past != [] && w.past[|w.past| - 1].tables == w.tables && Prompt(w, p.delay)
    requires Waiting(w, i, user) && Outdated(w, user, p)
    ensures AnsweredStale(w, during, p, user, i)
  {
    hide Moved, Fetch, AnsweredStale, EntryOutdated;
    assert SameTablesAfter(w, [], p, user, i);
    if EntryOutdated(w, user) {
      during := [] + [Act(i)];
      EntryAnswered(w, [], p, user, i);
    } else {
      var j :| j in w.threads && CarriesOutdated(w, w.threads[j], user, p);
      if w.threads[j].CheckFetched? {
        during := [] + [Act(j)] + [Act(j)] + [Act(i)];
        FetchedAnswered(w, [], p, user, i, j);
      } else {
        during := [] + [Act(j)] + [Act(i)];
        StampedAnswered(w, [], p, user, i, j);
      }
    }
  }

  /**
   The exact condition, from every reachable world: a check yet to start can be answered a set that
   was no fetch since, in some continuation, if and only if caching is on, such a check is waiting,
   and an outdated set is cached live or carried towards the cache. Just after the user's entry was
   cleared only the carried ones are left.
   */
  lemma StaleExactly(start: World, before: seq<Move>, p: Params, user: string)
    requires Initial(start) && Legal(start, before, p)
    ensures var now := Exec(start, before, p);
            (exists during, i :: AnsweredStale(now, during, p, user, i)) <==>
            (exists i :: Waiting(now, i, user)) && Outdated(now, user, p)
  {
    var now := Exec(start, before, p);
    ReachableWorld(start, before, p);
    hide Inv, Moved, Legal, Prompt, Initial, Outdated;
    if exists during, i :: AnsweredStale(now, during, p, user, i) {
      var during, i :| AnsweredStale(now, during, p, user, i);
      assert Waiting(now, i, user);
      if !Outdated(now, user, p) {
        var n := FreshUnlessOutdated(start, before, during, p, i);
        assert false;
      }
    }
    if (exists i :: Waiting(now, i, user)) && Outdated(now, user, p) {
      var i :| Waiting(now, i, user);
      var during := OutdatedComesTrue(now, p, user, i);
    }
  }

  // ----- A call on its own is the sequential one

  /** The steps a call has left. */
  function StepsLeft(t: Thread): nat {
    match t
    case CheckCall(_) => 7
    case CheckMissed(_) => 6
    case CheckHasRoles(_, _) => 5
    case CheckComputed(_, _, _) => 4
    case CheckFetched(_, _, _) => 3
    case CheckStamped(_, _, _, _) => 2
    case CheckStored(_, _, _) => 1
    case CheckDone(_, _, _, _) => 0
    case RoleCall(_, _, _) => 4
    case RoleHolds(_, _, _) => 3
    case RoleChanged(_) => 2
    case RoleCleared => 1
    case PermissionCall(_, _, _) => 3
    case PermissionHolds(_, _, _) => 2
    case PermissionChanged => 1
    case ClearCall => 1
    case ClearUserCall(_) => 1
    case AdminDone => 0
  }

  lemma StepLowers(w: World, i: nat, p: Params)
    requires Enabled(w, i)
    ensures var w' := Effect(w, Act(i), p);
            i in w'.threads && StepsLeft(w'.threads[i]) < StepsLeft(w.threads[i])
  {
    if IsCheck(w.threads[i]) {
      hide AdminStep;
    } else {
      hide CheckStep;
    }
  }

  /** The world after thread `i` alone has run until it ends or blocks. */
  function RunAlone(w: World, i: nat, p: Params): (r: World)
    requires i in w.threads
    ensures i in r.threads
    decreases StepsLeft(w.threads[i])
  {
    if Enabled(w, i) then
      StepLowers(w, i, p);
      RunAlone(Effect(w, Act(i), p), i, p)
    else w
  }

  predicate LocksFree(w: World) {
    w.rolesReaders == {} && w.rolesWriter.None? && w.permsReaders == {} && w.permsWriter.None?
  }

  /** The sequential operation a call is. */
  function OperationOf(t: Thread, now: int): Operation
    requires t.CheckCall? || IsAdminCall(t)
  {
    match t
    case CheckCall(user) => Check(user, now, now)
    case RoleCall(user, role, assign) => if assign then Assign(user, role) else Remove(user, role)
    case PermissionCall(role, permission, grant) => if grant then Grant(role, permission) else Revoke(role, permission)
    case ClearUserCall(user) => ClearUser(user)
    case _ => ClearAll
  }

  lemma AloneStep(w: World, i: nat, p: Params)
    requires Enabled(w, i)
    ensures i in Effect(w, Act(i), p).threads && RunAlone(w, i, p) == RunAlone(Effect(w, Act(i), p), i, p)
  {
    hide Effect;
    StepLowers(w, i, p);
  }

  /** From its fetch on, a check running alone stores what it fetched and returns it. */
  lemma FetchedAlone(w: World, i: nat, p: Params)
    requires LocksFree(w) && i in w.threads && w.threads[i].CheckFetched?
    ensures var w', t := RunAlone(w, i, p), w.threads[i];
            && w'.tables == w.tables && LocksFree(w')
            && w'.cache == (if p.config.enablePermissionCaching
                            then w.cache[t.user := CachedEntry(t.permissions, w.clock + Ttl(p.config))] else w.cache)
            && w'.threads[i] == CheckDone(t.user, t.permissions, w.clock, false)
  {
    hide RunAlone, AdminStep;
    var w1 := Effect(w, Act(i), p);
    AloneStep(w, i, p);
    if w1.threads[i].CheckStamped? {
      var w2 := Effect(w1, Act(i), p);
      AloneStep(w1, i, p);
      var w3 := Effect(w2, Act(i), p);
      AloneStep(w2, i, p);
      AloneEnds(w3, i, p);
    } else {
      AloneEnds(w1, i, p);
    }
  }

  /** A check running alone answers, and leaves the cache, as the sequential one does. */
  lemma CheckAlone(w: World, i: nat, p: Params)
    requires LocksFree(w) && i in w.threads && w.threads[i].CheckCall?
    ensures var w', op := RunAlone(w, i, p), OperationOf(w.threads[i], w.clock);
            && State(w'.tables, w'.cache) == Step(State(w.tables, w.cache), op, p.config)
            && LocksFree(w') && w'.threads[i].CheckDone?
            && w'.threads[i].permissions == CheckAnswer(State(w.tables, w.cache), op, p.config)
  {
    hide RunAlone, AdminStep, FetchFor, Fetch;
    var w1 := Effect(w, Act(i), p);
    AloneStep(w, i, p);
    if w1.threads[i].CheckMissed? {
      var w2 := Effect(w1, Act(i), p);
      AloneStep(w1, i, p);
      var w3 := Effect(w2, Act(i), p);
      AloneStep(w2, i, p);
      assert w3.threads[i].permissions == Fetch(w.tables, w.threads[i].user) by {
        FetchOfCopiedRoles(w.tables, w.threads[i].user);
      }
      var w4 := Effect(w3, Act(i), p);
      AloneStep(w3, i, p);
      assert LocksFree(w4) by {
        assert w4.rolesReaders == {} && w4.permsReaders == {};
      }
      FetchedAlone(w4, i, p);
    } else {
      AloneEnds(w1, i, p);
    }
  }

  lemma FetchOfCopiedRoles(t: Tables, user: string)
    ensures FetchFor(RolesOf(t.userRoles, user), t.rolePermissions) == Fetch(t, user)
  {
  }

  lemma AloneEnds(w: World, i: nat, p: Params)
    requires i in w.threads && !Enabled(w, i)
    ensures RunAlone(w, i, p) == w
  {
  }

  /** From its change on, a role change running alone clears the user's entry and lets go. */
  lemma RoleChangedAlone(w: World, i: nat, p: Params)
    requires i in w.threads && w.threads[i].RoleChanged?
    requires w.rolesReaders == {} && w.permsReaders == {} && w.permsWriter.None?
    ensures var w' := RunAlone(w, i, p);
            && w'.tables == w.tables && w'.cache == w.cache - {w.threads[i].user}
            && LocksFree(w') && w'.threads[i].AdminDone?
  {
    hide RunAlone, CheckStep;
    var w1 := Effect(w, Act(i), p);
    AloneStep(w, i, p);
    var w2 := Effect(w1, Act(i), p);
    AloneStep(w1, i, p);
    AloneEnds(w2, i, p);
  }

  lemma RoleAlone(w: World, i: nat, p: Params)
    requires LocksFree(w) && i in w.threads && w.threads[i].RoleCall?
    ensures var w' := RunAlone(w, i, p);
            && State(w'.tables, w'.cache) ==
               Step(State(w.tables, w.cache), OperationOf(w.threads[i], w.clock), p.config)
            && LocksFree(w') && w'.threads[i].AdminDone?
  {
    hide RunAlone, CheckStep, Assigned, Removed, CheckCache, CheckAnswer, Granted, Revoked;
    var w1 := Effect(w, Act(i), p);
    AloneStep(w, i, p);
    var w2 := Effect(w1, Act(i), p);
    AloneStep(w1, i, p);
    RoleChangedAlone(w2, i, p);
  }

  lemma PermissionChangedAlone(w: World, i: nat, p: Params)
    requires i in w.threads && w.threads[i].PermissionChanged?
    requires w.rolesReaders == {} && w.rolesWriter.None? && w.permsReaders == {}
    ensures var w' := RunAlone(w, i, p);
            && w'.tables == w.tables && w'.cache == w.cache && LocksFree(w') && w'.threads[i].AdminDone?
  {
    hide RunAlone, CheckStep;
    var w1 := Effect(w, Act(i), p);
    AloneStep(w, i, p);
    AloneEnds(w1, i, p);
  }

  lemma PermissionAlone(w: World, i: nat, p: Params)
    requires LocksFree(w) && i in w.threads && w.threads[i].PermissionCall?
    ensures var w' := RunAlone(w, i, p);
            && State(w'.tables, w'.cache) ==
               Step(State(w.tables, w.cache), OperationOf(w.threads[i], w.clock), p.config)
            && LocksFree(w') && w'.threads[i].AdminDone?
  {
    hide RunAlone, CheckStep, Assigned, Removed, CheckCache, CheckAnswer, Granted, Revoked;
    var w1 := Effect(w, Act(i), p);
    AloneStep(w, i, p);
    var w2 := Effect(w1, Act(i), p);
    AloneStep(w1, i, p);
    PermissionChangedAlone(w2, i, p);
  }

  /** A role change, permission change or clear running alone is the sequential operation. */
  lemma AdminAlone(w: World, i: nat, p: Params)
    requires LocksFree(w) && i in w.threads && IsAdminCall(w.threads[i])
    ensures var w' := RunAlone(w, i, p);
            && State(w'.tables, w'.cache) ==
               Step(State(w.tables, w.cache), OperationOf(w.threads[i], w.clock), p.config)
            && LocksFree(w') && w'.threads[i].AdminDone?
  {
    hide RunAlone, CheckStep;
    if w.threads[i].RoleCall? {
      RoleAlone(w, i, p);
    } else if w.threads[i].PermissionCall? {
      PermissionAlone(w, i, p);
    } else {
      AloneStep(w, i, p);
      AloneEnds(Effect(w, Act(i), p), i, p);
    }
  }

  // ----- A role removal overtaken by a check

  /** `v` is the world reached, without its past. */
  ghost predicate Reaches(w: World, moves: seq<Move>, p: Params, v: World) {
    Legal(w, moves, p) && Exec(w, moves, p).(past := []) == v && Prompt(v, p.delay)
  }

  /** Only the passing of time can make a check late. */
  lemma StepsStayPrompt(v: World, i: nat, p: Params)
    requires Prompt(v, p.delay) && Enabled(v, i)
    ensures Prompt(Effect(v, Act(i), p), p.delay)
  {
    hide RolesOf, FetchFor, Lookup, Assigned, Removed, Granted, Revoked;
  }

  /** No step reads the past. */
  lemma EffectIgnoresPast(w: World, i: nat, p: Params)
    requires Enabled(w.(past := []), i)
    ensures Enabled(w, i) && Effect(w, Act(i), p).(past := []) == Effect(w.(past := []), Act(i), p)
  {
    hide RolesOf, FetchFor, Lookup, Assigned, Removed, Granted, Revoked;
    if IsCheck(w.threads[i]) {
      hide AdminStep;
    } else {
      hide CheckStep;
    }
  }

  lemma PromptIgnoresPast(w: World, past: seq<Moment>, delay: nat)
    ensures Prompt(w.(past := past), delay) <==> Prompt(w, delay)
  {
  }

  /** One more step, computed without the past. */
  lemma Take(w: World, moves: seq<Move>, p: Params, v: World, i: nat)
    requires Reaches(w, moves, p, v) && Enabled(v, i)
    ensures Reaches(w, moves + [Act(i)], p, Effect(v, Act(i), p))
  {
    var now := Exec(w, moves, p);
    StepsStayPrompt(v, i, p);
    EffectIgnoresPast(now, i, p);
    hide Effect, Enabled, Legal, Prompt;
    var next := Effect(now, Act(i), p);
    PromptIgnoresPast(next, [], p.delay);
    PromptIgnoresPast(next, Moved(now, Act(i), p).past, p.delay);
    LegalSnoc(w, moves, Act(i), p);
  }

  /** The steps of thread `i` changed no other thread, nor the clock, and left no lock held. */
  ghost predicate OnlyThread(v: World, v': World, i: nat) {
    && LocksFree(v') && v'.clock == v.clock && i in v.threads && i in v'.threads
    && forall j | j != i :: (j in v.threads <==> j in v'.threads) && (j in v.threads ==> v'.threads[j] == v.threads[j])
  }

  /** An uninterrupted check that misses fetches and lets go of both tables. */
  lemma FetchSteps(w: World, before: seq<Move>, p: Params, v: World, i: nat) returns (v': World)
    requires Reaches(w, before, p, v) && LocksFree(v)
    requires i in v.threads && v.threads[i].CheckCall? && v.threads[i].user !in v.cache
    ensures Reaches(w, before + [Act(i)] + [Act(i)] + [Act(i)] + [Act(i)], p, v')
    ensures OnlyThread(v, v', i) && v'.tables == v.tables && v'.cache == v.cache
    ensures var user := v.threads[i].user; v'.threads[i] == CheckFetched(user, Fetch(v.tables, user), v.clock)
  {
    FetchOfCopiedRoles(v.tables, v.threads[i].user);
    hide AdminStep, FetchFor, Fetch, Reaches;
    var v1 := Effect(v, Act(i), p);
    Take(w, before, p, v, i);
    var v2 := Effect(v1, Act(i), p);
    Take(w, before + [Act(i)], p, v1, i);
    var v3 := Effect(v2, Act(i), p);
    Take(w, before + [Act(i)] + [Act(i)], p, v2, i);
    v' := Effect(v3, Act(i), p);
    Take(w, before + [Act(i)] + [Act(i)] + [Act(i)], p, v3, i);
    assert v'.rolesReaders == {} && v'.permsReaders == {};
  }

  /** A role change runs to its end. */
  lemma RoleSteps(w: World, before: seq<Move>, p: Params, v: World, i: nat) returns (v': World)
    requires Reaches(w, before, p, v) && LocksFree(v) && i in v.threads && v.threads[i].RoleCall?
    ensures Reaches(w, before + [Act(i)] + [Act(i)] + [Act(i)] + [Act(i)], p, v')
    ensures OnlyThread(v, v', i) && v'.threads[i] == AdminDone
    ensures var t, ur := v.threads[i], v.tables.userRoles;
            && v'.cache == v.cache - {t.user}
            && v'.tables == v.tables.(userRoles := if t.assign then Assigned(ur, t.user, t.role) else Removed(ur, t.user, t.role))
  {
    hide CheckStep, Assigned, Removed, Reaches;
    var v1 := Effect(v, Act(i), p);
    Take(w, before, p, v, i);
    var v2 := Effect(v1, Act(i), p);
    Take(w, before + [Act(i)], p, v1, i);
    var v3 := Effect(v2, Act(i), p);
    Take(w, before + [Act(i)] + [Act(i)], p, v2, i);
    v' := Effect(v3, Act(i), p);
    Take(w, before + [Act(i)] + [Act(i)] + [Act(i)], p, v3, i);
  }

  /** A check stores what it fetched, and another one of the same user is answered with it. */
  lemma StoreSteps(w: World, before: seq<Move>, p: Params, v: World, i: nat, j: nat) returns (v': World)
    requires Reaches(w, before, p, v) && p.config.enablePermissionCaching && Ttl(p.config) > 0
    requires i in v.threads && v.threads[i].CheckFetched? && j in v.threads && v.threads[j] == CheckCall(v.threads[i].user)
    ensures Reaches(w, before + [Act(i)] + [Act(i)] + [Act(j)], p, v') && v'.tables == v.tables && j in v'.threads
    ensures v'.threads[j] == CheckDone(v.threads[i].user, v.threads[i].permissions, v.clock, true)
  {
    hide AdminStep, FetchFor, Fetch, Reaches;
    var v1 := Effect(v, Act(i), p);
    Take(w, before, p, v, i);
    var v2 := Effect(v1, Act(i), p);
    Take(w, before + [Act(i)], p, v1, i);
    v' := Effect(v2, Act(j), p);
    Take(w, before + [Act(i)] + [Act(i)], p, v2, j);
  }

  lemma StartsAt(w: World, p: Params)
    requires Initial(w)
    ensures Reaches(w, [], p, w.(past := [])) && LocksFree(w.(past := []))
  {
  }

  /** The moves of check `i` up to its fetch and of role change `r`, then those that store and look up. */
  function OvertakenMoves(i: nat, r: nat): seq<Move> {
    [Act(i), Act(i), Act(i), Act(i), Act(r), Act(r), Act(r), Act(r)]
  }

  /**
   Any role change can be overtaken: check `i` fetches, role change `r` of its user runs to its end,
   clearing the entry, check `i` stores, and check `j`, started after the change had ended, is
   answered the fetch made before it.
   */
  lemma RoleChangeOvertaken(w: World, p: Params, i: nat, r: nat, j: nat)
    requires Initial(w) && p.config.enablePermissionCaching && Ttl(p.config) > 0
    requires i in w.threads && j in w.threads && r in w.threads && i != j
    requires w.threads[i].CheckCall? && w.threads[j] == w.threads[i] && w.threads[r].RoleCall?
    requires w.threads[r].user == w.threads[i].user
    ensures var user, change, before := w.threads[i].user, w.threads[r], OvertakenMoves(i, r);
            var moves := before + [Act(i), Act(i), Act(j)];
            && Legal(w, before, p) && Legal(w, moves, p)
            && var changed, now, ur := Exec(w, before, p), Exec(w, moves, p), w.tables.userRoles;
               && r in changed.threads && changed.threads[r] == AdminDone
               && j in changed.threads && changed.threads[j] == CheckCall(user)
               && j in now.threads && now.threads[j] == CheckDone(user, Fetch(w.tables, user), w.clock, true)
               && now.tables == w.tables.(userRoles := if change.assign then Assigned(ur, user, change.role)
                                                       else Removed(ur, user, change.role))
  {
    hide Fetch, Assigned, Removed, Legal, Effect, Prompt;
    StartsAt(w, p);
    var fetched := FetchSteps(w, [], p, w.(past := []), i);
    var first := [] + [Act(i)] + [Act(i)] + [Act(i)] + [Act(i)];
    var changed := RoleSteps(w, first, p, fetched, r);
    var before := first + [Act(r)] + [Act(r)] + [Act(r)] + [Act(r)];
    var now := StoreSteps(w, before, p, changed, i, j);
    assert before == OvertakenMoves(i, r);
    assert before + [Act(i)] + [Act(i)] + [Act(j)] == before + [Act(i), Act(i), Act(j)];
  }

  /** The world in which checks 0 and 2 of `user` and the removal 1 of its only role are yet to start. */
  function RemovalWorld(user: string, role: string, q: Permission): World {
    var tables := Tables(map[role := {q}], map[user := {role}]);
    World(tables, map[], 0, {}, None, {}, None,
          map[0 := CheckCall(user), 1 := RoleCall(user, role, false), 2 := CheckCall(user)], [Moment(0, tables)])
  }

  lemma FetchOfOnlyRole(user: string, role: string, q: Permission)
    requires role != "guest"
    ensures var tables := RemovalWorld(user, role, q).tables;
            && Fetch(tables, user) == {q}
            && Fetch(tables.(userRoles := Removed(tables.userRoles, user, role)), user) == {}
  {
    var rp: RolePermissions := map[role := {q}];
    assert role in {role} && role in rp && q in rp[role];
    assert UnionOf({role}, rp) == {q};
    assert UnionOf({role} - {role}, rp) == {};
  }

  /** In particular the removal of a user's only role: check 2 is answered a permission the user no longer has. */
  lemma RemovedStillAnswered(user: string, role: string, q: Permission, ttl: nat, delay: nat)
    requires role != "guest" && ttl > 0
    ensures var w, p := RemovalWorld(user, role, q), Params(Config(ttl, true), delay);
            var before, moves := OvertakenMoves(0, 1), OvertakenMoves(0, 1) + [Act(0), Act(0), Act(2)];
            && Initial(w) && Legal(w, before, p) && Legal(w, moves, p)
            && var removed, now := Exec(w, before, p), Exec(w, moves, p);
               && 1 in removed.threads && removed.threads[1] == AdminDone
               && 2 in removed.threads && removed.threads[2] == CheckCall(user)
               && 2 in now.threads && now.threads[2] == CheckDone(user, {q}, 0, true)
               && q !in Fetch(now.tables, user)
  {
    FetchOfOnlyRole(user, role, q);
    hide Fetch, Removed, Legal, OvertakenMoves;
    RoleChangeOvertaken(RemovalWorld(user, role, q), Params(Config(ttl, true), delay), 0, 1, 2);
  }
}
