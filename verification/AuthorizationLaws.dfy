/** Coherence of the permission cache over sequential runs. */
module AuthorizationLaws {
  import opened Basics
  import opened Authorization

  predicate Gives(t: Tables, user: string, r: string, p: Permission) {
    HasRole(t, user, r) && RoleGives(t, r, p)
  }

  // ----- What the operations change

  predicate HasRole(t: Tables, user: string, r: string) {
    user in t.userRoles && r in t.userRoles[user]
  }

  predicate RoleGives(t: Tables, r: string, p: Permission) {
    r in t.rolePermissions && p in t.rolePermissions[r]
  }

  ghost predicate SameRoles(a: Tables, b: Tables) {
    forall u, r :: HasRole(a, u, r) <==> HasRole(b, u, r)
  }

  ghost predicate SamePermissions(a: Tables, b: Tables) {
    forall r, q :: RoleGives(a, r, q) <==> RoleGives(b, r, q)
  }

  /** A grant adds the one permission to the one role; no user, other role or cached entry is touched. */
  lemma GrantMeaning(s: State, role: string, p: Permission, c: Config)
    ensures var s' := Step(s, Grant(role, p), c);
            && (forall r, q :: RoleGives(s'.tables, r, q) <==> RoleGives(s.tables, r, q) || (r == role && q == p))
            && SameRoles(s.tables, s'.tables) && s'.cache == s.cache
  {
  }

  /** A revocation takes the one permission from the one role, and creates no role. */
  lemma RevokeMeaning(s: State, role: string, p: Permission, c: Config)
    ensures var s' := Step(s, Revoke(role, p), c);
            && (forall r, q :: RoleGives(s'.tables, r, q) <==> RoleGives(s.tables, r, q) && !(r == role && q == p))
            && s'.tables.rolePermissions.Keys == s.tables.rolePermissions.Keys
            && SameRoles(s.tables, s'.tables) && s'.cache == s.cache
  {
  }

  /** The entries of every other user are untouched, and `user` has none. */
  ghost predicate ForgetsOnly(before: Cache, after: Cache, user: string) {
    && user !in after
    && (forall u | u != user :: u in after <==> u in before)
    && (forall u | u in after :: u in before && after[u] == before[u])
  }

  /** An assignment gives the one role to the one user, whose cached entry goes. */
  lemma AssignMeaning(s: State, user: string, role: string, c: Config)
    ensures var s' := Step(s, Assign(user, role), c);
            && (forall u, r :: HasRole(s'.tables, u, r) <==> HasRole(s.tables, u, r) || (u == user && r == role))
            && SamePermissions(s.tables, s'.tables) && ForgetsOnly(s.cache, s'.cache, user)
  {
  }

  /** A removal takes the one role from the one user, whose cached entry goes. */
  lemma RemoveMeaning(s: State, user: string, role: string, c: Config)
    ensures var s' := Step(s, Remove(user, role), c);
            && (forall u, r :: HasRole(s'.tables, u, r) <==> HasRole(s.tables, u, r) && !(u == user && r == role))
            && SamePermissions(s.tables, s'.tables) && ForgetsOnly(s.cache, s'.cache, user)
  {
  }

  // ----- What a fetch gives

  /** What a fetch gives: some role of the user grants it, or no role grants anything and the guest has it. */
  lemma FetchMeaning(t: Tables, user: string, p: Permission)
    ensures p in Fetch(t, user) <==>
            || (exists r :: Gives(t, user, r, p))
            || ("guest" in t.rolePermissions && p in t.rolePermissions["guest"] &&
                forall r, q :: !Gives(t, user, r, q))
  {
    var union := UnionOf(RolesOf(t.userRoles, user), t.rolePermissions);
    forall q
      ensures q in union <==> exists r :: Gives(t, user, r, q)
    {
      if q in union {
        var r :| r in RolesOf(t.userRoles, user) && r in t.rolePermissions && q in t.rolePermissions[r];
        assert Gives(t, user, r, q);
      }
    }
    if union != {} {
      var q :| q in union;
      var r :| Gives(t, user, r, q);
    } else {
      forall r, q
        ensures !Gives(t, user, r, q)
      {
        assert q !in union;
      }
    }
  }

  function After(tables: Tables, ops: seq<Operation>, c: Config): State {
    if ops == [] then State(tables, map[]) else Step(After(tables, ops[..|ops| - 1], c), ops[|ops| - 1], c)
  }

  /** The operation stored an entry for `user`. */
  predicate Stores(s: State, op: Operation, c: Config, user: string) {
    op.Check? && op.user == user && c.enablePermissionCaching && Lookup(s.cache, user, op.lookAt).None?
  }

  /** The role table as it stood when the entry of `user` was last stored. */
  function StoredUnder(tables: Tables, ops: seq<Operation>, c: Config, user: string): RolePermissions {
    if ops == [] then tables.rolePermissions
    else
      var rest, last := ops[..|ops| - 1], ops[|ops| - 1];
      if Stores(After(tables, rest, c), last, c, user) then After(tables, rest, c).tables.rolePermissions
      else StoredUnder(tables, rest, c, user)
  }

  /** The entry of `user`, if any, is the fetch on the current user roles and the role table `rp`. */
  predicate EntryIsFetch(s: State, user: string, rp: RolePermissions) {
    user in s.cache ==> s.cache[user].permissions == Fetch(s.tables.(rolePermissions := rp), user)
  }

  lemma StepKeepsEntry(s: State, op: Operation, c: Config, user: string, rp: RolePermissions)
    requires EntryIsFetch(s, user, rp)
    ensures EntryIsFetch(Step(s, op, c), user, if Stores(s, op, c, user) then s.tables.rolePermissions else rp)
  {
    assert s.tables.(rolePermissions := s.tables.rolePermissions) == s.tables;
    if op.Assign? || op.Remove? {
      assert op.user != user ==> RolesOf(Step(s, op, c).tables.userRoles, user) == RolesOf(s.tables.userRoles, user);
    }
  }

  /**
   Over every run, a cached entry is the fetch on the user's current roles and the role table as it
   stood when the entry was stored: only a grant or a revoke since then can make it differ.
   */
  lemma {:induction false} CachedIsFetch(tables: Tables, ops: seq<Operation>, c: Config, user: string)
    ensures EntryIsFetch(After(tables, ops, c), user, StoredUnder(tables, ops, c, user))
  {
    if ops == [] {
    } else {
      var rest := ops[..|ops| - 1];
      CachedIsFetch(tables, rest, c, user);
      StepKeepsEntry(After(tables, rest, c), ops[|ops| - 1], c, user, StoredUnder(tables, rest, c, user));
    }
  }

  /** Every check answers the fetch on the current user roles and either the current role table or the stored one. */
  lemma CheckAnswersFetch(tables: Tables, ops: seq<Operation>, c: Config, op: Operation)
    requires op.Check?
    ensures var s := After(tables, ops, c);
            var hit := c.enablePermissionCaching && Lookup(s.cache, op.user, op.lookAt).Some?;
            var rp := if hit then StoredUnder(tables, ops, c, op.user) else s.tables.rolePermissions;
            CheckAnswer(s, op, c) == Fetch(s.tables.(rolePermissions := rp), op.user)
  {
    CachedIsFetch(tables, ops, c, op.user);
    var t := After(tables, ops, c).tables;
    assert t.(rolePermissions := t.rolePermissions) == t;
  }

  predicate Clears(op: Operation, user: string) {
    op == ClearAll || ((op.Assign? || op.Remove? || op.ClearUser?) && op.user == user)
  }

  predicate ChangesRoles(op: Operation) {
    op.Grant? || op.Revoke?
  }

  lemma {:induction false} StoredUnderCurrent(
    tables: Tables, before: seq<Operation>, since: seq<Operation>, c: Config, user: string
  )
    requires user !in After(tables, before, c).cache
    requires forall op | op in since :: !ChangesRoles(op)
    ensures var s := After(tables, before + since, c);
            && s.tables.rolePermissions == After(tables, before, c).tables.rolePermissions
            && (user in s.cache ==> StoredUnder(tables, before + since, c, user) == s.tables.rolePermissions)
  {
    if since == [] {
      assert before + since == before;
    } else {
      var rest := since[..|since| - 1];
      StoredUnderCurrent(tables, before, rest, c, user);
      assert (before + since)[..|before + since| - 1] == before + rest;
      assert since[|since| - 1] in since;
    }
  }

  /**
   After a role assignment or removal for a user, or a clear, every check of that user is a fresh
   fetch until the next grant or revoke, whatever else happens.
   */
  lemma FreshUntilRolesChange(
    tables: Tables, before: seq<Operation>, clear: Operation, since: seq<Operation>, c: Config, check: Operation
  )
    requires check.Check? && Clears(clear, check.user)
    requires forall op | op in since :: !ChangesRoles(op)
    ensures var s := After(tables, before + [clear] + since, c);
            CheckAnswer(s, check, c) == Fetch(s.tables, check.user)
  {
    assert (before + [clear])[..|before|] == before;
    StoredUnderCurrent(tables, before + [clear], since, c, check.user);
    CheckAnswersFetch(tables, before + [clear] + since, c, check);
    var t := After(tables, before + [clear] + since, c).tables;
    assert t.(rolePermissions := t.rolePermissions) == t;
  }

  // ----- What a run leaves in the tables

  /** The last `gain` or `loss` of the run was a `gain`, or there was no loss and it held before. */
  ghost predicate Stands<T(!new)>(ops: seq<T>, gain: T, loss: T, before: bool) {
    || (before && loss !in ops)
    || exists i :: LastGain(ops, gain, loss, i)
  }

  ghost predicate LastGain<T(!new)>(ops: seq<T>, gain: T, loss: T, i: int) {
    0 <= i < |ops| && ops[i] == gain && forall j | i < j < |ops| :: ops[j] != loss
  }

  lemma LastGainSnoc<T(!new)>(rest: seq<T>, last: T, gain: T, loss: T, i: int)
    requires gain != loss
    ensures LastGain(rest + [last], gain, loss, i) <==>
            if i == |rest| then last == gain else last != loss && LastGain(rest, gain, loss, i)
  {
    var ops := rest + [last];
    assert ops[|rest|] == last;
    if LastGain(rest, gain, loss, i) && last != loss {
      assert forall j | i < j < |ops| :: ops[j] == if j < |rest| then rest[j] else last;
    }
    if LastGain(ops, gain, loss, i) && i < |rest| {
      assert forall j | i < j < |rest| :: rest[j] == ops[j];
    }
  }

  lemma StandsSnoc<T(!new)>(rest: seq<T>, last: T, gain: T, loss: T, before: bool)
    requires gain != loss
    ensures Stands(rest + [last], gain, loss, before) <==>
            last == gain || (last != loss && Stands(rest, gain, loss, before))
  {
    var ops := rest + [last];
    forall i {
      LastGainSnoc(rest, last, gain, loss, i);
    }
    hide LastGain;
    assert loss in ops <==> loss in rest || loss == last;
    assert LastGain(ops, gain, loss, |rest|) <==> last == gain;
    if exists i :: LastGain(rest, gain, loss, i) {
      var i :| LastGain(rest, gain, loss, i);
      assert last != loss && i != |rest| ==> LastGain(ops, gain, loss, i);
      InRange(rest, gain, loss, i);
    }
  }

  lemma InRange<T(!new)>(ops: seq<T>, gain: T, loss: T, i: int)
    requires LastGain(ops, gain, loss, i)
    ensures 0 <= i < |ops|
  {
  }

  lemma StepRoles(s: State, op: Operation, c: Config, user: string, role: string)
    ensures HasRole(Step(s, op, c).tables, user, role) <==>
            op == Assign(user, role) || (op != Remove(user, role) && HasRole(s.tables, user, role))
  {
    hide CheckCache;
  }

  /** After every run a user has a role exactly when it was assigned last, or had from the start and never removed. */
  lemma {:induction false} RolesAfterRun(tables: Tables, ops: seq<Operation>, c: Config, user: string, role: string)
    ensures HasRole(After(tables, ops, c).tables, user, role) <==>
            Stands(ops, Assign(user, role), Remove(user, role), HasRole(tables, user, role))
  {
    hide Step, HasRole;
    if ops == [] {
    } else {
      var rest, last := ops[..|ops| - 1], ops[|ops| - 1];
      assert ops == rest + [last];
      RolesAfterRun(tables, rest, c, user, role);
      StepRoles(After(tables, rest, c), last, c, user, role);
      StandsSnoc(rest, last, Assign(user, role), Remove(user, role), HasRole(tables, user, role));
      hide Stands;
    }
  }

  lemma StepPermissions(s: State, op: Operation, c: Config, role: string, p: Permission)
    ensures RoleGives(Step(s, op, c).tables, role, p) <==>
            op == Grant(role, p) || (op != Revoke(role, p) && RoleGives(s.tables, role, p))
  {
    hide CheckCache;
  }

  /** After every run a role gives a permission exactly when it was granted last, or gave it before and never lost it. */
  lemma {:induction false} PermissionsAfterRun(
    tables: Tables, ops: seq<Operation>, c: Config, role: string, p: Permission
  )
    ensures RoleGives(After(tables, ops, c).tables, role, p) <==>
            Stands(ops, Grant(role, p), Revoke(role, p), RoleGives(tables, role, p))
  {
    hide Step, RoleGives;
    if ops == [] {
    } else {
      var rest, last := ops[..|ops| - 1], ops[|ops| - 1];
      assert ops == rest + [last];
      PermissionsAfterRun(tables, rest, c, role, p);
      StepPermissions(After(tables, rest, c), last, c, role, p);
      StandsSnoc(rest, last, Grant(role, p), Revoke(role, p), RoleGives(tables, role, p));
      hide Stands;
    }
  }

  // ----- How long an answer is kept

  lemma {:induction false} EntryKept(
    tables: Tables, before: seq<Operation>, since: seq<Operation>, c: Config, user: string
  )
    requires forall op | op in since :: !Clears(op, user) && !(op.Check? && op.user == user)
    ensures var first, last := After(tables, before, c).cache, After(tables, before + since, c).cache;
            && (user in first <==> user in last)
            && (user in first ==> first[user] == last[user])
  {
    if since == [] {
      assert before + since == before;
    } else {
      EntryKept(tables, before, since[..|since| - 1], c, user);
      assert (before + since)[..|before + since| - 1] == before + since[..|since| - 1];
      assert since[|since| - 1] in since;
    }
  }

  /**
   A check that finds no live entry answers the fetch, and that answer is given again, whatever is
   granted or revoked, strictly within the time to live of its storing; from then on a check fetches.
   */
  lemma AnswerKeptExactly(
    tables: Tables, before: seq<Operation>, first: Operation, since: seq<Operation>, second: Operation, c: Config
  )
    requires first.Check? && second.Check? && second.user == first.user
    requires var cache := After(tables, before, c).cache;
             first.user in cache ==> cache[first.user].expiresAt <= first.lookAt
    requires forall op | op in since :: !Clears(op, first.user) && !(op.Check? && op.user == first.user)
    ensures var s, s' := After(tables, before, c), After(tables, before + [first] + since, c);
            && CheckAnswer(s, first, c) == Fetch(s.tables, first.user)
            && CheckAnswer(s', second, c) ==
               if c.enablePermissionCaching && second.lookAt < first.storeAt + c.cacheTtlSeconds * SECOND
               then Fetch(s.tables, first.user) else Fetch(s'.tables, first.user)
  {
    assert (before + [first])[..|before|] == before;
    EntryKept(tables, before + [first], since, c, first.user);
    hide Fetch;
  }

  /** Grants and revokes do not clear: a permission revoked from a user's role is still answered until the entry expires. */
  lemma RevokedStillAnswered(user: string, role: string, p: Permission, ttl: nat)
    requires ttl > 0 && role != "guest"
    ensures var tables := Tables(map[role := {p}], map[user := {role}]);
            var c := Config(ttl, true);
            var s := After(tables, [Check(user, 0, 0), Revoke(role, p)], c);
            && p !in Fetch(s.tables, user)
            && p in CheckAnswer(s, Check(user, ttl * SECOND - 1, ttl * SECOND - 1), c)
            && p !in CheckAnswer(s, Check(user, ttl * SECOND, ttl * SECOND), c)
  {
    var tables := Tables(map[role := {p}], map[user := {role}]);
    var c := Config(ttl, true);
    var first, revoke := Check(user, 0, 0), Revoke(role, p);
    var ops := [first, revoke];
    assert ops[..1] == [first] && [first][..0] == [];
    var s0 := State(tables, map[]);
    assert After(tables, [], c) == s0;
    assert UnionOf({role}, tables.rolePermissions) == {p} by {
      assert role in {role} && role in tables.rolePermissions && p in tables.rolePermissions[role];
    }
    var s1 := s0.(cache := map[user := CachedEntry({p}, Ttl(c))]);
    assert Step(s0, first, c) == s1;
    assert After(tables, [first], c) == s1;
    var revoked := Revoked(tables.rolePermissions, role, p);
    assert revoked.Keys == {role} && revoked[role] == {};
    assert UnionOf({role}, revoked) == {};
  }
}
