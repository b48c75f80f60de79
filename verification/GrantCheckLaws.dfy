/** Laws of the list check, its deprecation record, and the two ways a request asks it. */
module GrantCheckLaws {
  import opened Wrappers
  import opened Basics
  import opened Text
  import opened Grants
  import opened GrantCheck
  import GrantLaws

  // ----- The answer and the signal

  ghost predicate SameElements(a: seq<string>, b: seq<string>) {
    forall x :: x in a <==> x in b
  }

  /** The signal is raised exactly when only legacy spellings (or alternates) granted access, for a string held. */
  lemma SignalExactly(held: seq<string>, required: string, alternates: seq<string>)
    ensures Signal(held, required, alternates).Some? <==>
            Allowed(held, required, alternates) && !CoveredCanonically(held, required)
    ensures Signal(held, required, alternates).Some? ==> Signal(held, required, alternates).value in held
  {
    CanonicalIsMatch(held, required);
  }

  lemma CoveredIgnoresOrder(held: seq<string>, other: seq<string>, required: string)
    requires SameElements(held, other)
    ensures Covered(held, required) <==> Covered(other, required)
    ensures CoveredCanonically(held, required) <==> CoveredCanonically(other, required)
  {
  }

  /** Neither the answer nor whether it is signalled depends on the order of the lists. */
  lemma OrderIndependent(
    held: seq<string>, other: seq<string>, required: string, alternates: seq<string>, otherAlternates: seq<string>
  )
    requires SameElements(held, other) && SameElements(alternates, otherAlternates)
    ensures Allowed(held, required, alternates) <==> Allowed(other, required, otherAlternates)
    ensures Signal(held, required, alternates).Some? <==> Signal(other, required, otherAlternates).Some?
  {
    forall r {
      CoveredIgnoresOrder(held, other, r);
    }
    SignalExactly(held, required, alternates);
    SignalExactly(other, required, otherAlternates);
  }

  /** Holding more never takes access away, and holding the canonical form silences the signal. */
  lemma MoreHeldMoreAllowed(held: seq<string>, more: seq<string>, required: string, alternates: seq<string>)
    requires forall raw | raw in held :: raw in more
    ensures Allowed(held, required, alternates) ==> Allowed(more, required, alternates)
    ensures CoveredCanonically(held, required) ==> Signal(more, required, alternates).None?
  {
    forall r | Covered(held, r)
      ensures Covered(more, r)
    {
      var raw :| raw in held && PermissionMatches(raw, r);
      assert raw in more;
    }
    if CoveredCanonically(held, required) {
      var raw :| raw in held && MatchesCanonically(raw, required);
      assert raw in more;
    }
  }

  /**
   No list of transition grants, whatever its wildcards, plurals or `write` verbs, opens one of the six
   generic actions; one of them on every verb of the resource opens every other action.
   */
  lemma TransitionNeverOpensGeneric(held: seq<string>, resource: string, action: string)
    requires forall raw | raw in held :: GrantLaws.SpeltTransition(Trim(raw))
    requires ':' !in resource
    ensures action in {"read", "create", "update", "delete", "restore", "purge"} ==>
              !Allowed(held, Pair(resource, action), [])
    ensures action !in {"read", "create", "update", "delete", "restore", "purge"} &&
            (exists raw | raw in held :: Trim(raw) in {resource + ":transition:*", "*:transition:*"}) ==>
              Allowed(held, Pair(resource, action), [])
  {
    hide PermissionMatches, Trim;
    forall raw | raw in held
      ensures PermissionMatches(raw, Pair(resource, action)) ==>
                action !in {"read", "create", "update", "delete", "restore", "purge"}
    {
      var r, a :| IsHalf(r) && IsHalf(a) && Trim(raw) == GrantLaws.TransitionName(r, a);
      GrantLaws.TransitionCovers(raw, r, a, resource, action);
    }
    if action !in {"read", "create", "update", "delete", "restore", "purge"} {
      forall raw | raw in held && Trim(raw) in {resource + ":transition:*", "*:transition:*"}
        ensures PermissionMatches(raw, Pair(resource, action))
      {
        EveryVerbSpelling(raw, resource, action);
      }
    }
  }

  lemma EveryVerbSpelling(raw: string, resource: string, action: string)
    requires Trim(raw) in {resource + ":transition:*", "*:transition:*"} && ':' !in resource
    requires GrantLaws.SpeltTransition(Trim(raw))
    requires action !in {"read", "create", "update", "delete", "restore", "purge"}
    ensures PermissionMatches(raw, Pair(resource, action))
  {
    hide PermissionMatches, Trim, IsHalf, GrantLaws.TransitionName;
    var r0, a0 :| IsHalf(r0) && IsHalf(a0) && Trim(raw) == GrantLaws.TransitionName(r0, a0);
    GrantLaws.HalfChars(r0);
    GrantLaws.HalfChars(a0);
    var r := if Trim(raw) == "*:transition:*" then "*" else resource;
    StarName(r);
    TransitionParts(r0, a0, r, "*");
    GrantLaws.TransitionCovers(raw, r0, a0, resource, action);
  }

  lemma StarName(r: string)
    ensures GrantLaws.TransitionName(r, "*") == r + ":transition:*"
    ensures "*" + ":transition:*" == "*:transition:*"
  {
  }

  lemma TransitionParts(r: string, a: string, r': string, a': string)
    requires ':' !in r && ':' !in a && ':' !in r' && ':' !in a'
    requires GrantLaws.TransitionName(r, a) == GrantLaws.TransitionName(r', a')
    ensures r == r' && a == a'
  {
    JoinThree(r, "transition", a, ':');
    JoinThree(r', "transition", a', ':');
    SplitOfJoin([r, "transition", a], ':');
    SplitOfJoin([r', "transition", a'], ':');
    assert [r, "transition", a] == [r', "transition", a'];
  }

  /** The first held string that covers `asked` is the `i`-th. */
  predicate CoversFirst(held: seq<string>, i: nat, asked: string) {
    && i < |held| && PermissionMatches(held[i], asked)
    && forall j | 0 <= j < i :: !PermissionMatches(held[j], asked)
  }

  /**
   The signal names the first held string that covers the requirement; when there is none, the first
   that covers an alternate none before which is covered.
   */
  lemma SignalIsFirst(held: seq<string>, required: string, alternates: seq<string>) returns (i: nat, n: nat)
    requires Signal(held, required, alternates).Some?
    ensures i < |held| && Signal(held, required, alternates).value == held[i]
    ensures Covered(held, required) ==> CoversFirst(held, i, required)
    ensures !Covered(held, required) ==>
              && n < |alternates| && CoversFirst(held, i, alternates[n])
              && forall m | 0 <= m < n :: !Covered(held, alternates[m])
  {
    n := 0;
    if Covered(held, required) {
      i := FirstMatchIndex(held, required);
    } else {
      n := FirstAlternateIndex(held, alternates);
      i := FirstMatchIndex(held, alternates[n]);
    }
    hide CoversFirst, Covered, FirstMatch, FirstAlternate;
  }

  lemma {:induction false} FirstMatchIndex(held: seq<string>, required: string) returns (i: nat)
    requires Covered(held, required)
    ensures CoversFirst(held, i, required) && FirstMatch(held, required) == Some(held[i])
  {
    hide PermissionMatches;
    if PermissionMatches(held[0], required) {
      i := 0;
    } else {
      assert held == [held[0]] + held[1..];
      i := FirstMatchIndex(held[1..], required);
      i := i + 1;
    }
  }

  lemma {:induction false} FirstAlternateIndex(held: seq<string>, alternates: seq<string>) returns (n: nat)
    requires FirstAlternate(held, alternates).Some?
    ensures n < |alternates| && Covered(held, alternates[n])
    ensures FirstAlternate(held, alternates) == FirstMatch(held, alternates[n])
    ensures forall m | 0 <= m < n :: !Covered(held, alternates[m])
  {
    hide Covered;
    if Covered(held, alternates[0]) {
      n := 0;
    } else {
      n := FirstAlternateIndex(held, alternates[1..]);
      n := n + 1;
    }
  }

  // ----- A person's grants against the request context

  datatype GrantSet = GrantSet(roles: set<string>, permissions: set<string>)

  predicate IsAuthority(g: GrantSet) {
    "SUPERUSER" in g.roles || "ADMIN" in g.roles || GOD_PERMISSION in g.permissions
  }

  /** What is held, with authority spelled as the god permission. */
  function Effective(g: GrantSet): set<string> {
    if IsAuthority(g) then g.permissions + {GOD_PERMISSION} else g.permissions
  }

  /** `perms` lists a set of permissions in some order. */
  ghost predicate Lists(perms: seq<string>, s: set<string>) {
    forall p :: p in perms <==> p in s
  }

  predicate Allows(g: GrantSet, listed: seq<string>, required: string) {
    IsAuthority(g) || Allowed(listed, required, [])
  }

  lemma GodCovers(required: string)
    ensures PermissionMatches(GOD_PERMISSION, required) <==> ':' in required
  {
    GrantLaws.ReadsHalves("*", "*");
    assert GOD_PERMISSION == Pair("*", "*");
    SplitOnceRebuilds(required, ':');
  }

  lemma NothingCoversWithoutColon(held: seq<string>, required: string)
    requires ':' !in required
    ensures !Covered(held, required)
  {
    SplitOnceRebuilds(required, ':');
  }

  /** What no held string can cover is allowed to an authority by role, or by the permission `*:*`, and to no one else. */
  lemma OnlyAuthorityWithoutColon(g: GrantSet, listed: seq<string>, required: string)
    requires ':' !in required
    ensures Allows(g, listed, required) <==>
            "SUPERUSER" in g.roles || "ADMIN" in g.roles || "*:*" in g.permissions
  {
    NothingCoversWithoutColon(listed, required);
  }

  /**
   Asking the grants and asking the context whose list the resolver wrote from them agree, whatever
   order the two lists come in, exactly when the requirement has a colon or the holder is no authority.
   */
  lemma AllowsAgreesWithContext(g: GrantSet, listed: seq<string>, effective: seq<string>, required: string)
    requires Lists(listed, g.permissions) && Lists(effective, Effective(g))
    ensures Allows(g, listed, required) == Allowed(effective, required, []) <==>
            ':' in required || !("SUPERUSER" in g.roles || "ADMIN" in g.roles || "*:*" in g.permissions)
  {
    GodCovers(required);
    if IsAuthority(g) {
      assert GOD_PERMISSION in effective;
      if ':' !in required {
        NothingCoversWithoutColon(effective, required);
      }
    } else {
      CoveredIgnoresOrder(listed, effective, required);
    }
  }

  // ----- The record over a whole run

  datatype Check = Check(held: seq<string>, required: string, alternates: seq<string>)

  function SignalOf(c: Check): Option<string> {
    Signal(c.held, c.required, c.alternates)
  }

  /** The record after a run of checks, starting empty. */
  function SeenAfter(calls: seq<Check>): map<string, string> {
    if calls == [] then map[]
    else RecordSignal(SeenAfter(calls[..|calls| - 1]), SignalOf(calls[|calls| - 1]))
  }

  /** Every stored string some check of the run signalled. */
  function Signalled(calls: seq<Check>): set<string> {
    set c | c in calls && SignalOf(c).Some? :: SignalOf(c).value
  }

  lemma SignalledGrows(calls: seq<Check>, last: Check)
    ensures Signalled(calls + [last]) ==
            Signalled(calls) + if SignalOf(last).Some? then {SignalOf(last).value} else {}
  {
    var both := calls + [last];
    forall c | c in calls
      ensures c in both
    {
      var i :| 0 <= i < |calls| && calls[i] == c;
      assert both[i] == c;
    }
    assert both[|calls|] == last;
  }

  lemma RecordedCount(seen: map<string, string>, all: set<string>, k: string, canonical: string)
    requires seen.Keys <= all
    requires |seen| == if |all| < SEEN_CAP then |all| else SEEN_CAP
    ensures var after, all' := Recorded(seen, k, canonical), all + {k};
            && after.Keys <= all'
            && |after| == if |all'| < SEEN_CAP then |all'| else SEEN_CAP
  {
    assert |seen| == |seen.Keys|;
    var after := Recorded(seen, k, canonical);
    assert |after| == |after.Keys|;
    if k in all {
      assert all + {k} == all;
      if |seen| < SEEN_CAP {
        SubsetOfSameSize(seen.Keys, all);
      }
    } else if |seen| < SEEN_CAP {
      assert after.Keys == seen.Keys + {k};
    }
  }

  /** The record holds the signalled strings with their canonical forms, all of them up to the cap. */
  lemma {:induction false} SeenAfterRun(calls: seq<Check>)
    ensures WellFormed(SeenAfter(calls))
    ensures SeenAfter(calls).Keys <= Signalled(calls)
    ensures |SeenAfter(calls)| == if |Signalled(calls)| < 4096 then |Signalled(calls)| else 4096
  {
    if calls == [] {
    } else {
      var rest, last := calls[..|calls| - 1], calls[|calls| - 1];
      assert calls == rest + [last];
      SeenAfterRun(rest);
      SignalledGrows(rest, last);
      var signal := SignalOf(last);
      RecordKeepsWellFormed(SeenAfter(rest), signal);
      if signal.Some? {
        RecordedCount(SeenAfter(rest), Signalled(rest), signal.value, Normalise(signal.value).value);
      }
    }
  }
}
