/** Checking a list of held permissions, and the record of the legacy spellings that granted access. */
module GrantCheck {
  import opened Wrappers
  import opened Grants

  const SEEN_CAP := 4096

  predicate Covered(held: seq<string>, required: string) {
    exists raw | raw in held :: PermissionMatches(raw, required)
  }

  predicate MatchesCanonically(raw: string, required: string) {
    ReadHeld(raw).Some? && MatchHeld(ReadHeld(raw).value, required) == Some(None)
  }

  predicate CoveredCanonically(held: seq<string>, required: string) {
    exists raw | raw in held :: MatchesCanonically(raw, required)
  }

  /** What a check answers: some held string covers the requirement or an alternate. */
  predicate Allowed(held: seq<string>, required: string, alternates: seq<string>) {
    Covered(held, required) || exists alt | alt in alternates :: Covered(held, alt)
  }

  /** The first held string that covers `required`. */
  function FirstMatch(held: seq<string>, required: string): (r: Option<string>)
    ensures r.Some? <==> Covered(held, required)
    ensures r.Some? ==> r.value in held && PermissionMatches(r.value, required)
  {
    if held == [] then None
    else if PermissionMatches(held[0], required) then Some(held[0])
    else
      assert held == [held[0]] + held[1..];
      FirstMatch(held[1..], required)
  }

  /** The first held string that covers the first coverable alternate. */
  function FirstAlternate(held: seq<string>, alternates: seq<string>): (r: Option<string>)
    ensures r.Some? <==> exists alt | alt in alternates :: Covered(held, alt)
    ensures r.Some? ==> r.value in held && ReadHeld(r.value).Some?
  {
    if alternates == [] then None
    else if Covered(held, alternates[0]) then FirstMatch(held, alternates[0])
    else
      assert alternates == [alternates[0]] + alternates[1..];
      FirstAlternate(held, alternates[1..])
  }

  /** The stored string a check raises the deprecation signal for. */
  function Signal(held: seq<string>, required: string, alternates: seq<string>): Option<string> {
    if CoveredCanonically(held, required) then None
    else if Covered(held, required) then FirstMatch(held, required)
    else FirstAlternate(held, alternates)
  }

  function Recorded(seen: map<string, string>, held: string, canonical: string): map<string, string> {
    if |seen| >= SEEN_CAP || held in seen then seen else seen[held := canonical]
  }

  function RecordSignal(seen: map<string, string>, signal: Option<string>): map<string, string>
    requires signal.Some? ==> ReadHeld(signal.value).Some?
  {
    if signal.None? then seen else Recorded(seen, signal.value, Normalise(signal.value).value)
  }

  /** At most `SEEN_CAP` pairs, each a stored permission with its canonical form. */
  predicate WellFormed(seen: map<string, string>) {
    |seen| <= SEEN_CAP && forall k | k in seen :: Normalise(k) == Some(seen[k])
  }

  /** What the request carries of its caller. */
  datatype AuthContext = AuthContext(permissions: seq<string>)

  /** Some held string covers something asked: the requirement or an alternate. */
  ghost predicate CoversOneOf(held: seq<string>, required: string, alternates: seq<string>) {
    exists raw, asked | raw in held && (asked == required || asked in alternates) :: PermissionMatches(raw, asked)
  }

  lemma Coverer(held: seq<string>, required: string) returns (raw: string)
    requires Covered(held, required)
    ensures raw in held && PermissionMatches(raw, required)
  {
    raw :| raw in held && PermissionMatches(raw, required);
  }

  lemma AllowedMeaning(held: seq<string>, required: string, alternates: seq<string>)
    ensures Allowed(held, required, alternates) <==> CoversOneOf(held, required, alternates)
    ensures !Allowed(held, required, alternates) ==> Signal(held, required, alternates).None?
  {
    CanonicalIsMatch(held, required);
    hide PermissionMatches, FirstMatch, FirstAlternate, CoveredCanonically;
    if CoversOneOf(held, required, alternates) {
      var raw, asked :| raw in held && (asked == required || asked in alternates) && PermissionMatches(raw, asked);
      assert Covered(held, asked);
    }
    if Allowed(held, required, alternates) {
      var asked :| (asked == required || asked in alternates) && Covered(held, asked);
      var raw := Coverer(held, asked);
    }
  }

  /** The process-wide record of legacy spellings. */
  class LegacyRecord {
    var seen: map<string, string>

    constructor ()
      ensures seen == map[]
    {
      seen := map[];
    }

    method NoteLegacy(held: string, canonical: string)
      modifies this
      ensures seen == Recorded(old(seen), held, canonical)
      ensures held in old(seen) || |old(seen)| >= 4096 ==> seen == old(seen)
      ensures held !in old(seen) && |old(seen)| < 4096 ==> seen == old(seen)[held := canonical]
    {
      if |seen| >= SEEN_CAP || held in seen {
        return;
      }
      seen := seen[held := canonical];
    }

    method CheckHeld(held: seq<string>, required: string, alternates: seq<string>) returns (allowed: bool)
      modifies this
      ensures allowed == Allowed(held, required, alternates)
      ensures seen == RecordSignal(old(seen), Signal(held, required, alternates))
      ensures old(WellFormed(seen)) ==> WellFormed(seen)
    {
      RecordKeepsWellFormed(seen, Signal(held, required, alternates));
      var canonical, legacyHit := FindRequired(held, required);
      if canonical {
        return true;
      }
      if legacyHit.None? {
        legacyHit := FindAlternate(held, alternates);
      }
      if legacyHit.Some? {
        NoteLegacy(legacyHit.value.0, legacyHit.value.1);
      }
      allowed := legacyHit.Some?;
    }

    /** Whether the context's list, and nothing else, covers `permission`. */
    method HasPermission(context: AuthContext, permission: string) returns (allowed: bool)
      modifies this
      ensures allowed <==> Covered(context.permissions, permission)
      ensures seen == RecordSignal(old(seen), Signal(context.permissions, permission, []))
      ensures !allowed ==> seen == old(seen)
    {
      AllowedMeaning(context.permissions, permission, []);
      allowed := CheckHeld(context.permissions, permission, []);
    }

    /**
     Refuses exactly when no held string covers anything asked. A refusal names the permission, never
     an alternate, and records nothing.
     */
    method RequireWith(context: AuthContext, permission: string, alternates: seq<string>) returns (r: Result<(), string>)
      modifies this
      ensures r.Ok? <==> CoversOneOf(context.permissions, permission, alternates)
      ensures r.Err? ==> r.error == permission && seen == old(seen)
      ensures seen == RecordSignal(old(seen), Signal(context.permissions, permission, alternates))
    {
      AllowedMeaning(context.permissions, permission, alternates);
      var allowed := CheckHeld(context.permissions, permission, alternates);
      if allowed {
        return Ok(());
      }
      return Err(permission);
    }

    method Require(context: AuthContext, permission: string) returns (r: Result<(), string>)
      modifies this
      ensures r.Ok? <==> Covered(context.permissions, permission)
      ensures r.Err? ==> r.error == permission && seen == old(seen)
      ensures seen == RecordSignal(old(seen), Signal(context.permissions, permission, []))
    {
      AllowedMeaning(context.permissions, permission, []);
      r := RequireWith(context, permission, []);
    }
  }

  lemma RecordKeepsWellFormed(seen: map<string, string>, signal: Option<string>)
    requires signal.Some? ==> ReadHeld(signal.value).Some?
    ensures WellFormed(seen) ==> WellFormed(RecordSignal(seen, signal))
  {
  }

  lemma CanonicalIsMatch(held: seq<string>, required: string)
    ensures CoveredCanonically(held, required) ==> Covered(held, required)
  {
    if CoveredCanonically(held, required) {
      var raw :| raw in held && MatchesCanonically(raw, required);
      assert PermissionMatches(raw, required);
    }
  }

  /** The first pass: stops at a canonical match, else keeps the first legacy one. */
  method FindRequired(held: seq<string>, required: string)
    returns (canonical: bool, hit: Option<(string, string)>)
    ensures canonical == CoveredCanonically(held, required)
    ensures canonical ==> Covered(held, required)
    ensures !canonical ==> hit == Noted(FirstMatch(held, required))
  {
    hit := None;
    for i := 0 to |held|
      invariant !CoveredCanonically(held[..i], required)
      invariant hit == Noted(FirstMatch(held[..i], required))
    {
      assert held[..i + 1] == held[..i] + [held[i]];
      FirstMatchExtends(held[..i], held[i], required);
      var h := ReadHeld(held[i]);
      if h.Some? {
        var how := MatchHeld(h.value, required);
        if how == Some(None) {
          assert MatchesCanonically(held[i], required);
          CanonicalIsMatch(held, required);
          return true, None;
        } else if how.Some? && hit.None? {
          hit := Some((held[i], Canonical(h.value)));
        }
      }
    }
    assert held[..|held|] == held;
    canonical := false;
  }

  /** A matched string with its canonical form, as the check carries it to the record. */
  function Noted(raw: Option<string>): Option<(string, string)>
    requires raw.Some? ==> ReadHeld(raw.value).Some?
  {
    if raw.None? then None else Some((raw.value, Normalise(raw.value).value))
  }

  lemma {:induction false} FirstMatchExtends(held: seq<string>, raw: string, required: string)
    ensures FirstMatch(held + [raw], required) ==
            if FirstMatch(held, required).Some? then FirstMatch(held, required)
            else if PermissionMatches(raw, required) then Some(raw)
            else None
  {
    if held == [] {
      assert held + [raw] == [raw];
    } else {
      assert (held + [raw])[1..] == held[1..] + [raw];
      FirstMatchExtends(held[1..], raw, required);
    }
  }

  lemma {:induction false} FirstAlternateExtends(held: seq<string>, alternates: seq<string>, alt: string)
    ensures FirstAlternate(held, alternates + [alt]) ==
            if FirstAlternate(held, alternates).Some? then FirstAlternate(held, alternates)
            else FirstMatch(held, alt)
  {
    if alternates == [] {
      assert alternates + [alt] == [alt];
    } else {
      assert (alternates + [alt])[1..] == alternates[1..] + [alt];
      FirstAlternateExtends(held, alternates[1..], alt);
    }
  }

  /** The second pass: every alternate against every held string, the first hit kept. */
  method FindAlternate(held: seq<string>, alternates: seq<string>) returns (hit: Option<(string, string)>)
    ensures hit == Noted(FirstAlternate(held, alternates))
  {
    hit := None;
    for j := 0 to |alternates|
      invariant hit == Noted(FirstAlternate(held, alternates[..j]))
    {
      ghost var before := FirstAlternate(held, alternates[..j]);
      assert alternates[..j + 1] == alternates[..j] + [alternates[j]];
      FirstAlternateExtends(held, alternates[..j], alternates[j]);
      for i := 0 to |held|
        invariant hit == Noted(if before.Some? then before else FirstMatch(held[..i], alternates[j]))
      {
        assert held[..i + 1] == held[..i] + [held[i]];
        FirstMatchExtends(held[..i], held[i], alternates[j]);
        var h := ReadHeld(held[i]);
        if h.Some? && MatchHeld(h.value, alternates[j]).Some? && hit.None? {
          hit := Some((held[i], Canonical(h.value)));
        }
      }
      assert held[..|held|] == held;
    }
    assert alternates[..|alternates|] == alternates;
  }
}
