/** What the permission language promises: its grammar, its round trip and the meaning of its canonical form. */
module GrantLaws {
  import opened Wrappers
  import opened Text
  import opened Grants

  function Dot(resource: string, action: string): string {
    resource + "." + action
  }

  function TransitionName(resource: string, verb: string): string {
    resource + ":" + "transition" + ":" + verb
  }

  ghost predicate SpeltDotted(t: string) {
    exists r, a :: IsHalf(r) && IsHalf(a) && t == Dot(r, a)
  }

  ghost predicate SpeltPair(t: string) {
    exists r, a :: IsHalf(r) && IsHalf(a) && t == Pair(r, a)
  }

  ghost predicate SpeltTransition(t: string) {
    exists r, a :: IsHalf(r) && IsHalf(a) && t == TransitionName(r, a)
  }

  // ----- Reading

  lemma HalfChars(s: string)
    requires IsHalf(s)
    ensures s != "" && ':' !in s && '.' !in s && Trimmed(s)
  {
  }

  lemma TrimOfSpelling(r: string, middle: string, a: string)
    requires IsHalf(r) && IsHalf(a)
    ensures Trim(r + middle + a) == r + middle + a
  {
    HalfChars(r);
    HalfChars(a);
    var t := r + middle + a;
    assert t[0] == r[0] && t[|t| - 1] == a[|a| - 1];
    TrimOfTrimmed(t);
  }

  lemma ReadsDotted(r: string, a: string)
    requires IsHalf(r) && IsHalf(a)
    ensures ReadHeld(Dot(r, a)) == Some(Held(r, a, false, Some(Dotted)))
  {
    TrimOfSpelling(r, ".", a);
    HalfChars(r);
    HalfChars(a);
    SplitOnceAt(r, '.', a);
    assert Dot(r, a)[|r|] == '.';
  }

  lemma ReadsPair(r: string, a: string)
    requires ':' !in r && ':' !in a && Trimmed(Pair(r, a))
    ensures ReadHeld(Pair(r, a)) == ReadPair(r, a)
  {
    TrimOfTrimmed(Pair(r, a));
    assert Pair(r, a)[|r|] == ':';
    assert Join([r, a], ':') == Pair(r, a);
    SplitOfJoin([r, a], ':');
  }

  lemma ReadsHalves(r: string, a: string)
    requires IsHalf(r) && IsHalf(a)
    ensures ReadHeld(Pair(r, a)) == ReadPair(r, a)
  {
    TrimOfSpelling(r, ":", a);
    HalfChars(r);
    HalfChars(a);
    assert Pair(r, a)[0] == r[0] && Pair(r, a)[|r| + |a|] == a[|a| - 1];
    ReadsPair(r, a);
  }

  lemma ReadsThree(r: string, middle: string, a: string)
    requires IsHalf(r) && ':' !in middle && IsHalf(a)
    ensures ReadHeld(r + ":" + middle + ":" + a) == ReadParts([r, middle, a])
  {
    HalfChars(r);
    HalfChars(a);
    var t := r + ":" + middle + ":" + a;
    assert t == r + (":" + middle + ":") + a;
    TrimOfSpelling(r, ":" + middle + ":", a);
    assert t[|r|] == ':' && |t| > 1;
    JoinThree(r, middle, a, ':');
    SplitOfJoin([r, middle, a], ':');
  }

  lemma ReadsTransition(r: string, a: string)
    requires IsHalf(r) && IsHalf(a)
    ensures ReadHeld(TransitionName(r, a)) == Some(Held(r, a, true, Some(Transition)))
  {
    ReadsThree(r, "transition", a);
  }

  lemma PartsOf(t: string)
    ensures var parts := Split(t, ':');
            && (|parts| == 2 ==> t == Pair(parts[0], parts[1]))
            && (|parts| == 3 ==> t == parts[0] + ":" + parts[1] + ":" + parts[2])
  {
    var parts := Split(t, ':');
    SplitRebuilds(t, ':');
    if |parts| == 3 {
      JoinThree(parts[0], parts[1], parts[2], ':');
      assert parts == [parts[0], parts[1], parts[2]];
    } else if |parts| == 2 {
      JoinTwo(parts[0], parts[1], ':');
      assert parts == [parts[0], parts[1]];
    }
  }

  lemma TransitionPartsAreSpelt(t: string)
    requires |Split(t, ':')| == 3
    requires ReadParts(Split(t, ':')).Some?
    ensures var h := ReadParts(Split(t, ':')).value;
            IsHalf(h.resource) && IsHalf(h.action) && t == TransitionName(h.resource, h.action)
  {
    PartsOf(t);
  }

  lemma PairIsHalves(first: string, second: string)
    requires ReadPair(first, second).Some?
    ensures IsHalf(first) && IsHalf(second)
    ensures var h := ReadPair(first, second).value;
            IsHalf(h.resource) && IsHalf(h.action) && !h.verbsOnly
  {
    if first == "admin" {
      assert IsName(first);
    } else if IsLeadingAction(first) {
      assert IsName(first);
    }
  }

  lemma PairPartsAreSpelt(t: string)
    requires |Split(t, ':')| == 2
    requires ReadParts(Split(t, ':')).Some?
    ensures var parts := Split(t, ':');
            IsHalf(parts[0]) && IsHalf(parts[1]) && t == Pair(parts[0], parts[1])
    ensures var h := ReadParts(Split(t, ':')).value;
            IsHalf(h.resource) && IsHalf(h.action) && !h.verbsOnly
  {
    PartsOf(t);
    var parts := Split(t, ':');
    PairIsHalves(parts[0], parts[1]);
  }

  /** Every accepted string is in one of the four spellings, and verb grants are the transition one. */
  lemma AcceptedIsSpelt(raw: string)
    requires ReadHeld(raw).Some?
    ensures Trim(raw) == "*" || SpeltDotted(Trim(raw)) || SpeltPair(Trim(raw)) || SpeltTransition(Trim(raw))
    ensures var h := ReadHeld(raw).value; IsHalf(h.resource) && IsHalf(h.action)
    ensures var h := ReadHeld(raw).value;
            h.verbsOnly ==> Trim(raw) == TransitionName(h.resource, h.action)
  {
    var t := Trim(raw);
    if t == "*" {
    } else if ':' !in t {
      SplitOnceRebuilds(t, '.');
      var (r, a) := SplitOnce(t, '.').value;
      assert t == Dot(r, a);
    } else {
      assert ReadHeld(raw) == ReadParts(Split(t, ':'));
      if |Split(t, ':')| == 3 {
        TransitionPartsAreSpelt(t);
      } else {
        PairPartsAreSpelt(t);
      }
    }
  }

  lemma ReadsTrimmed(raw: string)
    ensures ReadHeld(raw) == ReadHeld(Trim(raw))
  {
    var _, _ := TrimMeaning(raw);
    TrimOfTrimmed(Trim(raw));
  }

  /** White space around a permission makes no difference. */
  lemma SpaceIgnored(before: string, raw: string, after: string)
    requires forall c | c in before + after :: c as int in WHITE_SPACE
    ensures ReadHeld(before + raw + after) == ReadHeld(raw)
  {
    TrimIgnoresSpace(before, raw, after);
    hide Trim;
  }

  lemma StarIsAccepted(raw: string)
    requires Trim(raw) == "*"
    ensures ReadHeld(raw).Some?
  {
  }

  lemma SpeltIsAccepted(raw: string)
    requires Trim(raw) == "*" || SpeltDotted(Trim(raw)) || SpeltPair(Trim(raw)) || SpeltTransition(Trim(raw))
    ensures ReadHeld(raw).Some?
  {
    hide ReadHeld, Trim, IsHalf, Dot, Pair, TransitionName;
    var t := Trim(raw);
    ReadsTrimmed(raw);
    if t == "*" {
      StarIsAccepted(raw);
    } else if SpeltDotted(t) {
      var r, a :| IsHalf(r) && IsHalf(a) && t == Dot(r, a);
      ReadsDotted(r, a);
    } else if SpeltPair(t) {
      var r, a :| IsHalf(r) && IsHalf(a) && t == Pair(r, a);
      ReadsHalves(r, a);
    } else {
      var r, a :| IsHalf(r) && IsHalf(a) && t == TransitionName(r, a);
      ReadsTransition(r, a);
    }
  }

  /** The grammar: exactly the four spellings are permissions, after trimming. */
  lemma AcceptsExactlyTheSpellings(raw: string)
    ensures ReadHeld(raw).Some? <==>
            (Trim(raw) == "*" || SpeltDotted(Trim(raw)) || SpeltPair(Trim(raw)) || SpeltTransition(Trim(raw)))
  {
    if ReadHeld(raw).Some? {
      AcceptedIsSpelt(raw);
    }
    if Trim(raw) == "*" || SpeltDotted(Trim(raw)) || SpeltPair(Trim(raw)) || SpeltTransition(Trim(raw)) {
      SpeltIsAccepted(raw);
    }
  }

  // ----- Printing and reading again

  /** `resource:action` reads as something other than a canonical `resource`, `action` pair. */
  predicate ReadsActionFirst(resource: string, action: string) {
    || (resource == "admin" && !IsGeneric(action) && action != "write")
    || (IsLeadingAction(resource) && IsName(action))
  }

  /** ... and the pair it reads as is a different one. */
  predicate ReadsDifferently(resource: string, action: string) {
    ReadsActionFirst(resource, action) && (resource != action || resource == "admin")
  }

  lemma RereadPair(r: string, a: string)
    requires IsHalf(r) && IsHalf(a)
    ensures ReadHeld(Pair(r, a)).Some?
    ensures ReadHeld(Pair(r, a)) == Some(Held(r, a, false, None)) <==> !ReadsActionFirst(r, a)
    ensures var h := ReadHeld(Pair(r, a)).value;
            !h.verbsOnly && (h.resource == r && h.action == a <==> !ReadsDifferently(r, a))
  {
    ReadsHalves(r, a);
    hide ReadHeld, Trim, IsHalf;
    if r == "admin" {
      assert !IsLeadingAction(r);
      if a == "*" {
      } else if IsGeneric(a) || a == "write" {
      } else {
        assert ReadPair(r, a) == Some(Held(a, "*", false, Some(ActionFirst)));
      }
    }
  }

  /** Printing and reading again returns the same grant exactly outside the action-first words. */
  lemma RoundTrip(raw: string)
    requires ReadHeld(raw).Some? && !ReadHeld(raw).value.verbsOnly
    ensures var h := ReadHeld(raw).value;
            ReadHeld(Canonical(h)) == Some(h.(legacy := None)) <==> !ReadsActionFirst(h.resource, h.action)
  {
    AcceptedIsSpelt(raw);
    var h := ReadHeld(raw).value;
    RereadPair(h.resource, h.action);
  }

  lemma NoHalfNoPermission(r: string, a: string)
    requires IsHalf(r) && ':' !in a
    requires a != "" && a[0] != '*' && !IsNameChar(a[0]) && !IsWhitespace(a[|a| - 1])
    ensures ReadHeld(Pair(r, a)).None?
  {
    HalfChars(r);
    var t := Pair(r, a);
    assert t[0] == r[0] && t[|t| - 1] == a[|a| - 1];
    ReadsPair(r, a);
    assert !IsName(a);
  }

  lemma EachVerbIsNoPermission(r: string)
    requires IsHalf(r)
    ensures ReadHeld(Pair(r, "<each verb>")).None?
  {
    NoHalfNoPermission(r, "<each verb>");
  }

  // ----- What a grant covers

  /**
   A grant covers a resource and an action when it names the action, names every one, or is `write` and
   the action is none of four, and it names the resource, every one, or the resource's plural. A grant on
   verbs covers none of the six generic actions.
   */
  lemma MatchPair(h: Held, rr: string, ra: string)
    requires ':' !in rr
    ensures MatchHeld(h, Pair(rr, ra)).Some? <==>
            && !(h.verbsOnly && ra in {"read", "create", "update", "delete", "restore", "purge"})
            && (h.action in {"*", ra} || (h.action == "write" && ra !in {"write", "read", "delete", "purge"}))
            && h.resource in {"*", rr, PluralOf(rr)}
    ensures MatchHeld(h, Pair(rr, ra)) == Some(None) <==>
            && h.legacy.None? && !(h.verbsOnly && ra in {"read", "create", "update", "delete", "restore", "purge"})
            && h.action in {"*", ra} && h.resource in {"*", rr}
    ensures MatchHeld(h, Pair(rr, ra)).Some? && MatchHeld(h, Pair(rr, ra)) != Some(None) ==>
              MatchHeld(h, Pair(rr, ra)).value.value ==
              if h.legacy.Some? then h.legacy.value else if h.action !in {"*", ra} then WriteAction else Plural
  {
    SplitOnceAt(rr, ':', ra);
  }

  /** What one held string in the transition spelling covers. */
  lemma TransitionCovers(raw: string, r: string, a: string, resource: string, action: string)
    requires IsHalf(r) && IsHalf(a) && Trim(raw) == TransitionName(r, a) && ':' !in resource
    ensures PermissionMatches(raw, Pair(resource, action)) <==>
            && action !in {"read", "create", "update", "delete", "restore", "purge"}
            && (a in {"*", action} || (a == "write" && action != "write"))
            && r in {"*", resource, PluralOf(resource)}
  {
    ReadsTrimmed(raw);
    ReadsTransition(r, a);
    MatchPair(Held(r, a, true, Some(Transition)), resource, action);
    hide ReadHeld, MatchHeld, Trim, PluralOf;
  }

  lemma PairTable(name: string)
    requires IsName(name)
    ensures forall lead | lead in {"read", "write", "delete"} ::
              ReadPair(lead, name) == Some(Held(name, lead, false, Some(ActionFirst)))
    ensures var actions := {"read", "create", "update", "delete", "restore", "purge", "write"};
            ReadPair("admin", name) ==
            if name in actions then Some(Held("admin", name, false, None))
            else Some(Held(name, "*", false, Some(ActionFirst)))
    ensures ReadPair("admin", "*") == Some(Held("*", "*", false, Some(ActionFirst)))
    ensures name != "admin" ==> ReadPair(name, "*") == Some(Held(name, "*", false, None))
    ensures forall r | IsHalf(r) && r !in {"admin", "read", "write", "delete"} ::
              ReadPair(r, name) == Some(Held(r, name, false, None))
  {
    assert IsName("admin") && !IsNameChar("*"[0]);
    hide IsNameChar;
  }

  /** The older action-first spellings, by the documented table; any other first word is a resource. */
  lemma ActionFirstTable(name: string)
    requires IsName(name)
    ensures forall lead | lead in {"read", "write", "delete"} ::
              ReadHeld(Pair(lead, name)) == Some(Held(name, lead, false, Some(ActionFirst)))
    ensures var actions := {"read", "create", "update", "delete", "restore", "purge", "write"};
            ReadHeld(Pair("admin", name)) ==
            if name in actions then Some(Held("admin", name, false, None))
            else Some(Held(name, "*", false, Some(ActionFirst)))
    ensures ReadHeld(Pair("admin", "*")) == Some(Held("*", "*", false, Some(ActionFirst)))
    ensures name != "admin" ==> ReadHeld(Pair(name, "*")) == Some(Held(name, "*", false, None))
    ensures forall r | IsHalf(r) && r !in {"admin", "read", "write", "delete"} ::
              ReadHeld(Pair(r, name)) == Some(Held(r, name, false, None))
  {
    PairTable(name);
    assert IsHalf("admin") && IsHalf("*") && IsHalf("read") && IsHalf("write") && IsHalf("delete");
    hide ReadPair, ReadHeld, IsHalf, Pair;
    forall lead | lead in {"read", "write", "delete"}
      ensures ReadHeld(Pair(lead, name)) == ReadPair(lead, name)
    {
      ReadsHalves(lead, name);
    }
    forall r | IsHalf(r) && r !in {"admin", "read", "write", "delete"}
      ensures ReadHeld(Pair(r, name)) == ReadPair(r, name)
    {
      ReadsHalves(r, name);
    }
    ReadsHalves("admin", name);
    ReadsHalves("admin", "*");
    ReadsHalves(name, "*");
  }

  /** The letters of a name. */
  const LETTERS: set<char> :=
    {'a', 'b', 'c', 'd', 'e', 'f', 'g', 'h', 'i', 'j', 'k', 'l', 'm', 'n', 'o', 'p', 'q', 'r', 's', 't', 'u', 'v', 'w',
     'x', 'y', 'z', '0', '1', '2', '3', '4', '5', '6', '7', '8', '9', '_'}

  lemma NameLetter(c: char)
    ensures IsNameChar(c) <==> c in LETTERS
  {
  }

  lemma NameLetters(s: string)
    ensures (forall i | 0 <= i < |s| :: IsNameChar(s[i])) <==> forall c | c in s :: c in LETTERS
  {
    forall c {
      NameLetter(c);
    }
    hide IsNameChar;
  }

  /** The halves of a permission: the star, and the words over lower-case letters, digits and the underscore. */
  lemma HalfAlphabet(s: string)
    ensures IsHalf(s) <==> s == "*" || (s != "" && forall c | c in s :: c in LETTERS)
  {
    NameLetters(s);
  }

  /** The composite `write` covers every mutation and verb of its resource, never `read`, `delete` or `purge`. */
  lemma WriteCovers(resource: string, legacy: Option<LegacySpelling>, action: string)
    requires ':' !in resource
    ensures MatchHeld(Held(resource, "write", false, legacy), Pair(resource, action)).Some? <==>
            action != "read" && action != "delete" && action != "purge"
  {
    MatchPair(Held(resource, "write", false, legacy), resource, action);
  }

  /** Two held strings that cover the same required permissions. */
  ghost predicate SameMeaning(one: string, other: string) {
    forall required :: PermissionMatches(one, required) <==> PermissionMatches(other, required)
  }

  /** The accepted grants whose canonical form means what they mean. */
  predicate KeepsMeaning(h: Held) {
    && !ReadsDifferently(h.resource, h.action)
    && !(h.verbsOnly && (h.action == "*" || h.action == "write" || IsGeneric(h.action)))
  }

  lemma CoverageIgnoresSpelling(h: Held, k: Held, required: string)
    requires h.resource == k.resource && h.action == k.action
    requires h.verbsOnly == k.verbsOnly || !(h.action == "*" || h.action == "write" || IsGeneric(h.action))
    ensures MatchHeld(h, required).Some? <==> MatchHeld(k, required).Some?
  {
  }

  lemma PluralDiffers(s: string)
    ensures |PluralOf(s)| > |s|
    ensures PluralOf(s)[|PluralOf(s)| - 1] == 's'
  {
    hide TakesEs;
    var ending := PluralOf(s)[|PluralOf(s)| - 1..];
    assert ending == ['s'];
  }

  /** `admin:*` covers what no grant on the resource `admin` does. */
  lemma AdminStarDiffers(h: Held) returns (required: string)
    requires h.resource == "admin" && h.action == "*" && !h.verbsOnly
    ensures MatchHeld(h, required).Some? != PermissionMatches(Canonical(h), required)
  {
    ReadsHalves("admin", "*");
    required := Pair("x", "read");
    PluralDiffers("x");
    assert PluralOf("x") != "admin" by {
      assert "admin"[4] == 'n';
    }
    MatchPair(h, "x", "read");
    MatchPair(Held("*", "*", false, Some(ActionFirst)), "x", "read");
  }

  /** `admin:<module>` covers its module, which the grant on the resource `admin` does not. */
  lemma AdminModuleDiffers(h: Held) returns (required: string)
    requires h.resource == "admin" && IsName(h.action) && !IsGeneric(h.action) && h.action != "write"
    ensures MatchHeld(h, required).Some? != PermissionMatches(Canonical(h), required)
  {
    ReadsHalves("admin", h.action);
    HalfChars(h.action);
    var k := Held(h.action, "*", false, Some(ActionFirst));
    assert ReadPair("admin", h.action) == Some(k);
    hide ReadHeld, Trim, ReadPair;
    required := Pair(h.action, "read");
    MatchPair(h, h.action, "read");
    MatchPair(k, h.action, "read");
  }

  /** `read:<name>` and its like cover the name with that action, which the grant so printed does not. */
  lemma LeadingActionDiffers(h: Held) returns (required: string)
    requires IsLeadingAction(h.resource) && IsName(h.action) && h.action != h.resource
    ensures MatchHeld(h, required).Some? != PermissionMatches(Canonical(h), required)
  {
    ReadsHalves(h.resource, h.action);
    HalfChars(h.action);
    var k := Held(h.action, h.resource, false, Some(ActionFirst));
    assert ReadPair(h.resource, h.action) == Some(k);
    hide ReadHeld, Trim, ReadPair;
    required := Pair(h.action, h.resource);
    MatchPair(h, h.action, h.resource);
    MatchPair(k, h.action, h.resource);
  }

  /** A verb grant printed as a canonical pair gains the generic actions. */
  lemma VerbGrantDiffers(h: Held) returns (required: string)
    requires IsHalf(h.resource) && h.verbsOnly && (h.action == "write" || IsGeneric(h.action))
    requires !ReadsDifferently(h.resource, h.action)
    ensures MatchHeld(h, required).Some? != PermissionMatches(Canonical(h), required)
  {
    assert IsName(h.action);
    HalfChars(h.resource);
    RereadPair(h.resource, h.action);
    var k := ReadHeld(Pair(h.resource, h.action)).value;
    var action := if h.action == "write" then "create" else h.action;
    required := Pair(h.resource, action);
    MatchPair(h, h.resource, action);
    MatchPair(k, h.resource, action);
  }

  /** A grant on every verb covers verbs, and its printed form covers nothing. */
  lemma EveryVerbDiffers(h: Held) returns (required: string)
    requires IsHalf(h.resource) && h.verbsOnly && h.action == "*"
    ensures MatchHeld(h, required).Some? != PermissionMatches(Canonical(h), required)
  {
    HalfChars(h.resource);
    EachVerbIsNoPermission(h.resource);
    required := Pair(h.resource, "verb");
    MatchPair(h, h.resource, "verb");
  }

  /** A required permission on which a grant that does not keep its meaning differs from its canonical form. */
  lemma DifferingRequirement(h: Held) returns (required: string)
    requires IsHalf(h.resource) && IsHalf(h.action)
    requires !KeepsMeaning(h)
    ensures MatchHeld(h, required).Some? != PermissionMatches(Canonical(h), required)
  {
    hide MatchHeld, PermissionMatches, Canonical;
    if h.verbsOnly && h.action == "*" {
      required := EveryVerbDiffers(h);
    } else if h.resource == "admin" && h.action == "*" {
      required := AdminStarDiffers(h);
    } else if h.resource == "admin" && ReadsDifferently(h.resource, h.action) {
      required := AdminModuleDiffers(h);
    } else if ReadsDifferently(h.resource, h.action) {
      required := LeadingActionDiffers(h);
    } else {
      required := VerbGrantDiffers(h);
    }
  }

  /** Rewriting a stored permission to its canonical form keeps what it covers exactly when `KeepsMeaning` holds. */
  lemma CanonicalKeepsMeaning(raw: string)
    requires ReadHeld(raw).Some?
    ensures SameMeaning(raw, Normalise(raw).value) <==> KeepsMeaning(ReadHeld(raw).value)
  {
    AcceptedIsSpelt(raw);
    var h := ReadHeld(raw).value;
    if KeepsMeaning(h) {
      RereadPair(h.resource, h.action);
      var k := ReadHeld(Canonical(h)).value;
      forall required
        ensures PermissionMatches(raw, required) <==> PermissionMatches(Canonical(h), required)
      {
        CoverageIgnoresSpelling(h, k, required);
      }
    } else {
      var required := DifferingRequirement(h);
      assert PermissionMatches(raw, required) != PermissionMatches(Canonical(h), required);
    }
  }

  /** Normalising twice is normalising once, exactly when the printed pair is read as itself. */
  lemma NormaliseIdempotent(raw: string)
    requires ReadHeld(raw).Some?
    ensures var h := ReadHeld(raw).value;
            Normalise(Normalise(raw).value) == Normalise(raw) <==>
            !ReadsDifferently(h.resource, h.action) && !(h.verbsOnly && h.action == "*")
  {
    AcceptedIsSpelt(raw);
    var h := ReadHeld(raw).value;
    if h.verbsOnly && h.action == "*" {
      EachVerbIsNoPermission(h.resource);
    } else {
      RereadPair(h.resource, h.action);
      var k := ReadHeld(Canonical(h)).value;
      AcceptedIsSpelt(Canonical(h));
      HalfChars(h.resource);
      HalfChars(k.resource);
      SplitOnceAt(h.resource, ':', h.action);
      SplitOnceAt(k.resource, ':', k.action);
    }
  }

  // ----- Plurals

  lemma PlainEnding(stem: string, c: char)
    requires c != 'y' && c != 's' && c != 'x'
    requires c == 'h' ==> stem != "" && stem[|stem| - 1] != 'c' && stem[|stem| - 1] != 's'
    ensures PluralOf(stem + [c]) == stem + [c] + "s"
  {
    var t := stem + [c];
    assert t[|t| - 1] == c;
    assert c == 'h' ==> t[|t| - 2] == stem[|stem| - 1];
  }

  /** The plural rule by the last letter and the one before it: every name, and the empty one, falls under it. */
  lemma PluralRules(stem: string, c: char)
    ensures var before := if stem == "" then None else Some(stem[|stem| - 1]);
            PluralOf(stem + [c]) ==
            if c == 'y' && before.Some? && before.value !in {'a', 'e', 'i', 'o', 'u'} then stem + "ies"
            else if c == 's' || c == 'x' || (c == 'h' && (before == Some('c') || before == Some('s'))) then stem + [c] + "es"
            else stem + [c] + "s"
    ensures PluralOf("") == "s"
  {
    assert "" + "s" == "s" && !TakesEs("");
    var s := stem + [c];
    assert s[..|s| - 1] == stem && s[|s| - 1] == c;
    if stem != "" {
      assert s[|s| - 2] == stem[|stem| - 1];
    }
    EsByLetters(stem, c);
  }

  lemma EsByLetters(stem: string, c: char)
    ensures TakesEs(stem + [c]) <==>
            c == 's' || c == 'x' || (c == 'h' && stem != "" && (stem[|stem| - 1] == 'c' || stem[|stem| - 1] == 's'))
  {
    var s := stem + [c];
    assert s[|s| - 1] == c && (stem != "" ==> s[|s| - 2] == stem[|stem| - 1]);
    if c == 's' {
      assert SuffixOf("s", s);
    } else if c == 'x' {
      assert SuffixOf("x", s);
    } else if c == 'h' && stem != "" {
      assert s[|s| - 2..] == [stem[|stem| - 1], 'h'];
    }
  }

  lemma EsEndings(stem: string)
    ensures PluralOf(stem + "s") == stem + "ses" && PluralOf(stem + "x") == stem + "xes"
    ensures PluralOf(stem + "ch") == stem + "ches" && PluralOf(stem + "sh") == stem + "shes"
  {
    assert SuffixOf("s", stem + "s") && stem + "s" + "es" == stem + "ses";
    assert SuffixOf("x", stem + "x") && stem + "x" + "es" == stem + "xes";
    assert SuffixOf("ch", stem + "ch") && stem + "ch" + "es" == stem + "ches";
    assert SuffixOf("sh", stem + "sh") && stem + "sh" + "es" == stem + "shes";
  }

  /** Which of the three rules forms the plural of `s`, by the number of letters it replaces at the end. */
  function Ending(s: string): nat {
    var n := |s|;
    if n >= 2 && s[n - 1] == 'y' && !IsVowel(s[n - 2]) then 3 else if TakesEs(s) then 2 else 1
  }

  lemma SingularOf(s: string)
    ensures var p := PluralOf(s);
            && |p| >= Ending(s)
            && s == p[..|p| - Ending(s)] + if Ending(s) == 3 then "y" else ""
    ensures Ending(s) == 3 ==> var p := PluralOf(s); p[|p| - 3] == 'i'
    ensures Ending(s) == 2 ==> var p := PluralOf(s); |p| >= 3 && p[|p| - 3] != 'i'
  {
    var p, n := PluralOf(s), |s|;
    if Ending(s) == 3 {
      assert p[..|p| - 3] == s[..n - 1];
      assert s == s[..n - 1] + "y";
    } else if Ending(s) == 2 {
      assert p[..|p| - 2] == s;
    } else {
      assert p[..|p| - 1] == s;
    }
  }

  lemma SamePluralSameEnding(a: string, b: string)
    requires PluralOf(a) == PluralOf(b) && Ending(a) == Ending(b)
    ensures a == b
  {
    SingularOf(a);
    SingularOf(b);
  }

  /** No plural belongs to three singulars: a plural-spelled grant reaches at most two resources. */
  lemma PluralAtMostTwoToOne(a: string, b: string, c: string)
    requires PluralOf(a) == PluralOf(b) == PluralOf(c)
    ensures a == b || b == c || a == c
  {
    SingularOf(a);
    SingularOf(b);
    SingularOf(c);
    // a plural ending in "ies" is never an "es" plural, so two of the three endings agree
    assert Ending(a) == Ending(b) || Ending(b) == Ending(c) || Ending(a) == Ending(c);
    if Ending(a) == Ending(b) {
      SamePluralSameEnding(a, b);
    } else if Ending(b) == Ending(c) {
      SamePluralSameEnding(b, c);
    } else {
      SamePluralSameEnding(a, c);
    }
  }

  /** ... and two singulars really can share one. */
  lemma PluralTwoToOne()
    ensures PluralOf("boxe") == PluralOf("box") && "boxe" != "box"
  {
    EsEndings("bo");
    assert "bo" + "x" == "box" && "boxe" == "box" + ['e'];
    PlainEnding("box", 'e');
  }

  /** A resource is never its own plural, so a grant matches a resource directly or as a plural, not both. */
  lemma DirectAndPluralExclude(h: Held, resource: string)
    ensures PluralOf(resource) != resource && PluralOf(resource) != "*"
    ensures !((h.resource == "*" || h.resource == resource) && h.resource == PluralOf(resource))
  {
    PluralDiffers(resource);
  }
}
