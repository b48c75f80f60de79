/**
 The permission language: how a held permission string is read, printed in its canonical form and
 matched against the permission a route requires.
 */
module Grants {
  import opened Wrappers
  import opened Text

  const GOD_PERMISSION := "*:*"

  /** How a held permission was spelled, when that is not the canonical `<resource>:<action>`. */
  datatype LegacySpelling = Dotted | ActionFirst | Transition | Plural | ModuleGrain | WriteAction

  /** A held permission read into its parts. */
  datatype Held = Held(resource: string, action: string, verbsOnly: bool, legacy: Option<LegacySpelling>)

  /** The actions every entity's generic routes use. */
  predicate IsGeneric(action: string) {
    || action == "read" || action == "create" || action == "update"
    || action == "delete" || action == "restore" || action == "purge"
  }

  predicate IsNameChar(c: char) {
    'a' <= c <= 'z' || '0' <= c <= '9' || c == '_'
  }

  predicate IsName(s: string) {
    s != "" && forall i | 0 <= i < |s| :: IsNameChar(s[i])
  }

  predicate IsHalf(s: string) {
    s == "*" || IsName(s)
  }

  /** The words that make a two-part permission an action-first one. */
  predicate IsLeadingAction(s: string) {
    s == "read" || s == "write" || s == "delete"
  }

  function ReadHeld(raw: string): Option<Held> {
    var t := Trim(raw);
    if t == "*" then
      Some(Held("*", "*", false, None))
    else if ':' !in t then
      ReadDotted(t)
    else
      ReadParts(Split(t, ':'))
  }

  function ReadDotted(t: string): Option<Held> {
    match SplitOnce(t, '.')
    case None => None
    case Some((resource, action)) =>
      if IsHalf(resource) && IsHalf(action) then
        Some(Held(resource, action, false, Some(Dotted)))
      else
        None
  }

  function ReadParts(parts: seq<string>): Option<Held> {
    if |parts| == 3 && parts[1] == "transition" && IsHalf(parts[0]) && IsHalf(parts[2]) then
      Some(Held(parts[0], parts[2], true, Some(Transition)))
    else if |parts| == 2 then
      ReadPair(parts[0], parts[1])
    else
      None
  }

  /** The two-part spellings, in the order they are tried. */
  function ReadPair(first: string, second: string): Option<Held> {
    if first == "admin" && second == "*" then
      Some(Held("*", "*", false, Some(ActionFirst)))
    else if first == "admin" && IsName(second) && !IsGeneric(second) && second != "write" then
      Some(Held(second, "*", false, Some(ActionFirst)))
    else if IsLeadingAction(first) && IsName(second) then
      Some(Held(second, first, false, Some(ActionFirst)))
    else if IsHalf(first) && IsHalf(second) then
      Some(Held(first, second, false, None))
    else
      None
  }

  function Pair(resource: string, action: string): string {
    resource + ":" + action
  }

  /** A transition grant on every verb has no single canonical form. */
  function Canonical(h: Held): string {
    if h.verbsOnly && h.action == "*" then
      Pair(h.resource, "<each verb>")
    else
      Pair(h.resource, h.action)
  }

  function Normalise(raw: string): Option<string> {
    match ReadHeld(raw)
    case None => None
    case Some(h) => Some(Canonical(h))
  }

  predicate IsVowel(c: char) {
    c == 'a' || c == 'e' || c == 'i' || c == 'o' || c == 'u'
  }

  /** The plural the schema generator gives an entity name. */
  function PluralOf(singular: string): string {
    var n := |singular|;
    if n >= 2 && singular[n - 1] == 'y' && !IsVowel(singular[n - 2]) then
      singular[..n - 1] + "ies"
    else if TakesEs(singular) then
      singular + "es"
    else
      singular + "s"
  }

  predicate TakesEs(s: string) {
    SuffixOf("s", s) || SuffixOf("x", s) || SuffixOf("ch", s) || SuffixOf("sh", s)
  }

  /** The composite `write` covers every action but these and itself. */
  predicate WriteAlias(held: Held, action: string) {
    held.action == "write" && action != "write" && action != "read" && action != "delete" && action != "purge"
  }

  predicate ActionMatches(held: Held, action: string) {
    && !(held.verbsOnly && IsGeneric(action))
    && (held.action == "*" || held.action == action || WriteAlias(held, action))
  }

  /**
   Whether `held` covers `required`: `Some(None)` for a canonical match, `Some(Some(spelling))` for
   a legacy one, `None` for no match.
   */
  function MatchHeld(held: Held, required: string): Option<Option<LegacySpelling>> {
    match SplitOnce(required, ':')
    case None => None
    case Some((resource, action)) =>
      if !ActionMatches(held, action) then
        None
      else
        var legacy := if WriteAlias(held, action) then Or(held.legacy, WriteAction) else held.legacy;
        if held.resource == "*" || held.resource == resource then
          Some(legacy)
        else if held.resource == PluralOf(resource) then
          Some(Or(legacy, Plural))
        else
          None
  }

  function Or(legacy: Option<LegacySpelling>, otherwise: LegacySpelling): Option<LegacySpelling> {
    if legacy.Some? then legacy else Some(otherwise)
  }

  /** Whether the one held string covers `required`. */
  predicate PermissionMatches(held: string, required: string) {
    ReadHeld(held).Some? && MatchHeld(ReadHeld(held).value, required).Some?
  }
}
