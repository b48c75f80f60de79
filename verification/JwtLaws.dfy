/** The rotation history against the pruned list, over every sequential run. */
module JwtLaws {
  import opened Wrappers
  import opened Jwt

  datatype Event =
    | Rotate(newKey: KeyMaterial, retireAt: int, pruneAt: int)
    | Validate(token: Token, custom: Option<Validation>, at: Readings)

  function Step(s: State, e: Event, grace: int, decode: Decoder): State {
    match e
    case Rotate(newKey, retireAt, pruneAt) => Rotated(s, newKey, grace, retireAt, pruneAt)
    case Validate(token, custom, at) => Validated(s, token, custom, at, grace, decode)
  }

  /** The state after a run of a service created with `first`. */
  function After(first: KeyMaterial, events: seq<Event>, grace: int, decode: Decoder): State {
    if events == [] then State(first, [])
    else Step(After(first, events[..|events| - 1], grace, decode), events[|events| - 1], grace, decode)
  }

  // ----- The declarative side: what happened, with nothing forgotten

  /** Every key ever installed, in order. */
  function Installed(first: KeyMaterial, events: seq<Event>): seq<KeyMaterial> {
    if events == [] then [first]
    else
      var rest, last := Installed(first, events[..|events| - 1]), events[|events| - 1];
      if last.Rotate? then rest + [last.newKey] else rest
  }

  /** When each key but the last was rotated out, in order. */
  function RetirementTimes(events: seq<Event>): seq<int> {
    if events == [] then []
    else
      var rest, last := RetirementTimes(events[..|events| - 1]), events[|events| - 1];
      if last.Rotate? then rest + [last.retireAt] else rest
  }

  lemma {:induction false} HistoryLengths(first: KeyMaterial, events: seq<Event>)
    ensures |Installed(first, events)| == |RetirementTimes(events)| + 1
  {
    if events == [] {
    } else {
      HistoryLengths(first, events[..|events| - 1]);
    }
  }

  function LastInstalled(first: KeyMaterial, events: seq<Event>): KeyMaterial {
    HistoryLengths(first, events);
    Installed(first, events)[|RetirementTimes(events)|]
  }

  /** The keys rotated out, each stamped with its time, in order; never pruned. */
  function History(first: KeyMaterial, events: seq<Event>): seq<KeyMaterial> {
    HistoryLengths(first, events);
    seq(|RetirementTimes(events)|,
        i requires 0 <= i < |RetirementTimes(events)| =>
          Installed(first, events)[i].(retiredAt := Some(RetirementTimes(events)[i])))
  }

  // ----- The clock

  function Start(e: Event): int {
    if e.Rotate? then e.retireAt else e.at.activeAt
  }

  /** The last reading an event makes that prunes. */
  function End(e: Event): int {
    if e.Rotate? then e.pruneAt else e.at.scanAt
  }

  predicate Ticking(e: Event) {
    if e.Rotate? then e.retireAt <= e.pruneAt else e.at.activeAt <= e.at.pruneAt <= e.at.scanAt
  }

  /** Every clock reading of the run is at most `now`, and readings never go back. */
  ghost predicate Ordered(events: seq<Event>, now: int)
    decreases |events|
  {
    events != [] ==>
      && Ticking(events[|events| - 1]) && End(events[|events| - 1]) <= now
      && Ordered(events[..|events| - 1], Start(events[|events| - 1]))
  }

  // ----- Pruning

  lemma {:induction false} PruneTwice(keys: seq<KeyMaterial>, grace: int, early: int, late: int)
    requires early <= late
    ensures Prune(Prune(keys, grace, early), grace, late) == Prune(keys, grace, late)
  {
    if keys == [] {
    } else {
      PruneTwice(keys[1..], grace, early, late);
    }
  }

  lemma LastStep(first: KeyMaterial, events: seq<Event>)
    requires events != []
    ensures var rest, last := events[..|events| - 1], events[|events| - 1];
            && History(first, events) ==
               History(first, rest) +
               (if last.Rotate? then [SetRetired(LastInstalled(first, rest), last.retireAt)] else [])
            && LastInstalled(first, events) == if last.Rotate? then last.newKey else LastInstalled(first, rest)
  {
    HistoryLengths(first, events);
    HistoryLengths(first, events[..|events| - 1]);
  }

  /**
   Forgetting is invisible: at any later moment the pruned list holds exactly the keys of the full
   history that are still within grace, in rotation order.
   */
  lemma {:induction false} PrunedListIsHistory(
    first: KeyMaterial, events: seq<Event>, grace: int, decode: Decoder, now: int
  )
    requires Ordered(events, now)
    ensures var s := After(first, events, grace, decode);
            && s.active == LastInstalled(first, events)
            && Prune(s.retired, grace, now) == Prune(History(first, events), grace, now)
    decreases |events|
  {
    if events == [] {
    } else {
      var rest, last := events[..|events| - 1], events[|events| - 1];
      var s := After(first, rest, grace, decode);
      LastStep(first, events);
      var history := History(first, rest);
      OrderedLater(rest, Start(last), now);
      PrunedListIsHistory(first, rest, grace, decode, now);
      if last.Rotate? {
        var out := SetRetired(s.active, last.retireAt);
        PruneTwice(s.retired + [out], grace, last.pruneAt, now);
        PruneAppend(s.retired, out, grace, now);
        PruneAppend(history, out, grace, now);
      } else {
        PruneTwice(s.retired, grace, last.at.pruneAt, now);
        assert History(first, events) == history;
      }
    }
  }

  lemma OrderedLater(events: seq<Event>, now: int, later: int)
    requires Ordered(events, now) && now <= later
    ensures Ordered(events, later)
  {
  }

  /** Every answer of every run is the answer computed from the full history. */
  lemma AnswerFromHistory(
    first: KeyMaterial, events: seq<Event>, grace: int, decode: Decoder,
    token: Token, custom: Option<Validation>, at: Readings
  )
    requires Ordered(events, at.activeAt) && at.activeAt <= at.pruneAt
    ensures Answer(After(first, events, grace, decode), token, custom, at, grace, decode) ==
            Answer(State(LastInstalled(first, events), History(first, events)), token, custom, at, grace, decode)
  {
    OrderedLater(events, at.activeAt, at.pruneAt);
    PrunedListIsHistory(first, events, grace, decode, at.pruneAt);
  }

  // ----- Which tokens are accepted

  /** The kids of the keys a run installs are distinct. */
  ghost predicate DistinctKids(first: KeyMaterial, events: seq<Event>) {
    var keys := Installed(first, events);
    forall i, j | 0 <= i < j < |keys| :: keys[i].kid != keys[j].kid
  }

  /** The library decodes the token under `key` exactly for the algorithm and, when asked, not after `until`. */
  ghost predicate DecodesExactly(
    decode: Decoder, token: Token, key: DecodingKey, algorithm: Algorithm, claims: Claims, until: int
  ) {
    forall v: Validation, t :: decode(token, key, v, t) ==
                      if v.algorithm == algorithm && (v.checkExpiry ==> t <= until) then Some(claims) else None
  }

  /**
   `token` was minted under `k` with claims good until `until` (their expiry and the library's
   leeway): its header names `k`, and the library decodes it under the secret of an HMAC key, for HS256,
   or under the public key of an RSA pair, for RS256.
   */
  ghost predicate MintedUnder(decode: Decoder, token: Token, k: KeyMaterial, claims: Claims, until: int) {
    && token.kid == Some(k.kid)
    && match k
       case Hmac(_, secret, _, _) => DecodesExactly(decode, token, FromSecret(secret), HS256, claims, until)
       case Rsa(_, _, publicKeyPem, _, _) => DecodesExactly(decode, token, FromRsaPem(publicKeyPem), RS256, claims, until)
  }

  /** What the library signs with the secret or the private key of `k` it decodes, as above, whatever the claims. */
  ghost predicate SignsAndDecodes(sign: Signer, decode: Decoder, k: KeyMaterial, leeway: int) {
    forall claims :: MintedUnder(decode, SignedBy(k, claims, sign), k, claims, claims.exp + leeway)
  }

  function SignedBy(k: KeyMaterial, claims: Claims, sign: Signer): Token {
    match k
    case Hmac(kid, secret, _, _) => Token(Some(kid), sign(SigningSecret(secret), claims))
    case Rsa(kid, privateKeyPem, _, _, _) => Token(Some(kid), sign(SigningPem(privateKeyPem), claims))
  }

  /** A list in which only `k` can match the token answers as `k` does when it is there, and refuses otherwise. */
  lemma OnlyOneKeyMatches(
    keys: seq<KeyMaterial>, k: KeyMaterial, token: Token, validation: Validation, now: int, decode: Decoder
  )
    requires forall x | x in keys :: KidMatches(token, x) ==> x == k
    requires KidMatches(token, k)
    ensures FirstAccepting(keys, token, validation, now, decode) ==
            if k in keys then decode(token, DecodingKeyOf(k), validation, now) else None
  {
    FirstAcceptingMeaning(keys, token, validation, now, decode);
    if k in keys {
      assert TryKey(token, k, validation, now, decode) == decode(token, DecodingKeyOf(k), validation, now);
    }
  }

  /**
   Whether validation must accept a token minted under the `i`-th installed key. Without a custom
   validation the algorithm is the active key's and the expiry is checked.
   */
  predicate MustAccept(
    keys: seq<KeyMaterial>, times: seq<int>, i: nat, custom: Option<Validation>, until: int, at: Readings, grace: int
  )
    requires |keys| == |times| + 1 && i < |keys|
  {
    var checkExpiry := custom.None? || custom.value.checkExpiry;
    && keys[i].Rsa? == (if custom.Some? then custom.value.algorithm.RS256? else keys[|times|].Rsa?)
    && if i == |times| then checkExpiry ==> at.activeAt <= until
       else at.pruneAt - times[i] < grace && (checkExpiry ==> at.scanAt <= until)
  }

  lemma OnlyHistoryEntryMatches(first: KeyMaterial, events: seq<Event>, i: nat, token: Token)
    requires DistinctKids(first, events) && i < |Installed(first, events)|
    requires token.kid == Some(Installed(first, events)[i].kid)
    ensures i < |RetirementTimes(events)| ==>
              var k := History(first, events)[i];
              && !KidMatches(token, LastInstalled(first, events))
              && forall x | x in History(first, events) :: KidMatches(token, x) ==> x == k
    ensures i == |RetirementTimes(events)| ==>
              forall x | x in History(first, events) :: !KidMatches(token, x)
  {
    HistoryLengths(first, events);
    var history := History(first, events);
    forall x | x in history
      ensures KidMatches(token, x) ==> i < |history| && x == history[i]
    {
      var j :| 0 <= j < |history| && history[j] == x;
      assert x.kid == Installed(first, events)[j].kid;
    }
  }

  lemma MintedDecodes(
    k: KeyMaterial, decode: Decoder, token: Token, claims: Claims, until: int, v: Validation, now: int
  )
    requires MintedUnder(decode, token, k, claims, until)
    ensures decode(token, DecodingKeyOf(k), v, now) ==
            if (k.Rsa? <==> v.algorithm.RS256?) && (v.checkExpiry ==> now <= until) then Some(claims) else None
  {
  }

  /**
   Over every run, with the clock never going back and fresh kids, a token minted under the `i`-th
   installed key is accepted, with its own claims, exactly when that key is of the algorithm asked for
   (the active key's, unless the caller says otherwise), the claims hold if they are checked, and it is
   active, or was rotated out at `r` with `now - r < grace`.
   */
  lemma AcceptsExactly(
    first: KeyMaterial, events: seq<Event>, grace: int, decode: Decoder,
    i: nat, token: Token, claims: Claims, until: int, custom: Option<Validation>, at: Readings
  )
    requires Ordered(events, at.activeAt) && at.activeAt <= at.pruneAt <= at.scanAt
    requires DistinctKids(first, events) && i < |Installed(first, events)|
    requires MintedUnder(decode, token, Installed(first, events)[i], claims, until)
    ensures |Installed(first, events)| == |RetirementTimes(events)| + 1
    ensures Answer(After(first, events, grace, decode), token, custom, at, grace, decode) ==
            if MustAccept(Installed(first, events), RetirementTimes(events), i, custom, until, at, grace)
            then Some(claims) else None
  {
    HistoryLengths(first, events);
    var s := After(first, events, grace, decode);
    PrunedListIsHistory(first, events, grace, decode, at.activeAt);
    var v := ValidationOf(s, custom);
    AnswerFromHistory(first, events, grace, decode, token, custom, at);
    OnlyHistoryEntryMatches(first, events, i, token);
    var history := History(first, events);
    var live := Prune(history, grace, at.pruneAt);
    forall x {
      PruneMembers(history, grace, at.pruneAt, x);
    }
    MintedDecodes(Installed(first, events)[i], decode, token, claims, until, v, at.activeAt);
    MintedDecodes(Installed(first, events)[i], decode, token, claims, until, v, at.scanAt);
    if i < |history| {
      OnlyOneKeyMatches(live, history[i], token, v, at.scanAt, decode);
      assert DecodingKeyOf(history[i]) == DecodingKeyOf(Installed(first, events)[i]);
    } else {
      assert KidMatches(token, s.active);
      FirstAcceptingMeaning(live, token, v, at.scanAt, decode);
    }
  }

  lemma {:induction false} InstalledPrefix(first: KeyMaterial, before: seq<Event>, later: seq<Event>)
    ensures Installed(first, before) <= Installed(first, before + later)
  {
    if later == [] {
      assert before + later == before;
    } else {
      InstalledPrefix(first, before, later[..|later| - 1]);
      assert (before + later)[..|before + later| - 1] == before + later[..|later| - 1];
    }
  }

  /**
   The life of a token: created after the run `before`, it is accepted with its own claims at any
   later point exactly as long as the key that was active then must be.
   */
  lemma CreatedTokenLife(
    first: KeyMaterial, before: seq<Event>, later: seq<Event>, grace: int, decode: Decoder, sign: Signer,
    leeway: int, claims: Claims, custom: Option<Validation>, at: Readings
  )
    requires Ordered(before + later, at.activeAt) && at.activeAt <= at.pruneAt <= at.scanAt
    requires DistinctKids(first, before + later)
    requires SignsAndDecodes(sign, decode, After(first, before, grace, decode).active, leeway)
    ensures var i, events := |RetirementTimes(before)|, before + later;
            var token := Created(After(first, before, grace, decode).active, claims, sign);
            var s := After(first, events, grace, decode);
            && |Installed(first, events)| == |RetirementTimes(events)| + 1 && i < |Installed(first, events)|
            && Answer(s, token, custom, at, grace, decode) ==
               if MustAccept(Installed(first, events), RetirementTimes(events), i, custom, claims.exp + leeway, at, grace)
               then Some(claims) else None
  {
    var i := |RetirementTimes(before)|;
    HistoryLengths(first, before);
    HistoryLengths(first, before + later);
    InstalledPrefix(first, before, later);
    ActiveIsLastInstalled(first, before, grace, decode);
    var k := After(first, before, grace, decode).active;
    assert Installed(first, before + later)[i] == k;
    assert Created(k, claims, sign) == SignedBy(k, claims, sign);
    assert MintedUnder(decode, SignedBy(k, claims, sign), k, claims, claims.exp + leeway);
    AcceptsExactly(first, before + later, grace, decode, i, Created(k, claims, sign), claims, claims.exp + leeway,
                   custom, at);
  }

  lemma {:induction false} ActiveIsLastInstalled(first: KeyMaterial, events: seq<Event>, grace: int, decode: Decoder)
    ensures After(first, events, grace, decode).active == LastInstalled(first, events)
  {
    if events == [] {
    } else {
      ActiveIsLastInstalled(first, events[..|events| - 1], grace, decode);
      LastStep(first, events);
    }
  }

  /**
   The grace period does not survive a change of algorithm: one rotation from HS256 to RS256 refuses
   a token whose key has just been retired, however long the grace.
   */
  lemma GraceLostAcrossAlgorithms(
    first: KeyMaterial, newKey: KeyMaterial, grace: int, decode: Decoder, token: Token, claims: Claims, until: int, now: int
  )
    requires first.Hmac? && newKey.Rsa? && first.kid != newKey.kid
    requires MintedUnder(decode, token, first, claims, until)
    requires 0 < grace && now <= until
    ensures var s := After(first, [Rotate(newKey, now, now)], grace, decode);
            && SetRetired(first, now) in s.retired && WithinGrace(SetRetired(first, now), grace, now)
            && Answer(s, token, None, Readings(now, now, now), grace, decode).None?
  {
    var events := [Rotate(newKey, now, now)];
    var at := Readings(now, now, now);
    assert events[..0] == [];
    assert After(first, events[..0], grace, decode) == State(first, []);
    assert Installed(first, events[..0]) == [first];
    assert Installed(first, events) == [first, newKey];
    AcceptsExactly(first, events, grace, decode, 0, token, claims, until, None, at);
    PruneAppend([], SetRetired(first, now), grace, now);
  }
}
