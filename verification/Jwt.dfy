/**
 Signing keys, their rotation and token validation, as functions on the two locked values of the
 service. Signing and decoding belong to a foreign library: `Decoder` is any function.
 */
module Jwt {
  import opened Wrappers

  datatype Algorithm = HS256 | RS256

  datatype KeyMaterial =
    | Hmac(kid: string, secret: string, createdAt: int, retiredAt: Option<int>)
    | Rsa(kid: string, privateKeyPem: string, publicKeyPem: string, createdAt: int, retiredAt: Option<int>)

  function AlgorithmOf(k: KeyMaterial): Algorithm {
    if k.Hmac? then HS256 else RS256
  }

  function SetRetired(k: KeyMaterial, now: int): KeyMaterial {
    k.(retiredAt := Some(now))
  }

  /** The part of a key that decoding sees. */
  datatype DecodingKey = FromSecret(secret: string) | FromRsaPem(publicKeyPem: string)

  function DecodingKeyOf(k: KeyMaterial): DecodingKey {
    match k
    case Hmac(_, secret, _, _) => FromSecret(secret)
    case Rsa(_, _, publicKeyPem, _, _) => FromRsaPem(publicKeyPem)
  }

  /** The part of a key that signing uses. */
  datatype EncodingKey = SigningSecret(secret: string) | SigningPem(privateKeyPem: string)

  function EncodingKeyOf(k: KeyMaterial): EncodingKey {
    match k
    case Hmac(_, secret, _, _) => SigningSecret(secret)
    case Rsa(_, privateKeyPem, _, _, _) => SigningPem(privateKeyPem)
  }

  datatype Validation = Validation(algorithm: Algorithm, checkExpiry: bool)

  /** A token, with the `kid` its header carries, if any. */
  datatype Token = Token(kid: Option<string>, encoded: string)

  datatype Claims = Claims(sub: string, exp: int, iat: int, iss: string)

  /** Decoding a token under a key at a moment; `None` when the library refuses it. */
  type Decoder = (Token, DecodingKey, Validation, int) -> Option<Claims>

  type Signer = (EncodingKey, Claims) -> string

  /** `create_token`: signed with the key, which the header names. */
  function Created(k: KeyMaterial, claims: Claims, sign: Signer): Token {
    Token(Some(k.kid), sign(EncodingKeyOf(k), claims))
  }

  predicate KidMatches(token: Token, k: KeyMaterial) {
    token.kid.None? || token.kid.value == k.kid
  }

  /** The decision of one key on a token. */
  function TryKey(token: Token, k: KeyMaterial, validation: Validation, now: int, decode: Decoder): Option<Claims> {
    if KidMatches(token, k) then decode(token, DecodingKeyOf(k), validation, now) else None
  }

  /** The first key of the list that accepts the token. */
  function FirstAccepting(
    keys: seq<KeyMaterial>, token: Token, validation: Validation, now: int, decode: Decoder
  ): Option<Claims> {
    if keys == [] then None
    else
      var claims := TryKey(token, keys[0], validation, now, decode);
      if claims.Some? then claims else FirstAccepting(keys[1..], token, validation, now, decode)
  }

  predicate WithinGrace(k: KeyMaterial, grace: int, now: int) {
    k.retiredAt.None? || now - k.retiredAt.value < grace
  }

  /** `prune_expired_keys`: the keys still within grace, in order. */
  function Prune(keys: seq<KeyMaterial>, grace: int, now: int): seq<KeyMaterial> {
    if keys == [] then []
    else
      var rest := Prune(keys[1..], grace, now);
      if WithinGrace(keys[0], grace, now) then [keys[0]] + rest else rest
  }

  datatype State = State(active: KeyMaterial, retired: seq<KeyMaterial>)

  /** `rotate_key_material`, with its two clock readings. */
  function Rotated(s: State, newKey: KeyMaterial, grace: int, retireAt: int, pruneAt: int): State {
    State(newKey, Prune(s.retired + [SetRetired(s.active, retireAt)], grace, pruneAt))
  }

  function ValidationOf(s: State, custom: Option<Validation>): Validation {
    if custom.Some? then custom.value else Validation(AlgorithmOf(s.active), true)
  }

  /** The clock readings of one validation: at the active key, at the prune, and at the retired keys. */
  datatype Readings = Readings(activeAt: int, pruneAt: int, scanAt: int)

  /** What `validate_token_generic` answers. */
  function Answer(
    s: State, token: Token, custom: Option<Validation>, at: Readings, grace: int, decode: Decoder
  ): Option<Claims> {
    var validation := ValidationOf(s, custom);
    var byActive := TryKey(token, s.active, validation, at.activeAt, decode);
    if byActive.Some? then byActive
    else FirstAccepting(Prune(s.retired, grace, at.pruneAt), token, validation, at.scanAt, decode)
  }

  /** The state it leaves: pruned, unless the active key accepted. */
  function Validated(
    s: State, token: Token, custom: Option<Validation>, at: Readings, grace: int, decode: Decoder
  ): State {
    if TryKey(token, s.active, ValidationOf(s, custom), at.activeAt, decode).Some? then s
    else s.(retired := Prune(s.retired, grace, at.pruneAt))
  }

  // ----- What validation means, on the fields of the keys

  /**
   `k` accepts the token: the token's header names `k` or no key, and the library decodes the token under
   the secret or the public key `k` holds.
   */
  predicate AcceptedBy(token: Token, k: KeyMaterial, v: Validation, now: int, decode: Decoder) {
    && (token.kid.Some? ==> token.kid.value == k.kid)
    && match k
       case Hmac(_, secret, _, _) => decode(token, FromSecret(secret), v, now).Some?
       case Rsa(_, _, publicKeyPem, _, _) => decode(token, FromRsaPem(publicKeyPem), v, now).Some?
  }

  /** Some key of the list that is still within grace accepts the token. */
  ghost predicate AcceptedByRetired(
    keys: seq<KeyMaterial>, token: Token, v: Validation, at: Readings, grace: int, decode: Decoder
  ) {
    exists k | k in keys ::
      (k.retiredAt.Some? ==> at.pruneAt < k.retiredAt.value + grace) && AcceptedBy(token, k, v, at.scanAt, decode)
  }

  /** What a validation checks: what its caller asked for, or the active key's algorithm and the expiry. */
  ghost predicate Checks(v: Validation, active: KeyMaterial, custom: Option<Validation>) {
    if custom.Some? then v == custom.value
    else v.checkExpiry && v.algorithm == match active case Hmac(_, _, _, _) => HS256 case Rsa(_, _, _, _, _) => RS256
  }

  lemma {:induction false} FirstAcceptingMeaning(
    keys: seq<KeyMaterial>, token: Token, validation: Validation, now: int, decode: Decoder
  )
    ensures var r := FirstAccepting(keys, token, validation, now, decode);
            && (r.Some? ==> exists k :: k in keys && TryKey(token, k, validation, now, decode) == r)
            && (r.None? ==> forall k | k in keys :: TryKey(token, k, validation, now, decode).None?)
  {
    if keys == [] {
    } else {
      assert keys == [keys[0]] + keys[1..];
      FirstAcceptingMeaning(keys[1..], token, validation, now, decode);
    }
  }

  lemma {:induction false} PruneMembers(keys: seq<KeyMaterial>, grace: int, now: int, k: KeyMaterial)
    ensures k in Prune(keys, grace, now) <==> k in keys && WithinGrace(k, grace, now)
  {
    if keys == [] {
    } else {
      PruneMembers(keys[1..], grace, now, k);
      assert keys == [keys[0]] + keys[1..];
    }
  }

  /** A token is accepted exactly when the active key accepts it, or some retired key still within grace does. */
  lemma AnswerMeaning(
    s: State, token: Token, custom: Option<Validation>, v: Validation, at: Readings, grace: int, decode: Decoder
  )
    requires Checks(v, s.active, custom)
    ensures Answer(s, token, custom, at, grace, decode).Some? <==>
            || AcceptedBy(token, s.active, v, at.activeAt, decode)
            || AcceptedByRetired(s.retired, token, v, at, grace, decode)
    ensures AcceptedBy(token, s.active, v, at.activeAt, decode) ==> Validated(s, token, custom, at, grace, decode) == s
    ensures !AcceptedBy(token, s.active, v, at.activeAt, decode) ==>
              forall k :: k in Validated(s, token, custom, at, grace, decode).retired <==>
                k in s.retired && (k.retiredAt.Some? ==> at.pruneAt < k.retiredAt.value + grace)
  {
    assert ValidationOf(s, custom) == v;
    forall k {
      PruneMembers(s.retired, grace, at.pruneAt, k);
    }
    FirstAcceptingMeaning(Prune(s.retired, grace, at.pruneAt), token, v, at.scanAt, decode);
  }

  /** The signing key service. Each method takes the clock readings its body makes. */
  class JwtService {
    var activeKey: KeyMaterial
    var retiredKeys: seq<KeyMaterial>
    const gracePeriod: int
    const decode: Decoder
    const sign: Signer

    ghost function Contents(): State
      reads this
    {
      State(activeKey, retiredKeys)
    }

    constructor (key: KeyMaterial, gracePeriod: int, decode: Decoder, sign: Signer)
      ensures Contents() == State(key, [])
      ensures this.gracePeriod == gracePeriod && this.decode == decode && this.sign == sign
    {
      activeKey, retiredKeys := key, [];
      this.gracePeriod, this.decode, this.sign := gracePeriod, decode, sign;
    }

    method CreateToken(claims: Claims) returns (token: Token)
      ensures token == Created(activeKey, claims, sign)
    {
      token := Token(Some(activeKey.kid), sign(EncodingKeyOf(activeKey), claims));
    }

    method PruneExpiredKeys(now: int)
      modifies this
      ensures activeKey == old(activeKey)
      ensures retiredKeys == Prune(old(retiredKeys), gracePeriod, now)
    {
      var keys, kept: seq<KeyMaterial> := retiredKeys, [];
      for i := 0 to |keys|
        invariant kept == Prune(keys[..i], gracePeriod, now)
        invariant activeKey == old(activeKey)
      {
        assert keys[..i + 1] == keys[..i] + [keys[i]];
        PruneAppend(keys[..i], keys[i], gracePeriod, now);
        if WithinGrace(keys[i], gracePeriod, now) {
          kept := kept + [keys[i]];
        }
      }
      assert keys[..|keys|] == keys;
      retiredKeys := kept;
    }

    method RotateKeyMaterial(newKey: KeyMaterial, retireAt: int, pruneAt: int) returns (newKid: string)
      modifies this
      ensures newKid == newKey.kid == activeKey.kid
      ensures Contents() == Rotated(old(Contents()), newKey, gracePeriod, retireAt, pruneAt)
    {
      newKid := newKey.kid;
      var oldKey := activeKey;
      activeKey := newKey;
      oldKey := SetRetired(oldKey, retireAt);
      retiredKeys := retiredKeys + [oldKey];
      PruneExpiredKeys(pruneAt);
    }

    method ValidateTokenGeneric(token: Token, custom: Option<Validation>, at: Readings)
      returns (claims: Option<Claims>)
      modifies this
      ensures claims == Answer(old(Contents()), token, custom, at, gracePeriod, decode)
      ensures Contents() == Validated(old(Contents()), token, custom, at, gracePeriod, decode)
      ensures forall v | Checks(v, old(activeKey), custom) ::
                claims.Some? <==>
                || AcceptedBy(token, old(activeKey), v, at.activeAt, decode)
                || AcceptedByRetired(old(retiredKeys), token, v, at, gracePeriod, decode)
    {
      forall v | Checks(v, activeKey, custom) {
        AnswerMeaning(Contents(), token, custom, v, at, gracePeriod, decode);
      }
      var validation := if custom.Some? then custom.value else Validation(AlgorithmOf(activeKey), true);
      if KidMatches(token, activeKey) {
        claims := decode(token, DecodingKeyOf(activeKey), validation, at.activeAt);
        if claims.Some? {
          return;
        }
      }
      PruneExpiredKeys(at.pruneAt);
      for i := 0 to |retiredKeys|
        invariant FirstAccepting(retiredKeys, token, validation, at.scanAt, decode) ==
                  FirstAccepting(retiredKeys[i..], token, validation, at.scanAt, decode)
      {
        if KidMatches(token, retiredKeys[i]) {
          claims := decode(token, DecodingKeyOf(retiredKeys[i]), validation, at.scanAt);
          if claims.Some? {
            return;
          }
        }
      }
      claims := None;
    }

    /** Decoding without the expiry check, under the algorithm of the active key. */
    method DecodeToken(token: Token, at: Readings) returns (claims: Option<Claims>)
      modifies this
      ensures var custom := Some(Validation(if old(activeKey).Hmac? then HS256 else RS256, false));
              && claims == Answer(old(Contents()), token, custom, at, gracePeriod, decode)
              && Contents() == Validated(old(Contents()), token, custom, at, gracePeriod, decode)
    {
      claims := ValidateTokenGeneric(token, Some(Validation(AlgorithmOf(activeKey), false)), at);
    }
  }

  lemma {:induction false} PruneAppend(keys: seq<KeyMaterial>, k: KeyMaterial, grace: int, now: int)
    ensures Prune(keys + [k], grace, now) ==
            Prune(keys, grace, now) + if WithinGrace(k, grace, now) then [k] else []
  {
    if keys == [] {
      assert keys + [k] == [k];
    } else {
      assert (keys + [k])[1..] == keys[1..] + [k];
      PruneAppend(keys[1..], k, grace, now);
    }
  }
}
