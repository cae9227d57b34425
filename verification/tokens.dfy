/** Session tokens: the `Claims` the service signs, `generateToken`, and the
    validation `jwt.ParseWithClaims` performs with the service key.

    A token is a JSON Web Token (RFC 7519) signed with HMAC-SHA256 ("HS256",
    section 3.2 of RFC 7518). The model keeps its meaning and abstracts its
    bytes: `mac` is the keyed MAC over the claims, `encode` the compact
    serialization, `decode` its parser (`None` for malformed text). A token is
    valid at time `now` (Unix seconds) when it decodes, its signature is the
    MAC of its claims under the key, and `now < exp`. Expiry, a bad signature
    and malformed text are all reported to callers the same way. */
module Tokens {
  import opened Wrappers

  /** The service's `Claims`: its own user id and email plus the registered
      `iat` and `exp` claims, in Unix seconds. */
  datatype Claims = Claims(userID: nat, email: string, issuedAt: int, expiresAt: int)

  datatype SignedToken = SignedToken(claims: Claims, signature: string)

  datatype Jwt = Jwt(
    mac: (string, Claims) -> string,
    encode: SignedToken -> string,
    decode: string -> Option<SignedToken>)

  /** The serialization is lossless. */
  ghost predicate Faithful(jwt: Jwt) {
    forall t :: jwt.decode(jwt.encode(t)) == Some(t)
  }

  /** A compact serialization is base64url text and dots: never a space. */
  ghost predicate SpaceFree(jwt: Jwt) {
    forall t :: ' ' !in jwt.encode(t)
  }

  /** `time.Minute*15` and `time.Hour*24*7`, in seconds. */
  const AccessTTL: int := 15 * 60
  const RefreshTTL: int := 7 * 24 * 60 * 60

  /** `generateToken`: claims for the user, issued now and expiring after
      `duration`, signed under `key` and serialized. */
  function GenerateToken(jwt: Jwt, key: string, userID: nat, email: string, now: int, duration: int): (token: string)
    ensures Faithful(jwt) ==> jwt.decode(token) == Some(SignedToken(Claims(userID, email, now, now + duration),
                                                                   jwt.mac(key, Claims(userID, email, now, now + duration))))
    ensures SpaceFree(jwt) ==> ' ' !in token
  {
    var c := Claims(userID, email, now, now + duration);
    jwt.encode(SignedToken(c, jwt.mac(key, c)))
  }

  datatype TokenError = Malformed | BadSignature | Expired

  /** `jwt.ParseWithClaims(token, &Claims{}, keyFunc)` where `keyFunc`
      returns `key`, together with the `token.Valid` test. */
  function ParseWithClaims(jwt: Jwt, key: string, token: string, now: int): (r: Result<Claims, TokenError>)
    ensures r.Success? <==> exists t :: jwt.decode(token) == Some(t) && Authentic(jwt, key, t) && now < t.claims.expiresAt
    ensures r.Success? ==> jwt.decode(token).Some? && r.value == jwt.decode(token).value.claims
  {
    match jwt.decode(token)
    case None => Failure(Malformed)
    case Some(t) =>
      if t.signature != jwt.mac(key, t.claims) then Failure(BadSignature)
      else if !(now < t.claims.expiresAt) then Failure(Expired)
      else Success(t.claims)
  }

  /** The signature is the MAC of the claims under `key`. */
  predicate Authentic(jwt: Jwt, key: string, t: SignedToken) {
    t.signature == jwt.mac(key, t.claims)
  }

  /** A freshly generated token validates, with exactly the claims it was
      generated with, at every instant before its expiry and at none after. */
  lemma GenerateThenParse(jwt: Jwt, key: string, userID: nat, email: string, issued: int, duration: int, now: int)
    requires Faithful(jwt)
    ensures var r := ParseWithClaims(jwt, key, GenerateToken(jwt, key, userID, email, issued, duration), now);
      && (r.Success? <==> now < issued + duration)
      && (r.Success? ==> r.value == Claims(userID, email, issued, issued + duration))
  {
    var c := Claims(userID, email, issued, issued + duration);
    assert jwt.decode(jwt.encode(SignedToken(c, jwt.mac(key, c)))) == Some(SignedToken(c, jwt.mac(key, c)));
  }

  /** A token signed under one key is refused under any key whose MAC of the
      same claims differs. */
  lemma OtherKeyRejects(jwt: Jwt, key: string, other: string, userID: nat, email: string, issued: int, duration: int, now: int)
    requires Faithful(jwt)
    requires jwt.mac(key, Claims(userID, email, issued, issued + duration)) != jwt.mac(other, Claims(userID, email, issued, issued + duration))
    ensures ParseWithClaims(jwt, other, GenerateToken(jwt, key, userID, email, issued, duration), now) == Failure(BadSignature)
  {
    var c := Claims(userID, email, issued, issued + duration);
    assert jwt.decode(jwt.encode(SignedToken(c, jwt.mac(key, c)))) == Some(SignedToken(c, jwt.mac(key, c)));
  }
}
