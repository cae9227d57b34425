/** The bearer-token gate in front of protected routes (`AuthMiddleware`).

    The header must be the scheme "Bearer", exactly one space, and the token
    (the bearer scheme of section 2.1 of RFC 6750). The check is stricter than
    the generic credentials syntax of section 2.1 of RFC 7235: the scheme is
    compared case-sensitively and a second space anywhere makes the header
    malformed, because the header is split on every space. */
module Middleware {
  import opened Wrappers
  import opened Text
  import opened Tokens

  const StatusUnauthorized := 401
  const MissingToken := "Unauthorized: Missing token"
  const InvalidTokenFormat := "Unauthorized: Invalid token format"
  const InvalidToken := "Unauthorized: Invalid token"

  /** What happens to the request: a 401 response, or one call of the next
      handler with `user_id` set in the request context. */
  datatype Outcome = Rejected(status: nat, message: string) | Forwarded(userID: nat)

  const Scheme := "Bearer"

  /** The header is "Bearer", one space, and a token without spaces. */
  predicate BearerHeader(header: string) {
    |header| >= 7 && header[..7] == "Bearer " && ' ' !in header[7..]
  }

  /** A header the format check accepts is a `BearerHeader`. */
  lemma AcceptedIsBearer(header: string, parts: seq<string>)
    requires parts == Split(header, ' ')
    requires |parts| == 2 && parts[0] == Scheme
    ensures BearerHeader(header) && parts[1] == header[7..]
  {
    SplitTwo(header, ' ', parts[0], parts[1]);
    assert header == Scheme + [' '] + parts[1];
    assert header[..7] == Scheme + " ";
    assert header[7..] == parts[1];
  }

  /** A `BearerHeader` splits into the scheme and the token. */
  lemma BearerIsAccepted(header: string)
    requires BearerHeader(header)
    ensures Split(header, ' ') == [Scheme, header[7..]]
  {
    assert header == Scheme + [' '] + header[7..];
    assert ' ' !in Scheme;
    SplitTwo(header, ' ', Scheme, header[7..]);
  }

  /** The format check of the source (split on " ", exactly two parts, the
      first exactly "Bearer") accepts exactly the `BearerHeader`s, and the
      second part is then the text after the single space, unmodified. */
  lemma FormatCheck(header: string)
    ensures (|Split(header, ' ')| == 2 && Split(header, ' ')[0] == Scheme) <==> BearerHeader(header)
    ensures BearerHeader(header) ==> Split(header, ' ') == [Scheme, header[7..]]
  {
    var parts := Split(header, ' ');
    if |parts| == 2 && parts[0] == Scheme {
      AcceptedIsBearer(header, parts);
    }
    if BearerHeader(header) {
      BearerIsAccepted(header);
    }
  }

  /** `AuthMiddleware(jwtKey)` applied to one request carrying `header` as
      its Authorization header ("" when absent), at time `now`. */
  function Authorize(jwt: Jwt, key: string, header: string, now: int): (o: Outcome)
    ensures header == "" ==> o == Rejected(StatusUnauthorized, MissingToken)
    ensures header != "" && !BearerHeader(header) ==> o == Rejected(StatusUnauthorized, InvalidTokenFormat)
    ensures BearerHeader(header) && ParseWithClaims(jwt, key, header[7..], now).Failure?
      ==> o == Rejected(StatusUnauthorized, InvalidToken)
    ensures o.Rejected? ==> o.status == StatusUnauthorized
    ensures o.Forwarded? <==> BearerHeader(header) && ParseWithClaims(jwt, key, header[7..], now).Success?
    ensures o.Forwarded? ==> o.userID == ParseWithClaims(jwt, key, header[7..], now).value.userID
  {
    FormatCheck(header);
    if header == "" then Rejected(StatusUnauthorized, MissingToken)
    else
      var parts := Split(header, ' ');
      if |parts| != 2 || parts[0] != Scheme then Rejected(StatusUnauthorized, InvalidTokenFormat)
      else
        match ParseWithClaims(jwt, key, parts[1], now)
        case Failure(_) => Rejected(StatusUnauthorized, InvalidToken)
        case Success(claims) => Forwarded(claims.userID)
  }

  /** The scheme is case-sensitive. */
  lemma LowercaseSchemeRejected(jwt: Jwt, key: string, token: string, now: int)
    ensures Authorize(jwt, key, "bearer " + token, now) == Rejected(StatusUnauthorized, InvalidTokenFormat)
  {
    var h := "bearer " + token;
    assert h[0] == 'b';
  }

  /** A second space, even right after the first, makes the header malformed. */
  lemma DoubleSpaceRejected(jwt: Jwt, key: string, token: string, now: int)
    ensures Authorize(jwt, key, "Bearer  " + token, now) == Rejected(StatusUnauthorized, InvalidTokenFormat)
  {
    var h := "Bearer  " + token;
    assert h[7..][0] == ' ';
  }

  /** A token just generated under the gate's key, presented as
      "Bearer <token>" before it expires, passes with its user id. */
  lemma GeneratedTokenPasses(jwt: Jwt, key: string, userID: nat, email: string, issued: int, duration: int, now: int)
    requires Faithful(jwt) && SpaceFree(jwt)
    requires now < issued + duration
    ensures Authorize(jwt, key, "Bearer " + GenerateToken(jwt, key, userID, email, issued, duration), now) == Forwarded(userID)
  {
    var token := GenerateToken(jwt, key, userID, email, issued, duration);
    var h := "Bearer " + token;
    assert h[..7] == "Bearer " && h[7..] == token;
    var c := Claims(userID, email, issued, issued + duration);
    assert ' ' !in jwt.encode(SignedToken(c, jwt.mac(key, c)));
    GenerateThenParse(jwt, key, userID, email, issued, duration, now);
  }
}
