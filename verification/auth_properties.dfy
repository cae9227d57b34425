/** Properties of the authentication service that relate several calls:
    the lifetimes of the issued tokens, what a refresh accepts, and the
    invariants a profile update keeps on the user table. */
module AuthProperties {
  import opened Wrappers
  import opened Dates
  import opened Users
  import opened Tokens
  import opened AuthService

  /** A login cannot tell an unknown email from a wrong password. */
  lemma AuthenticateFailsUniformly(svc: Service, users: Table, email: string, password: string, now: int)
    requires FindByEmail(users, email).None?
      || !CheckPassword(svc.hasher, FindByEmail(users, email).value, password)
    ensures Authenticate(svc, users, email, password, now) == Failure(InvalidCredentials)
  {
  }

  /** Under a sound hash function and unique emails, a login succeeds for
      a user whose stored digest was produced for the given password. */
  lemma AuthenticateWithHashedPassword(svc: Service, users: Table, k: nat, password: string, salt: nat, now: int)
    requires Sound(svc.hasher) && UniqueEmails(users)
    requires k in users && svc.hasher.generate(password, salt) == Success(users[k].password)
    ensures Authenticate(svc, users, users[k].email, password, now).Success?
  {
    FindByEmailUnique(users, users[k].email, k);
  }

  /** The tokens of a successful login at `issued` carry the user's id and
      the email as given; the access token validates exactly until 15 minutes
      after issue and the refresh token exactly until 7 days after. */
  lemma LoginTokenLifetimes(svc: Service, users: Table, email: string, password: string, issued: int, now: int)
    requires Faithful(svc.jwt)
    requires Authenticate(svc, users, email, password, issued).Success?
    ensures var pair := Authenticate(svc, users, email, password, issued).value;
      var id := FindByEmail(users, email).value.id;
      && (ParseWithClaims(svc.jwt, svc.jwtKey, pair.access, now).Success? <==> now < issued + 15 * 60)
      && (ParseWithClaims(svc.jwt, svc.jwtKey, pair.refresh, now).Success? <==> now < issued + 7 * 24 * 60 * 60)
      && (ParseWithClaims(svc.jwt, svc.jwtKey, pair.access, now).Success? ==>
            ParseWithClaims(svc.jwt, svc.jwtKey, pair.access, now).value == Claims(id, email, issued, issued + AccessTTL))
      && (ParseWithClaims(svc.jwt, svc.jwtKey, pair.refresh, now).Success? ==>
            ParseWithClaims(svc.jwt, svc.jwtKey, pair.refresh, now).value == Claims(id, email, issued, issued + RefreshTTL))
  {
    var id := FindByEmail(users, email).value.id;
    GenerateThenParse(svc.jwt, svc.jwtKey, id, email, issued, AccessTTL, now);
    GenerateThenParse(svc.jwt, svc.jwtKey, id, email, issued, RefreshTTL, now);
  }

  /** A refresh carries the presented identity over: the new tokens validate
      with the user id and email of the presented token's claims. */
  lemma RefreshKeepsIdentity(svc: Service, token: string, now: int, later: int)
    requires Faithful(svc.jwt)
    requires RefreshToken(svc, token, now).Success?
    requires later < now + AccessTTL
    ensures var c := ParseWithClaims(svc.jwt, svc.jwtKey, token, now).value;
      var pair := RefreshToken(svc, token, now).value;
      && ParseWithClaims(svc.jwt, svc.jwtKey, pair.access, later) == Success(Claims(c.userID, c.email, now, now + AccessTTL))
      && ParseWithClaims(svc.jwt, svc.jwtKey, pair.refresh, later) == Success(Claims(c.userID, c.email, now, now + RefreshTTL))
  {
    var c := ParseWithClaims(svc.jwt, svc.jwtKey, token, now).value;
    GenerateThenParse(svc.jwt, svc.jwtKey, c.userID, c.email, now, AccessTTL, later);
    GenerateThenParse(svc.jwt, svc.jwtKey, c.userID, c.email, now, RefreshTTL, later);
  }

  /** Nothing marks a token as a refresh token: an unexpired access token
      from a login is accepted by the refresh endpoint. */
  lemma RefreshAcceptsAccessToken(svc: Service, users: Table, email: string, password: string, issued: int, now: int)
    requires Faithful(svc.jwt)
    requires Authenticate(svc, users, email, password, issued).Success?
    requires now < issued + AccessTTL
    ensures RefreshToken(svc, Authenticate(svc, users, email, password, issued).value.access, now)
      == Success(IssuePair(svc, FindByEmail(users, email).value.id, email, now))
  {
    LoginTokenLifetimes(svc, users, email, password, issued, now);
  }

  /** Between 15 minutes and 7 days after a login the access token is
      refused while the refresh token still yields a new pair. */
  lemma AccessExpiresFirst(svc: Service, users: Table, email: string, password: string, issued: int, now: int)
    requires Faithful(svc.jwt)
    requires Authenticate(svc, users, email, password, issued).Success?
    requires issued + AccessTTL <= now < issued + RefreshTTL
    ensures var pair := Authenticate(svc, users, email, password, issued).value;
      && ParseWithClaims(svc.jwt, svc.jwtKey, pair.access, now) == Failure(Expired)
      && RefreshToken(svc, pair.access, now) == Failure(InvalidRefreshToken)
      && RefreshToken(svc, pair.refresh, now).Success?
  {
    var id := FindByEmail(users, email).value.id;
    var c := Claims(id, email, issued, issued + AccessTTL);
    assert svc.jwt.decode(svc.jwt.encode(SignedToken(c, svc.jwt.mac(svc.jwtKey, c)))) == Some(SignedToken(c, svc.jwt.mac(svc.jwtKey, c)));
    LoginTokenLifetimes(svc, users, email, password, issued, now);
  }

  // ------------------------------------------------------------ UpdateUser

  /** Re-submitting one's own email is not a conflict when emails are unique. */
  lemma OwnEmailAccepted(users: Table, userID: nat, req: UpdateUserRequest)
    requires WellKeyed(users) && UniqueEmails(users)
    requires userID in users && req.email == Some(users[userID].email)
    ensures !EmailConflict(users, userID, req)
  {
    FindByEmailUnique(users, users[userID].email, userID);
  }

  /** Taking another user's email is refused, and nothing is written. */
  lemma OtherEmailRejected(svc: Service, users: Table, userID: nat, other: nat, req: UpdateUserRequest, salt: nat)
    requires WellKeyed(users) && UniqueEmails(users)
    requires userID in users && other in users && other != userID
    requires req.email == Some(users[other].email)
    ensures UpdateUser(svc, users, userID, req, salt) == Effect(users, Some(EmailInUse))
  {
    FindByEmailUnique(users, users[other].email, other);
  }

  /** An email the conflict check lets through belongs to no other user. */
  lemma NoOtherHolder(users: Table, userID: nat, req: UpdateUserRequest)
    requires WellKeyed(users) && UniqueEmails(users) && req.email.Some?
    requires !EmailConflict(users, userID, req)
    ensures forall k :: k in users && k != userID ==> users[k].email != req.email.value
  {
    var e := req.email.value;
    forall k | k in users && k != userID
      ensures users[k].email != e
    {
      if users[k].email == e {
        FindByEmailUnique(users, e, k);
      }
    }
  }

  /** A successful update keeps every row under its own id and keeps emails
      unique. */
  lemma UpdateKeepsInvariants(svc: Service, users: Table, userID: nat, req: UpdateUserRequest, salt: nat)
    requires WellKeyed(users) && UniqueEmails(users)
    requires UpdateUser(svc, users, userID, req, salt).Ok()
    ensures WellKeyed(UpdateUser(svc, users, userID, req, salt).store)
    ensures UniqueEmails(UpdateUser(svc, users, userID, req, salt).store)
  {
    var after := UpdateUser(svc, users, userID, req, salt).store;
    assert UpdatedAsRequested(svc, users[userID], after[userID], req, salt);
    if req.email.Some? {
      NoOtherHolder(users, userID, req);
    }
    assert after == users[userID := after[userID]];
  }

  /** After a successful update with a new password, that password checks
      against the stored digest. */
  lemma UpdatedPasswordChecks(svc: Service, users: Table, userID: nat, req: UpdateUserRequest, salt: nat)
    requires Sound(svc.hasher)
    requires req.password.Some?
    requires UpdateUser(svc, users, userID, req, salt).Ok()
    ensures CheckPassword(svc.hasher, UpdateUser(svc, users, userID, req, salt).store[userID], req.password.value)
  {
  }
}
