/** Properties of the user handlers that follow several calls: what a
    registration leaves in the table, and which status each service error of
    a profile update turns into. */
module HandlerProperties {
  import opened Wrappers
  import opened Text
  import opened Dates
  import opened Users
  import opened Tokens
  import AuthService
  import opened UserHandler
  import AuthProperties

  /** The date-format error of a profile update is a 400: its message
      contains "invalid". */
  lemma LicenseErrorIs400()
    ensures ErrorStatus(AuthService.InvalidLicenseDate) == 400
  {
    var m := AuthService.InvalidLicenseDate;
    assert |m| != |AuthService.UserNotFound| && |m| != |AuthService.EmailInUse|;
    var rest := " drivers license expiration date format";
    assert m == "invalid" + rest;
    assert m[..|"invalid"|] == "invalid";
    assert Contains(m, "invalid");
  }

  /** The hashing failure of a profile update is a 500: its message does not
      contain "invalid" (it has no 'v'). */
  lemma HashErrorIs500()
    ensures ErrorStatus(AuthService.PasswordUpdateFailed) == 500
  {
    var m := AuthService.PasswordUpdateFailed;
    assert |m| != |AuthService.UserNotFound| && |m| != |AuthService.EmailInUse|;
    assert forall k :: 0 <= k < |m| ==> m[k] != 'v';
    NotContainsMissingChar(m, "invalid", 'v');
  }

  /** The statuses of the four errors `AuthService.UpdateUser` can return. */
  lemma ServiceErrorStatuses()
    ensures ErrorStatus(AuthService.UserNotFound) == 404
    ensures ErrorStatus(AuthService.EmailInUse) == 409
    ensures ErrorStatus(AuthService.InvalidLicenseDate) == 400
    ensures ErrorStatus(AuthService.PasswordUpdateFailed) == 500
  {
    LicenseErrorIs400();
    HashErrorIs500();
  }

  /** A malformed license date in an otherwise acceptable profile update is
      answered with 400 and leaves the table as it was. */
  lemma BadLicenseDateIs400(svc: AuthService.Service, users: Table, userID: nat, req: UpdateUserRequest, salt: nat)
    requires userID in users
    requires var s := ToServiceUpdateUserRequest(req);
      !AuthService.EmailConflict(users, userID, s) && !AuthService.HashFails(svc, s, salt) && AuthService.BadLicenseDate(s)
    ensures UpdateUser(svc, users, Some(userID), Some(req), salt) == (Response(400, Message(AuthService.InvalidLicenseDate)), users)
  {
    LicenseErrorIs400();
  }

  /** The validation of the required fields comes before any lookup: its
      answer does not depend on the table. */
  lemma MissingFieldsIgnoreTable(svc: AuthService.Service, users1: Table, users2: Table, req: User, salt: nat, now: int, nextID: nat)
    requires nextID > 0 && MissingRequired(req)
    ensures Register(svc, users1, Some(req), salt, now, nextID).0 == Register(svc, users2, Some(req), salt, now, nextID).0
  {
  }

  /** A registration keeps the table invariants: every row under its own
      non-zero id, and no email twice. */
  lemma RegisterKeepsInvariants(svc: AuthService.Service, users: Table, req: User, salt: nat, now: int, nextID: nat)
    requires nextID > 0 && WellKeyed(users) && UniqueEmails(users)
    ensures WellKeyed(Register(svc, users, Some(req), salt, now, nextID).1)
    ensures UniqueEmails(Register(svc, users, Some(req), salt, now, nextID).1)
  {
    var r := Register(svc, users, Some(req), salt, now, nextID);
    if r.0.status == 201 {
      assert forall k :: k in users ==> users[k].email != req.email;
    }
  }

  /** With a sound hash function, whoever has just registered can log in
      with the email and password they registered with, and the tokens name
      their new id. */
  lemma RegisterThenLogin(svc: AuthService.Service, users: Table, req: User, salt: nat, now: int, nextID: nat, later: int)
    requires nextID > 0 && Sound(svc.hasher) && UniqueEmails(users) && WellKeyed(users)
    requires Register(svc, users, Some(req), salt, now, nextID).0.status == 201
    ensures var after := Register(svc, users, Some(req), salt, now, nextID).1;
      var id := if req.id == 0 then nextID else req.id;
      && AuthService.Authenticate(svc, after, req.email, req.password, later).Success?
      && AuthService.Authenticate(svc, after, req.email, req.password, later).value == AuthService.IssuePair(svc, id, req.email, later)
  {
    var after := Register(svc, users, Some(req), salt, now, nextID).1;
    var id := if req.id == 0 then nextID else req.id;
    RegisterKeepsInvariants(svc, users, req, salt, now, nextID);
    assert id in after && after[id].email == req.email;
    FindByEmailUnique(after, req.email, id);
  }

  /** The same at the HTTP level: after a 201 from `Register`, `Login` with
      the registered email and password answers 200 with a token pair for
      the new id. */
  lemma RegisterThenLoginResponse(svc: AuthService.Service, users: Table, req: User, salt: nat, now: int, nextID: nat, later: int)
    requires nextID > 0 && Sound(svc.hasher) && UniqueEmails(users) && WellKeyed(users)
    requires Register(svc, users, Some(req), salt, now, nextID).0.status == 201
    ensures var after := Register(svc, users, Some(req), salt, now, nextID).1;
      var pair := AuthService.IssuePair(svc, if req.id == 0 then nextID else req.id, req.email, later);
      Login(svc, after, Some(LoginRequest(req.email, req.password)), later) == Response(200, TokenBody(pair.access, pair.refresh))
  {
    RegisterThenLogin(svc, users, req, salt, now, nextID, later);
  }

  /** The refresh token a successful `Login` returns is answered by
      `Refresh` with 200 and a new pair for the same id and email until
      7 days after the login, and with 401 from then on. */
  lemma LoginThenRefresh(svc: AuthService.Service, users: Table, email: string, password: string, issued: int, now: int)
    requires Faithful(svc.jwt)
    requires Login(svc, users, Some(LoginRequest(email, password)), issued).status == 200
    ensures var refresh := Login(svc, users, Some(LoginRequest(email, password)), issued).body.refreshToken;
      var pair := AuthService.IssuePair(svc, FindByEmail(users, email).value.id, email, now);
      && (now < issued + RefreshTTL ==> Refresh(svc, Some(refresh), now) == Response(200, TokenBody(pair.access, pair.refresh)))
      && (now >= issued + RefreshTTL ==>
            Refresh(svc, Some(refresh), now) == Response(401, Message("Unauthorized: " + AuthService.InvalidRefreshToken)))
  {
    AuthProperties.LoginTokenLifetimes(svc, users, email, password, issued, now);
  }
}
