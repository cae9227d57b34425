/** The decision logic of the user HTTP handlers: registration, login,
    refresh and profile update, each as a function from the decoded request
    (or `None` when the body does not decode) to the response and, where the
    handler writes, the user table afterwards. */
module UserHandler {
  import opened Wrappers
  import opened Text
  import opened Dates
  import opened Users
  import opened Tokens
  import opened Database
  import AuthService

  datatype Body =
    | Message(text: string)
    | Profile(user: UserDTO)
    | TokenBody(accessToken: string, refreshToken: string)

  datatype Response = Response(status: int, body: Body)

  const InvalidPayload := "Invalid request payload"
  const MissingFields := "Missing required fields"
  const EmailTaken := "Email already in use"
  const SecuringFailed := "Error securing password"
  const CreateFailed := "Failed to create user: "
  const Unauthorized := "Unauthorized"
  const UserNotFoundText := "User not found"
  const UpdateFailed := "Failed to update user"
  const RetrieveFailed := "Failed to retrieve updated user"

  // --------------------------------------------------------------- Register

  /** One of the five required fields is empty. */
  predicate MissingRequired(u: User) {
    u.firstName == "" || u.lastName == "" || u.email == "" || u.password == "" || u.phoneNumber == ""
  }

  /** The record `Register` inserts: the request as decoded, with the
      password replaced by its digest and the account fields forced. */
  function Registered(req: User, digest: string, now: int): (u: User)
    ensures u.role == "customer" && !u.isVerified && u.isActive
    ensures u.password == digest && u.registrationDate == now
    ensures u.(password := req.password, role := req.role, registrationDate := req.registrationDate,
               isVerified := req.isVerified, isActive := req.isActive) == req
  {
    req.(password := digest, role := "customer", registrationDate := now, isVerified := false, isActive := true)
  }

  /** `Register`. */
  function Register(svc: AuthService.Service, users: Table, payload: Option<User>, salt: nat, now: int, nextID: nat)
    : (r: (Response, Table))
    requires nextID > 0
    ensures r.0.status != 201 ==> r.1 == users
    ensures payload.None? ==> r == (Response(400, Message(InvalidPayload)), users)
    ensures payload.Some? && MissingRequired(payload.value) ==> r == (Response(400, Message(MissingFields)), users)
    ensures payload.Some? && !MissingRequired(payload.value) && FindByEmail(users, payload.value.email).Some?
      ==> r == (Response(409, Message(EmailTaken)), users)
    ensures r.0.status == 201 <==>
      && payload.Some? && !MissingRequired(payload.value)
      && FindByEmail(users, payload.value.email).None?
      && svc.hasher.generate(payload.value.password, salt).Success?
      && (if payload.value.id == 0 then nextID else payload.value.id) !in users
    ensures payload.Some? && !MissingRequired(payload.value) && FindByEmail(users, payload.value.email).None?
      && svc.hasher.generate(payload.value.password, salt).Failure?
      ==> r == (Response(500, Message(SecuringFailed)), users)
    ensures payload.Some? && !MissingRequired(payload.value) && FindByEmail(users, payload.value.email).None?
      && svc.hasher.generate(payload.value.password, salt).Success?
      && (if payload.value.id == 0 then nextID else payload.value.id) in users
      ==> var id := if payload.value.id == 0 then nextID else payload.value.id;
          r == (Response(500, Message(CreateFailed + DuplicateEntry(UsersTable, id))), users)
    ensures r.0.status == 201 ==>
      var row := Registered(payload.value, svc.hasher.generate(payload.value.password, salt).value, now)
        .(id := if payload.value.id == 0 then nextID else payload.value.id);
      r.1 == users[row.id := row] && r.0.body == Profile(ToDTO(row))
  {
    match payload
    case None => (Response(400, Message(InvalidPayload)), users)
    case Some(req) =>
      if MissingRequired(req) then (Response(400, Message(MissingFields)), users)
      else if FindByEmail(users, req.email).Some? then (Response(409, Message(EmailTaken)), users)
      else
        var hashed := HashPassword(svc.hasher, req, salt);
        if hashed.1.Some? then (Response(500, Message(SecuringFailed)), users)
        else
          var u := Registered(req, hashed.0.password, now);
          var created := CreateUser(users, u, nextID);
          if !created.0.Ok() then (Response(500, Message(CreateFailed + created.0.err.value)), users)
          else (Response(201, Profile(ToDTO(created.1))), created.0.store)
  }

  // ------------------------------------------------------ Login and Refresh

  datatype LoginRequest = LoginRequest(email: string, password: string)

  /** `Login`: a 200 with the token pair exactly when the credentials are
      accepted; otherwise a 401 whose text is the service's one message. */
  function Login(svc: AuthService.Service, users: Table, payload: Option<LoginRequest>, now: int): (r: Response)
    ensures payload.None? ==> r == Response(400, Message(InvalidPayload))
    ensures payload.Some? ==> r.status == 200 || r.status == 401
    ensures r.status == 200 <==> payload.Some? && AuthService.Authenticate(svc, users, payload.value.email, payload.value.password, now).Success?
    ensures r.status == 200 ==> var pair := AuthService.Authenticate(svc, users, payload.value.email, payload.value.password, now).value;
      r.body == TokenBody(pair.access, pair.refresh)
    ensures r.status == 401 ==> r.body == Message("Unauthorized: " + AuthService.InvalidCredentials)
  {
    match payload
    case None => Response(400, Message(InvalidPayload))
    case Some(req) =>
      match AuthService.Authenticate(svc, users, req.email, req.password, now)
      case Failure(e) => Response(401, Message("Unauthorized: " + e))
      case Success(pair) => Response(200, TokenBody(pair.access, pair.refresh))
  }

  /** `Refresh`: a 200 with a new pair exactly when the presented token
      validates; otherwise a 401 whose text is the service's one message. */
  function Refresh(svc: AuthService.Service, payload: Option<string>, now: int): (r: Response)
    ensures payload.None? ==> r == Response(400, Message(InvalidPayload))
    ensures payload.Some? ==> r.status == 200 || r.status == 401
    ensures r.status == 200 <==> payload.Some? && ParseWithClaims(svc.jwt, svc.jwtKey, payload.value, now).Success?
    ensures r.status == 200 ==> var pair := AuthService.RefreshToken(svc, payload.value, now).value;
      r.body == TokenBody(pair.access, pair.refresh)
    ensures r.status == 401 ==> r.body == Message("Unauthorized: " + AuthService.InvalidRefreshToken)
  {
    match payload
    case None => Response(400, Message(InvalidPayload))
    case Some(token) =>
      match AuthService.RefreshToken(svc, token, now)
      case Failure(e) => Response(401, Message("Unauthorized: " + e))
      case Success(pair) => Response(200, TokenBody(pair.access, pair.refresh))
  }

  // ------------------------------------------------------------- UpdateUser

  /** The handler's own `UpdateUserRequest` (the JSON body). */
  datatype UpdateUserRequest = UpdateUserRequest(
    email: Option<string>,
    password: Option<string>,
    phoneNumber: Option<string>,
    address: Option<string>,
    city: Option<string>,
    region: Option<string>,
    country: Option<string>,
    postalCode: Option<string>,
    driversLicenseExpiration: Option<string>,
    paymentMethod: Option<string>,
    preferredVehicleType: Option<string>)

  /** `ToServiceUpdateUserRequest`: a field-for-field copy. */
  function ToServiceUpdateUserRequest(req: UpdateUserRequest): (s: AuthService.UpdateUserRequest)
    ensures s.email == req.email && s.password == req.password && s.phoneNumber == req.phoneNumber
    ensures s.address == req.address && s.city == req.city && s.region == req.region
    ensures s.country == req.country && s.postalCode == req.postalCode
    ensures s.driversLicenseExpiration == req.driversLicenseExpiration
    ensures s.paymentMethod == req.paymentMethod && s.preferredVehicleType == req.preferredVehicleType
  {
    AuthService.UpdateUserRequest(req.email, req.password, req.phoneNumber, req.address, req.city,
      req.region, req.country, req.postalCode, req.driversLicenseExpiration, req.paymentMethod,
      req.preferredVehicleType)
  }

  /** The conversion loses nothing: converting back gives the request. */
  function FromServiceUpdateUserRequest(s: AuthService.UpdateUserRequest): UpdateUserRequest {
    UpdateUserRequest(s.email, s.password, s.phoneNumber, s.address, s.city, s.region, s.country,
      s.postalCode, s.driversLicenseExpiration, s.paymentMethod, s.preferredVehicleType)
  }

  lemma ConversionRoundTrip(req: UpdateUserRequest)
    ensures FromServiceUpdateUserRequest(ToServiceUpdateUserRequest(req)) == req
  {
  }

  /** The status `UpdateUser` answers a service error with, decided on the
      error's message alone. */
  function ErrorStatus(message: string): (status: int)
    ensures status == 404 <==> message == AuthService.UserNotFound
    ensures status == 409 <==> message == AuthService.EmailInUse
    ensures status == 400 <==>
      (message != AuthService.UserNotFound && message != AuthService.EmailInUse && exists i :: OccursAt(message, "invalid", i))
    ensures status == 404 || status == 409 || status == 400 || status == 500
  {
    ContainsAt(message, "invalid");
    if message == AuthService.UserNotFound then 404
    else if message == AuthService.EmailInUse then 409
    else if Contains(message, "invalid") then 400
    else 500
  }

  /** `UpdateUser` of the handler; `userID` is the `user_id` the middleware
      put in the request context (`None` when there is none). */
  function UpdateUser(svc: AuthService.Service, users: Table, userID: Option<nat>, payload: Option<UpdateUserRequest>, salt: nat)
    : (r: (Response, Table))
    ensures userID.None? ==> r == (Response(401, Message(Unauthorized)), users)
    ensures userID.Some? && payload.None? ==> r == (Response(400, Message(InvalidPayload)), users)
    ensures userID.Some? && payload.Some? ==>
      var e := AuthService.UpdateUser(svc, users, userID.value, ToServiceUpdateUserRequest(payload.value), salt);
      && r.1 == e.store
      && (e.err == Some(AuthService.UserNotFound) ==> r.0 == Response(404, Message(UserNotFoundText)))
      && (e.err == Some(AuthService.EmailInUse) ==> r.0 == Response(409, Message(EmailTaken)))
      && (e.err.Some? && ErrorStatus(e.err.value) == 400 ==> r.0 == Response(400, Message(e.err.value)))
      && (e.err.Some? && ErrorStatus(e.err.value) == 500 ==> r.0 == Response(500, Message(UpdateFailed)))
      && (e.Ok() ==> r.0 == Response(200, Profile(ToDTO(e.store[userID.value]))))
  {
    match userID
    case None => (Response(401, Message(Unauthorized)), users)
    case Some(id) =>
      match payload
      case None => (Response(400, Message(InvalidPayload)), users)
      case Some(req) =>
        var e := AuthService.UpdateUser(svc, users, id, ToServiceUpdateUserRequest(req), salt);
        match e.err
        case Some(msg) =>
          var status := ErrorStatus(msg);
          var text := if status == 404 then UserNotFoundText
                      else if status == 409 then EmailTaken
                      else if status == 400 then msg
                      else UpdateFailed;
          (Response(status, Message(text)), e.store)
        case None =>
          match FindByID(e.store, id)
          case None => (Response(500, Message(RetrieveFailed)), e.store)
          case Some(updated) => (Response(200, Profile(ToDTO(updated))), e.store)
  }
}
