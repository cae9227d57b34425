/** The authentication service: login (`Authenticate`), token refresh
    (`RefreshToken`) and the partial profile update (`UpdateUser`), over the
    user table of `Users`, the token functions of `Tokens` and the abstract
    hash function. The clock is the parameter `now` (Unix seconds) and the
    hash function's randomness the parameter `salt`. */
module AuthService {
  import opened Wrappers
  import opened Dates
  import opened Users
  import opened Tokens

  /** The service's configuration: the token library, the signing key
      (`jwtKey`) and the password hash function. */
  datatype Service = Service(jwt: Jwt, jwtKey: string, hasher: Hasher)

  const InvalidCredentials := "invalid email or password"
  const InvalidRefreshToken := "invalid refresh token"
  const UserNotFound := "user not found"
  const EmailInUse := "email already in use"
  const PasswordUpdateFailed := "failed to update password"
  const InvalidLicenseDate := "invalid drivers license expiration date format"

  datatype TokenPair = TokenPair(access: string, refresh: string)

  /** An access token (15 minutes) and a refresh token (7 days) for the same
      identity, both issued now. */
  function IssuePair(svc: Service, userID: nat, email: string, now: int): TokenPair {
    TokenPair(
      GenerateToken(svc.jwt, svc.jwtKey, userID, email, now, AccessTTL),
      GenerateToken(svc.jwt, svc.jwtKey, userID, email, now, RefreshTTL))
  }

  /** `Authenticate`: an unknown email and a wrong password fail with the
      same message; on success both tokens carry the user's id and the email
      as given. */
  function Authenticate(svc: Service, users: Table, email: string, password: string, now: int): (r: Result<TokenPair, string>)
    ensures r.Failure? ==> r.error == InvalidCredentials
    ensures r.Success? <==> FindByEmail(users, email).Some? && CheckPassword(svc.hasher, FindByEmail(users, email).value, password)
    ensures r.Success? ==> r.value == IssuePair(svc, FindByEmail(users, email).value.id, email, now)
  {
    match FindByEmail(users, email)
    case None => Failure(InvalidCredentials)
    case Some(user) =>
      if !CheckPassword(svc.hasher, user, password) then Failure(InvalidCredentials)
      else Success(IssuePair(svc, user.id, email, now))
  }

  /** `RefreshToken`: any token that validates under the service key, access
      or refresh alike, yields a new pair for the identity in its claims; the
      user table is not consulted. */
  function RefreshToken(svc: Service, token: string, now: int): (r: Result<TokenPair, string>)
    ensures r.Failure? <==> ParseWithClaims(svc.jwt, svc.jwtKey, token, now).Failure?
    ensures r.Failure? ==> r.error == InvalidRefreshToken
    ensures r.Success? ==> var c := ParseWithClaims(svc.jwt, svc.jwtKey, token, now).value;
      r.value == IssuePair(svc, c.userID, c.email, now)
  {
    match ParseWithClaims(svc.jwt, svc.jwtKey, token, now)
    case Failure(_) => Failure(InvalidRefreshToken)
    case Success(claims) => Success(IssuePair(svc, claims.userID, claims.email, now))
  }

  // ----------------------------------------------------------- UpdateUser

  /** The service's `UpdateUserRequest`: every field optional, `None` meaning
      "leave unchanged" (Go's nil pointer). */
  datatype UpdateUserRequest = UpdateUserRequest(
    email: Option<string>,
    password: Option<string>,
    phoneNumber: Option<string>,
    address: Option<string>,
    city: Option<string>,
    region: Option<string>,
    country: Option<string>,
    postalCode: Option<string>,
    driversLicenseExpiration: Option<string>,
    paymentMethod: Option<string>,
    preferredVehicleType: Option<string>)

  function Or(field: Option<string>, current: string): string {
    match field
    case Some(v) => v
    case None => current
  }

  /** The requested email belongs, by the email lookup, to another user. */
  predicate EmailConflict(users: Table, userID: nat, req: UpdateUserRequest) {
    req.email.Some? && FindByEmail(users, req.email.value).Some?
    && FindByEmail(users, req.email.value).value.id != userID
  }

  /** A requested password could not be hashed. */
  predicate HashFails(svc: Service, req: UpdateUserRequest, salt: nat) {
    req.password.Some? && svc.hasher.generate(req.password.value, salt).Failure?
  }

  /** A requested license expiration date is not in `YYYY-MM-DD` form. */
  predicate BadLicenseDate(req: UpdateUserRequest) {
    req.driversLicenseExpiration.Some? && Parse(req.driversLicenseExpiration.value).None?
  }

  /** The two records agree on every field the update request cannot touch. */
  predicate SameOutsideRequest(a: User, b: User) {
    && a.id == b.id && a.firstName == b.firstName && a.lastName == b.lastName
    && a.otherName == b.otherName && a.role == b.role && a.dateOfBirth == b.dateOfBirth
    && a.driversLicenseNumber == b.driversLicenseNumber && a.driversLicenseState == b.driversLicenseState
    && a.isVerified == b.isVerified && a.isActive == b.isActive && a.registrationDate == b.registrationDate
    && a.hasOutstandingBalance == b.hasOutstandingBalance && a.totalRentals == b.totalRentals
    && a.currentRentalCount == b.currentRentalCount && a.acceptedTermsOfService == b.acceptedTermsOfService
  }

  /** `UpdateUser`: load the user, then apply the present fields in the
      source's order (email with its uniqueness check, password re-hashed,
      the plain string fields, the license date parsed as `YYYY-MM-DD`, the
      last two string fields) to a copy, and write the copy back once at the
      end. Any error returns before the write. */
  function UpdateUser(svc: Service, users: Table, userID: nat, req: UpdateUserRequest, salt: nat): (r: Effect<Table>)
    ensures r.err.Some? ==> r.store == users
    ensures userID !in users ==> r == Effect(users, Some(UserNotFound))
    ensures userID in users && EmailConflict(users, userID, req) ==> r.err == Some(EmailInUse)
    ensures userID in users && !EmailConflict(users, userID, req) && HashFails(svc, req, salt)
      ==> r.err == Some(PasswordUpdateFailed)
    ensures userID in users && !EmailConflict(users, userID, req) && !HashFails(svc, req, salt) && BadLicenseDate(req)
      ==> r.err == Some(InvalidLicenseDate)
    ensures r.Ok() <==> userID in users && !EmailConflict(users, userID, req) && !HashFails(svc, req, salt) && !BadLicenseDate(req)
    ensures r.Ok() ==> r.store.Keys == users.Keys
    ensures r.Ok() ==> forall k :: k in users && k != userID ==> r.store[k] == users[k]
    ensures r.Ok() ==> UpdatedAsRequested(svc, users[userID], r.store[userID], req, salt)
  {
    if userID !in users then Effect(users, Some(UserNotFound))
    else
      var user := users[userID];
      if EmailConflict(users, userID, req) then Effect(users, Some(EmailInUse))
      else
        var user := user.(email := Or(req.email, user.email));
        var hashed := if req.password.Some? then HashPassword(svc.hasher, user.(password := req.password.value), salt)
                      else (user, None);
        if hashed.1.Some? then Effect(users, Some(PasswordUpdateFailed))
        else
          var user := hashed.0.(
            phoneNumber := Or(req.phoneNumber, user.phoneNumber),
            address := Or(req.address, user.address),
            city := Or(req.city, user.city),
            region := Or(req.region, user.region),
            country := Or(req.country, user.country),
            postalCode := Or(req.postalCode, user.postalCode));
          var license := if req.driversLicenseExpiration.Some? then Parse(req.driversLicenseExpiration.value)
                         else Some(user.driversLicenseExpiration);
          if license.None? then Effect(users, Some(InvalidLicenseDate))
          else
            var user := user.(
              driversLicenseExpiration := license.value,
              paymentMethod := Or(req.paymentMethod, user.paymentMethod),
              preferredVehicleType := Or(req.preferredVehicleType, user.preferredVehicleType));
            Effect(users[userID := user], None)
  }

  /** The field-level meaning of a successful update: absent fields keep
      their old values, present string fields are taken verbatim, a present
      password is stored as its digest, a present license date as the date it
      parses to, and nothing outside the request changes. */
  ghost predicate UpdatedAsRequested(svc: Service, before: User, after: User, req: UpdateUserRequest, salt: nat) {
    && SameOutsideRequest(before, after)
    && after.email == Or(req.email, before.email)
    && (req.password.None? ==> after.password == before.password)
    && (req.password.Some? ==> svc.hasher.generate(req.password.value, salt) == Success(after.password))
    && after.phoneNumber == Or(req.phoneNumber, before.phoneNumber)
    && after.address == Or(req.address, before.address)
    && after.city == Or(req.city, before.city)
    && after.region == Or(req.region, before.region)
    && after.country == Or(req.country, before.country)
    && after.postalCode == Or(req.postalCode, before.postalCode)
    && (req.driversLicenseExpiration.None? ==> after.driversLicenseExpiration == before.driversLicenseExpiration)
    && (req.driversLicenseExpiration.Some? ==> Parse(req.driversLicenseExpiration.value) == Some(after.driversLicenseExpiration))
    && after.paymentMethod == Or(req.paymentMethod, before.paymentMethod)
    && after.preferredVehicleType == Or(req.preferredVehicleType, before.preferredVehicleType)
  }
}
