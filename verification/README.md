# Rentora backend core in Dafny

A verified model of the two parts of the Rentora car-rental backend that have real rules:

- **the booking lifecycle.** A booking is created `"Pending"`. It can be accepted or declined only while it is exactly `"Pending"`. The raw update and delete operations pass straight through to the table.
- **accounts and sessions.** This covers:
  - registration;
  - login with an access/refresh token pair;
  - token refresh;
  - the partial profile update;
  - the bearer-token middleware;
  - the `YYYY-MM-DD` date codec used for the driver's licence expiry.

Every store is a Dafny `map` from id to row. The rows are immutable datatypes, and every operation is a pure function. An operation that writes returns an `Effect`: the table after the call plus the Go `error` (`None` for `nil`). Error values are the source's message strings, because the HTTP handler decides status codes by matching on those messages.

Things the source gets from outside are parameters:

- **password hash (bcrypt).** A `Users.Hasher` of two function values. Its contract is the predicate `Users.Sound`: a digest matches the plaintext it was made from.
- **JWT library.** A `Tokens.Jwt`: the HMAC-SHA256 MAC, the compact serialization and its parser. It has two contract predicates. `Tokens.Faithful` says decoding an encoded token gives it back. `Tokens.SpaceFree` says a compact token never holds a space.
- **clock.** `now`, in Unix seconds.
- **bcrypt's randomness.** `salt`.
- **database id sequence.** `nextID`, which is always greater than 0.

Lemmas take the contract predicates as hypotheses. Nothing is assumed.

The database behaviour the services rely on is written out:

- `Create` keeps a non-zero id supplied in the record. Otherwise it takes the sequence value. A taken id is MySQL error 1062, worded as the Go MySQL driver words it (`Database.DuplicateEntry`). The server opens a MySQL database.
- `Save` overwrites by primary key.
- `Delete` of an absent id is not an error.
- `First` on an email returns the row with the smallest id.

Files, one module each:

| file | module | models |
|---|---|---|
| wrappers.dfy | `Wrappers` | `Option`, `Result`, `Effect` |
| database.dfy | `Database` | the MySQL error texts the repositories see |
| text.dfy | `Text` | `strings.Split` with a one-character separator, `strings.Contains` |
| dates.dfy | `Dates` | `internal/model/Date.go` |
| date_codec.dfy | `DateCodec` | the round trip and canonicity of the date codec |
| bookings.dfy | `Bookings` | `internal/model/booking.go`, `internal/service/booking_service.go`, booking table semantics |
| booking_lifecycle.dfy | `BookingLifecycle` | the state machine over sequences of calls |
| users.dfy | `Users` | `internal/model/user.go`, the user table of `internal/repository/user_repo.go` |
| tokens.dfy | `Tokens` | `Claims`, `generateToken`, `jwt.ParseWithClaims` validation |
| auth_service.dfy | `AuthService` | `Authenticate`, `RefreshToken`, `UpdateUser` of `internal/service/user_service.go` |
| auth_properties.dfy | `AuthProperties` | token lifetimes, refresh, update invariants |
| middleware.dfy | `Middleware` | `internal/middleware/authMiddleware.go` |
| user_handler.dfy | `UserHandler` | decision logic of `internal/handler/user_handler.go` |
| handler_properties.dfy | `HandlerProperties` | status mapping, registration invariants, register-then-login |

Behaviours worth noting:

- **booking status is a free string, not a closed enumeration.** `UpdateBooking` can store any status, including `"Pending"` again after `"Accepted"` (`BookingLifecycle.UngatedRunCanReopen`).
- **a duplicate key at registration is not a 409.** The `User` schema has no unique index on email, so only a primary-key clash trips it. An id supplied in the request body is kept, so a clash can happen.
- **the clash is reported in MySQL's own words.** The repository renames an insert error to "email already registered" only when its text mentions "duplicate key value" or "unique constraint", which is PostgreSQL's wording. MySQL's error 1062 mentions neither, so the clash reaches the client as a 500 "Failed to create user: Error 1062 (23000): Duplicate entry ...".
- **`Authenticate` writes nothing to the user table.**
- **the token carries the email in its own `email` claim, not in `sub`.**
- **the service's `UpdateUser` returns only an error.** The handler then re-reads the user to build the response.
- **registration is decided in the HTTP handler, not in the service.**

## Model

| member | source | states |
|---|---|---|
| Text.Split | internal/middleware/authMiddleware.go:24 | splitting on a separator gives at least one piece, and no piece holds the separator |
| Text.SplitTwo | internal/middleware/authMiddleware.go:24-25 | `strings.Split` on `" "` gives exactly two parts iff the text holds exactly one space, and the parts are the text before and after it |
| Text.JoinSplit | internal/middleware/authMiddleware.go:24 | splitting loses nothing: joining the parts with the separator gives the header back |
| Text.Contains | internal/handler/user_handler.go:179 | `strings.Contains` holds only when the substring fits in the string, and always for the empty substring |
| Text.ContainsAt | internal/handler/user_handler.go:179 | `strings.Contains` holds iff the substring occurs at some position |
| Text.NotContainsMissingChar | internal/handler/user_handler.go:179 | a message lacking one character of "invalid" never contains "invalid" |
| Dates.Parse | internal/model/Date.go:19 | `time.Parse` with "2006-01-02" accepts only ten characters with '-' at positions 4 and 7 and four leading digits. What it returns is a valid date with a non-negative year |
| Dates.Format | internal/model/Date.go:29 | the formatted date is at least ten characters, with '-' before the two-digit month and day. It starts with '-' exactly for negative years |
| Dates.Value | internal/model/Date.go:33-35 | the value stored in the database is the formatted date, at least ten characters with '-' before the two-digit month and day (read back as text, `DateCodec.ValueScan` restores it) |
| Dates.UnmarshalJSON | internal/model/Date.go:16-25 | the first and last byte are dropped unchecked and the rest is parsed. A failure returns "invalid date format, use YYYY-MM-DD" and keeps the previous date |
| Dates.MarshalJSON | internal/model/Date.go:28-30 | the output is the `Value` text wrapped in double quotes |
| Dates.Scan | internal/model/Date.go:38-58 | nil gives the zero date 0001-01-01 and a time value is taken as is. A string is parsed with the same layout, and any other type is "invalid type for Date". The date is unchanged on every error |
| DateCodec.ParseFormat | internal/model/Date.go:16-30 | parsing the formatted text of a valid date with a year in 0..9999 restores that date |
| DateCodec.FormatParse | internal/model/Date.go:19-23 | whatever the parser accepts is a valid date with a year in 0..9999, and its formatted text is the input itself (one spelling per date) |
| DateCodec.ParseIff | internal/model/Date.go:16-35 | parser and formatter are inverse bijections between valid dates with years 0..9999 and the accepted strings |
| DateCodec.MarshalUnmarshal | internal/model/Date.go:16-30 | `UnmarshalJSON(MarshalJSON(d))` restores `d`, whatever the receiver held before |
| DateCodec.UnmarshalIgnoresDelimiters | internal/model/Date.go:18 | any two bytes around a well-formed date are accepted as if they were quotes |
| DateCodec.ValueScan | internal/model/Date.go:33-55 | for a driver that returns the DATE column as text, scanning the `Value` text restores the date. The server's connection sets `parseTime=True` (cmd/server/main.go:44), so there the driver returns a time value and `Scan` keeps it as is |
| DateCodec.LargeYearsDoNotRoundTrip | internal/model/Date.go:28-30 | years past 9999 are formatted with more than four digits, and the parser rejects that text |
| Bookings.Insert | internal/repository/booking_repo.go:24-29 | an insert keeps a non-zero supplied id, otherwise takes the sequence value. It fails exactly when that id is taken, writing nothing and returning MySQL's duplicate-entry error for that id unchanged |
| Bookings.CreateBooking | internal/service/booking_service.go:17-21 | the stored record has status "Pending" whatever was supplied. Every other field is as given, except the assigned id. The create succeeds exactly when that id is free; otherwise nothing is written and the error is MySQL's duplicate-entry text for the bookings table |
| Bookings.AcceptBooking | internal/service/booking_service.go:23-35 | an unknown id gives "booking not found" and a non-Pending booking is refused; both leave the table unchanged. On success only that booking's status changes, to "Accepted" |
| Bookings.DeclineBooking | internal/service/booking_service.go:37-49 | mirrors accept, with "Declined" and its own refusal message |
| Bookings.GetBookingByID | internal/service/booking_service.go:56-58 | returns the row under the id, or GORM's "record not found" error exactly when there is none |
| Bookings.UpdateBooking | internal/service/booking_service.go:60-62 | the record overwrites the row with its id, with no status check. A zero id inserts under the sequence value, and fails with MySQL's duplicate-entry text for that id, writing nothing, exactly when it is taken |
| Bookings.DeleteBooking | internal/service/booking_service.go:64-66 | exactly that id is removed, every other row is unchanged, never an error |
| Bookings.GetBookingsByUserID | internal/service/booking_service.go:52-54 | each booking occurs in the result exactly as many times as there are rows holding it for that user. So the result holds exactly the user's bookings, one entry per matching row |
| BookingLifecycle.CreateThenGet | internal/service/booking_service.go:17-58 | looking up the id a successful create assigned returns the request, with status "Pending" and that id |
| BookingLifecycle.AcceptThenGet | internal/service/booking_service.go:23-58 | looking up an accepted booking returns it as it was, with status "Accepted" |
| BookingLifecycle.DeclineThenGet | internal/service/booking_service.go:37-58 | looking up a declined booking returns it as it was, with status "Declined" |
| BookingLifecycle.AcceptIsFinal | internal/service/booking_service.go:29-31 | after a successful accept, a second accept and a decline of the same id both fail, and the table is unchanged |
| BookingLifecycle.DeclineIsFinal | internal/service/booking_service.go:43-45 | after a successful decline, an accept and a second decline of the same id both fail, and the table is unchanged |
| BookingLifecycle.UpdateReopens | internal/service/booking_service.go:60-62 | an accepted booking can be written back as "Pending" and then declined |
| BookingLifecycle.TerminalStatusPersists | internal/service/booking_service.go:23-49 | under any sequence of creates, accepts and declines, an accepted or declined booking stays in the table with that status |
| BookingLifecycle.GatedRunKeepsKnownStatuses | internal/service/booking_service.go:17-49 | creates, accepts and declines only ever store "Pending", "Accepted" or "Declined" |
| BookingLifecycle.RunKeepsWellKeyed | internal/service/booking_service.go:17-66 | every sequence of service calls keeps each row under its own non-zero id |
| BookingLifecycle.UngatedRunCanReopen | internal/service/booking_service.go:60-62 | a single raw update turns a terminal booking back into a pending one |
| Users.ToDTO | internal/model/user.go:87-96 | the public view copies id, names, email and role exactly. It has no password field |
| Users.HashPassword | internal/model/user.go:58-65 | on success the password becomes the digest of its previous value. On error the user is unchanged and the error is returned |
| Users.CheckPassword | internal/model/user.go:67-75 | true exactly when the comparison reports no error. A mismatch is `false`, not a failure |
| Users.HashThenCheck | internal/model/user.go:58-75 | with a sound hash function, a password checks against the digest `HashPassword` stored for it |
| Users.FindByEmail | internal/repository/user_repo.go:28-35 | finds the row with the smallest id whose email is exactly the given one, or nothing when no row has it |
| Users.FindByID | internal/service/user_service.go:197-199 | finds the row under the id, or nothing when there is none |
| Users.FindByEmailUnique | internal/repository/user_repo.go:28-35 | when emails are unique, the lookup finds exactly the row holding the email |
| Users.InsertError | internal/repository/user_repo.go:38-42 | an insert error mentioning "duplicate key value" or "unique constraint" becomes "email already registered". Any other error is returned unchanged |
| Users.MySqlDuplicateKept | internal/repository/user_repo.go:38-42 | MySQL's duplicate-entry error mentions neither phrase, so the repository returns it unchanged |
| Users.PostgresDuplicateTranslated | internal/repository/user_repo.go:39-40 | PostgreSQL's unique-violation error is the one the translation renames |
| Users.CreateUser | internal/repository/user_repo.go:37-45 | the insert fails exactly when the id is taken. It then writes nothing and returns MySQL's duplicate-entry error for that id |
| Tokens.GenerateToken | internal/service/user_service.go:106-118 | the token decodes to the claims (user id, email, issued now, expiring after the duration), signed with the MAC under the key. It holds no space |
| Tokens.ParseWithClaims | internal/service/user_service.go:84-91 | a token is accepted iff it decodes, its signature is the MAC of its claims under the key, and now < exp. The claims returned are the token's own |
| Tokens.GenerateThenParse | internal/service/user_service.go:106-118 | a generated token validates with exactly its claims before `issued + duration` and never after |
| Tokens.OtherKeyRejects | internal/service/user_service.go:85-87 | a token signed under one key is refused under a key whose MAC differs |
| AuthService.Authenticate | internal/service/user_service.go:54-81 | any failure is "invalid email or password". Success happens iff the email is found and the password checks, and the pair is for that user's id and the given email |
| AuthService.RefreshToken | internal/service/user_service.go:83-104 | fails with "invalid refresh token" exactly when validation fails. Otherwise the new pair is for the claims' user id and email, and the user table is not consulted |
| AuthService.UpdateUser | internal/service/user_service.go:131-195 | unknown id gives "user not found" and another user's email gives "email already in use". A hashing failure and a malformed licence date each have their own error. Every error writes nothing; on success only that user's row changes, as `UpdatedAsRequested` describes |
| AuthProperties.AuthenticateFailsUniformly | internal/service/user_service.go:55-65 | an unknown email and a wrong password give the identical failure |
| AuthProperties.AuthenticateWithHashedPassword | internal/service/user_service.go:62-80 | with unique emails and a sound hash function, the password a stored digest was made from logs in |
| AuthProperties.LoginTokenLifetimes | internal/service/user_service.go:68-80 | the access token validates exactly until 15 minutes after the login and the refresh token exactly until 7 days after. Both carry the user's id and the email given |
| AuthProperties.RefreshKeepsIdentity | internal/service/user_service.go:93-103 | the refreshed pair validates with the user id and email of the presented token |
| AuthProperties.RefreshAcceptsAccessToken | internal/service/user_service.go:85-91 | an unexpired access token is accepted as a refresh token |
| AuthProperties.AccessExpiresFirst | internal/service/user_service.go:68-91 | between 15 minutes and 7 days after login, the access token is refused as expired while the refresh token still refreshes |
| AuthProperties.OwnEmailAccepted | internal/service/user_service.go:139-146 | re-submitting one's own email is not a conflict when emails are unique |
| AuthProperties.OtherEmailRejected | internal/service/user_service.go:139-144 | taking another user's email gives "email already in use" and writes nothing |
| AuthProperties.UpdateKeepsInvariants | internal/service/user_service.go:131-195 | a successful update keeps every row under its own id and keeps emails unique |
| AuthProperties.UpdatedPasswordChecks | internal/service/user_service.go:149-154 | after an update with a password, that password checks against the stored digest |
| Middleware.FormatCheck | internal/middleware/authMiddleware.go:24-28 | the split-and-compare check passes exactly for "Bearer", one space, and a space-free token. That token is the unmodified text after the space |
| Middleware.Authorize | internal/middleware/authMiddleware.go:13-53 | an empty header is a 401 "Missing token" and a malformed header a 401 "Invalid token format". A failed validation is a 401 "Invalid token". The next handler runs iff every check passes, with the token's user id in context |
| Middleware.LowercaseSchemeRejected | internal/middleware/authMiddleware.go:24-27 | "bearer" in lower case is refused |
| Middleware.DoubleSpaceRejected | internal/middleware/authMiddleware.go:24-27 | two spaces after the scheme are refused |
| Middleware.GeneratedTokenPasses | internal/middleware/authMiddleware.go:30-51 | a generated, unexpired token presented as "Bearer <token>" passes, with its user id |
| UserHandler.Registered | internal/handler/user_handler.go:104-114 | the stored record forces role "customer", unverified, active and the registration time, and the password is the digest. Every other field is as decoded |
| UserHandler.Register | internal/handler/user_handler.go:81-125 | gives 400 for a missing required field and 409 for a known email. A 201 happens iff hashing and insert succeed, with the DTO as the body. A hash failure is a 500 "Error securing password". A taken id is a 500 "Failed to create user: " followed by MySQL's duplicate-entry text. The table changes only on 201 |
| UserHandler.Login | internal/handler/user_handler.go:57-79 | a decoded request is answered 200 with the token pair exactly when the credentials are accepted. Otherwise it is a 401 "Unauthorized: invalid email or password" |
| UserHandler.Refresh | internal/handler/user_handler.go:128-150 | a decoded request is answered 200 with the new pair exactly when the token validates. Otherwise it is a 401 "Unauthorized: invalid refresh token" |
| UserHandler.ToServiceUpdateUserRequest | internal/handler/user_handler.go:35-49 | all eleven optional fields are copied unchanged, absent stays absent |
| UserHandler.ConversionRoundTrip | internal/handler/user_handler.go:35-49 | converting to the service request and back gives the request |
| UserHandler.ErrorStatus | internal/handler/user_handler.go:174-183 | 404 exactly for "user not found" and 409 exactly for "email already in use". 400 is for any other message holding "invalid" at some position, and 500 for the rest |
| UserHandler.UpdateUser | internal/handler/user_handler.go:155-197 | with no user id in context the answer is 401 and the service is not called. A service error gets its status from the message and a fixed text: 404 "User not found", 409 "Email already in use", 500 "Failed to update user", and for 400 the service's own message. Success returns the stored user's DTO |
| HandlerProperties.LicenseErrorIs400 | internal/handler/user_handler.go:174-183 | the date-format error of the update is answered 400 |
| HandlerProperties.HashErrorIs500 | internal/handler/user_handler.go:174-183 | "failed to update password" is answered 500 |
| HandlerProperties.ServiceErrorStatuses | internal/handler/user_handler.go:174-183 | the four errors of the update map to 404, 409, 400 and 500 |
| HandlerProperties.BadLicenseDateIs400 | internal/service/user_service.go:177-181 | a malformed licence date in an otherwise acceptable update is a 400 with the service's message, and the table is unchanged |
| HandlerProperties.MissingFieldsIgnoreTable | internal/handler/user_handler.go:91-95 | the required-field check comes before any lookup, so its answer does not depend on the table |
| HandlerProperties.RegisterKeepsInvariants | internal/handler/user_handler.go:97-120 | registration keeps rows under their own ids and keeps emails unique |
| HandlerProperties.RegisterThenLogin | internal/handler/user_handler.go:97-124 | with a sound hash function, the credentials just registered log in, and the tokens name the new id |
| HandlerProperties.RegisterThenLoginResponse | internal/handler/user_handler.go:57-124 | after a 201 from registration, logging in with the same email and password answers 200 with a token pair for the new id |
| HandlerProperties.LoginThenRefresh | internal/handler/user_handler.go:128-150 | the refresh token from a successful login is answered 200 with a new pair for the same id and email until 7 days after the login, and 401 from then on |

## Left out

- **HTTP and JSON plumbing.** Request decoding is the `Option` a handler receives, with `None` for an undecodable body. Response encoding is the `Response` value. Route wiring, CORS, server start and shutdown are not modelled.
- **bcrypt, HMAC-SHA256 and the JWT byte format.** These are abstract function values. The signing algorithm named in the token header is not modelled. The library also accepts HS384 and HS512 tokens under the same key.
- **token generation errors.** HS256 signing with a byte-slice key does not fail, so the error branches after `generateToken` are not modelled.
- **the middleware's second rejection branch ("Invalid token claims").** It needs a parse that succeeded with an invalid token. The library never produces that, so the branch cannot be reached in the model.
- **token time.** The clock is whole Unix seconds. This is exact for the library: numeric dates are truncated to seconds and expiry is `now < exp`. `generateToken` reads the clock twice, and the model reads it once. A token without `exp` cannot be produced by `generateToken`, so the model has none.
- **no revocation.** No token is ever revoked, and this is preserved: a refresh does not invalidate the old refresh token.
- **concurrency.** Races between concurrent accept and decline calls (last write wins) are not modelled. Every call is one atomic step.
- **float fields.** `Booking.totalAmount` is a `real` that is only stored and returned. `User.AccountCredit` is left out.
- **timestamps.** `CreatedAt`, `UpdatedAt`, `LastLoginDate` and `TermsAcceptedDate` are left out.
- **time of day in `Date`.** The `Date` wrapper keeps a `time.Time` as its calendar date only, and `Scan` of a time value keeps the date part. Booking start and end times are whole Unix seconds.
- **store failures.** A failure of the database itself on read or save is not modelled. The handler's "Failed to retrieve updated user" branch is modelled but cannot be reached.
- **booking handler.** The URL-id parsing and status codes of `internal/handler/booking_handler.go` are left out; the rules live in the service.
- **car listings.** The car handler, service, repository and model are plain CRUD with no rules.
- **`internal/service/jwt_service.go`.** It is never constructed.
- **duplicate interfaces.** The duplicate interface declarations in `internal/repository/interface.go` and `internal/service/interface.go` are left out. The user table offers lookup by id, which the service calls but the repository interface lacks.
- **the unused `UserUpdateRequest`.** Its validation tags are not modelled.
- **logging,** including the logging of plaintext passwords.
- **`Dates.UnmarshalJSON`: requires at least two bytes.** The Go slice expression panics on a shorter JSON value (for example the one-byte number `7`).
- Users.FindByEmail: compares emails exactly, case included, and so does `Users.UniqueEmails`. MySQL's default utf8mb4 collation compares case-insensitively, so `WHERE email = ?` also finds "a@x.com" for "A@X.COM". The login then issues tokens carrying the caller's spelling, and the email-conflict check of a profile update also sees such rows. Collations are not modelled.
- **other MySQL versions.** The duplicate-entry text is MySQL 8's, which names the key `<table>.PRIMARY`. Older servers say `PRIMARY`; neither wording contains the phrases the repository looks for.
- **byte strings.** Go strings are byte strings, and a model `string` holds one character per byte. UTF-8 decoding is not modelled.
