/** The user model: the `User` record, its public view (`UserDTO`), the
    password helpers over an abstract adaptive hash function, and the user
    table the repository reads and writes.

    The hash function (bcrypt in the source) is a pair of function values:
    `generate` takes the plaintext and the random salt source and returns the
    digest or the library's error; `compare` re-hashes a plaintext against a
    digest and returns `None` for a match (Go's `nil` error). The one property
    the rest of the system relies on is `Sound`. */
module Users {
  import opened Wrappers
  import opened Text
  import opened Dates
  import opened Database

  /** A user row. Fields the core never reads or writes beyond storing them
      (`hasOutstandingBalance`, `totalRentals`, ...) are kept so that "every
      other field is stored as given" has content; timestamps other than the
      registration date and the float account credit are left out. */
  datatype User = User(
    id: nat,
    firstName: string,
    lastName: string,
    otherName: string,
    email: string,
    password: string,
    role: string,
    phoneNumber: string,
    dateOfBirth: Option<Date>,
    address: string,
    city: string,
    region: string,
    country: string,
    postalCode: string,
    driversLicenseNumber: string,
    driversLicenseState: string,
    driversLicenseExpiration: Date,
    isVerified: bool,
    isActive: bool,
    registrationDate: int,
    paymentMethod: string,
    hasOutstandingBalance: bool,
    totalRentals: int,
    currentRentalCount: int,
    preferredVehicleType: string,
    acceptedTermsOfService: bool)

  /** The public view of a user: no password and no other credential. */
  datatype UserDTO = UserDTO(
    id: nat,
    firstName: string,
    lastName: string,
    otherName: string,
    email: string,
    role: string)

  /** `(*User).ToDTO`. */
  function ToDTO(u: User): (d: UserDTO)
    ensures d.id == u.id && d.email == u.email && d.role == u.role
    ensures d.firstName == u.firstName && d.lastName == u.lastName && d.otherName == u.otherName
  {
    UserDTO(u.id, u.firstName, u.lastName, u.otherName, u.email, u.role)
  }

  datatype Hasher = Hasher(
    generate: (string, nat) -> Result<string, string>,
    compare: (string, string) -> Option<string>)

  /** The contract of the hash function: a digest it produced for a plaintext
      matches that plaintext. */
  ghost predicate Sound(h: Hasher) {
    forall p, salt :: h.generate(p, salt).Success? ==> h.compare(h.generate(p, salt).value, p).None?
  }

  /** `(*User).HashPassword`: replace the plaintext password by its digest;
      on a hashing error the user is left as it was and the error returned. */
  function HashPassword(h: Hasher, u: User, salt: nat): (r: (User, Option<string>))
    ensures r.1.None? <==> h.generate(u.password, salt).Success?
    ensures r.1.None? ==> r.0 == u.(password := h.generate(u.password, salt).value)
    ensures r.1.Some? ==> r.0 == u && r.1 == Some(h.generate(u.password, salt).error)
  {
    match h.generate(u.password, salt)
    case Success(digest) => (u.(password := digest), None)
    case Failure(e) => (u, Some(e))
  }

  /** `(*User).CheckPassword`: true exactly when the comparison reports no
      error; a mismatch is `false`, never a failure of the call. */
  function CheckPassword(h: Hasher, u: User, password: string): (ok: bool)
    ensures ok <==> h.compare(u.password, password).None?
  {
    h.compare(u.password, password).None?
  }

  /** With a sound hash function, a password checks against the digest that
      `HashPassword` stored for it. */
  lemma HashThenCheck(h: Hasher, u: User, salt: nat)
    requires Sound(h)
    requires HashPassword(h, u, salt).1.None?
    ensures CheckPassword(h, HashPassword(h, u, salt).0, u.password)
  {
  }

  // ------------------------------------------------------------ user table

  type Table = map<nat, User>

  /** What the repository reports when an insert violates a unique key. */
  const EmailAlreadyRegistered := "email already registered"

  /** The two phrases the repository looks for in an insert error; both are
      PostgreSQL's wording for a violated unique key. */
  const DuplicateKeyValue := "duplicate key value"
  const UniqueConstraint := "unique constraint"

  /** Every row sits under its own non-zero id. */
  predicate WellKeyed(users: Table) {
    forall k :: k in users ==> k != 0 && users[k].id == k
  }

  /** No two rows share an email (compared exactly, case included). */
  predicate UniqueEmails(users: Table) {
    forall a, b :: a in users && b in users && users[a].email == users[b].email ==> a == b
  }

  /** The ids whose row has exactly this email. */
  function IdsWithEmail(users: Table, email: string): set<nat> {
    set k | k in users && users[k].email == email
  }

  /** `m` is an element of `s` no larger than any other. */
  predicate IsMin(s: set<nat>, m: nat) {
    m in s && forall x :: x in s ==> m <= x
  }

  lemma {:induction false} HasLeast(s: set<nat>)
    requires s != {}
    ensures exists m :: IsMin(s, m)
    decreases |s|
  {
    var y :| y in s;
    var rest := s - {y};
    if rest == {} {
      assert IsMin(s, y) by {
        forall x | x in s ensures y <= x {
          assert x !in rest;
        }
      }
    } else {
      HasLeast(rest);
      var m :| IsMin(rest, m);
      var least := if y < m then y else m;
      assert IsMin(s, least) by {
        forall x | x in s ensures least <= x {
          if x != y {
            assert x in rest;
          }
        }
      }
    }
  }

  function Least(s: set<nat>): (m: nat)
    requires s != {}
    ensures m in s && forall x :: x in s ==> m <= x
  {
    HasLeast(s);
    var m :| IsMin(s, m);
    m
  }

  /** `k` is the smallest id whose row has this email. */
  predicate IsLeastWithEmail(users: Table, email: string, k: nat) {
    k in users && users[k].email == email && forall j :: j in users && users[j].email == email ==> k <= j
  }

  /** `GetUserByEmail`: the row with the smallest id whose email is exactly
      `email` (`First` orders by primary key), or nothing. */
  function FindByEmail(users: Table, email: string): (r: Option<User>)
    ensures r.None? <==> forall k :: k in users ==> users[k].email != email
    ensures r.Some? ==> r.value.email == email
    ensures r.Some? ==> exists k :: k in users && users[k] == r.value && IsLeastWithEmail(users, email, k)
  {
    var ids := IdsWithEmail(users, email);
    assert forall k :: k in users ==> (k in ids <==> users[k].email == email);
    if ids == {} then None
    else
      var k := Least(ids);
      assert IsLeastWithEmail(users, email, k);
      Some(users[k])
  }

  /** `GetUserByID`. */
  function FindByID(users: Table, id: nat): (r: Option<User>)
    ensures r.Some? <==> id in users
    ensures r.Some? ==> r.value == users[id]
  {
    if id in users then Some(users[id]) else None
  }

  /** How `CreateUser` reports a failed insert: an error that mentions a
      duplicate key value or a unique constraint becomes "email already
      registered", any other error is returned as the database gave it. */
  function InsertError(message: string): (e: string)
    ensures e == EmailAlreadyRegistered || e == message
    ensures e == message <== !Contains(message, DuplicateKeyValue) && !Contains(message, UniqueConstraint)
    ensures e == EmailAlreadyRegistered <== Contains(message, DuplicateKeyValue) || Contains(message, UniqueConstraint)
  {
    if Contains(message, DuplicateKeyValue) || Contains(message, UniqueConstraint) then EmailAlreadyRegistered
    else message
  }

  /** A message without a 'v' and without a 'q' mentions neither phrase. */
  lemma KeptWithoutPhraseLetters(a: string, b: string, c: string)
    requires 'v' !in a && 'q' !in a && 'v' !in b && 'q' !in b && 'v' !in c && 'q' !in c
    ensures InsertError(a + b + c) == a + b + c
  {
    var m := a + b + c;
    assert 'v' !in m && 'q' !in m;
    NotContainsMissingChar(m, DuplicateKeyValue, 'v');
    NotContainsMissingChar(m, UniqueConstraint, 'q');
  }

  /** MySQL's duplicate-entry error uses neither phrase (it has no 'v' and no
      'q'), so the repository passes it on unchanged. */
  lemma MySqlDuplicateKept(id: nat)
    ensures InsertError(DuplicateEntry(UsersTable, id)) == DuplicateEntry(UsersTable, id)
  {
    var digits := DecimalDigits(id);
    forall k | 0 <= k < |digits| ensures digits[k] != 'v' && digits[k] != 'q' {
      assert IsDigit(digits[k]);
    }
    DuplicateTextLetters();
    KeptWithoutPhraseLetters(DuplicatePrefix, digits, DuplicateSuffix(UsersTable));
  }

  /** The translation the repository was written for: PostgreSQL's text
      for the same violation becomes "email already registered". */
  lemma PostgresDuplicateTranslated(constraint: string)
    ensures InsertError(PostgresUniqueViolation(constraint)) == EmailAlreadyRegistered
  {
    var pre := "ERROR: ";
    var rest := " violates unique constraint \"" + constraint + "\" (SQLSTATE 23505)";
    var m := pre + DuplicateKeyValue + rest;
    assert PostgresUniqueViolation(constraint) == m;
    assert m[|pre|..|pre| + |DuplicateKeyValue|] == DuplicateKeyValue;
    assert OccursAt(m, DuplicateKeyValue, |pre|);
    ContainsAt(m, DuplicateKeyValue);
  }

  /** `CreateUser`: the insert keeps a non-zero id supplied in the record and
      otherwise takes the next id of the sequence; a taken id violates the
      primary key. MySQL reports that as error 1062, which the repository's
      translation does not recognise, so the error reaches the caller as
      MySQL worded it. Returns the table and the record with its id filled
      in. */
  function CreateUser(users: Table, u: User, nextID: nat): (r: (Effect<Table>, User))
    requires nextID > 0
    ensures r.1 == u.(id := if u.id == 0 then nextID else u.id)
    ensures r.0.Ok() <==> r.1.id !in users
    ensures r.0.Ok() ==> r.0.store == users[r.1.id := r.1]
    ensures !r.0.Ok() ==> r.0 == Effect(users, Some(DuplicateEntry(UsersTable, r.1.id)))
  {
    var row := u.(id := if u.id == 0 then nextID else u.id);
    if row.id in users then
      MySqlDuplicateKept(row.id);
      (Effect(users, Some(InsertError(DuplicateEntry(UsersTable, row.id)))), row)
    else (Effect(users[row.id := row], None), row)
  }

  /** With unique emails, the email lookup finds exactly the row that holds
      the email. */
  lemma FindByEmailUnique(users: Table, email: string, k: nat)
    requires UniqueEmails(users)
    requires k in users && users[k].email == email
    ensures FindByEmail(users, email) == Some(users[k])
  {
    assert IdsWithEmail(users, email) == {k};
  }
}
