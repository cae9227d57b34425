/** What the MySQL database behind the repositories reports to them, in the
    words of the Go MySQL driver and of GORM. The server runs MySQL, and the
    text of its errors matters: the user repository decides how to report a
    failed insert by searching the error text. */
module Database {
  import opened Dates

  /** `gorm.ErrRecordNotFound`. */
  const RecordNotFound := "record not found"

  /** The tables GORM derives from the model names. */
  const UsersTable := "users"
  const BookingsTable := "bookings"

  /** MySQL error 1062 for an insert that reuses the primary key `id` of
      `table`, as the driver formats it (MySQL 8 names the key
      `<table>.PRIMARY`). */
  function DuplicateEntry(table: string, id: nat): string {
    DuplicatePrefix + DecimalDigits(id) + DuplicateSuffix(table)
  }

  const DuplicatePrefix := "Error 1062 (23000): Duplicate entry '"

  function DuplicateSuffix(table: string): string {
    "' for key '" + table + ".PRIMARY'"
  }

  /** PostgreSQL's error for the same violation, the wording the user
      repository's translation looks for. */
  function PostgresUniqueViolation(constraint: string): string {
    "ERROR: " + "duplicate key value" + " violates unique constraint \"" + constraint + "\" (SQLSTATE 23505)"
  }

  /** The fixed parts of the duplicate-entry error for the user table hold
      neither a 'v' nor a 'q'. */
  lemma DuplicateTextLetters()
    ensures 'v' !in DuplicatePrefix && 'q' !in DuplicatePrefix
    ensures 'v' !in DuplicateSuffix(UsersTable) && 'q' !in DuplicateSuffix(UsersTable)
  {
  }
}
