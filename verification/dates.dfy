/** The `Date` wrapper of the user model: a calendar date written in the
    `YYYY-MM-DD` layout (Go's reference layout "2006-01-02", the full-date
    form of section 5.6 of RFC 3339) in JSON and in the database.

    A Go `time.Time` is always a normalised instant; the model keeps only its
    calendar part (year, month, day). Go strings are byte strings: a model
    `string` holds one `char` per byte. */
module Dates {
  import opened Wrappers

  datatype Date = Date(year: int, month: int, day: int)

  /** The zero `time.Time` is 0001-01-01. */
  const ZeroDate := Date(1, 1, 1)

  /** The one error message `UnmarshalJSON` reports. */
  const InvalidFormat := "invalid date format, use YYYY-MM-DD"

  /** The error message `Scan` reports for a value of an unsupported type. */
  const InvalidType := "invalid type for Date"

  /** Gregorian leap years (Go's `isLeap`; only divisibility matters, so
      Go's truncating `%` and Dafny's Euclidean `%` agree). */
  predicate IsLeap(y: int) {
    y % 4 == 0 && (y % 100 != 0 || y % 400 == 0)
  }

  /** Number of days in month `m` (1..12) of year `y`. */
  function DaysIn(m: int, y: int): (n: int)
    requires 1 <= m <= 12
    ensures 28 <= n <= 31
    ensures m == 2 ==> (n == 29 <==> IsLeap(y))
  {
    if m == 2 then (if IsLeap(y) then 29 else 28)
    else if m == 4 || m == 6 || m == 9 || m == 11 then 30
    else 31
  }

  /** A date a `time.Time` can denote: month 1..12 and a day of that month. */
  predicate Valid(d: Date) {
    1 <= d.month <= 12 && 1 <= d.day <= DaysIn(d.month, d.year)
  }

  // ---------------------------------------------------------------- digits

  predicate IsDigit(c: char) {
    '0' <= c <= '9'
  }

  predicate AllDigits(s: string) {
    forall k :: 0 <= k < |s| ==> IsDigit(s[k])
  }

  function DigitChar(n: nat): (c: char)
    requires n < 10
    ensures IsDigit(c)
  {
    ('0' as int + n) as char
  }

  function DigitValue(c: char): (n: nat)
    requires IsDigit(c)
    ensures n < 10
  {
    c as int - '0' as int
  }

  /** The decimal value of a string of digits (Go's `atoi` without a sign). */
  function ValueOf(s: string): nat
    requires AllDigits(s)
  {
    if |s| == 0 then 0 else ValueOf(s[..|s| - 1]) * 10 + DigitValue(s[|s| - 1])
  }

  /** The shortest decimal spelling of `n` (Go's `appendInt` with width 0). */
  function DecimalDigits(n: nat): (s: string)
    ensures |s| >= 1 && AllDigits(s)
    ensures n < 100 ==> |s| <= 2
  {
    if n < 10 then [DigitChar(n)] else DecimalDigits(n / 10) + [DigitChar(n % 10)]
  }

  function Zeros(k: nat): (z: string)
    ensures |z| == k && AllDigits(z)
  {
    if k == 0 then "" else "0" + Zeros(k - 1)
  }

  /** Left-pad a digit string with zeros to at least `width` characters. */
  function LeftPad(s: string, width: nat): (p: string)
    ensures |p| == if |s| >= width then |s| else width
    ensures AllDigits(s) ==> AllDigits(p)
  {
    if |s| >= width then s else Zeros(width - |s|) + s
  }

  // ------------------------------------------------------------- formatting

  /** Go's "2006" element: the year padded to four digits, with a leading
      minus sign for negative years. */
  function FormatYear(y: int): (s: string)
    ensures |s| >= 4
    ensures s[0] == '-' <==> y < 0
  {
    if y < 0 then "-" + LeftPad(DecimalDigits(-y), 4) else LeftPad(DecimalDigits(y), 4)
  }

  /** `Time.Format("2006-01-02")` for a normalised date. */
  function Format(d: Date): (f: string)
    requires Valid(d)
    ensures |f| >= 10
    ensures f[|f| - 6] == '-' && f[|f| - 3] == '-'
    ensures f[0] == '-' <==> d.year < 0
  {
    FormatYear(d.year) + "-" + LeftPad(DecimalDigits(d.month), 2) + "-" + LeftPad(DecimalDigits(d.day), 2)
  }

  // ---------------------------------------------------------------- parsing

  /** `time.Parse("2006-01-02", s)`, step by step as Go reads the layout:
      "2006" needs four characters starting with a digit, all digits; each
      "-" must match literally; "01" and "02" need exactly two digits; no
      text may remain; the month must be 1..12 and the day must exist in
      that month of that year. Every failure is the same `None`. */
  function Parse(s: string): (r: Option<Date>)
    ensures r.Some? ==> Valid(r.value) && r.value.year >= 0
    ensures r.Some? ==> |s| == 10 && s[4] == '-' && s[7] == '-' && AllDigits(s[..4])
  {
    if |s| < 4 || !IsDigit(s[0]) || !AllDigits(s[..4]) then None
    else
      var year := ValueOf(s[..4]);
      var rest := s[4..];
      if |rest| < 1 || rest[0] != '-' then None
      else
        var rest := rest[1..];
        if |rest| < 2 || !IsDigit(rest[0]) || !IsDigit(rest[1]) then None
        else
          var month := ValueOf(rest[..2]);
          var rest := rest[2..];
          if |rest| < 1 || rest[0] != '-' then None
          else
            var rest := rest[1..];
            if |rest| < 2 || !IsDigit(rest[0]) || !IsDigit(rest[1]) then None
            else
              var day := ValueOf(rest[..2]);
              var rest := rest[2..];
              if |rest| > 0 then None
              else if month < 1 || month > 12 then None
              else if day < 1 || day > DaysIn(month, year) then None
              else Some(Date(year, month, day))
  }

  // ------------------------------------------------- the methods of Date.go

  /** `(*Date).UnmarshalJSON`: drop the first and the last byte (meant to be
      the quotes, never checked) and parse the rest. On failure the date keeps
      its previous value. Go panics on fewer than two bytes. */
  function UnmarshalJSON(d: Date, b: string): (r: (Date, Option<string>))
    requires |b| >= 2
    ensures r.1.None? <==> Parse(b[1..|b| - 1]).Some?
    ensures r.1.None? ==> r.0 == Parse(b[1..|b| - 1]).value
    ensures r.1.Some? ==> r == (d, Some(InvalidFormat))
  {
    match Parse(b[1..|b| - 1])
    case None => (d, Some(InvalidFormat))
    case Some(t) => (t, None)
  }

  /** `Date.MarshalJSON`: the formatted date between double quotes. */
  function MarshalJSON(d: Date): (b: string)
    requires Valid(d)
    ensures |b| >= 2 && b[0] == '"' && b[|b| - 1] == '"'
    ensures b[1..|b| - 1] == Value(d)
  {
    "\"" + Format(d) + "\""
  }

  /** `Date.Value`: the formatted date, unquoted, as the database value. */
  function Value(d: Date): (v: string)
    requires Valid(d)
    ensures |v| >= 10 && v[|v| - 6] == '-' && v[|v| - 3] == '-'
  {
    Format(d)
  }

  /** The dynamic type of the value `Scan` receives from the driver. */
  datatype DbValue = Nil | TimeValue(t: Date) | Text(s: string) | OtherType

  datatype ScanError = ParseError(input: string) | TypeError(message: string)

  /** `(*Date).Scan`: nil gives the zero date, a `time.Time` is taken as is,
      a string is parsed with the same layout (the date is kept on a parse
      error, whose `time.ParseError` is returned), anything else is an error. */
  function Scan(d: Date, v: DbValue): (r: (Date, Option<ScanError>))
    ensures v.Nil? ==> r == (ZeroDate, None)
    ensures v.TimeValue? ==> r == (v.t, None)
    ensures v.Text? ==> (r.1.None? <==> Parse(v.s).Some?)
    ensures v.Text? && r.1.None? ==> r.0 == Parse(v.s).value
    ensures v.OtherType? ==> r == (d, Some(TypeError(InvalidType)))
    ensures r.1.Some? ==> r.0 == d
  {
    match v
    case Nil => (ZeroDate, None)
    case TimeValue(t) => (t, None)
    case Text(s) =>
      (match Parse(s)
       case None => (d, Some(ParseError(s)))
       case Some(t) => (t, None))
    case OtherType => (d, Some(TypeError(InvalidType)))
  }
}
