/** The round trip of the `YYYY-MM-DD` codec of `Dates`: formatting and then
    parsing restores a date of years 0..9999, and the parser accepts exactly
    the strings the formatter produces (so it is canonical: one spelling per
    date, no other input). */
module DateCodec {
  import opened Wrappers
  import opened Dates

  function Pow10(w: nat): (p: nat)
    ensures p >= 1
  {
    if w == 0 then 1 else 10 * Pow10(w - 1)
  }

  lemma {:induction false} ValueOfDecimal(n: nat)
    ensures ValueOf(DecimalDigits(n)) == n
  {
    if n >= 10 {
      var s := DecimalDigits(n);
      assert s[..|s| - 1] == DecimalDigits(n / 10);
      ValueOfDecimal(n / 10);
    }
  }

  lemma {:induction false} DecimalLength(n: nat, w: nat)
    requires w >= 1 && n < Pow10(w)
    ensures |DecimalDigits(n)| <= w
  {
    if n >= 10 {
      assert w >= 2;
      DecimalLength(n / 10, w - 1);
    }
  }

  lemma {:induction false} ValueOfZeros(k: nat)
    ensures ValueOf(Zeros(k)) == 0
  {
    if k > 0 {
      assert Zeros(k)[..k - 1] == Zeros(k - 1) by {
        ZerosSnoc(k - 1);
      }
      ValueOfZeros(k - 1);
    }
  }

  lemma {:induction false} ZerosSnoc(k: nat)
    ensures Zeros(k + 1) == Zeros(k) + "0"
  {
    if k > 0 {
      ZerosSnoc(k - 1);
    }
  }

  lemma {:induction false} ValueOfZerosPrefix(k: nat, s: string)
    requires AllDigits(s)
    ensures AllDigits(Zeros(k) + s)
    ensures ValueOf(Zeros(k) + s) == ValueOf(s)
    decreases |s|
  {
    var t := Zeros(k) + s;
    assert forall i :: 0 <= i < |t| ==> IsDigit(t[i]) by {
      forall i | 0 <= i < |t|
        ensures IsDigit(t[i])
      {
        if i < k {
          assert t[i] == Zeros(k)[i];
        } else {
          assert t[i] == s[i - k];
        }
      }
    }
    if |s| == 0 {
      assert t == Zeros(k);
      ValueOfZeros(k);
    } else {
      assert t[..|t| - 1] == Zeros(k) + s[..|s| - 1];
      ValueOfZerosPrefix(k, s[..|s| - 1]);
    }
  }

  /** Two digit strings of the same length with the same value are equal. */
  lemma {:induction false} ValueOfInjective(s: string, t: string)
    requires AllDigits(s) && AllDigits(t) && |s| == |t|
    requires ValueOf(s) == ValueOf(t)
    ensures s == t
  {
    if |s| > 0 {
      var n := |s| - 1;
      assert DigitValue(s[n]) == ValueOf(s) % 10;
      assert DigitValue(t[n]) == ValueOf(t) % 10;
      assert ValueOf(s[..n]) == ValueOf(s) / 10;
      assert ValueOf(t[..n]) == ValueOf(t) / 10;
      ValueOfInjective(s[..n], t[..n]);
      assert s == s[..n] + [s[n]];
      assert t == t[..n] + [t[n]];
    }
  }

  /** The padded spelling of `n` has exactly `w` digits and denotes `n`. */
  lemma PaddedDigits(n: nat, w: nat)
    requires w >= 1 && n < Pow10(w)
    ensures |LeftPad(DecimalDigits(n), w)| == w
    ensures AllDigits(LeftPad(DecimalDigits(n), w))
    ensures ValueOf(LeftPad(DecimalDigits(n), w)) == n
  {
    var s := DecimalDigits(n);
    DecimalLength(n, w);
    ValueOfDecimal(n);
    if |s| < w {
      var p := Zeros(w - |s|) + s;
      assert LeftPad(s, w) == p;
      ValueOfZerosPrefix(w - |s|, s);
    } else {
      assert LeftPad(s, w) == s;
    }
  }

  /** A string of `w` digits is the padded spelling of its own value. */
  lemma PaddedOfValue(s: string, w: nat)
    requires w >= 1 && |s| == w && AllDigits(s)
    ensures ValueOf(s) < Pow10(w)
    ensures LeftPad(DecimalDigits(ValueOf(s)), w) == s
  {
    ValueOfBound(s);
    PaddedDigits(ValueOf(s), w);
    ValueOfInjective(LeftPad(DecimalDigits(ValueOf(s)), w), s);
  }

  lemma {:induction false} ValueOfBound(s: string)
    requires AllDigits(s)
    ensures ValueOf(s) < Pow10(|s|)
  {
    if |s| > 0 {
      ValueOfBound(s[..|s| - 1]);
    }
  }

  /** Years 0..9999 are formatted as exactly four digits. */
  lemma YearSpelling(y: int)
    requires 0 <= y <= 9999
    ensures |FormatYear(y)| == 4 && AllDigits(FormatYear(y))
    ensures ValueOf(FormatYear(y)) == y
  {
    assert Pow10(4) == 10000;
    PaddedDigits(y, 4);
  }

  /** Month and day numbers 1..31 are formatted as exactly two digits. */
  lemma TwoDigitSpelling(n: int)
    requires 1 <= n <= 31
    ensures |LeftPad(DecimalDigits(n), 2)| == 2 && AllDigits(LeftPad(DecimalDigits(n), 2))
    ensures ValueOf(LeftPad(DecimalDigits(n), 2)) == n
  {
    assert Pow10(2) == 100;
    PaddedDigits(n, 2);
  }

  /** The formatted date of years 0..9999 is ten characters, "YYYY-MM-DD". */
  lemma FormatShape(d: Date)
    requires Valid(d) && 0 <= d.year <= 9999
    ensures |Format(d)| == 10
    ensures Format(d)[4] == '-' && Format(d)[7] == '-'
    ensures Format(d)[..4] == FormatYear(d.year)
    ensures Format(d)[5..7] == LeftPad(DecimalDigits(d.month), 2)
    ensures Format(d)[8..] == LeftPad(DecimalDigits(d.day), 2)
  {
    YearSpelling(d.year);
    TwoDigitSpelling(d.month);
    TwoDigitSpelling(d.day);
  }

  /** Round trip: parsing the formatted date restores it. */
  lemma ParseFormat(d: Date)
    requires Valid(d) && 0 <= d.year <= 9999
    ensures Parse(Format(d)) == Some(d)
  {
    var s := Format(d);
    FormatShape(d);
    YearSpelling(d.year);
    TwoDigitSpelling(d.month);
    TwoDigitSpelling(d.day);
    assert s[4..][1..][..2] == s[5..7];
    assert s[4..][1..][2..][1..][..2] == s[8..];
    assert s[4..][1..][2..][1..][2..] == [];
  }

  /** Canonicity: whatever the parser accepts is a valid date of years
      0..9999 whose formatted form is the input itself. */
  lemma FormatParse(s: string)
    requires Parse(s).Some?
    ensures Valid(Parse(s).value) && 0 <= Parse(s).value.year <= 9999
    ensures Format(Parse(s).value) == s
  {
    var d := Parse(s).value;
    assert |s| == 10;
    var ys, ms, ds := s[..4], s[5..7], s[8..10];
    assert s[4..][1..][..2] == ms;
    assert s[4..][1..][2..][1..][..2] == ds;
    assert AllDigits(ms) && AllDigits(ds);
    PaddedOfValue(ys, 4);
    PaddedOfValue(ms, 2);
    PaddedOfValue(ds, 2);
    assert d.year == ValueOf(ys) && d.month == ValueOf(ms) && d.day == ValueOf(ds);
    assert Pow10(4) == 10000;
    assert s == ys + "-" + ms + "-" + ds;
  }

  /** The parser and the formatter are inverse bijections between the valid
      dates of years 0..9999 and the strings the parser accepts. */
  lemma ParseIff(s: string, d: Date)
    ensures Parse(s) == Some(d) <==> (Valid(d) && 0 <= d.year <= 9999 && s == Format(d))
  {
    if Parse(s) == Some(d) {
      FormatParse(s);
    }
    if Valid(d) && 0 <= d.year <= 9999 && s == Format(d) {
      ParseFormat(d);
    }
  }

  /** JSON round trip: `UnmarshalJSON(MarshalJSON(d))` restores `d`,
      whatever date the receiver held before. */
  lemma MarshalUnmarshal(prev: Date, d: Date)
    requires Valid(d) && 0 <= d.year <= 9999
    ensures UnmarshalJSON(prev, MarshalJSON(d)) == (d, None)
  {
    ParseFormat(d);
  }

  /** The delimiters are never inspected: any two bytes around a well-formed
      date are accepted as if they were quotes. */
  lemma UnmarshalIgnoresDelimiters(prev: Date, open: char, close: char, d: Date)
    requires Valid(d) && 0 <= d.year <= 9999
    ensures UnmarshalJSON(prev, [open] + Format(d) + [close]) == (d, None)
  {
    var b := [open] + Format(d) + [close];
    assert b[1..|b| - 1] == Format(d);
    ParseFormat(d);
  }

  /** Scanning the `Value` text back restores the date, for a driver that
      returns a DATE column as text. The server's MySQL connection sets
      `parseTime=True`, so there the driver returns a time value instead and
      `Scan` takes the `TimeValue` branch, which keeps the date as is. */
  lemma ValueScan(prev: Date, d: Date)
    requires Valid(d) && 0 <= d.year <= 9999
    ensures Scan(prev, Text(Value(d))) == (d, None)
  {
    ParseFormat(d);
  }

  lemma {:induction false} DecimalLengthAtLeast(n: nat, w: nat)
    requires n >= Pow10(w)
    ensures |DecimalDigits(n)| > w
  {
    if w > 0 {
      DecimalLengthAtLeast(n / 10, w - 1);
    }
  }

  /** Years past 9999 are formatted with more than four digits, which the
      parser rejects: the round trip is limited to years 0..9999. */
  lemma LargeYearsDoNotRoundTrip(d: Date)
    requires Valid(d) && d.year > 9999
    ensures Parse(Format(d)).None?
  {
    assert Pow10(4) == 10000;
    DecimalLengthAtLeast(d.year, 4);
    assert |Format(d)| > 10;
  }
}
