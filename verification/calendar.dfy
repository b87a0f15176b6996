/** Proleptic Gregorian calendar dates and their ISO `YYYY-MM-DD` text form.

    Partition keys arrive as ISO date strings. The database turns a key into a date (and a
    date into midnight of that day) and the rolling CSV keeps keys as plain text; this
    module relates the two views. */
module Calendar {
  import opened Wrappers
  import opened LexOrder

  datatype Date = Date(year: int, month: int, day: int)

  predicate IsLeapYear(y: int) {
    y % 4 == 0 && (y % 100 != 0 || y % 400 == 0)
  }

  function YearLength(y: int): int {
    if IsLeapYear(y) then 366 else 365
  }

  function DaysInMonth(y: int, m: int): int
    requires 1 <= m <= 12
  {
    if m == 2 then (if IsLeapYear(y) then 29 else 28)
    else if m == 4 || m == 6 || m == 9 || m == 11 then 30
    else 31
  }

  /** A real calendar day whose year has four digits. */
  predicate Valid(d: Date) {
    && 1 <= d.year <= 9999
    && 1 <= d.month <= 12
    && 1 <= d.day <= DaysInMonth(d.year, d.month)
  }

  /** Days from 0001-01-01 to January 1st of year `y`. */
  function DaysBeforeYear(y: int): int
    requires y >= 1
  {
    var p := y - 1;
    365 * p + p / 4 - p / 100 + p / 400
  }

  /** Days from January 1st of year `y` to the first day of month `m` (13 = next January). */
  function DaysBeforeMonth(y: int, m: int): (r: int)
    requires 1 <= m <= 13
    ensures 0 <= r
  {
    if m == 1 then 0 else DaysBeforeMonth(y, m - 1) + DaysInMonth(y, m - 1)
  }

  /** Days from 0001-01-01 to 1970-01-01, the epoch of database timestamps. */
  const UnixEpochDays := 719162

  /** Days since 1970-01-01 (negative before it). */
  function DayNumber(d: Date): int
    requires Valid(d)
  {
    DaysBeforeYear(d.year) + DaysBeforeMonth(d.year, d.month) + d.day - 1 - UnixEpochDays
  }

  /** Chronological order of dates: by year, then month, then day. */
  predicate Before(a: Date, b: Date) {
    || a.year < b.year
    || (a.year == b.year && a.month < b.month)
    || (a.year == b.year && a.month == b.month && a.day < b.day)
  }

  lemma UnixEpochIsDayZero()
    ensures Valid(Date(1970, 1, 1)) && DayNumber(Date(1970, 1, 1)) == 0
  {
    assert DaysBeforeYear(1970) == UnixEpochDays;
  }

  /** One more year adds exactly that year's length. */
  lemma YearStep(y: int)
    requires y >= 1
    ensures DaysBeforeYear(y + 1) == DaysBeforeYear(y) + YearLength(y)
  {
    var p := y - 1;
    assert (p + 1) / 4 == p / 4 + (if y % 4 == 0 then 1 else 0);
    assert (p + 1) / 100 == p / 100 + (if y % 100 == 0 then 1 else 0);
    assert (p + 1) / 400 == p / 400 + (if y % 400 == 0 then 1 else 0);
  }

  /** The twelve months together make up the year. */
  lemma MonthsFillYear(y: int)
    ensures DaysBeforeMonth(y, 13) == YearLength(y)
  {
    var feb := DaysInMonth(y, 2);
    assert DaysBeforeMonth(y, 2) == 31;
    assert DaysBeforeMonth(y, 3) == 31 + feb;
    assert DaysBeforeMonth(y, 4) == 62 + feb;
    assert DaysBeforeMonth(y, 5) == 92 + feb;
    assert DaysBeforeMonth(y, 6) == 123 + feb;
    assert DaysBeforeMonth(y, 7) == 153 + feb;
    assert DaysBeforeMonth(y, 8) == 184 + feb;
    assert DaysBeforeMonth(y, 9) == 215 + feb;
    assert DaysBeforeMonth(y, 10) == 245 + feb;
    assert DaysBeforeMonth(y, 11) == 276 + feb;
    assert DaysBeforeMonth(y, 12) == 306 + feb;
  }

  /** A month ends no later than any later month begins. */
  lemma {:induction false} MonthsInOrder(y: int, m1: int, m2: int)
    requires 1 <= m1 < m2 <= 13
    ensures DaysBeforeMonth(y, m1) + DaysInMonth(y, m1) <= DaysBeforeMonth(y, m2)
    decreases m2 - m1
  {
    if m1 + 1 < m2 {
      MonthsInOrder(y, m1 + 1, m2);
    }
  }

  /** A year ends no later than any later year begins. */
  lemma {:induction false} YearsInOrder(y1: int, y2: int)
    requires 1 <= y1 < y2
    ensures DaysBeforeYear(y1) + YearLength(y1) <= DaysBeforeYear(y2)
    decreases y2 - y1
  {
    YearStep(y1);
    if y1 + 1 < y2 {
      YearsInOrder(y1 + 1, y2);
      YearStep(y1 + 1);
    }
  }

  /** The day of a valid date lies inside its year. */
  lemma DayWithinYear(d: Date)
    requires Valid(d)
    ensures DaysBeforeYear(d.year) <= DayNumber(d) + UnixEpochDays < DaysBeforeYear(d.year) + YearLength(d.year)
  {
    MonthsFillYear(d.year);
    MonthsInOrder(d.year, d.month, 13);
  }

  /** Day numbers follow the calendar: one date is earlier exactly when its day number is smaller. */
  lemma DayNumberOrder(a: Date, b: Date)
    requires Valid(a) && Valid(b)
    ensures Before(a, b) <==> DayNumber(a) < DayNumber(b)
    ensures a == b <==> DayNumber(a) == DayNumber(b)
  {
    if a.year != b.year {
      var (x, y) := if a.year < b.year then (a, b) else (b, a);
      DayWithinYear(x);
      DayWithinYear(y);
      YearsInOrder(x.year, y.year);
    } else if a.month != b.month {
      var (x, y) := if a.month < b.month then (a, b) else (b, a);
      MonthsInOrder(a.year, x.month, y.month);
    }
  }

  /** The calendar day after `d`. */
  function NextDate(d: Date): Date
    requires Valid(d)
  {
    if d.day < DaysInMonth(d.year, d.month) then Date(d.year, d.month, d.day + 1)
    else if d.month < 12 then Date(d.year, d.month + 1, 1)
    else Date(d.year + 1, 1, 1)
  }

  /** Day numbers have no gaps: the next calendar day, when it still has a four-digit year,
      is numbered exactly one more. */
  lemma NextDateStep(d: Date)
    requires Valid(d) && (d.year < 9999 || d.month < 12 || d.day < 31)
    ensures Valid(NextDate(d)) && DayNumber(NextDate(d)) == DayNumber(d) + 1
  {
    if d.day == DaysInMonth(d.year, d.month) {
      if d.month == 12 {
        YearStep(d.year);
        MonthsFillYear(d.year);
        assert DaysBeforeMonth(d.year, 13) == DaysBeforeMonth(d.year, 12) + 31;
      } else {
        assert DaysBeforeMonth(d.year, d.month + 1) == DaysBeforeMonth(d.year, d.month) + d.day;
      }
    }
  }

  // ---------------------------------------------------------------------------
  // Decimal digits

  function Pow10(n: nat): (r: nat)
    ensures r >= 1
  {
    if n == 0 then 1 else 10 * Pow10(n - 1)
  }

  predicate IsDigit(c: char) {
    '0' <= c <= '9'
  }

  predicate AllDigits(s: string) {
    forall i :: 0 <= i < |s| ==> IsDigit(s[i])
  }

  function DigitChar(v: int): (c: char)
    requires 0 <= v <= 9
    ensures IsDigit(c)
  {
    (48 + v) as char
  }

  function DigitValue(c: char): int
    requires IsDigit(c)
  {
    c as int - 48
  }

  /** `v` written with exactly `n` decimal digits, zero-padded on the left. */
  function Pad(v: nat, n: nat): (s: string)
    requires v < Pow10(n)
    ensures |s| == n && AllDigits(s)
  {
    if n == 0 then [] else Pad(v / 10, n - 1) + [DigitChar(v % 10)]
  }

  /** The number a string of decimal digits denotes. */
  function ParseDigits(s: string): (v: nat)
    requires AllDigits(s)
    ensures v < Pow10(|s|)
  {
    if |s| == 0 then 0 else 10 * ParseDigits(s[..|s| - 1]) + DigitValue(s[|s| - 1])
  }

  lemma {:induction false} ParsePad(v: nat, n: nat)
    requires v < Pow10(n)
    ensures ParseDigits(Pad(v, n)) == v
    decreases n
  {
    if n > 0 {
      var s := Pad(v, n);
      assert s[..n - 1] == Pad(v / 10, n - 1);
      ParsePad(v / 10, n - 1);
    }
  }

  lemma {:induction false} PadParse(s: string)
    requires AllDigits(s)
    ensures Pad(ParseDigits(s), |s|) == s
    decreases |s|
  {
    if |s| > 0 {
      var n := |s|;
      var v := ParseDigits(s);
      assert AllDigits(s[..n - 1]);
      assert v / 10 == ParseDigits(s[..n - 1]) && v % 10 == DigitValue(s[n - 1]);
      PadParse(s[..n - 1]);
      assert s == s[..n - 1] + [s[n - 1]];
    }
  }

  /** Zero-padded numerals of one width sort as text exactly as the numbers sort. */
  lemma {:induction false} PadOrder(a: nat, b: nat, n: nat)
    requires a < Pow10(n) && b < Pow10(n)
    ensures Less(Pad(a, n), Pad(b, n)) <==> a < b
    decreases n
  {
    if n > 0 {
      PadOrder(a / 10, b / 10, n - 1);
      LessConcat(Pad(a / 10, n - 1), [DigitChar(a % 10)], Pad(b / 10, n - 1), [DigitChar(b % 10)]);
      if Pad(a / 10, n - 1) == Pad(b / 10, n - 1) {
        LessIrreflexive(Pad(a / 10, n - 1));
        ParsePad(a / 10, n - 1);
        ParsePad(b / 10, n - 1);
      }
    }
  }

  lemma PadInjective(a: nat, b: nat, n: nat)
    requires a < Pow10(n) && b < Pow10(n)
    ensures Pad(a, n) == Pad(b, n) <==> a == b
  {
    if Pad(a, n) == Pad(b, n) {
      ParsePad(a, n);
      ParsePad(b, n);
    }
  }

  // ---------------------------------------------------------------------------
  // ISO 8601 calendar-date text

  /** `YYYY-MM`, the year and month part of an ISO date. */
  function FormatYearMonth(y: nat, m: nat): (s: string)
    requires y < 10000 && m < 100
    ensures |s| == 7 && s[4] == '-'
  {
    Pad(y, 4) + ("-" + Pad(m, 2))
  }

  /** `YYYY-MM-DD`. */
  function FormatIsoDate(d: Date): (s: string)
    requires Valid(d)
    ensures |s| == 10 && s[4] == '-' && s[7] == '-'
  {
    FormatYearMonth(d.year, d.month) + ("-" + Pad(d.day, 2))
  }

  /** Reads a `YYYY-MM-DD` string; `None` when it is not of that shape or names no real day. */
  function ParseIsoDate(s: string): (r: Option<Date>)
    ensures r.Some? ==> Valid(r.value)
  {
    if |s| == 10 && s[4] == '-' && s[7] == '-'
       && AllDigits(s[..4]) && AllDigits(s[5..7]) && AllDigits(s[8..])
    then
      var d := Date(ParseDigits(s[..4]), ParseDigits(s[5..7]), ParseDigits(s[8..]));
      if Valid(d) then Some(d) else None
    else None
  }

  lemma FormatParts(d: Date)
    requires Valid(d)
    ensures FormatIsoDate(d)[..4] == Pad(d.year, 4)
    ensures FormatIsoDate(d)[5..7] == Pad(d.month, 2)
    ensures FormatIsoDate(d)[8..] == Pad(d.day, 2)
    ensures FormatIsoDate(d)[..7] == FormatYearMonth(d.year, d.month)
  {
  }

  /** Formatting a valid date and reading it back gives the date. */
  lemma ParseFormat(d: Date)
    requires Valid(d)
    ensures ParseIsoDate(FormatIsoDate(d)) == Some(d)
  {
    FormatParts(d);
    ParsePad(d.year, 4);
    ParsePad(d.month, 2);
    ParsePad(d.day, 2);
  }

  /** A string that reads as a date is that date's canonical text: there is one key per day. */
  lemma FormatParse(s: string)
    requires ParseIsoDate(s).Some?
    ensures FormatIsoDate(ParseIsoDate(s).value) == s
  {
    var d := ParseIsoDate(s).value;
    var y, m, dd := s[..4], s[5..7], s[8..];
    assert |s| == 10 && s[4] == '-' && s[7] == '-';
    assert AllDigits(y) && AllDigits(m) && AllDigits(dd);
    assert d.year == ParseDigits(y) && d.month == ParseDigits(m) && d.day == ParseDigits(dd);
    PadParse(y);
    PadParse(m);
    PadParse(dd);
    DateTextParts(s);
  }

  /** A ten-character string with dashes at 4 and 7 is its three fields joined by dashes. */
  lemma DateTextParts(s: string)
    requires |s| == 10 && s[4] == '-' && s[7] == '-'
    ensures s == s[..4] + ("-" + s[5..7]) + ("-" + s[8..])
  {
  }

  /** ISO date text sorts as the dates do, so sorting keys as strings sorts them in time. */
  lemma FormatOrder(a: Date, b: Date)
    requires Valid(a) && Valid(b)
    ensures Less(FormatIsoDate(a), FormatIsoDate(b)) <==> Before(a, b)
  {
    var ya, yb := Pad(a.year, 4), Pad(b.year, 4);
    var ma, mb := Pad(a.month, 2), Pad(b.month, 2);
    var da, db := Pad(a.day, 2), Pad(b.day, 2);
    PadOrder(a.year, b.year, 4);
    PadOrder(a.month, b.month, 2);
    PadOrder(a.day, b.day, 2);
    PadInjective(a.year, b.year, 4);
    PadInjective(a.month, b.month, 2);
    LessConcat(FormatYearMonth(a.year, a.month), "-" + da, FormatYearMonth(b.year, b.month), "-" + db);
    LessConcat("-", da, "-", db);
    LessConcat(ya, "-" + ma, yb, "-" + mb);
    LessConcat("-", ma, "-", mb);
    LessIrreflexive("-");
    if FormatYearMonth(a.year, a.month) == FormatYearMonth(b.year, b.month) {
      assert FormatYearMonth(a.year, a.month)[..4] == ya;
      assert FormatYearMonth(b.year, b.month)[..4] == yb;
      assert FormatYearMonth(a.year, a.month)[5..] == ma;
      assert FormatYearMonth(b.year, b.month)[5..] == mb;
    }
    if ya == yb && ma == mb {
      assert FormatYearMonth(a.year, a.month) == FormatYearMonth(b.year, b.month);
    }
  }
}
