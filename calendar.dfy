/**
 * Calendar dates as Python's `datetime.date` handles them: the proleptic
 * Gregorian calendar, the leap-year and month-length rules of section 5.7 of
 * RFC 3339, day ordinals as `date.toordinal()` numbers them (0001-01-01 is
 * day 1), and the strict `YYYY-MM-DD` full-date of section 5.6 of RFC 3339.
 */
module Calendar {
  import opened Results
  import opened Decimal

  datatype Date = Date(year: int, month: int, day: int)

  predicate IsLeapYear(y: int) {
    y % 4 == 0 && (y % 100 != 0 || y % 400 == 0)
  }

  function DaysInYear(y: int): int {
    if IsLeapYear(y) then 366 else 365
  }

  function DaysInMonth(y: int, m: int): (n: int)
    requires 1 <= m <= 12
    ensures 28 <= n <= 31
    ensures n == 29 <==> m == 2 && IsLeapYear(y)
  {
    if m == 2 then (if IsLeapYear(y) then 29 else 28)
    else if m == 4 || m == 6 || m == 9 || m == 11 then 30
    else 31
  }

  /** A date `datetime.date` accepts (its upper year bound is kept by the four-digit year field). */
  predicate ValidDate(d: Date) {
    1 <= d.year && 1 <= d.month <= 12 && 1 <= d.day <= DaysInMonth(d.year, d.month)
  }

  /** Days in the years before `y`: the closed form `datetime` uses. */
  function DaysBeforeYear(y: int): int
    requires y >= 1
  {
    var p := y - 1;
    p * 365 + p / 4 - p / 100 + p / 400
  }

  /** Days in the months of year `y` before month `m`. */
  function DaysBeforeMonth(y: int, m: int): int
    requires 1 <= m <= 12
  {
    var leap := if m > 2 && IsLeapYear(y) then 1 else 0;
    leap + (match m
      case 1 => 0     case 2 => 31    case 3 => 59    case 4 => 90
      case 5 => 120   case 6 => 151   case 7 => 181   case 8 => 212
      case 9 => 243   case 10 => 273  case 11 => 304  case _ => 334)
  }

  /** `date.toordinal()`. */
  function Ordinal(d: Date): int
    requires ValidDate(d)
  {
    DaysBeforeYear(d.year) + DaysBeforeMonth(d.year, d.month) + d.day
  }

  /** `(b - a).days` for two dates: the signed number of days from `a` to `b`. */
  function DayDifference(a: Date, b: Date): int
    requires ValidDate(a) && ValidDate(b)
  {
    Ordinal(b) - Ordinal(a)
  }

  /** The calendar day after `d`. */
  function NextDay(d: Date): (e: Date)
    requires ValidDate(d)
    ensures ValidDate(e)
  {
    if d.day < DaysInMonth(d.year, d.month) then Date(d.year, d.month, d.day + 1)
    else if d.month < 12 then Date(d.year, d.month + 1, 1)
    else Date(d.year + 1, 1, 1)
  }

  /** The date `n` calendar days after `d`, stepping one day at a time. */
  function Advance(d: Date, n: nat): (e: Date)
    requires ValidDate(d)
    ensures ValidDate(e)
    decreases n
  {
    if n == 0 then d else Advance(NextDay(d), n - 1)
  }

  /** Lexicographic order on (year, month, day): the order of the calendar. */
  predicate Before(a: Date, b: Date) {
    a.year < b.year
    || (a.year == b.year && a.month < b.month)
    || (a.year == b.year && a.month == b.month && a.day < b.day)
  }

  lemma DivStep(y: int, k: int)
    requires y >= 1 && (k == 4 || k == 100 || k == 400)
    ensures y / k - (y - 1) / k == if y % k == 0 then 1 else 0
  {
    var q, r := (y - 1) / k, (y - 1) % k;
    if k == 4 {
      assert y - 1 == 4 * q + r && 0 <= r < 4;
    } else if k == 100 {
      assert y - 1 == 100 * q + r && 0 <= r < 100;
    } else {
      assert y - 1 == 400 * q + r && 0 <= r < 400;
    }
  }

  lemma Divides400(y: int)
    requires y % 400 == 0
    ensures y % 100 == 0
  {
    var q := y / 400;
    assert y == 100 * (4 * q);
  }

  lemma Divides100(y: int)
    requires y % 100 == 0
    ensures y % 4 == 0
  {
    var q := y / 100;
    assert y == 4 * (25 * q);
  }

  /** Consecutive years: the closed form adds exactly the length of the earlier year. */
  lemma DaysBeforeNextYear(y: int)
    requires y >= 1
    ensures DaysBeforeYear(y + 1) == DaysBeforeYear(y) + DaysInYear(y)
  {
    DivStep(y, 4);
    DivStep(y, 100);
    DivStep(y, 400);
    if y % 400 == 0 {
      Divides400(y);
    }
    if y % 100 == 0 {
      Divides100(y);
    }
    var p := y - 1;
    var d4, d100, d400 := y / 4 - p / 4, y / 100 - p / 100, y / 400 - p / 400;
    assert DaysBeforeYear(y + 1) - DaysBeforeYear(y) == 365 + d4 - d100 + d400;
    assert DaysInYear(y) == 365 + d4 - d100 + d400;
  }

  /** Earlier years contribute fewer days. */
  lemma {:induction false} DaysBeforeYearMonotone(y: int, z: int)
    requires 1 <= y <= z
    ensures DaysBeforeYear(y) + (z - y) * 365 <= DaysBeforeYear(z)
    decreases z - y
  {
    if y < z {
      DaysBeforeNextYear(y);
      DaysBeforeYearMonotone(y + 1, z);
    }
  }

  /** The day after a date has the next ordinal. */
  lemma NextDayOrdinal(d: Date)
    requires ValidDate(d)
    ensures Ordinal(NextDay(d)) == Ordinal(d) + 1
  {
    if d.day == DaysInMonth(d.year, d.month) && d.month == 12 {
      DaysBeforeNextYear(d.year);
    }
  }

  /** Ordinals count calendar days: `n` days later is `n` ordinals later. */
  lemma {:induction false} AdvanceOrdinal(d: Date, n: nat)
    requires ValidDate(d)
    ensures Ordinal(Advance(d, n)) == Ordinal(d) + n
    decreases n
  {
    if n > 0 {
      NextDayOrdinal(d);
      AdvanceOrdinal(NextDay(d), n - 1);
    }
  }

  /** The day difference from `d` to `n` days later is `n`, and back it is `-n`. */
  lemma DayDifferenceCountsDays(d: Date, n: nat)
    requires ValidDate(d)
    ensures DayDifference(d, Advance(d, n)) == n
    ensures DayDifference(Advance(d, n), d) == -(n as int)
  {
    AdvanceOrdinal(d, n);
  }

  lemma MonthEndsWithinYear(y: int, m: int)
    requires 1 <= m <= 12
    ensures DaysBeforeMonth(y, m) + DaysInMonth(y, m) <= DaysInYear(y)
    ensures m < 12 ==> DaysBeforeMonth(y, m) + DaysInMonth(y, m) == DaysBeforeMonth(y, m + 1)
  {
  }

  lemma {:induction false} DaysBeforeMonthMonotone(y: int, m: int, n: int)
    requires 1 <= m < n <= 12
    ensures DaysBeforeMonth(y, m) + DaysInMonth(y, m) <= DaysBeforeMonth(y, n)
    decreases n - m
  {
    MonthEndsWithinYear(y, m);
    if m + 1 < n {
      DaysBeforeMonthMonotone(y, m + 1, n);
    }
  }

  /** An earlier date has a smaller ordinal. */
  lemma BeforeOrdinal(a: Date, b: Date)
    requires ValidDate(a) && ValidDate(b) && Before(a, b)
    ensures Ordinal(a) < Ordinal(b)
  {
    if a.year < b.year {
      MonthEndsWithinYear(a.year, a.month);
      DaysBeforeNextYear(a.year);
      DaysBeforeYearMonotone(a.year + 1, b.year);
    } else if a.month < b.month {
      DaysBeforeMonthMonotone(a.year, a.month, b.month);
    }
  }

  /** The sign of a day difference is the calendar order of the two dates. */
  lemma DayDifferenceSign(a: Date, b: Date)
    requires ValidDate(a) && ValidDate(b)
    ensures DayDifference(a, b) > 0 <==> Before(a, b)
    ensures DayDifference(a, b) == 0 <==> a == b
    ensures DayDifference(a, b) < 0 <==> Before(b, a)
  {
    if Before(a, b) {
      BeforeOrdinal(a, b);
    } else if Before(b, a) {
      BeforeOrdinal(b, a);
    }
  }

  /** Why `strptime` or the `date` constructor refuses a text. */
  datatype DateError =
    | FormatMismatch       // the text is not of the form YYYY-MM-DD
    | YearOutOfRange       // year 0000
    | DayOutOfRange        // a day past the end of its month, such as 2023-02-29

  predicate IsFullDateShape(s: string) {
    |s| == 10 && s[4] == '-' && s[7] == '-'
    && IsDigits(s[..4]) && IsDigits(s[5..7]) && IsDigits(s[8..])
    && 1 <= ValueOf(s[5..7]) <= 12 && 1 <= ValueOf(s[8..]) <= 31
  }

  /** `datetime.strptime(s, '%Y-%m-%d').date()`, with the fields read strictly as 4, 2 and 2 digits. */
  function ParseDate(s: string): (r: Result<Date, DateError>)
    ensures r.Ok? ==> ValidDate(r.value)
    ensures r == Err(FormatMismatch) <==> !IsFullDateShape(s)
  {
    if !IsFullDateShape(s) then Err(FormatMismatch)
    else
      var d := Date(ValueOf(s[..4]), ValueOf(s[5..7]), ValueOf(s[8..]));
      if d.year == 0 then Err(YearOutOfRange)
      else if d.day > DaysInMonth(d.year, d.month) then Err(DayOutOfRange)
      else Ok(d)
  }

  /** The `YYYY-MM-DD` text of a date, `date.isoformat()` for years up to 9999. */
  function FormatDate(d: Date): (s: string)
    requires ValidDate(d)
    ensures |s| == 10
  {
    Digits(d.year, 4) + "-" + Digits(d.month, 2) + "-" + Digits(d.day, 2)
  }

  /** Every valid date with a four-digit year is read back from its own text. */
  lemma ParseFormatRoundTrip(d: Date)
    requires ValidDate(d) && d.year <= 9999
    ensures ParseDate(FormatDate(d)) == Ok(d)
  {
    var s := FormatDate(d);
    assert s[..4] == Digits(d.year, 4);
    assert s[5..7] == Digits(d.month, 2);
    assert s[8..] == Digits(d.day, 2);
    DigitsRoundTrip(d.year, 4);
    DigitsRoundTrip(d.month, 2);
    DigitsRoundTrip(d.day, 2);
  }

  /** A text that parses is exactly the canonical text of the date it denotes. */
  lemma FormatParseRoundTrip(s: string)
    requires ParseDate(s).Ok?
    ensures FormatDate(ParseDate(s).value) == s
  {
    ValueOfRoundTrip(s[..4]);
    ValueOfRoundTrip(s[5..7]);
    ValueOfRoundTrip(s[8..]);
    assert s == s[..4] + "-" + s[5..7] + "-" + s[8..];
  }
}
