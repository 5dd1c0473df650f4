/** The UTC timestamp an ingested program is stamped with, written without a date library. */
module Calendar {
  import opened Numerals

  datatype Date = Date(year: nat, month: nat, day: nat)
  datatype Civil = Civil(date: Date, hour: nat, minute: nat, second: nat)

  predicate Leap(year: nat) {
    year % 4 == 0 && (year % 100 != 0 || year % 400 == 0)
  }

  function DaysInYear(year: nat): nat {
    if Leap(year) then 366 else 365
  }

  function DaysInMonth(month: nat, leap: bool): nat {
    if month == 2 then (if leap then 29 else 28)
    else if month in {4, 6, 9, 11} then 30
    else 31
  }

  /** Leap years from year 1 to `year`. */
  function LeapYears(year: nat): int {
    year / 4 - year / 100 + year / 400
  }

  /** Days from 1970-01-01 to the first day of a year, in closed form. */
  function DaysBeforeYear(year: nat): int
    requires year >= 1970
  {
    365 * (year - 1970) + LeapYears(year - 1) - LeapYears(1969)
  }

  /** Days from the first day of a year to the first day of a month, in closed form. */
  function DaysBeforeMonth(month: nat, leap: bool): int {
    (367 * month - 362) / 12 - (if month <= 2 then 0 else if leap then 1 else 2)
  }

  predicate ValidDate(d: Date) {
    d.year >= 1970 && 1 <= d.month <= 12 && 1 <= d.day <= DaysInMonth(d.month, Leap(d.year))
  }

  predicate Valid(t: Civil) {
    ValidDate(t.date) && t.hour < 24 && t.minute < 60 && t.second < 60
  }

  /** Days since 1970-01-01 in the proleptic Gregorian calendar. */
  function DayNumber(d: Date): int
    requires ValidDate(d)
  {
    DaysBeforeYear(d.year) + DaysBeforeMonth(d.month, Leap(d.year)) + d.day - 1
  }

  /** Seconds since the Unix epoch. */
  function SecondsOf(t: Civil): int
    requires Valid(t)
  {
    86400 * DayNumber(t.date) + 3600 * t.hour + 60 * t.minute + t.second
  }

  // ---- the calendar ----

  lemma YearStep(year: nat)
    requires year >= 1970
    ensures DaysBeforeYear(year + 1) == DaysBeforeYear(year) + DaysInYear(year)
  {
    Quarter(year);
    Century(year);
    FourCenturies(year);
  }

  lemma Quarter(n: nat)
    requires n > 0
    ensures n / 4 - (n - 1) / 4 == if n % 4 == 0 then 1 else 0
  {}

  lemma Century(n: nat)
    requires n > 0
    ensures n / 100 - (n - 1) / 100 == if n % 100 == 0 then 1 else 0
    ensures n % 100 == 0 ==> n % 4 == 0
  {
    var q, r := n / 100, n % 100;
    assert n - 1 == if r == 0 then 100 * (q - 1) + 99 else 100 * q + (r - 1);
    assert n % 100 == 0 ==> n == 4 * (25 * q);
  }

  lemma FourCenturies(n: nat)
    requires n > 0
    ensures n / 400 - (n - 1) / 400 == if n % 400 == 0 then 1 else 0
    ensures n % 400 == 0 ==> n % 100 == 0
  {
    var q, r := n / 400, n % 400;
    assert n - 1 == if r == 0 then 400 * (q - 1) + 399 else 400 * q + (r - 1);
    assert n % 400 == 0 ==> n == 100 * (4 * q);
  }

  lemma MonthStep(month: nat, leap: bool)
    requires 1 <= month <= 12
    ensures DaysBeforeMonth(month + 1, leap) == DaysBeforeMonth(month, leap) + DaysInMonth(month, leap)
    ensures DaysBeforeMonth(1, leap) == 0 && DaysBeforeMonth(13, leap) == if leap then 366 else 365
  {}

  lemma {:induction false} YearsGrow(a: nat, b: nat)
    requires 1970 <= a < b
    ensures DaysBeforeYear(a) + DaysInYear(a) <= DaysBeforeYear(b)
  {
    YearStep(b - 1);
    if a < b - 1 { YearsGrow(a, b - 1); } else { YearStep(a); }
  }

  lemma {:induction false} MonthsGrow(a: nat, b: nat, leap: bool)
    requires 1 <= a < b <= 13
    ensures DaysBeforeMonth(a, leap) + DaysInMonth(a, leap) <= DaysBeforeMonth(b, leap)
  {
    MonthStep(b - 1, leap);
    if a < b - 1 { MonthsGrow(a, b - 1, leap); }
  }

  lemma DayInYear(d: Date)
    requires ValidDate(d)
    ensures DaysBeforeYear(d.year) <= DayNumber(d) < DaysBeforeYear(d.year) + DaysInYear(d.year)
  {
    MonthStep(12, Leap(d.year));
    MonthsGrow(d.month, 13, Leap(d.year));
    if d.month > 1 { MonthsGrow(1, d.month, Leap(d.year)); }
  }

  predicate DateBefore(a: Date, b: Date) {
    a.year < b.year || (a.year == b.year && (a.month < b.month || (a.month == b.month && a.day < b.day)))
  }

  lemma DateBeforeIsEarlier(a: Date, b: Date)
    requires ValidDate(a) && ValidDate(b) && DateBefore(a, b)
    ensures DayNumber(a) < DayNumber(b)
  {
    hide DaysBeforeMonth, DaysBeforeYear;
    if a.year < b.year {
      DayInYear(a);
      DayInYear(b);
      YearsGrow(a.year, b.year);
    } else if a.month < b.month {
      MonthsGrow(a.month, b.month, Leap(a.year));
    }
  }

  /** Day numbers order dates, so a day number names one date. */
  lemma DayNumberOrders(a: Date, b: Date)
    requires ValidDate(a) && ValidDate(b)
    ensures DayNumber(a) < DayNumber(b) <==> DateBefore(a, b)
    ensures DayNumber(a) == DayNumber(b) <==> a == b
  {
    hide DayNumber;
    if DateBefore(a, b) { DateBeforeIsEarlier(a, b); }
    if DateBefore(b, a) { DateBeforeIsEarlier(b, a); }
  }

  /** The year loop and the month loop: the date returned is the date of that day. */
  method DateOfDays(days: nat) returns (d: Date)
    ensures ValidDate(d) && DayNumber(d) == days
  {
    var y: nat, remaining: nat := 1970, days;
    while true
      invariant y >= 1970 && DaysBeforeYear(y) + remaining == days
      decreases remaining
    {
      var daysInYear := if y % 4 == 0 && (y % 100 != 0 || y % 400 == 0) then 366 else 365;
      if remaining < daysInYear { break; }
      YearStep(y);
      remaining, y := remaining - daysInYear, y + 1;
    }
    var leap := y % 4 == 0 && (y % 100 != 0 || y % 400 == 0);
    var monthDays := [31, if leap then 29 else 28, 31, 30, 31, 30, 31, 31, 30, 31, 30, 31];
    ghost var dayOfYear := remaining;
    var m := 0;
    while m < |monthDays|
      invariant 0 <= m <= 12 && remaining >= 0
      invariant DaysBeforeMonth(m + 1, leap) + remaining == dayOfYear
    {
      MonthStep(m + 1, leap);
      assert monthDays[m] == DaysInMonth(m + 1, leap);
      if remaining < monthDays[m] { break; }
      remaining, m := remaining - monthDays[m], m + 1;
    }
    MonthStep(12, leap);
    d := Date(y, m + 1, remaining + 1);
  }

  // ---- the text ----

  function Year4(year: nat): string {
    PadStart(MinDigits(year, Dec), 4)
  }

  function Two(n: nat): string {
    PadStart(MinDigits(n, Dec), 2)
  }

  function TimeText(t: Civil): string {
    Two(t.hour) + (":" + (Two(t.minute) + (":" + (Two(t.second) + "Z"))))
  }

  function MonthText(t: Civil): string {
    Two(t.date.month) + ("-" + (Two(t.date.day) + ("T" + TimeText(t))))
  }

  /** `{:04}-{:02}-{:02}T{:02}:{:02}:{:02}Z`; the width of the year is only a minimum. */
  function Text(t: Civil): string {
    Year4(t.date.year) + ("-" + MonthText(t))
  }

  /** The timestamp of a moment is the text of its UTC calendar time. */
  method Iso8601(secs: nat) returns (text: string)
    ensures exists t :: Valid(t) && SecondsOf(t) == secs && text == Text(t)
  {
    hide MinDigits, PadStart, DayNumber;
    var timeOfDay := secs % 86400;
    var date := DateOfDays(secs / 86400);
    var civil := Civil(date, timeOfDay / 3600, timeOfDay % 3600 / 60, timeOfDay % 60);
    assert Valid(civil) && SecondsOf(civil) == secs;
    text := Text(civil);
  }

  // ---- sorting ----

  lemma SeparatorOrder(c: string, x: string, y: string)
    ensures LexLess(c + x, c + y) <==> LexLess(x, y)
  {
    LexConcat(c, c, x, y);
    LexIrreflexive(c);
  }

  lemma FieldOrder(n: nat, m: nat, width: nat, c: string, x: string, y: string)
    requires width > 0 && n < Pow(Dec, width) && m < Pow(Dec, width)
    ensures LexLess(PadStart(MinDigits(n, Dec), width) + (c + x), PadStart(MinDigits(m, Dec), width) + (c + y))
       <==> n < m || (n == m && LexLess(x, y))
  {
    hide *;
    PadMinDigits(n, width, Dec);
    PadMinDigits(m, width, Dec);
    DigitsOrder(n, m, width, Dec);
    LexConcat(Digits(n, width, Dec), Digits(m, width, Dec), c + x, c + y);
    SeparatorOrder(c, x, y);
  }

  lemma Widths()
    ensures Pow(Dec, 2) == 100 && Pow(Dec, 4) == 10000
  {
    assert Pow(Dec, 1) == 10;
    assert Pow(Dec, 3) == 1000;
  }

  predicate TimeBefore(a: Civil, b: Civil) {
    a.hour < b.hour || (a.hour == b.hour && (a.minute < b.minute || (a.minute == b.minute && a.second < b.second)))
  }

  lemma TimeTextOrder(a: Civil, b: Civil)
    requires Valid(a) && Valid(b)
    ensures LexLess(TimeText(a), TimeText(b)) <==> TimeBefore(a, b)
  {
    hide LexLess, Pow, MinDigits, PadStart;
    Widths();
    assert "Z" == "Z" + "";
    FieldOrder(a.second, b.second, 2, "Z", "", "");
    LexIrreflexive("");
    FieldOrder(a.minute, b.minute, 2, ":", Two(a.second) + "Z", Two(b.second) + "Z");
    FieldOrder(a.hour, b.hour, 2, ":", Two(a.minute) + (":" + (Two(a.second) + "Z")), Two(b.minute) + (":" + (Two(b.second) + "Z")));
  }

  lemma DayText(a: Civil, b: Civil)
    requires Valid(a) && Valid(b) && a.date.year <= 9999 && b.date.year <= 9999
    ensures LexLess(Text(a), Text(b)) <==> DateBefore(a.date, b.date) || (a.date == b.date && TimeBefore(a, b))
  {
    hide LexLess, Pow, MinDigits, PadStart, TimeText, TimeBefore;
    Widths();
    TimeTextOrder(a, b);
    FieldOrder(a.date.day, b.date.day, 2, "T", TimeText(a), TimeText(b));
    FieldOrder(a.date.month, b.date.month, 2, "-", Two(a.date.day) + ("T" + TimeText(a)), Two(b.date.day) + ("T" + TimeText(b)));
    FieldOrder(a.date.year, b.date.year, 4, "-", MonthText(a), MonthText(b));
  }

  /** Up to the end of year 9999, timestamps sort as the moments they name. */
  lemma TextOrder(a: Civil, b: Civil)
    requires Valid(a) && Valid(b) && a.date.year <= 9999 && b.date.year <= 9999
    ensures LexLess(Text(a), Text(b)) <==> SecondsOf(a) < SecondsOf(b)
  {
    hide Text, LexLess, DayNumber;
    DayText(a, b);
    DayNumberOrders(a.date, b.date);
  }

  /** 10000-01-01T00:00:00Z. */
  const YEAR_10000: nat := 253402300800

  /** All timestamps up to a moment sort as the moments they name. */
  ghost predicate Sortable(limit: int) {
    forall a, b :: Valid(a) && Valid(b) && SecondsOf(a) <= limit && SecondsOf(b) <= limit ==>
      (LexLess(Text(a), Text(b)) <==> SecondsOf(a) < SecondsOf(b))
  }

  lemma YearOfSeconds(t: Civil)
    requires Valid(t)
    ensures SecondsOf(t) < YEAR_10000 <==> t.date.year <= 9999
  {
    hide DayNumber;
    DayInYear(t.date);
    assert DaysBeforeYear(10000) == 2932897;
    if t.date.year <= 9999 { YearsGrow(t.date.year, 10000); } else if t.date.year > 10000 { YearsGrow(10000, t.date.year); }
  }

  lemma LongYearSortsFirst(x: string, y: string)
    ensures LexLess(Year4(10000) + x, Year4(9999) + y)
  {
    assert MinDigits(10, Dec) == "10";
    assert MinDigits(1000, Dec) == MinDigits(100, Dec) + "0" == "1000";
    assert MinDigits(10000, Dec) == "10000";
    assert MinDigits(99, Dec) == "99";
    assert MinDigits(9999, Dec) == MinDigits(999, Dec) + "9" == "9999";
  }

  /** The sort order is right for all moments up to a limit exactly when the limit is before year 10000. */
  lemma SortableIff(limit: int)
    ensures Sortable(limit) <==> limit < YEAR_10000
  {
    hide Text, LexLess, DayNumber;
    if limit < YEAR_10000 {
      forall a, b | Valid(a) && Valid(b) && SecondsOf(a) <= limit && SecondsOf(b) <= limit
        ensures LexLess(Text(a), Text(b)) <==> SecondsOf(a) < SecondsOf(b)
      {
        YearOfSeconds(a);
        YearOfSeconds(b);
        TextOrder(a, b);
      }
    } else {
      FirstMisplaced();
    }
  }

  /** The first moment of year 10000 sorts before the last one of year 9999. */
  lemma FirstMisplaced()
    ensures exists a, b :: Valid(a) && Valid(b) && SecondsOf(a) == YEAR_10000 - 1 && SecondsOf(b) == YEAR_10000 && LexLess(Text(b), Text(a))
  {
    hide LexLess, MinDigits, PadStart;
    var a := Civil(Date(9999, 12, 31), 23, 59, 59);
    var b := Civil(Date(10000, 1, 1), 0, 0, 0);
    LongYearSortsFirst("-" + MonthText(b), "-" + MonthText(a));
    assert SecondsOf(b) == YEAR_10000;
    assert SecondsOf(a) == YEAR_10000 - 1;
  }
}
