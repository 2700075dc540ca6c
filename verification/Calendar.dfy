// Python's proleptic Gregorian calendar and the day stamp stored in the search index.
module Calendar {

  datatype RawDate = Date(year: int, month: int, day: int)

  predicate IsLeap(y: int) {
    y % 4 == 0 && (y % 100 != 0 || y % 400 == 0)
  }

  function DaysInMonth(y: int, m: int): int
    requires 1 <= m <= 12
  {
    if m == 2 then (if IsLeap(y) then 29 else 28)
    else if m == 4 || m == 6 || m == 9 || m == 11 then 30
    else 31
  }

  predicate IsDate(d: RawDate) {
    && 1 <= d.year <= 9999
    && 1 <= d.month <= 12
    && 1 <= d.day <= DaysInMonth(d.year, d.month)
  }

  // datetime.date: years 1 to 9999.
  type Date = d: RawDate | IsDate(d) witness Date(1970, 1, 1)

  // The order of dates: by year, then month, then day.
  predicate Before(a: Date, b: Date) {
    || a.year < b.year
    || (a.year == b.year && a.month < b.month)
    || (a.year == b.year && a.month == b.month && a.day < b.day)
  }

  predicate NotAfter(a: Date, b: Date) {
    a == b || Before(a, b)
  }

  const LAST_DAY: Date := Date(9999, 12, 31)

  // The day after d.
  function NextDay(d: Date): Date
    requires d != LAST_DAY
  {
    if d.day < DaysInMonth(d.year, d.month) then Date(d.year, d.month, d.day + 1)
    else if d.month < 12 then Date(d.year, d.month + 1, 1)
    else Date(d.year + 1, 1, 1)
  }

  function DaysBeforeYear(y: int): int {
    365 * (y - 1) + (y - 1) / 4 - (y - 1) / 100 + (y - 1) / 400
  }

  const DAYS_BEFORE_MONTH := [0, 31, 59, 90, 120, 151, 181, 212, 243, 273, 304, 334]

  function DaysBeforeMonth(y: int, m: int): int
    requires 1 <= m <= 12
  {
    DAYS_BEFORE_MONTH[m - 1] + if m > 2 && IsLeap(y) then 1 else 0
  }

  // The day's number, where 1 January of year 1 is day 1.
  function Ordinal(d: Date): int {
    DaysBeforeYear(d.year) + DaysBeforeMonth(d.year, d.month) + d.day
  }

  const EPOCH_ORDINAL := 719163
  const SECONDS_PER_DAY := 86400

  // Seconds from the epoch to midnight UTC of the date.
  function ToTypesenseDate(d: Date): int {
    (Ordinal(d) - EPOCH_ORDINAL) * SECONDS_PER_DAY
  }

  lemma YearLength(y: int)
    ensures DaysBeforeYear(y + 1) == DaysBeforeYear(y) + (if IsLeap(y) then 366 else 365)
  {
    assert y / 4 == (y - 1) / 4 + if y % 4 == 0 then 1 else 0;
    assert y / 100 == (y - 1) / 100 + if y % 100 == 0 then 1 else 0;
    assert y / 400 == (y - 1) / 400 + if y % 400 == 0 then 1 else 0;
    assert y % 400 == 0 ==> y % 100 == 0 && y % 4 == 0;
  }

  lemma {:induction false} YearsAscend(y: int, z: int)
    requires y <= z
    ensures DaysBeforeYear(y) <= DaysBeforeYear(z)
    decreases z - y
  {
    if y < z {
      YearLength(z - 1);
      YearsAscend(y, z - 1);
    }
  }

  lemma {:induction false} MonthsAscend(y: int, m: int, n: int)
    requires 1 <= m < n <= 12
    ensures DaysBeforeMonth(y, m) + DaysInMonth(y, m) <= DaysBeforeMonth(y, n)
    decreases n - m
  {
    if m < n - 1 {
      MonthsAscend(y, m, n - 1);
    }
  }

  lemma MonthsFillYear(y: int)
    ensures DaysBeforeMonth(y, 12) + 31 == if IsLeap(y) then 366 else 365
  {
  }

  lemma DayOfYear(d: Date)
    ensures 1 <= DaysBeforeMonth(d.year, d.month) + d.day <= if IsLeap(d.year) then 366 else 365
  {
    MonthsFillYear(d.year);
    if d.month > 1 { MonthsAscend(d.year, 1, d.month); }
    if d.month < 12 { MonthsAscend(d.year, d.month, 12); }
  }

  lemma OrdinalAscends(a: Date, b: Date)
    requires Before(a, b)
    ensures Ordinal(a) < Ordinal(b)
  {
    if a.year < b.year {
      DayOfYear(a);
      DayOfYear(b);
      YearLength(a.year);
      YearsAscend(a.year + 1, b.year);
    } else if a.month < b.month {
      MonthsAscend(a.year, a.month, b.month);
    }
  }

  // The stamp preserves and reflects the order of dates, and is therefore injective.
  lemma StampOrder(a: Date, b: Date)
    ensures Before(a, b) <==> ToTypesenseDate(a) < ToTypesenseDate(b)
    ensures NotAfter(a, b) <==> ToTypesenseDate(a) <= ToTypesenseDate(b)
    ensures a == b <==> ToTypesenseDate(a) == ToTypesenseDate(b)
  {
    if Before(a, b) {
      OrdinalAscends(a, b);
    } else if a != b {
      OrdinalAscends(b, a);
    }
  }

  lemma WholeDays(n: int)
    ensures n * SECONDS_PER_DAY % SECONDS_PER_DAY == 0
  {
  }

  lemma NextOrdinal(d: Date)
    requires d != LAST_DAY
    ensures Ordinal(NextDay(d)) == Ordinal(d) + 1
  {
    if d.day == DaysInMonth(d.year, d.month) && d.month == 12 {
      MonthsFillYear(d.year);
      YearLength(d.year);
    }
  }

  // The stamp is the only function that is 0 on 1 January 1970 and grows by one day of
  // seconds from each date to the next.
  lemma StampCountsDays(d: Date)
    ensures ToTypesenseDate(Date(1970, 1, 1)) == 0
    ensures ToTypesenseDate(d) % SECONDS_PER_DAY == 0
    ensures d != LAST_DAY ==> ToTypesenseDate(NextDay(d)) == ToTypesenseDate(d) + SECONDS_PER_DAY
  {
    WholeDays(Ordinal(d) - EPOCH_ORDINAL);
    if d != LAST_DAY {
      NextOrdinal(d);
    }
  }

  // "Seconds Since the Epoch", section 4.16 of POSIX.1-2017 XBD, at midnight.
  function PosixSeconds(year: int, yearDay: int): int {
    var tmYear := year - 1900;
    yearDay * 86400 + (tmYear - 70) * 31536000 + ((tmYear - 69) / 4) * 86400
    - ((tmYear - 1) / 100) * 86400 + ((tmYear + 299) / 400) * 86400
  }

  lemma StampIsPosix(d: Date)
    ensures ToTypesenseDate(d) == PosixSeconds(d.year, DaysBeforeMonth(d.year, d.month) + d.day - 1)
  {
    var y := d.year;
    assert (y - 1969) / 4 == (y - 1) / 4 - 492;
    assert (y - 1901) / 100 == (y - 1) / 100 - 19;
    assert (y - 1601) / 400 == (y - 1) / 400 - 4;
  }

  // ---------- dates as text ----------

  function DigitChar(n: int): char
    requires 0 <= n < 10
  {
    "0123456789"[n]
  }

  function TwoDigits(n: nat): (s: string)
    requires n < 100
    ensures |s| == 2
  {
    [DigitChar(n / 10), DigitChar(n % 10)]
  }

  // The date as ISO 8601 text: year, month and day, with dashes.
  function IsoFormat(d: Date): string {
    TwoDigits(d.year / 100) + TwoDigits(d.year % 100) + "-" + TwoDigits(d.month) + "-" + TwoDigits(d.day)
  }

  lemma TwoDigitsInjective(m: nat, n: nat)
    requires m < 100 && n < 100 && TwoDigits(m) == TwoDigits(n)
    ensures m == n
  {
    assert TwoDigits(m)[0] == TwoDigits(n)[0] && TwoDigits(m)[1] == TwoDigits(n)[1];
    assert m / 10 == n / 10 && m % 10 == n % 10;
  }

  lemma IsoFormatInjective(a: Date, b: Date)
    ensures IsoFormat(a) == IsoFormat(b) <==> a == b
  {
    if IsoFormat(a) == IsoFormat(b) {
      var s, t := IsoFormat(a), IsoFormat(b);
      assert s[0..2] == TwoDigits(a.year / 100) && t[0..2] == TwoDigits(b.year / 100);
      assert s[2..4] == TwoDigits(a.year % 100) && t[2..4] == TwoDigits(b.year % 100);
      assert s[5..7] == TwoDigits(a.month) && t[5..7] == TwoDigits(b.month);
      assert s[8..10] == TwoDigits(a.day) && t[8..10] == TwoDigits(b.day);
      TwoDigitsInjective(a.year / 100, b.year / 100);
      TwoDigitsInjective(a.year % 100, b.year % 100);
      TwoDigitsInjective(a.month, b.month);
      TwoDigitsInjective(a.day, b.day);
    }
  }
}
