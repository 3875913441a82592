/** Proleptic Gregorian calendar arithmetic, as Python's datetime module does it.
    A day is numbered by its ordinal (0001-01-01 is day 1, as date.toordinal()),
    and an instant is a count of seconds since 0001-01-01T00:00:00 on the
    naive timeline the readings are stored on. */
module Calendar {

  datatype Date = Date(year: int, month: int, day: int)

  const SecondsPerDay: int := 86400
  /** The fixed offset of India Standard Time, UTC+5:30, in seconds. */
  const IstOffset: int := 19800
  /** datetime.MAXYEAR */
  const MaxYear: int := 9999

  predicate IsLeap(y: int) {
    y % 4 == 0 && (y % 100 != 0 || y % 400 == 0)
  }

  function DaysInMonth(y: int, m: int): (n: int)
    requires 1 <= m <= 12
    ensures 28 <= n <= 31
    ensures m == 2 ==> (n == 29 <==> IsLeap(y))
  {
    if m == 2 then (if IsLeap(y) then 29 else 28)
    else if m == 4 || m == 6 || m == 9 || m == 11 then 30
    else 31
  }

  function DaysInYear(y: int): int {
    if IsLeap(y) then 366 else 365
  }

  /** Days in the years before year y. */
  function DaysBeforeYear(y: int): (n: int)
    requires y >= 1
    ensures n >= 0
  {
    var p := y - 1;
    365 * p + p / 4 - p / 100 + p / 400
  }

  /** Days in the months of year y before month m. */
  function DaysBeforeMonth(y: int, m: int): (n: int)
    requires 1 <= m <= 12
    ensures 0 <= n <= 335
  {
    [0, 31, 59, 90, 120, 151, 181, 212, 243, 273, 304, 334][m - 1]
      + (if m > 2 && IsLeap(y) then 1 else 0)
  }

  /** A date that datetime.date accepts, bar the upper year limit. */
  predicate ValidDate(d: Date) {
    d.year >= 1 && 1 <= d.month <= 12 && 1 <= d.day <= DaysInMonth(d.year, d.month)
  }

  /** The date's day number, date.toordinal(). */
  function Ordinal(d: Date): (n: int)
    requires ValidDate(d)
    ensures n >= 1
  {
    DaysBeforeYear(d.year) + DaysBeforeMonth(d.year, d.month) + d.day
  }

  // ---------------------------------------------------------------------------
  // Steps between consecutive years, months and days

  lemma DaysBeforeYearStep(y: int)
    requires y >= 1
    ensures DaysBeforeYear(y + 1) == DaysBeforeYear(y) + DaysInYear(y)
  {
    QuotientStep4(y - 1);
    QuotientStep100(y - 1);
    QuotientStep400(y - 1);
    DivisorsNest(y);
  }

  /** A multiple of 400 is a multiple of 100, and a multiple of 100 one of 4. */
  lemma DivisorsNest(y: int)
    ensures y % 400 == 0 ==> y % 100 == 0
    ensures y % 100 == 0 ==> y % 4 == 0
  {
    if y % 400 == 0 {
      var k := y / 400;
      assert y == 100 * (4 * k);
    }
    if y % 100 == 0 {
      var k := y / 100;
      assert y == 4 * (25 * k);
    }
  }

  lemma QuotientStep4(p: int)
    requires p >= 0
    ensures (p + 1) / 4 == p / 4 + (if (p + 1) % 4 == 0 then 1 else 0)
  {
  }

  lemma QuotientStep100(p: int)
    requires p >= 0
    ensures (p + 1) / 100 == p / 100 + (if (p + 1) % 100 == 0 then 1 else 0)
  {
  }

  lemma QuotientStep400(p: int)
    requires p >= 0
    ensures (p + 1) / 400 == p / 400 + (if (p + 1) % 400 == 0 then 1 else 0)
  {
  }

  lemma DaysBeforeMonthStep(y: int, m: int)
    requires 1 <= m <= 12
    ensures m < 12 ==> DaysBeforeMonth(y, m + 1) == DaysBeforeMonth(y, m) + DaysInMonth(y, m)
    ensures m == 12 ==> DaysInYear(y) == DaysBeforeMonth(y, m) + DaysInMonth(y, m)
  {
  }

  lemma {:induction false} DaysBeforeYearMonotone(y1: int, y2: int)
    requires 1 <= y1 <= y2
    ensures DaysBeforeYear(y1) <= DaysBeforeYear(y2)
    decreases y2 - y1
  {
    if y1 < y2 {
      DaysBeforeYearStep(y2 - 1);
      DaysBeforeYearMonotone(y1, y2 - 1);
    }
  }

  /** The calendar day after d. */
  function NextDay(d: Date): (e: Date)
    requires ValidDate(d)
    ensures ValidDate(e) && Ordinal(e) == Ordinal(d) + 1
  {
    DaysBeforeMonthStep(d.year, d.month);
    if d.day < DaysInMonth(d.year, d.month) then Date(d.year, d.month, d.day + 1)
    else if d.month < 12 then Date(d.year, d.month + 1, 1)
    else DaysBeforeYearStep(d.year); Date(d.year + 1, 1, 1)
  }

  /** The calendar day before d; 0001-01-01 has none. */
  function PreviousDay(d: Date): (e: Date)
    requires ValidDate(d) && Ordinal(d) > 1
    ensures ValidDate(e) && NextDay(e) == d
  {
    if d.day > 1 then Date(d.year, d.month, d.day - 1)
    else if d.month > 1 then Date(d.year, d.month - 1, DaysInMonth(d.year, d.month - 1))
    else Date(d.year - 1, 12, 31)
  }

  // ---------------------------------------------------------------------------
  // From a day number back to the date (date.fromordinal)

  /** Locates day-of-year offset r (counted from the start of month m) in a month. */
  function MonthAndDay(y: int, m: int, r: int): (d: Date)
    requires y >= 1 && 1 <= m <= 12 && r >= 0
    requires DaysBeforeMonth(y, m) + r < DaysInYear(y)
    ensures ValidDate(d) && d.year == y
    ensures DaysBeforeMonth(y, d.month) + d.day - 1 == DaysBeforeMonth(y, m) + r
    decreases 12 - m
  {
    DaysBeforeMonthStep(y, m);
    if r < DaysInMonth(y, m) then Date(y, m, r + 1)
    else MonthAndDay(y, m + 1, r - DaysInMonth(y, m))
  }

  /** date.fromordinal(n): the date n - 1 days after 0001-01-01. */
  function FromOrdinal(n: int): (d: Date)
    requires n >= 1
    ensures ValidDate(d) && Ordinal(d) == n
  {
    DateAfter(1, n - 1)
  }

  /** The date r days after January 1 of year y, found year by year. */
  function DateAfter(y: int, r: int): (d: Date)
    requires y >= 1 && r >= 0
    ensures ValidDate(d) && Ordinal(d) == DaysBeforeYear(y) + r + 1
    decreases r
  {
    if r < DaysInYear(y) then MonthAndDay(y, 1, r)
    else
      DaysBeforeYearStep(y);
      DateAfter(y + 1, r - DaysInYear(y))
  }

  /** Two valid dates with one day number are the same date. */
  lemma OrdinalInjective(d1: Date, d2: Date)
    requires ValidDate(d1) && ValidDate(d2) && Ordinal(d1) == Ordinal(d2)
    ensures d1 == d2
  {
    DayOfYearBound(d1);
    DayOfYearBound(d2);
    if d1.year < d2.year {
      DaysBeforeYearStep(d1.year);
      DaysBeforeYearMonotone(d1.year + 1, d2.year);
      assert false;
    } else if d2.year < d1.year {
      DaysBeforeYearStep(d2.year);
      DaysBeforeYearMonotone(d2.year + 1, d1.year);
      assert false;
    } else if d1.month < d2.month {
      DaysBeforeMonthGap(d1.year, d1.month, d2.month);
      assert false;
    } else if d2.month < d1.month {
      DaysBeforeMonthGap(d1.year, d2.month, d1.month);
      assert false;
    }
  }

  /** A date's day of the year is within its year. */
  lemma DayOfYearBound(d: Date)
    requires ValidDate(d)
    ensures DaysBeforeMonth(d.year, d.month) + d.day <= DaysInYear(d.year)
  {
    DaysBeforeMonthStep(d.year, 12);
    if d.month < 12 {
      DaysBeforeMonthGap(d.year, d.month, 12);
    }
  }

  /** A later month starts after every day of an earlier one. */
  lemma {:induction false} DaysBeforeMonthGap(y: int, m1: int, m2: int)
    requires 1 <= m1 < m2 <= 12
    ensures DaysBeforeMonth(y, m1) + DaysInMonth(y, m1) <= DaysBeforeMonth(y, m2)
    decreases m2 - m1
  {
    DaysBeforeMonthStep(y, m1);
    if m1 + 1 < m2 {
      DaysBeforeMonthGap(y, m1 + 1, m2);
    }
  }

  lemma FromOrdinalOfOrdinal(d: Date)
    requires ValidDate(d)
    ensures FromOrdinal(Ordinal(d)) == d
  {
    OrdinalInjective(FromOrdinal(Ordinal(d)), d);
  }

  // ---------------------------------------------------------------------------
  // Instants

  /** The naive instant of date d at hh:mm:ss. */
  function InstantOf(d: Date, hh: int, mm: int, ss: int): int
    requires ValidDate(d)
  {
    (Ordinal(d) - 1) * SecondsPerDay + hh * 3600 + mm * 60 + ss
  }

  /** The calendar date on which instant t falls: t.strftime("%Y-%m-%d") as a date. */
  function DateOf(t: nat): (d: Date)
    ensures ValidDate(d)
    ensures InstantOf(d, 0, 0, 0) <= t < InstantOf(d, 0, 0, 0) + SecondsPerDay
  {
    FromOrdinal(t / SecondsPerDay + 1)
  }

  /** The date of an instant is the one day whose seconds contain it. */
  lemma DateOfUnique(t: nat, d: Date)
    requires ValidDate(d)
    requires InstantOf(d, 0, 0, 0) <= t < InstantOf(d, 0, 0, 0) + SecondsPerDay
    ensures DateOf(t) == d
  {
    var e := DateOf(t);
    assert Ordinal(e) == Ordinal(d);
    OrdinalInjective(e, d);
  }
}
