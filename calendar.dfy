/** The proleptic Gregorian calendar that `pd.date_range` walks, and the
    `YYYY-MM-DD` text of a day (ISO 8601 extended calendar date). */
module Calendar {
  import opened Strings

  datatype Date = Date(year: int, month: int, day: int)

  predicate IsLeapYear(y: int)
  {
    y % 4 == 0 && (y % 100 != 0 || y % 400 == 0)
  }

  function DaysInMonth(y: int, m: int): (n: int)
    requires 1 <= m <= 12
    ensures 28 <= n <= 31
  {
    if m == 2 then (if IsLeapYear(y) then 29 else 28)
    else if m == 4 || m == 6 || m == 9 || m == 11 then 30
    else 31
  }

  /** A real calendar day whose year has four digits. */
  predicate Valid(d: Date)
  {
    && 1 <= d.year <= 9999
    && 1 <= d.month <= 12
    && 1 <= d.day <= DaysInMonth(d.year, d.month)
  }

  /** Strict calendar order. */
  predicate Before(a: Date, b: Date)
  {
    || a.year < b.year
    || (a.year == b.year && a.month < b.month)
    || (a.year == b.year && a.month == b.month && a.day < b.day)
  }

  predicate Le(a: Date, b: Date)
  {
    a == b || Before(a, b)
  }

  /** The following calendar day. It is a valid date unless `d` is the last
      day of year 9999, and no valid date lies strictly between the two. */
  function NextDay(d: Date): (n: Date)
    requires Valid(d)
    ensures Before(d, n)
    ensures (d.year < 9999 || d.month < 12 || d.day < 31) ==> Valid(n)
    ensures forall x :: Valid(x) && Before(d, x) ==> Le(n, x)
  {
    if d.day < DaysInMonth(d.year, d.month) then Date(d.year, d.month, d.day + 1)
    else if d.month < 12 then Date(d.year, d.month + 1, 1)
    else Date(d.year + 1, 1, 1)
  }

  /** Every day from `start` to `end` inclusive, in order (`pd.date_range`
      with its default daily frequency); empty when `start` is after `end`. */
  function Days(start: Date, end: Date): (ds: seq<Date>)
    requires Valid(start) && Valid(end)
    ensures ds == [] <==> !Le(start, end)
    ensures forall i :: 0 <= i < |ds| ==> Valid(ds[i]) && Le(start, ds[i]) && Le(ds[i], end)
    ensures forall i, j :: 0 <= i < j < |ds| ==> Before(ds[i], ds[j])
    decreases end.year - start.year, 12 - start.month, 31 - start.day
  {
    if !Le(start, end) then []
    else if start == end then [start]
    else [start] + Days(NextDay(start), end)
  }

  /** No day of the range is skipped. */
  lemma {:induction false} DaysComplete(start: Date, end: Date, x: Date)
    requires Valid(start) && Valid(end) && Valid(x)
    requires Le(start, x) && Le(x, end)
    ensures x in Days(start, end)
    decreases end.year - start.year, 12 - start.month, 31 - start.day
  {
    if x != start {
      DaysComplete(NextDay(start), end, x);
    }
  }

  /** Days before 1 January of year `y`, counted from 1 January of year 1. */
  function DaysBeforeYear(y: int): nat
  {
    if y <= 1 then 0 else DaysBeforeYear(y - 1) + DaysBeforeMonth(y - 1, 13)
  }

  /** Days of year `y` before the first of month `m` (month 13 stands for the
      following 1 January). */
  function DaysBeforeMonth(y: int, m: int): nat
    requires 1 <= m <= 13
  {
    if m == 1 then 0 else DaysBeforeMonth(y, m - 1) + DaysInMonth(y, m - 1)
  }

  /** The day number of a date: 1 for 1 January of year 1. */
  function Ordinal(d: Date): int
    requires Valid(d)
  {
    DaysBeforeYear(d.year) + DaysBeforeMonth(d.year, d.month) + d.day
  }

  /** The month lengths add up to 365 days, 366 in a leap year. */
  lemma YearLength(y: int)
    ensures DaysBeforeMonth(y, 13) == if IsLeapYear(y) then 366 else 365
  {
    var feb := DaysInMonth(y, 2);
    assert DaysBeforeMonth(y, 2) == 31;
    assert DaysBeforeMonth(y, 3) == 31 + feb;
    assert DaysBeforeMonth(y, 4) == 62 + feb;
    assert DaysBeforeMonth(y, 5) == 92 + feb;
    assert DaysBeforeMonth(y, 6) == 123 + feb;
    assert DaysBeforeMonth(y, 7) == 153 + feb;
    assert DaysBeforeMonth(y, 8) == 184 + feb;
    assert DaysBeforeMonth(y, 9) == 215 + feb;
    assert DaysBeforeMonth(y, 10) == 245 + feb;
    assert DaysBeforeMonth(y, 11) == 276 + feb;
    assert DaysBeforeMonth(y, 12) == 306 + feb;
  }

  /** `NextDay` advances the day number by exactly one. */
  lemma NextDayOrdinal(d: Date)
    requires Valid(d) && Valid(NextDay(d))
    ensures Ordinal(NextDay(d)) == Ordinal(d) + 1
  {
    if d.day == DaysInMonth(d.year, d.month) && d.month == 12 {
      assert DaysBeforeYear(d.year + 1) == DaysBeforeYear(d.year) + DaysBeforeMonth(d.year, 13);
    }
  }

  /** The range holds as many days as the day numbers say. */
  lemma {:induction false} DaysCount(start: Date, end: Date)
    requires Valid(start) && Valid(end) && Le(start, end)
    ensures |Days(start, end)| == Ordinal(end) - Ordinal(start) + 1
    decreases end.year - start.year, 12 - start.month, 31 - start.day
  {
    if start != end {
      NextDayOrdinal(start);
      DaysCount(NextDay(start), end);
    }
  }

  /** A range over a whole year holds 366 days in a leap year and 365
      otherwise. */
  lemma WholeYear(y: int)
    requires 1 <= y <= 9999
    ensures |Days(Date(y, 1, 1), Date(y, 12, 31))| == if IsLeapYear(y) then 366 else 365
  {
    DaysCount(Date(y, 1, 1), Date(y, 12, 31));
    YearLength(y);
  }

  /** `YYYY-MM-DD`. */
  function Iso(d: Date): string
    requires Valid(d)
  {
    Pad(d.year, 4) + "-" + Pad(d.month, 2) + "-" + Pad(d.day, 2)
  }

  /** `str()` of a pandas timestamp at midnight: `YYYY-MM-DD 00:00:00`. */
  function TimestampString(d: Date): (s: string)
    requires Valid(d)
    ensures |s| == 19 && s[..10] == Iso(d)
  {
    Iso(d) + " 00:00:00"
  }
}
