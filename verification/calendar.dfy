/** Proleptic Gregorian calendar arithmetic as Python's `datetime` does it:
    years 1 to 9999, the day ordinal of `date.toordinal()` (0001-01-01 is day
    1), and the one-day steps a UTC shift needs. */
module Calendar {
  import opened Results

  const MinYear := 1
  const MaxYear := 9999
  /** `date.max.toordinal()`, the ordinal of 9999-12-31. */
  const MaxOrdinal := 3652059

  datatype Date = Date(year: int, month: int, day: int)

  /** A naive wall-clock reading, field for field as a Python `datetime`. */
  datatype DateTime = DateTime(date: Date, hour: int, minute: int, second: int, microsecond: int)

  predicate IsLeap(y: int) {
    y % 4 == 0 && (y % 100 != 0 || y % 400 == 0)
  }

  function DaysInMonth(y: int, m: int): int
    requires 1 <= m <= 12
  {
    if m == 2 then (if IsLeap(y) then 29 else 28)
    else if m == 4 || m == 6 || m == 9 || m == 11 then 30
    else 31
  }

  function DaysInYear(y: int): int {
    if IsLeap(y) then 366 else 365
  }

  predicate ValidDate(d: Date) {
    MinYear <= d.year <= MaxYear && 1 <= d.month <= 12 && 1 <= d.day <= DaysInMonth(d.year, d.month)
  }

  predicate Valid(t: DateTime) {
    && ValidDate(t.date)
    && 0 <= t.hour < 24 && 0 <= t.minute < 60 && 0 <= t.second < 60
    && 0 <= t.microsecond < 1000000
  }

  /** Days in the years before `y` (closed form). */
  function DaysBeforeYear(y: int): int
    requires y >= 1
  {
    var p := y - 1;
    p * 365 + p / 4 - p / 100 + p / 400
  }

  /** Days in the months of year `y` before month `m` (table plus leap day). */
  function DaysBeforeMonth(y: int, m: int): int
    requires 1 <= m <= 12
  {
    var base :=
      if m == 1 then 0 else if m == 2 then 31 else if m == 3 then 59
      else if m == 4 then 90 else if m == 5 then 120 else if m == 6 then 151
      else if m == 7 then 181 else if m == 8 then 212 else if m == 9 then 243
      else if m == 10 then 273 else if m == 11 then 304 else 334;
    base + (if m > 2 && IsLeap(y) then 1 else 0)
  }

  /** `date.toordinal()`. */
  function Ordinal(d: Date): int
    requires ValidDate(d)
  {
    DaysBeforeYear(d.year) + DaysBeforeMonth(d.year, d.month) + d.day
  }

  lemma YearStep(y: int)
    requires y >= 1
    ensures DaysBeforeYear(y + 1) == DaysBeforeYear(y) + DaysInYear(y)
  {
    var p := y - 1;
    assert (p + 1) / 4 == p / 4 + (if y % 4 == 0 then 1 else 0);
    assert (p + 1) / 100 == p / 100 + (if y % 100 == 0 then 1 else 0);
    assert (p + 1) / 400 == p / 400 + (if y % 400 == 0 then 1 else 0);
  }

  lemma MonthStep(y: int, m: int)
    requires 1 <= m < 12
    ensures DaysBeforeMonth(y, m + 1) == DaysBeforeMonth(y, m) + DaysInMonth(y, m)
  {
  }

  lemma LastMonth(y: int)
    ensures DaysBeforeMonth(y, 12) + 31 == DaysInYear(y)
  {
  }

  /** A valid date's ordinal lies within its year's span of ordinals. */
  lemma OrdinalWithinYear(d: Date)
    requires ValidDate(d)
    ensures DaysBeforeYear(d.year) < Ordinal(d) <= DaysBeforeYear(d.year + 1)
  {
    YearStep(d.year);
    MonthsFit(d.year, d.month);
  }

  lemma MonthsFit(y: int, m: int)
    requires 1 <= m <= 12
    ensures DaysBeforeMonth(y, m) + DaysInMonth(y, m) <= DaysInYear(y)
  {
  }

  lemma {:induction false} DaysBeforeYearGrows(y: int, z: int)
    requires 1 <= y <= z
    ensures DaysBeforeYear(z) - DaysBeforeYear(y) >= 365 * (z - y)
    decreases z - y
  {
    if y < z {
      DaysBeforeYearGrows(y + 1, z);
      YearStep(y);
    }
  }

  lemma DaysBeforeMonthGrows(y: int, m: int, n: int)
    requires 1 <= m < n <= 12
    ensures DaysBeforeMonth(y, m) + DaysInMonth(y, m) <= DaysBeforeMonth(y, n)
  {
  }

  /** Distinct valid dates have distinct ordinals, and ordinals follow the
      calendar order. */
  lemma OrdinalOrdered(a: Date, b: Date)
    requires ValidDate(a) && ValidDate(b)
    requires a.year < b.year || (a.year == b.year && (a.month < b.month || (a.month == b.month && a.day < b.day)))
    ensures Ordinal(a) < Ordinal(b)
  {
    OrdinalWithinYear(a);
    OrdinalWithinYear(b);
    if a.year < b.year {
      DaysBeforeYearGrows(a.year + 1, b.year);
    } else if a.month < b.month {
      DaysBeforeMonthGrows(a.year, a.month, b.month);
    }
  }

  lemma OrdinalInjective(a: Date, b: Date)
    requires ValidDate(a) && ValidDate(b) && Ordinal(a) == Ordinal(b)
    ensures a == b
  {
    if a.year < b.year || (a.year == b.year && (a.month < b.month || (a.month == b.month && a.day < b.day))) {
      OrdinalOrdered(a, b);
    } else if b.year < a.year || (a.year == b.year && (b.month < a.month || (a.month == b.month && b.day < a.day))) {
      OrdinalOrdered(b, a);
    }
  }

  /** Every valid date has an ordinal between 1 and `MaxOrdinal`. */
  lemma OrdinalRange(d: Date)
    requires ValidDate(d)
    ensures 1 <= Ordinal(d) <= MaxOrdinal
  {
    OrdinalWithinYear(d);
    DaysBeforeYearGrows(1, d.year);
    if d.year < MaxYear {
      OrdinalOrdered(d, Date(MaxYear, 12, 31));
    }
  }

  /** The following calendar day; `None` after 9999-12-31, where Python
      raises `OverflowError`. */
  function NextDay(d: Date): (r: Option<Date>)
    requires ValidDate(d)
    ensures r.Some? ==> ValidDate(r.value) && Ordinal(r.value) == Ordinal(d) + 1
    ensures r.None? <==> Ordinal(d) == MaxOrdinal
  {
    if d.day < DaysInMonth(d.year, d.month) then
      NextStep(d, Date(d.year, d.month, d.day + 1));
      Some(Date(d.year, d.month, d.day + 1))
    else if d.month < 12 then
      MonthStep(d.year, d.month);
      NextStep(d, Date(d.year, d.month + 1, 1));
      Some(Date(d.year, d.month + 1, 1))
    else if d.year < MaxYear then
      YearStep(d.year);
      LastMonth(d.year);
      NextStep(d, Date(d.year + 1, 1, 1));
      Some(Date(d.year + 1, 1, 1))
    else
      LastDate(d);
      None
  }

  /** A valid date one ordinal after `d` means `d` is not the last one. */
  lemma NextStep(d: Date, e: Date)
    requires ValidDate(d) && ValidDate(e) && Ordinal(e) == Ordinal(d) + 1
    ensures Ordinal(d) != MaxOrdinal
  {
    OrdinalRange(e);
  }

  lemma LastDate(d: Date)
    requires ValidDate(d) && d.year == MaxYear && d.month == 12 && d.day >= DaysInMonth(d.year, d.month)
    ensures Ordinal(d) == MaxOrdinal
  {
  }

  /** The preceding calendar day; `None` before 0001-01-01. */
  function PrevDay(d: Date): (r: Option<Date>)
    requires ValidDate(d)
    ensures r.Some? ==> ValidDate(r.value) && Ordinal(r.value) + 1 == Ordinal(d)
    ensures r.None? <==> Ordinal(d) == 1
  {
    if d.day > 1 then
      var e := Date(d.year, d.month, d.day - 1);
      OrdinalRange(e);
      Some(e)
    else if d.month > 1 then
      MonthStep(d.year, d.month - 1);
      var e := Date(d.year, d.month - 1, DaysInMonth(d.year, d.month - 1));
      OrdinalRange(e);
      Some(e)
    else if d.year > MinYear then
      YearStep(d.year - 1);
      LastMonth(d.year - 1);
      var e := Date(d.year - 1, 12, 31);
      OrdinalRange(e);
      Some(e)
    else None
  }
}
