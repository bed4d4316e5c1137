/**
 * The proleptic Gregorian calendar of Python's datetime.date: dates of
 * years 1..9999, date.toordinal(), date.weekday() and day steps.
 */
module Calendar {

  datatype Ymd = Ymd(year: int, month: int, day: int)

  /** The Gregorian leap-year rule. */
  predicate IsLeapYear(y: int) {
    y % 4 == 0 && (y % 100 != 0 || y % 400 == 0)
  }

  function DaysInMonth(year: int, month: int): (n: int)
    requires 1 <= month <= 12
    ensures 28 <= n <= 31
  {
    if month == 2 then (if IsLeapYear(year) then 29 else 28)
    else [31, 0, 31, 30, 31, 30, 31, 31, 30, 31, 30, 31][month - 1]
  }

  const MinYear := 1
  const MaxYear := 9999

  /** The triples date(year, month, day) accepts without a ValueError. */
  predicate IsValid(d: Ymd) {
    MinYear <= d.year <= MaxYear && 1 <= d.month <= 12 && 1 <= d.day <= DaysInMonth(d.year, d.month)
  }

  type Date = d: Ymd | IsValid(d) witness Ymd(1, 1, 1)

  const LastDate: Date := Ymd(9999, 12, 31)

  /** Days in the years before y: 365 each, plus one per leap year. */
  function DaysBeforeYear(y: int): nat
    requires y >= 1
  {
    if y == 1 then 0 else DaysBeforeYear(y - 1) + 365 + (if IsLeapYear(y - 1) then 1 else 0)
  }

  /** The closed form date.toordinal() evaluates: 365 a year plus the leap days of the 4/100/400 rule. */
  lemma {:induction false} DaysBeforeYearClosedForm(y: int)
    requires y >= 1
    ensures DaysBeforeYear(y) == (y - 1) * 365 + (y - 1) / 4 - (y - 1) / 100 + (y - 1) / 400
  {
    if y > 1 {
      DaysBeforeYearClosedForm(y - 1);
      var x := y - 1;
      LeapCounts(x);
      assert DaysBeforeYear(y) == DaysBeforeYear(x) + 365 + (if IsLeapYear(x) then 1 else 0);
    }
  }

  /** Passing year x adds one to each multiple-of count that x is a multiple of. */
  lemma LeapCounts(x: int)
    ensures x / 4 - (x - 1) / 4 == if x % 4 == 0 then 1 else 0
    ensures x / 100 - (x - 1) / 100 == if x % 100 == 0 then 1 else 0
    ensures x / 400 - (x - 1) / 400 == if x % 400 == 0 then 1 else 0
    ensures x % 400 == 0 ==> x % 100 == 0
    ensures x % 100 == 0 ==> x % 4 == 0
  {
  }

  function DaysBeforeMonth(y: int, m: int): nat
    requires 1 <= m <= 12
  {
    [0, 31, 59, 90, 120, 151, 181, 212, 243, 273, 304, 334][m - 1]
    + (if m > 2 && IsLeapYear(y) then 1 else 0)
  }

  /** date.toordinal(): 0001-01-01 is day 1 and every later day adds one. */
  function Ordinal(d: Date): (n: int)
    ensures n >= 1
  {
    DaysBeforeYear(d.year) + DaysBeforeMonth(d.year, d.month) + d.day
  }

  lemma MonthStep(y: int, m: int)
    requires 1 <= m < 12
    ensures DaysBeforeMonth(y, m + 1) == DaysBeforeMonth(y, m) + DaysInMonth(y, m)
  {
  }

  lemma YearStep(y: int)
    requires y >= 1
    ensures DaysBeforeYear(y + 1)
         == DaysBeforeYear(y) + DaysBeforeMonth(y, 12) + DaysInMonth(y, 12)
  {
  }

  /** The day after d. */
  function NextDay(d: Date): (r: Date)
    requires d != LastDate
    ensures Ordinal(r) == Ordinal(d) + 1
  {
    if d.day < DaysInMonth(d.year, d.month) then
      Ymd(d.year, d.month, d.day + 1)
    else if d.month < 12 then
      var r: Date := Ymd(d.year, d.month + 1, 1);
      NextMonthOrdinal(d, r);
      r
    else
      assert d.year < MaxYear;
      var r: Date := Ymd(d.year + 1, 1, 1);
      NextYearOrdinal(d, r);
      r
  }

  lemma NextMonthOrdinal(d: Date, r: Date)
    requires d.month < 12 && d.day == DaysInMonth(d.year, d.month)
    requires r == Ymd(d.year, d.month + 1, 1)
    ensures Ordinal(r) == Ordinal(d) + 1
  {
    MonthStep(d.year, d.month);
  }

  lemma NextYearOrdinal(d: Date, r: Date)
    requires d.month == 12 && d.day == 31
    requires r == Ymd(d.year + 1, 1, 1)
    ensures Ordinal(r) == Ordinal(d) + 1
  {
    YearStep(d.year);
  }

  /** The day before d. */
  function PrevDay(d: Date): (r: Date)
    requires d != Ymd(1, 1, 1)
    ensures Ordinal(r) == Ordinal(d) - 1
  {
    if d.day > 1 then
      Ymd(d.year, d.month, d.day - 1)
    else if d.month > 1 then
      MonthStep(d.year, d.month - 1);
      Ymd(d.year, d.month - 1, DaysInMonth(d.year, d.month - 1))
    else
      YearStep(d.year - 1);
      Ymd(d.year - 1, 12, 31)
  }

  /** d - timedelta(days=k), for results that stay on or after 0001-01-01. */
  function SubtractDays(d: Date, k: nat): (r: Date)
    requires k < Ordinal(d)
    ensures Ordinal(r) == Ordinal(d) - k
    decreases k
  {
    if k == 0 then d else SubtractDays(PrevDay(d), k - 1)
  }

  /** date.weekday(): Monday is 0 and Sunday is 6. */
  function Weekday(d: Date): (w: int)
    ensures 0 <= w < 7
  {
    (Ordinal(d) + 6) % 7
  }

  predicate IsSundayDate(d: Date) {
    Weekday(d) == 6
  }

  /** Weekdays cycle: the day after d is one weekday later. */
  lemma WeekdayNext(d: Date)
    requires d != LastDate
    ensures Weekday(NextDay(d)) == (Weekday(d) + 1) % 7
  {
    var o := Ordinal(d);
    assert Ordinal(NextDay(d)) == o + 1;
    ModStep(o + 6);
  }

  lemma ModStep(x: int)
    ensures (x + 1) % 7 == (x % 7 + 1) % 7
  {
  }
}
