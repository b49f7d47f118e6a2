/**
 * The proleptic Gregorian calendar as Python's `datetime.date` implements it:
 * which day/month/year triples exist, the day ordinal (1 January of year 1 is
 * day 1, a Monday), and the English month and weekday names that pandas'
 * `month_name()` and `day_name()` give.
 */
module Calendar {

  datatype CivilDate = CivilDate(year: int, month: int, day: int)

  /** The day-name categories, in the Monday-first order the analysis uses. */
  datatype Weekday = Monday | Tuesday | Wednesday | Thursday | Friday | Saturday | Sunday

  const WeekOrder: seq<Weekday> := [Monday, Tuesday, Wednesday, Thursday, Friday, Saturday, Sunday]

  function WeekdayName(w: Weekday): string {
    match w
    case Monday => "Monday"
    case Tuesday => "Tuesday"
    case Wednesday => "Wednesday"
    case Thursday => "Thursday"
    case Friday => "Friday"
    case Saturday => "Saturday"
    case Sunday => "Sunday"
  }

  /** Position of a weekday in `WeekOrder`. */
  function WeekdayIndex(w: Weekday): (i: nat)
    ensures i < 7 && WeekOrder[i] == w
  {
    match w
    case Monday => 0
    case Tuesday => 1
    case Wednesday => 2
    case Thursday => 3
    case Friday => 4
    case Saturday => 5
    case Sunday => 6
  }

  lemma WeekOrderIndex()
    ensures forall i | 0 <= i < 7 :: WeekdayIndex(WeekOrder[i]) == i
  {
  }

  /** The day after, in week order (Sunday is followed by Monday). */
  function NextWeekday(w: Weekday): Weekday {
    WeekOrder[(WeekdayIndex(w) + 1) % 7]
  }

  const MonthNames: seq<string> := ["January", "February", "March", "April", "May", "June",
    "July", "August", "September", "October", "November", "December"]

  function MonthName(m: int): string
    requires 1 <= m <= 12
  {
    MonthNames[m - 1]
  }

  predicate IsLeapYear(y: int) {
    y % 4 == 0 && (y % 100 != 0 || y % 400 == 0)
  }

  function DaysInMonth(y: int, m: int): (n: int)
    requires 1 <= m <= 12
    ensures 28 <= n <= 31
    ensures n == 29 <==> m == 2 && IsLeapYear(y)
  {
    if m == 2 then (if IsLeapYear(y) then 29 else 28)
    else if m == 4 || m == 6 || m == 9 || m == 11 then 30
    else 31
  }

  /** `datetime.date(year, month, day)` accepts exactly these (MINYEAR 1, MAXYEAR 9999). */
  predicate IsValidDate(d: CivilDate) {
    1 <= d.year <= 9999 && 1 <= d.month <= 12 && 1 <= d.day <= DaysInMonth(d.year, d.month)
  }

  /** Days in the months of year `y` before month `m`. */
  function DaysBeforeMonth(y: int, m: int): nat
    requires 1 <= m <= 12
  {
    [0, 31, 59, 90, 120, 151, 181, 212, 243, 273, 304, 334][m - 1]
    + (if m > 2 && IsLeapYear(y) then 1 else 0)
  }

  /** Leap years among the years 1 .. y. */
  function LeapYearsThrough(y: int): int {
    y / 4 - y / 100 + y / 400
  }

  /** `date.toordinal()`. */
  function Ordinal(d: CivilDate): int
    requires 1 <= d.month <= 12
  {
    365 * (d.year - 1) + LeapYearsThrough(d.year - 1) + DaysBeforeMonth(d.year, d.month) + d.day
  }

  /** `date.weekday()` as a day name: `(toordinal() + 6) % 7`, Monday first. */
  function DayOfWeek(d: CivilDate): (w: Weekday)
    requires 1 <= d.month <= 12
    ensures WeekdayIndex(w) == (Ordinal(d) + 6) % 7
  {
    WeekOrderIndex();
    WeekOrder[(Ordinal(d) + 6) % 7]
  }

  /** The calendar date that follows `d`. */
  function NextDate(d: CivilDate): (e: CivilDate)
    requires IsValidDate(d)
  {
    if d.day < DaysInMonth(d.year, d.month) then CivilDate(d.year, d.month, d.day + 1)
    else if d.month < 12 then CivilDate(d.year, d.month + 1, 1)
    else CivilDate(d.year + 1, 1, 1)
  }

  lemma {:induction false} MulAtLeast(k: int, n: int)
    requires k > 0 && n >= 1
    ensures k * n >= k
    decreases n
  {
    if n > 1 {
      MulAtLeast(k, n - 1);
      assert k * n == k * (n - 1) + k;
    }
  }

  /** Euclidean division is determined by any quotient/remainder pair. */
  lemma DivUnique(x: int, k: int, q: int, r: int)
    requires k > 0 && x == k * q + r && 0 <= r < k
    ensures x / k == q
  {
    var q0, r0 := x / k, x % k;
    assert x == k * q0 + r0 && 0 <= r0 < k;
    if q > q0 {
      MulAtLeast(k, q - q0);
      assert false;
    } else if q < q0 {
      MulAtLeast(k, q0 - q);
      assert false;
    }
  }

  lemma DivStep(y: int, k: int)
    requires k > 0
    ensures y / k - (y - 1) / k == if y % k == 0 then 1 else 0
  {
    var q, r := y / k, y % k;
    if r == 0 {
      DivUnique(y - 1, k, q - 1, k - 1);
    } else {
      DivUnique(y - 1, k, q, r - 1);
    }
  }

  /** Going from year y-1 to year y adds one leap year exactly when y is leap. */
  lemma LeapYearsStep(y: int)
    ensures LeapYearsThrough(y) - LeapYearsThrough(y - 1) == if IsLeapYear(y) then 1 else 0
  {
    DivStep(y, 4);
    DivStep(y, 100);
    DivStep(y, 400);
    if y % 400 == 0 {
      ZeroMod(y, 100, 4 * (y / 400));
      ZeroMod(y, 4, 100 * (y / 400));
    } else if y % 100 == 0 {
      ZeroMod(y, 4, 25 * (y / 100));
    }
  }

  /** A multiple of `k` leaves no remainder. */
  lemma ZeroMod(y: int, k: int, c: int)
    requires k > 0 && y == k * c
    ensures y % k == 0
  {
    DivUnique(y, k, c, 0);
  }

  /** Consecutive calendar dates have consecutive ordinals and stay valid. */
  lemma NextDateOrdinal(d: CivilDate)
    requires IsValidDate(d) && d.year < 9999
    ensures IsValidDate(NextDate(d))
    ensures Ordinal(NextDate(d)) == Ordinal(d) + 1
  {
    if d.day == DaysInMonth(d.year, d.month) && d.month == 12 {
      LeapYearsStep(d.year);
    }
  }

  lemma ModSevenStep(x: int)
    ensures (x + 1) % 7 == (x % 7 + 1) % 7
  {
    DivUnique(x + 1, 7, if x % 7 == 6 then x / 7 + 1 else x / 7, (x % 7 + 1) % 7);
  }

  /** The day name moves one weekday forward per calendar day. */
  lemma NextDateWeekday(d: CivilDate)
    requires IsValidDate(d) && d.year < 9999
    ensures DayOfWeek(NextDate(d)) == NextWeekday(DayOfWeek(d))
  {
    NextDateOrdinal(d);
    var o := Ordinal(d) + 6;
    var i := o % 7;
    ModSevenStep(o);
    assert WeekdayIndex(WeekOrder[i]) == i;
  }

  /** 1 February 2023 fell on a Wednesday. */
  lemma FirstOfFebruary2023()
    ensures DayOfWeek(CivilDate(2023, 2, 1)) == Wednesday
  {
    assert Ordinal(CivilDate(2023, 2, 1)) == 738552;
  }
}
