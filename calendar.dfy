/**
 * The proleptic Gregorian calendar on UTC instants, reckoned the way Python's
 * `datetime` does: an instant is a whole number of seconds since
 * 0001-01-01T00:00:00 UTC and a day is a whole number of days since
 * 0001-01-01, which was a Monday.
 */
module Calendar {

  const SecondsPerMinute: nat := 60
  const SecondsPerHour: nat := 3600
  const SecondsPerDay: nat := 86400

  /** A UTC instant, in whole seconds since 0001-01-01T00:00:00 UTC. */
  type Instant = nat

  /** A UTC calendar day, in whole days since 0001-01-01. */
  type Day = nat

  /** The day 1970-01-01, origin of Unix time. */
  const UnixEpochDay: Day := 719162

  // ---------------------------------------------------------------------------
  // Instants, days and clock fields
  // ---------------------------------------------------------------------------

  /** The UTC calendar day of an instant (`ts.date()` in UTC). */
  function DayOf(t: Instant): Day {
    t / SecondsPerDay
  }

  /** Midnight UTC at the start of a day. */
  function StartOfDay(d: Day): (t: Instant)
    ensures DayOf(t) == d && t % SecondsPerDay == 0
  {
    d * SecondsPerDay
  }

  /** `ts.hour` in UTC. */
  function HourOf(t: Instant): (h: nat)
    ensures h < 24
  {
    t % SecondsPerDay / SecondsPerHour
  }

  /** `ts.minute`. */
  function MinuteOf(t: Instant): (m: nat)
    ensures m < 60
  {
    t % SecondsPerHour / SecondsPerMinute
  }

  /** `ts.second`. */
  function SecondOf(t: Instant): (s: nat)
    ensures s < 60
  {
    t % SecondsPerMinute
  }

  /** The instant of a given day and clock time. */
  function InstantAt(d: Day, h: nat, mi: nat, s: nat): Instant {
    d * SecondsPerDay + h * SecondsPerHour + mi * SecondsPerMinute + s
  }

  /** Reading the clock fields back from an instant built from them. */
  lemma InstantAtFields(d: Day, h: nat, mi: nat, s: nat)
    requires h < 24 && mi < 60 && s < 60
    ensures DayOf(InstantAt(d, h, mi, s)) == d
    ensures HourOf(InstantAt(d, h, mi, s)) == h
    ensures MinuteOf(InstantAt(d, h, mi, s)) == mi
    ensures SecondOf(InstantAt(d, h, mi, s)) == s
  {
    var t := InstantAt(d, h, mi, s);
    var r := h * SecondsPerHour + mi * SecondsPerMinute + s;
    DivModOf(t, SecondsPerDay, d, r);
    DivModOf(r, SecondsPerHour, h, mi * SecondsPerMinute + s);
    DivModOf(t, SecondsPerHour, d * 24 + h, mi * SecondsPerMinute + s);
    DivModOf(mi * SecondsPerMinute + s, SecondsPerMinute, mi, s);
    DivModOf(t, SecondsPerMinute, d * 1440 + h * 60 + mi, s);
  }

  /** Quotient and remainder are the unique `q`, `r` with `t == q * n + r` and `r < n`. */
  lemma DivModOf(t: nat, n: nat, q: nat, r: nat)
    requires n > 0 && t == q * n + r && r < n
    ensures t / n == q && t % n == r
  {
    var q2, r2 := t / n, t % n;
    MulStep(q, q2, n);
    MulStep(q2, q, n);
  }

  /** A larger factor gives a product larger by at least the other factor. */
  lemma MulStep(a: nat, b: nat, n: nat)
    ensures a < b ==> a * n + n <= b * n
  {
    if a < b {
      var k := b - a;
      assert b * n == a * n + k * n;
      assert k * n >= n;
    }
  }

  /** Every instant is determined by its day and clock fields. */
  lemma FieldsDetermineInstant(t: Instant)
    ensures t == InstantAt(DayOf(t), HourOf(t), MinuteOf(t), SecondOf(t))
  {
    var r := t % SecondsPerDay;
    assert r % SecondsPerHour == t % SecondsPerHour;
  }

  /** `date.weekday()`: 0 = Monday ... 6 = Sunday. */
  function Weekday(d: Day): (w: nat)
    ensures w < 7
  {
    d % 7
  }

  /** The same weekday counted from 1970-01-01, a Thursday (3). */
  lemma WeekdayFromUnixEpoch(d: Day)
    requires d >= UnixEpochDay
    ensures Weekday(d) == (d - UnixEpochDay + 3) % 7
  {
    assert UnixEpochDay - 3 == 7 * 102737;
  }

  // ---------------------------------------------------------------------------
  // Years
  // ---------------------------------------------------------------------------

  predicate IsLeapYear(y: nat) {
    y % 4 == 0 && (y % 100 != 0 || y % 400 == 0)
  }

  function DaysInYear(y: nat): nat {
    if IsLeapYear(y) then 366 else 365
  }

  /** Days from 0001-01-01 to January 1 of year `y`: the lengths of the years before it. */
  function DaysBeforeYear(y: nat): Day
    requires y >= 1
  {
    if y == 1 then 0 else DaysBeforeYear(y - 1) + DaysInYear(y - 1)
  }

  lemma DaysBeforeNextYear(y: nat)
    requires y >= 1
    ensures DaysBeforeYear(y + 1) == DaysBeforeYear(y) + DaysInYear(y)
  {
  }

  /** The proleptic Gregorian closed form for `p` whole years: 365 days each plus the leap days. */
  function ClosedDays(p: nat): int {
    365 * p + p / 4 - p / 100 + p / 400
  }

  /** One more year adds that year's length to the closed form. */
  lemma ClosedDaysStep(p: nat)
    ensures ClosedDays(p + 1) == ClosedDays(p) + DaysInYear(p + 1)
  {
    LeapDaysStep(p);
    LeapYearByDivisors(p + 1);
  }

  /** Any count of days that grows by each year's length from 0 is the days before the year. */
  lemma {:induction false} DaysBeforeYearUnique(y: nat, f: nat -> int)
    requires y >= 1
    requires forall p: nat :: f(p) == (if p == 0 then 0 else f(p - 1) + DaysInYear(p))
    ensures DaysBeforeYear(y) == f(y - 1)
  {
    if y > 1 {
      DaysBeforeYearUnique(y - 1, f);
      assert f(y - 1) == f(y - 2) + DaysInYear(y - 1);
    } else {
      assert f(0) == 0;
    }
  }

  lemma DaysBeforeYearClosedForm(y: nat)
    requires y >= 1
    ensures DaysBeforeYear(y) == ClosedDays(y - 1)
  {
    var f := (p: nat) => ClosedDays(p);
    forall p: nat ensures f(p) == (if p == 0 then 0 else f(p - 1) + DaysInYear(p)) {
      if p > 0 {
        ClosedDaysStep(p - 1);
      }
    }
    DaysBeforeYearUnique(y, f);
  }

  /** A year's length by the three divisibility rules, as counts. */
  lemma LeapYearByDivisors(n: nat)
    ensures DaysInYear(n) ==
      365 + (if n % 4 == 0 then 1 else 0) - (if n % 100 == 0 then 1 else 0) + (if n % 400 == 0 then 1 else 0)
  {
    if n % 400 == 0 {
      var k := n / 400;
      DivModOf(n, 400, k, 0);
      DivModOf(n, 100, 4 * k, 0);
      DivModOf(n, 4, 100 * k, 0);
    } else if n % 100 == 0 {
      var j := n / 100;
      DivModOf(n, 100, j, 0);
      DivModOf(n, 4, 25 * j, 0);
    }
  }

  /** Counting multiples of 4, 100 and 400: one more of each that `p + 1` is. */
  lemma LeapDaysStep(p: nat)
    ensures (p + 1) / 4 == p / 4 + (if (p + 1) % 4 == 0 then 1 else 0)
    ensures (p + 1) / 100 == p / 100 + (if (p + 1) % 100 == 0 then 1 else 0)
    ensures (p + 1) / 400 == p / 400 + (if (p + 1) % 400 == 0 then 1 else 0)
  {
  }

  lemma {:induction false} DaysBeforeYearGrows(a: nat, b: nat)
    requires 1 <= a <= b
    ensures DaysBeforeYear(a) + 365 * (b - a) <= DaysBeforeYear(b)
    decreases b - a
  {
    if a < b {
      DaysBeforeNextYear(a);
      DaysBeforeYearGrows(a + 1, b);
    }
  }

  /** The year holding day `d`, searched upwards from year `y`. */
  function YearFrom(d: Day, y: nat): (r: nat)
    requires y >= 1 && DaysBeforeYear(y) <= d
    ensures r >= y && DaysBeforeYear(r) <= d < DaysBeforeYear(r + 1)
    decreases d - DaysBeforeYear(y)
  {
    DaysBeforeNextYear(y);
    if d < DaysBeforeYear(y + 1) then y else YearFrom(d, y + 1)
  }

  /** The calendar year of a day. */
  function YearOf(d: Day): (y: nat)
    ensures y >= 1 && DaysBeforeYear(y) <= d < DaysBeforeYear(y + 1)
  {
    YearFrom(d, 1)
  }

  /** A day lies in exactly one year. */
  lemma YearOfUnique(d: Day, y: nat)
    requires y >= 1 && DaysBeforeYear(y) <= d < DaysBeforeYear(y + 1)
    ensures YearOf(d) == y
  {
    var r := YearOf(d);
    if r < y {
      DaysBeforeYearGrows(r + 1, y);
    } else if r > y {
      DaysBeforeYearGrows(y + 1, r);
    }
  }

  // ---------------------------------------------------------------------------
  // Months and civil dates
  // ---------------------------------------------------------------------------

  function DaysInMonth(y: nat, m: nat): nat
    requires 1 <= m <= 12
  {
    if m == 2 then (if IsLeapYear(y) then 29 else 28)
    else if m == 4 || m == 6 || m == 9 || m == 11 then 30
    else 31
  }

  /** Days of year `y` before the first of month `m`; month 13 stands for the year's end. */
  function DaysBeforeMonth(y: nat, m: nat): nat
    requires 1 <= m <= 13
  {
    var leapDay := if m > 2 && IsLeapYear(y) then 1 else 0;
    leapDay +
    (if m == 1 then 0 else if m == 2 then 31 else if m == 3 then 59
     else if m == 4 then 90 else if m == 5 then 120 else if m == 6 then 151
     else if m == 7 then 181 else if m == 8 then 212 else if m == 9 then 243
     else if m == 10 then 273 else if m == 11 then 304 else if m == 12 then 334
     else 365)
  }

  lemma DaysBeforeNextMonth(y: nat, m: nat)
    requires 1 <= m <= 12
    ensures DaysBeforeMonth(y, m + 1) == DaysBeforeMonth(y, m) + DaysInMonth(y, m)
    ensures DaysBeforeMonth(y, 13) == DaysInYear(y)
  {
  }

  lemma {:induction false} DaysBeforeMonthIncreases(y: nat, a: nat, b: nat)
    requires 1 <= a < b <= 13
    ensures DaysBeforeMonth(y, a) < DaysBeforeMonth(y, b)
    decreases b - a
  {
    DaysBeforeNextMonth(y, a);
    if a + 1 < b {
      DaysBeforeMonthIncreases(y, a + 1, b);
    }
  }

  /** The month holding day-of-year `doy`, searched upwards from month `m`. */
  function MonthFrom(y: nat, doy: nat, m: nat): (r: nat)
    requires 1 <= m <= 12 && DaysBeforeMonth(y, m) <= doy < DaysInYear(y)
    ensures m <= r <= 12 && DaysBeforeMonth(y, r) <= doy < DaysBeforeMonth(y, r + 1)
    decreases 12 - m
  {
    DaysBeforeNextMonth(y, m);
    if doy < DaysBeforeMonth(y, m + 1) then m else MonthFrom(y, doy, m + 1)
  }

  lemma MonthFromUnique(y: nat, doy: nat, m: nat)
    requires 1 <= m <= 12 && DaysBeforeMonth(y, m) <= doy < DaysBeforeMonth(y, m + 1)
    ensures doy < DaysInYear(y) && MonthFrom(y, doy, 1) == m
  {
    DaysBeforeNextMonth(y, 12);
    if m < 12 {
      DaysBeforeMonthIncreases(y, m + 1, 13);
    }
    var r := MonthFrom(y, doy, 1);
    if r < m {
      if r + 1 < m {
        DaysBeforeMonthIncreases(y, r + 1, m);
      }
    } else if r > m {
      if m + 1 < r {
        DaysBeforeMonthIncreases(y, m + 1, r);
      }
    }
  }

  /** A calendar date (`datetime.date`). */
  datatype Date = Date(year: nat, month: nat, day: nat)

  predicate ValidDate(dt: Date) {
    dt.year >= 1 && 1 <= dt.month <= 12 && 1 <= dt.day <= DaysInMonth(dt.year, dt.month)
  }

  /** `date.toordinal() - 1`. */
  function DayNumber(dt: Date): Day
    requires ValidDate(dt)
  {
    DaysBeforeYear(dt.year) + DaysBeforeMonth(dt.year, dt.month) + dt.day - 1
  }

  /** The date of day-of-year `doy` (counted from 0) in year `y`. */
  function DateInYear(y: nat, doy: nat): (dt: Date)
    requires y >= 1 && doy < DaysInYear(y)
    ensures ValidDate(dt) && dt.year == y && DaysBeforeMonth(y, dt.month) + dt.day - 1 == doy
  {
    DaysBeforeNextMonth(y, 12);
    var m := MonthFrom(y, doy, 1);
    DaysBeforeNextMonth(y, m);
    Date(y, m, doy - DaysBeforeMonth(y, m) + 1)
  }

  /** A valid date's day of the year is within its year. */
  lemma DayOfYearBound(dt: Date)
    requires ValidDate(dt)
    ensures DaysBeforeMonth(dt.year, dt.month) + dt.day - 1 < DaysBeforeMonth(dt.year, dt.month + 1)
    ensures DaysBeforeMonth(dt.year, dt.month + 1) <= DaysInYear(dt.year)
  {
    DaysBeforeNextMonth(dt.year, dt.month);
    DaysBeforeNextMonth(dt.year, 12);
    if dt.month < 12 {
      DaysBeforeMonthIncreases(dt.year, dt.month + 1, 13);
    }
  }

  /** A month and day of year `y` are found again from their day of the year. */
  lemma DateInYearOfFields(dt: Date)
    requires ValidDate(dt)
    ensures DaysBeforeMonth(dt.year, dt.month) + dt.day - 1 < DaysInYear(dt.year)
    ensures DateInYear(dt.year, DaysBeforeMonth(dt.year, dt.month) + dt.day - 1) == dt
  {
    DayOfYearBound(dt);
    MonthFromUnique(dt.year, DaysBeforeMonth(dt.year, dt.month) + dt.day - 1, dt.month);
  }

  /** `date.fromordinal(d + 1)`: the civil date of a day. */
  function CivilDate(d: Day): (dt: Date)
    ensures ValidDate(dt) && DayNumber(dt) == d
  {
    var y := YearOf(d);
    DaysBeforeNextYear(y);
    DateInYear(y, d - DaysBeforeYear(y))
  }

  /** Converting a date to its day and back gives the date again. */
  lemma CivilDateOfDayNumber(dt: Date)
    requires ValidDate(dt)
    ensures CivilDate(DayNumber(dt)) == dt
  {
    var y := dt.year;
    var doy := DaysBeforeMonth(y, dt.month) + dt.day - 1;
    DateInYearOfFields(dt);
    DaysBeforeNextYear(y);
    YearOfUnique(DayNumber(dt), y);
    assert DayNumber(dt) - DaysBeforeYear(y) == doy;
  }

  /** Two valid dates with the same day number are the same date. */
  lemma DayNumberInjective(a: Date, b: Date)
    requires ValidDate(a) && ValidDate(b) && DayNumber(a) == DayNumber(b)
    ensures a == b
  {
    CivilDateOfDayNumber(a);
    CivilDateOfDayNumber(b);
  }

  /** The civil date of an instant, in UTC. */
  function DateOf(t: Instant): Date {
    CivilDate(DayOf(t))
  }

  /** January 1, 00:00:00 UTC of year `y` (`datetime(y, 1, 1, tzinfo=utc)`). */
  function JanuaryFirst(y: nat): (t: Instant)
    requires y >= 1
    ensures YearOfInstant(t) == y && t % SecondsPerDay == 0
  {
    DaysBeforeNextYear(y);
    YearOfUnique(DaysBeforeYear(y), y);
    StartOfDay(DaysBeforeYear(y))
  }

  /** January 1 of year `y` is that date. */
  lemma JanuaryFirstDate(y: nat)
    requires y >= 1
    ensures DateOf(JanuaryFirst(y)) == Date(y, 1, 1)
  {
    CivilDateOfDayNumber(Date(y, 1, 1));
  }

  /** The calendar year of an instant (`ts.year`). */
  function YearOfInstant(t: Instant): nat {
    YearOf(DayOf(t))
  }

  /** The civil date of an instant is a valid date of its year, on its day. */
  lemma DateOfYear(t: Instant)
    ensures ValidDate(DateOf(t)) && DateOf(t).year == YearOfInstant(t) && DayNumber(DateOf(t)) == DayOf(t)
  {
  }

  /** Day and year of an instant are those of the year search. */
  lemma YearOfInstantBounds(t: Instant)
    ensures YearOfInstant(t) == YearOf(DayOf(t))
    ensures JanuaryFirst(YearOfInstant(t)) <= t < JanuaryFirst(YearOfInstant(t) + 1)
  {
    var y := YearOf(DayOf(t));
    assert DaysBeforeYear(y) * SecondsPerDay <= DayOf(t) * SecondsPerDay <= t;
    assert t < (DayOf(t) + 1) * SecondsPerDay <= DaysBeforeYear(y + 1) * SecondsPerDay;
  }

  /** An instant lies in year `y` exactly when it is between the two January firsts. */
  lemma InYear(t: Instant, y: nat)
    requires y >= 1 && JanuaryFirst(y) <= t < JanuaryFirst(y + 1)
    ensures YearOfInstant(t) == y
  {
    var d := DayOf(t);
    assert DaysBeforeYear(y) <= d;
    assert d < DaysBeforeYear(y + 1);
    YearOfUnique(d, y);
  }

  /** The Unix epoch is 1970-01-01. */
  lemma UnixEpochIsNewYear1970()
    ensures ValidDate(Date(1970, 1, 1)) && DayNumber(Date(1970, 1, 1)) == UnixEpochDay
  {
    DaysBeforeYearClosedForm(1970);
  }
}
