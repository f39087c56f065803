/**
  Time values as ECMA-262 defines them (section 21.4.1 of ECMA-262, "Time Values and
  Time Range"): an integer number of milliseconds since 1970-01-01T00:00:00Z, with the
  proleptic Gregorian calendar. The alarm tool builds its fire instant with `Date.UTC`,
  moves it with `setFullYear` and reads it back with the `getUTC...` accessors; this
  module gives those operations, with the server's local time zone taken to be UTC.

  Months are 0-based here, as in ECMA-262 (0 = January, 11 = December).
*/
module CivilTime {

  /** Day(t): the day number of a time value (floor division) */
  function Day(t: int): int { t / 86400000 }

  /** TimeWithinDay(t): milliseconds since midnight */
  function TimeWithinDay(t: int): (r: int)
    ensures 0 <= r < 86400000
  {
    t % 86400000
  }

  /** DaysInYear(y), by the rule of ECMA-262 section 21.4.1.3 */
  function DaysInYear(y: int): (n: int)
    ensures n == 365 || n == 366
  {
    if y % 4 != 0 then 365
    else if y % 100 != 0 then 366
    else if y % 400 != 0 then 365
    else 366
  }

  function LeapDays(y: int): int { if DaysInYear(y) == 366 then 1 else 0 }

  /** DayFromYear(y): day number of the first day of year y (ECMA-262 closed form) */
  function DayFromYear(y: int): int {
    365 * (y - 1970) + (y - 1969) / 4 - (y - 1901) / 100 + (y - 1601) / 400
  }

  /** Consecutive years are DaysInYear apart. */
  lemma YearStep(y: int)
    ensures DayFromYear(y + 1) == DayFromYear(y) + DaysInYear(y)
  {
    FloorStep(y - 1969, 4);
    FloorStep(y - 1901, 100);
    FloorStep(y - 1601, 400);
  }

  lemma FloorStep(x: int, k: int)
    requires k == 4 || k == 100 || k == 400
    ensures (x + 1) / k == x / k + (if (x + 1) % k == 0 then 1 else 0)
  {
    if k == 4 {
      assert (x + 1) / 4 == x / 4 + (if (x + 1) % 4 == 0 then 1 else 0);
    } else if k == 100 {
      assert (x + 1) / 100 == x / 100 + (if (x + 1) % 100 == 0 then 1 else 0);
    } else {
      assert (x + 1) / 400 == x / 400 + (if (x + 1) % 400 == 0 then 1 else 0);
    }
  }

  lemma {:induction false} DayFromYearMonotone(a: int, b: int)
    requires a <= b
    ensures DayFromYear(a) <= DayFromYear(b)
    ensures a < b ==> DayFromYear(a) + 365 <= DayFromYear(b)
    decreases b - a
  {
    if a < b {
      DayFromYearMonotone(a + 1, b);
      YearStep(a);
    }
  }

  /** Search upwards for the year holding day z. */
  function YearSearchUp(y: int, z: int): (r: int)
    requires DayFromYear(y) <= z
    ensures DayFromYear(r) <= z < DayFromYear(r + 1)
    decreases z - DayFromYear(y)
  {
    YearStep(y);
    if z < DayFromYear(y + 1) then y else YearSearchUp(y + 1, z)
  }

  /** Search downwards for the year holding day z. */
  function YearSearchDown(y: int, z: int): (r: int)
    requires z < DayFromYear(y + 1)
    ensures DayFromYear(r) <= z < DayFromYear(r + 1)
    decreases DayFromYear(y + 1) - z
  {
    YearStep(y);
    if DayFromYear(y) <= z then y else YearSearchDown(y - 1, z)
  }

  /** The year of day z: the largest y with DayFromYear(y) <= z (YearFromTime, in days) */
  function YearFromDay(z: int): (y: int)
    ensures DayFromYear(y) <= z < DayFromYear(y + 1)
  {
    if z >= 0 then YearSearchUp(1970, z) else YearSearchDown(1969, z)
  }

  /** The year interval holding a day is unique. */
  lemma YearFromDayUnique(y: int, z: int)
    requires DayFromYear(y) <= z < DayFromYear(y + 1)
    ensures YearFromDay(z) == y
  {
    YearIntervalUnique(y, YearFromDay(z), z);
  }

  lemma YearIntervalUnique(y: int, r: int, z: int)
    requires DayFromYear(y) <= z < DayFromYear(y + 1)
    requires DayFromYear(r) <= z < DayFromYear(r + 1)
    ensures r == y
  {
    if r < y {
      DayFromYearMonotone(r + 1, y);
    } else if r > y {
      DayFromYearMonotone(y + 1, r);
    }
  }

  /** Days in the year before the first day of month m (0-based) */
  function MonthStart(m: int, leap: int): int
    requires 0 <= m < 12
  {
    if m == 0 then 0
    else if m == 1 then 31
    else if m == 2 then 59 + leap
    else if m == 3 then 90 + leap
    else if m == 4 then 120 + leap
    else if m == 5 then 151 + leap
    else if m == 6 then 181 + leap
    else if m == 7 then 212 + leap
    else if m == 8 then 243 + leap
    else if m == 9 then 273 + leap
    else if m == 10 then 304 + leap
    else 334 + leap
  }

  function DaysInMonth(m: int, leap: int): int
    requires 0 <= m < 12
  {
    if m == 11 then 31 else MonthStart(m + 1, leap) - MonthStart(m, leap)
  }

  lemma DaysInMonthBounds(m: int, leap: int)
    requires 0 <= m < 12 && (leap == 0 || leap == 1)
    ensures 28 <= DaysInMonth(m, leap) <= 31
  {
  }

  /** MonthFromTime, on the day within the year (ECMA-262 section 21.4.1.8) */
  function MonthFromDayInYear(d: int, leap: int): (m: int)
    ensures 0 <= m < 12
  {
    if d < 31 then 0
    else if d < 59 + leap then 1
    else if d < 90 + leap then 2
    else if d < 120 + leap then 3
    else if d < 151 + leap then 4
    else if d < 181 + leap then 5
    else if d < 212 + leap then 6
    else if d < 243 + leap then 7
    else if d < 273 + leap then 8
    else if d < 304 + leap then 9
    else if d < 334 + leap then 10
    else 11
  }

  /** DateFromTime, on the day within the year (ECMA-262 section 21.4.1.9) */
  function DateFromDayInYear(d: int, leap: int): int {
    d - MonthStart(MonthFromDayInYear(d, leap), leap) + 1
  }

  /** A day within a year lies in its month and gives a date from 1 to the month's length. */
  lemma MonthOfDayInYear(d: int, leap: int)
    requires leap == 0 || leap == 1
    requires 0 <= d < 365 + leap
    ensures var m := MonthFromDayInYear(d, leap);
      MonthStart(m, leap) <= d && 1 <= DateFromDayInYear(d, leap) <= DaysInMonth(m, leap)
  {
  }

  /** A valid month and date decompose back to themselves. */
  lemma MonthDateUnique(m: int, date: int, leap: int)
    requires leap == 0 || leap == 1
    requires 0 <= m < 12 && 1 <= date <= DaysInMonth(m, leap)
    ensures MonthFromDayInYear(MonthStart(m, leap) + date - 1, leap) == m
    ensures DateFromDayInYear(MonthStart(m, leap) + date - 1, leap) == date
  {
  }

  // Calendar fields of a time value (the getUTC... accessors)

  function YearFromTime(t: int): int { YearFromDay(Day(t)) }

  function DayWithinYear(t: int): int { Day(t) - DayFromYear(YearFromTime(t)) }

  function MonthFromTime(t: int): (m: int)
    ensures 0 <= m < 12
  {
    MonthFromDayInYear(DayWithinYear(t), LeapDays(YearFromTime(t)))
  }

  function DateFromTime(t: int): int {
    DateFromDayInYear(DayWithinYear(t), LeapDays(YearFromTime(t)))
  }

  function HourFromTime(t: int): int { (t / 3600000) % 24 }

  function MinFromTime(t: int): int { (t / 60000) % 60 }

  function SecFromTime(t: int): int { (t / 1000) % 60 }

  function MsFromTime(t: int): int { t % 1000 }

  // Constructing time values

  /** MakeDay(year, month, date) of ECMA-262 section 21.4.1.28: months past 11 or below 0
      roll the year, and the date is added to the first of the month, so an overflowing
      date rolls into the following months. */
  function MakeDay(year: int, month: int, date: int): int {
    var ym := year + month / 12;
    var mn := month % 12;
    DayFromYear(ym) + MonthStart(mn, LeapDays(ym)) + date - 1
  }

  function MakeTime(hour: int, min: int, sec: int, ms: int): int {
    hour * 3600000 + min * 60000 + sec * 1000 + ms
  }

  function MakeDate(day: int, time: int): int { day * 86400000 + time }

  /** Date.UTC(year, month, date, hours, minutes, seconds, ms) (ECMA-262 section 21.4.3.4):
      a year from 0 to 99 means 1900 + year. Time values beyond the ECMA-262 range
      (TimeClip) are not modelled. */
  function DateUtc(year: int, month: int, date: int, hour: int, min: int, sec: int, ms: int): int {
    var yr := if 0 <= year <= 99 then 1900 + year else year;
    MakeDate(MakeDay(yr, month, date), MakeTime(hour, min, sec, ms))
  }

  /** Date.prototype.setFullYear(year) on a time value, local time being UTC: keeps the
      month, the date and the time of day, and normalises like MakeDay. */
  function SetFullYear(t: int, year: int): int {
    MakeDate(MakeDay(year, MonthFromTime(t), DateFromTime(t)), TimeWithinDay(t))
  }

  // Properties

  /** For a month from 0 to 11, MakeDay counts from the first of that month of that year. */
  lemma MakeDayInYear(y: int, m: int, date: int)
    requires 0 <= m < 12
    ensures MakeDay(y, m, date) == DayFromYear(y) + MonthStart(m, LeapDays(y)) + date - 1
  {
    assert m / 12 == 0 && m % 12 == m;
  }

  /** The calendar fields of a day number rebuild it. */
  lemma DayRoundTrip(z: int)
    ensures var y := YearFromDay(z);
      var leap := LeapDays(y);
      var d := z - DayFromYear(y);
      MakeDay(y, MonthFromDayInYear(d, leap), DateFromDayInYear(d, leap)) == z
  {
    var y := YearFromDay(z);
    YearStep(y);
    var leap := LeapDays(y);
    var d := z - DayFromYear(y);
    var m := MonthFromDayInYear(d, leap);
    MakeDayInYear(y, m, DateFromDayInYear(d, leap));
  }

  /** The calendar fields of a time value, read back with the getUTC... accessors,
      rebuild it through Date.UTC (for years outside 0..99, which Date.UTC moves). */
  lemma TimeRoundTrip(t: int)
    requires !(0 <= YearFromTime(t) <= 99)
    ensures DateUtc(YearFromTime(t), MonthFromTime(t), DateFromTime(t), HourFromTime(t),
                    MinFromTime(t), SecFromTime(t), MsFromTime(t)) == t
  {
    DayRoundTrip(Day(t));
    TimeOfDaySplit(t);
  }

  lemma TimeOfDaySplit(t: int)
    ensures MakeTime(HourFromTime(t), MinFromTime(t), SecFromTime(t), MsFromTime(t)) == TimeWithinDay(t)
    ensures t == MakeDate(Day(t), TimeWithinDay(t))
  {
    var sec, mi, h := t / 1000, t / 60000, t / 3600000;
    DivModUnique(t, 60000, sec / 60, (sec % 60) * 1000 + t % 1000);
    DivModUnique(t, 3600000, mi / 60, (mi % 60) * 60000 + t % 60000);
    DivModUnique(t, 86400000, h / 24, (h % 24) * 3600000 + t % 3600000);
  }

  /** A valid calendar date and time of day decompose back to themselves. */
  lemma CivilUnique(y: int, m: int, date: int, hour: int, min: int)
    requires 0 <= m < 12 && 1 <= date <= DaysInMonth(m, LeapDays(y))
    requires 0 <= hour < 24 && 0 <= min < 60
    ensures var t := MakeDate(MakeDay(y, m, date), MakeTime(hour, min, 0, 0));
      && YearFromTime(t) == y && MonthFromTime(t) == m && DateFromTime(t) == date
      && HourFromTime(t) == hour && MinFromTime(t) == min && SecFromTime(t) == 0
      && MsFromTime(t) == 0 && TimeWithinDay(t) == MakeTime(hour, min, 0, 0)
  {
    DayUnique(y, m, date);
    TimeOfDayUnique(MakeDay(y, m, date), hour, min);
  }

  /** A valid calendar date is the day it names. */
  lemma DayUnique(y: int, m: int, date: int)
    requires 0 <= m < 12 && 1 <= date <= DaysInMonth(m, LeapDays(y))
    ensures var z := MakeDay(y, m, date);
      && YearFromDay(z) == y
      && MonthFromDayInYear(z - DayFromYear(y), LeapDays(y)) == m
      && DateFromDayInYear(z - DayFromYear(y), LeapDays(y)) == date
  {
    var leap := LeapDays(y);
    var z := MakeDay(y, m, date);
    YearStep(y);
    MakeDayInYear(y, m, date);
    MonthDateUnique(m, date, leap);
    assert MonthStart(m, leap) + date - 1 < DaysInYear(y) by {
      MonthOfDayInYear(MonthStart(m, leap) + date - 1, leap);
    }
    YearFromDayUnique(y, z);
  }

  lemma TimeOfDayUnique(z: int, hour: int, min: int)
    requires 0 <= hour < 24 && 0 <= min < 60
    ensures var t := MakeDate(z, MakeTime(hour, min, 0, 0));
      && Day(t) == z && TimeWithinDay(t) == MakeTime(hour, min, 0, 0)
      && HourFromTime(t) == hour && MinFromTime(t) == min && SecFromTime(t) == 0
      && MsFromTime(t) == 0
  {
    var w := MakeTime(hour, min, 0, 0);
    var t := MakeDate(z, w);
    var hours := z * 24 + hour;
    var minutes := hours * 60 + min;
    DivModUnique(t, 86400000, z, w);
    DivModUnique(t, 3600000, hours, min * 60000);
    DivModUnique(hours, 24, z, hour);
    DivModUnique(t, 60000, minutes, 0);
    DivModUnique(minutes, 60, hours, min);
    DivModUnique(t, 1000, minutes * 60, 0);
    DivModUnique(minutes * 60, 60, minutes, 0);
  }

  /** Euclidean division is unique: a quotient and a remainder in range are t / k and t % k. */
  lemma DivModUnique(t: int, k: int, q: int, r: int)
    requires k > 0 && 0 <= r < k && t == q * k + r
    ensures t / k == q && t % k == r
  {
    var d := q - t / k;
    assert d * k == t % k - r;
    MulBound(d, k);
  }

  lemma MulBound(d: int, k: int)
    requires k > 0
    ensures d >= 1 ==> d * k >= k
    ensures d <= -1 ==> d * k <= -k
  {
    if d >= 1 {
      assert d * k == (d - 1) * k + k;
    } else if d <= -1 {
      assert d * k == (d + 1) * k - k;
    }
  }
}
