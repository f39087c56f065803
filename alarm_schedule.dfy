/**
  How the alarm tool turns its arguments into a schedule (src/ai/tools/alarm.tool.ts):
  the one-element field lists, the one-time rule, the fire instant, and the expiry
  watermark written as the decimal number YYYYMMDDhhmmss. The instant `now` is a
  parameter (milliseconds since the epoch) and the current year is read from it.
*/
module AlarmSchedule {
  import opened Wrappers
  import opened Text
  import opened CivilTime
  import opened AlarmModel

  /** A tool argument declared `.nullable().optional()`: undefined, null or a number */
  datatype Arg = Undefined | Null | Given(v: int)

  /** Reads the current value of a field list back into an argument, as the update does:
      -1 is null, and an empty list gives undefined (its first element is undefined). */
  function DecodeField(xs: seq<int>): (a: Arg)
    ensures a.Undefined? <==> |xs| == 0
    ensures |xs| > 0 ==> (a.Null? <==> xs[0] == Wildcard)
    ensures |xs| > 0 && xs[0] != Wildcard ==> a == Given(xs[0])
    ensures a.Given? ==> a.v == xs[0] && a.v != Wildcard
  {
    if |xs| == 0 then Undefined else if xs[0] == Wildcard then Null else Given(xs[0])
  }

  /** `[v]` for a value, `[-1]` for null or undefined */
  function EncodeField(a: Arg): (r: seq<int>)
    ensures |r| == 1
    ensures a.Given? && a.v != Wildcard ==> DecodeField(r) == a
    ensures !a.Given? ==> DecodeField(r) == Null
  {
    if a.Given? then [a.v] else [Wildcard]
  }

  /** `x !== null && x !== undefined ? x : default` */
  function ValueOr(a: Arg, default: int): int {
    if a.Given? then a.v else default
  }

  /** The tool's one-time rule: both the day and the month are given. */
  predicate IsOneTimeArgs(day: Arg, month: Arg) {
    day.Given? && month.Given?
  }

  // The fire instant

  /** Date.UTC(currentYear, month - 1, day, hour, minute, 0, 0) */
  function CandidateInstant(now: int, month: int, day: int, hour: int, minute: int): int {
    DateUtc(YearFromTime(now), month - 1, day, hour, minute, 0, 0)
  }

  /** `if (c < now) c.setFullYear(year + 1)` */
  function RollForward(c: int, now: int, year: int): int {
    if c < now then SetFullYear(c, year + 1) else c
  }

  /** The candidate, moved to the next year by setFullYear when it is before now: never
      before now, and a whole minute. */
  function FireInstant(now: int, month: int, day: int, hour: int, minute: int): (f: int)
    ensures f >= now
    ensures f % 60000 == 0
  {
    var c := CandidateInstant(now, month, day, hour, minute);
    RollForwardNotPast(c, now);
    CandidateWholeMinute(now, month, day, hour, minute);
    RollForwardWholeMinute(c, now, YearFromTime(now));
    RollForward(c, now, YearFromTime(now))
  }

  // The expiry watermark

  function Pad2(n: int): string { PadStart2(IntToString(n)) }

  /** `${year}${mon}${d}${h}${m}${s}` with the getUTC... fields of t */
  function WatermarkText(t: int): string {
    IntToString(YearFromTime(t)) + Pad2(MonthFromTime(t) + 1) + Pad2(DateFromTime(t))
      + Pad2(HourFromTime(t)) + Pad2(MinFromTime(t)) + Pad2(SecFromTime(t))
  }

  /** The number the digits YYYYMMDDhhmmss stand for (a negative year puts a minus sign
      in front of them all) */
  function WatermarkValue(y: int, mo: int, d: int, h: int, mi: int, s: int): int {
    var rest := (((mo * 100 + d) * 100 + h) * 100 + mi) * 100 + s;
    if y >= 0 then y * 10000000000 + rest else -((-y) * 10000000000 + rest)
  }

  /** parseInt of the watermark text: always a number, the value of its digits. */
  function ExpiryWatermark(t: int): (n: int)
    ensures n == WatermarkValue(YearFromTime(t), MonthFromTime(t) + 1, DateFromTime(t),
                                HourFromTime(t), MinFromTime(t), SecFromTime(t))
  {
    WatermarkParses(t);
    ParseInt(WatermarkText(t)).value
  }

  /** Reads a non-negative watermark back into a time value (the inverse of the encoding). */
  function DecodeWatermark(n: int): int {
    MakeDate(MakeDay(n / 10000000000, (n / 100000000) % 100 - 1, (n / 1000000) % 100),
             MakeTime((n / 10000) % 100, (n / 100) % 100, n % 100, 0))
  }

  /** expiresAt for a one-time alarm that fires at f: the watermark of one minute after f.
      For a whole minute from 1970 on it is positive, its seconds digits are 00, and it
      decodes to that next minute. */
  function OneTimeExpiry(f: int): (e: int)
    ensures f >= 0 && f % 60000 == 0 ==> e > 0 && e % 100 == 0 && DecodeWatermark(e) == f + 60000
  {
    if f >= 0 && f % 60000 == 0 then
      NextWholeMinute(f);
      WholeMinuteExpiry(f + 60000);
      ExpiryWatermark(f + 60000)
    else
      ExpiryWatermark(f + 60000)
  }

  /** expiresAt: 0 unless the alarm is one-time; then the hour and minute default to 0,
      and from 1970 on the value is positive and decodes to one minute after the fire
      instant. */
  function ExpiresAt(now: int, day: Arg, month: Arg, hour: Arg, minute: Arg): (e: int)
    ensures !IsOneTimeArgs(day, month) ==> e == 0
    ensures now >= 0 ==> (e > 0 <==> IsOneTimeArgs(day, month))
    ensures now >= 0 && IsOneTimeArgs(day, month) ==>
      DecodeWatermark(e) == FireInstant(now, month.v, day.v, ValueOr(hour, 0), ValueOr(minute, 0)) + 60000
  {
    if IsOneTimeArgs(day, month) then
      OneTimeExpiry(FireInstant(now, month.v, day.v, ValueOr(hour, 0), ValueOr(minute, 0)))
    else 0
  }

  // Building and merging schedules

  /** The schedule that create sends (alarm.tool.ts:175-183) */
  function CreateSchedule(now: int, minute: Arg, hour: Arg, day: Arg, month: Arg, dayOfWeek: Arg): (s: Schedule)
    ensures s.timezone == "UTC"
    ensures s.expiresAt == ExpiresAt(now, day, month, hour, minute)
    ensures s.minutes == EncodeField(minute) && s.hours == EncodeField(hour)
    ensures s.mdays == EncodeField(day) && s.months == EncodeField(month)
    ensures s.wdays == EncodeField(dayOfWeek)
  {
    Schedule("UTC", ExpiresAt(now, day, month, hour, minute),
             EncodeField(hour), EncodeField(minute), EncodeField(day), EncodeField(month),
             EncodeField(dayOfWeek))
  }

  /** The field value after an update: undefined keeps the current one. */
  function Final(current: seq<int>, a: Arg): Arg {
    if a.Undefined? then DecodeField(current) else a
  }

  /** The field list after an update: undefined keeps the current list, null gives [-1]
      and a value v gives [v]. */
  function MergeField(current: seq<int>, a: Arg): (r: seq<int>)
    ensures a.Undefined? ==> r == current
    ensures a.Null? ==> r == [Wildcard]
    ensures a.Given? ==> r == [a.v]
  {
    if a.Undefined? then current else EncodeField(a)
  }

  /** The schedule that update sends when some schedule field is given
      (alarm.tool.ts:211-258) */
  function MergeSchedule(current: Schedule, now: int, minute: Arg, hour: Arg, day: Arg, month: Arg,
                         dayOfWeek: Arg): (s: Schedule)
    ensures s.timezone == "UTC"
    ensures s.minutes == MergeField(current.minutes, minute) && s.hours == MergeField(current.hours, hour)
    ensures s.mdays == MergeField(current.mdays, day) && s.months == MergeField(current.months, month)
    ensures s.wdays == MergeField(current.wdays, dayOfWeek)
    ensures s.expiresAt == CreateSchedule(now, Final(current.minutes, minute), Final(current.hours, hour),
                                          Final(current.mdays, day), Final(current.months, month), dayOfWeek).expiresAt
    ensures !IsOneTimeArgs(Final(current.mdays, day), Final(current.months, month)) ==> s.expiresAt == 0
    ensures now >= 0 && IsOneTimeArgs(Final(current.mdays, day), Final(current.months, month)) ==>
      && s.expiresAt > 0
      && DecodeWatermark(s.expiresAt)
         == FireInstant(now, Final(current.months, month).v, Final(current.mdays, day).v,
                        ValueOr(Final(current.hours, hour), 0), ValueOr(Final(current.minutes, minute), 0)) + 60000
  {
    var finalDay, finalMonth := Final(current.mdays, day), Final(current.months, month);
    var finalHour, finalMinute := Final(current.hours, hour), Final(current.minutes, minute);
    Schedule("UTC", ExpiresAt(now, finalDay, finalMonth, finalHour, finalMinute),
             MergeField(current.hours, hour), MergeField(current.minutes, minute),
             MergeField(current.mdays, day), MergeField(current.months, month),
             MergeField(current.wdays, dayOfWeek))
  }

  /** The list view's classifier (alarm.tool.ts:106-108): `xs[0] !== -1` also holds of an
      empty list, whose first element is undefined. */
  predicate FirstNotWildcard(xs: seq<int>) { |xs| == 0 || xs[0] != Wildcard }

  predicate DisplayIsOneTime(s: Schedule) {
    s.expiresAt > 0 && FirstNotWildcard(s.mdays) && FirstNotWildcard(s.months)
  }

  // Properties of the calendar arithmetic used here

  lemma YearOfNonNegative(t: int)
    requires t >= 0
    ensures YearFromTime(t) >= 1970
  {
    var y := YearFromTime(t);
    if y < 1970 {
      DayFromYearMonotone(y + 1, 1970);
    }
  }

  lemma FieldBounds(t: int)
    ensures 0 <= MonthFromTime(t) < 12
    ensures 1 <= DateFromTime(t) <= 31
    ensures 0 <= HourFromTime(t) < 24 && 0 <= MinFromTime(t) < 60 && 0 <= SecFromTime(t) < 60
  {
    DateBounds(t);
    var sec, mi, h := t / 1000, t / 60000, t / 3600000;
    assert SecFromTime(t) == sec % 60 && MinFromTime(t) == mi % 60 && HourFromTime(t) == h % 24;
  }

  lemma DateBounds(t: int)
    ensures 1 <= DateFromTime(t) <= 31
  {
    var y := YearFromTime(t);
    var dw := DayWithinYear(t);
    YearStep(y);
    assert 0 <= dw < 365 + LeapDays(y);
    MonthOfDayInYear(dw, LeapDays(y));
    assert DateFromTime(t) == DateFromDayInYear(dw, LeapDays(y));
  }

  lemma Pow10Ten()
    ensures Pow10(2) == 100 && Pow10(10) == 10000000000
  {
    assert Pow10(2) == 100;
    assert Pow10(4) == 10000;
    assert Pow10(6) == 1000000;
    assert Pow10(8) == 100000000;
    assert Pow10(10) == 10000000000;
  }

  /** Five two-digit fields written one after the other */
  lemma {:induction false} TailValue(a: nat, b: nat, c: nat, d: nat, e: nat)
    requires a < 100 && b < 100 && c < 100 && d < 100 && e < 100
    ensures var s := Pad2(a) + Pad2(b) + Pad2(c) + Pad2(d) + Pad2(e);
      && AllDigits(s) && |s| == 10
      && DigitsValue(s) == (((a * 100 + b) * 100 + c) * 100 + d) * 100 + e
  {
    Pad2Value(a); Pad2Value(b); Pad2Value(c); Pad2Value(d); Pad2Value(e);
    Pow10Ten();
    DigitsValueAppend(Pad2(a), Pad2(b));
    DigitsValueAppend(Pad2(a) + Pad2(b), Pad2(c));
    DigitsValueAppend(Pad2(a) + Pad2(b) + Pad2(c), Pad2(d));
    DigitsValueAppend(Pad2(a) + Pad2(b) + Pad2(c) + Pad2(d), Pad2(e));
  }

  lemma WatermarkParses(t: int)
    ensures ParseInt(WatermarkText(t)) == Some(WatermarkValue(YearFromTime(t), MonthFromTime(t) + 1,
                                                DateFromTime(t), HourFromTime(t), MinFromTime(t), SecFromTime(t)))
  {
    FieldBounds(t);
    TextValue(YearFromTime(t), MonthFromTime(t) + 1, DateFromTime(t), HourFromTime(t), MinFromTime(t), SecFromTime(t));
  }

  lemma TextValue(y: int, mo: int, d: int, h: int, mi: int, s: int)
    requires 0 <= mo < 100 && 0 <= d < 100 && 0 <= h < 100 && 0 <= mi < 100 && 0 <= s < 100
    ensures ParseInt(IntToString(y) + Pad2(mo) + Pad2(d) + Pad2(h) + Pad2(mi) + Pad2(s))
         == Some(WatermarkValue(y, mo, d, h, mi, s))
  {
    var a, p1, p2, p3, p4, p5 := IntToString(y), Pad2(mo), Pad2(d), Pad2(h), Pad2(mi), Pad2(s);
    var tail := p1 + p2 + p3 + p4 + p5;
    TailValue(mo, d, h, mi, s);
    Concat6(a, p1, p2, p3, p4, p5);
    var rest := (((mo * 100 + d) * 100 + h) * 100 + mi) * 100 + s;
    SignedTextValue(y, tail, rest);
    assert a + p1 + p2 + p3 + p4 + p5 == a + tail;
    assert WatermarkValue(y, mo, d, h, mi, s)
        == if y >= 0 then y * 10000000000 + rest else -((-y) * 10000000000 + rest);
  }

  lemma Concat6<T>(a: seq<T>, b: seq<T>, c: seq<T>, d: seq<T>, e: seq<T>, f: seq<T>)
    ensures a + b + c + d + e + f == a + (b + c + d + e + f)
  {
  }

  lemma SignedTextValue(y: int, tail: string, rest: int)
    requires AllDigits(tail) && |tail| == 10 && DigitsValue(tail) == rest
    ensures ParseInt(IntToString(y) + tail)
         == Some(if y >= 0 then y * 10000000000 + rest else -((-y) * 10000000000 + rest))
  {
    if y >= 0 {
      NonNegativeText(y, tail, rest);
    } else {
      NegativeText(y, tail, rest);
    }
  }

  lemma NonNegativeText(y: int, tail: string, rest: int)
    requires y >= 0 && AllDigits(tail) && |tail| == 10 && DigitsValue(tail) == rest
    ensures ParseInt(IntToString(y) + tail) == Some(y * 10000000000 + rest)
  {
    DigitsThenTail(y, tail, rest);
    assert IntToString(y) == NatToString(y);
    ParseDigits(IntToString(y) + tail, y * 10000000000 + rest);
  }

  lemma NegativeText(y: int, tail: string, rest: int)
    requires y < 0 && AllDigits(tail) && |tail| == 10 && DigitsValue(tail) == rest
    ensures ParseInt(IntToString(y) + tail) == Some(-((-y) * 10000000000 + rest))
  {
    DigitsThenTail(-y, tail, rest);
    MinusThenTail(y, tail);
    ParseMinus(IntToString(y) + tail, NatToString(-y) + tail, (-y) * 10000000000 + rest);
  }

  lemma MinusThenTail(y: int, tail: string)
    requires y < 0
    ensures IntToString(y) + tail == "-" + (NatToString(-y) + tail)
  {
    Concat3("-", NatToString(-y), tail);
  }

  lemma Concat3<T>(a: seq<T>, b: seq<T>, c: seq<T>)
    ensures a + b + c == a + (b + c)
  {
  }

  /** The digits of m followed by ten more digits */
  lemma DigitsThenTail(m: nat, tail: string, rest: int)
    requires AllDigits(tail) && |tail| == 10 && DigitsValue(tail) == rest
    ensures AllDigits(NatToString(m) + tail) && |NatToString(m) + tail| > 0
    ensures DigitsValue(NatToString(m) + tail) == m * 10000000000 + rest
  {
    Pow10Ten();
    NatToStringValue(m);
    DigitsValueAppend(NatToString(m), tail);
  }

  /** Splitting a watermark back into its fields */
  lemma WatermarkFields(y: int, mo: int, d: int, h: int, mi: int, s: int)
    requires y >= 0 && 0 <= mo < 100 && 0 <= d < 100 && 0 <= h < 100 && 0 <= mi < 100 && 0 <= s < 100
    ensures var n := WatermarkValue(y, mo, d, h, mi, s);
      && n / 10000000000 == y && (n / 100000000) % 100 == mo && (n / 1000000) % 100 == d
      && (n / 10000) % 100 == h && (n / 100) % 100 == mi && n % 100 == s
  {
    var q2 := y * 100 + mo;
    var q3 := q2 * 100 + d;
    var q4 := q3 * 100 + h;
    var q5 := q4 * 100 + mi;
    var n := q5 * 100 + s;
    assert WatermarkValue(y, mo, d, h, mi, s) == n;
    DivModUnique(n, 100, q5, s);
    DivModUnique(n, 10000, q4, mi * 100 + s);
    DivModUnique(n, 1000000, q3, (h * 100 + mi) * 100 + s);
    DivModUnique(n, 100000000, q2, ((d * 100 + h) * 100 + mi) * 100 + s);
    DivModUnique(n, 10000000000, y, (((mo * 100 + d) * 100 + h) * 100 + mi) * 100 + s);
    DivModUnique(q5, 100, q4, mi);
    DivModUnique(q4, 100, q3, h);
    DivModUnique(q3, 100, q2, d);
    DivModUnique(q2, 100, y, mo);
  }

  // The properties the source promises

  /** Decoding the watermark of a whole-second instant gives the instant back. */
  lemma WatermarkRoundTrip(t: int)
    requires t % 1000 == 0 && YearFromTime(t) >= 0
    ensures DecodeWatermark(ExpiryWatermark(t)) == t
  {
    FieldBounds(t);
    var y, mo, d := YearFromTime(t), MonthFromTime(t), DateFromTime(t);
    var h, mi, s := HourFromTime(t), MinFromTime(t), SecFromTime(t);
    var n := ExpiryWatermark(t);
    assert n == WatermarkValue(y, mo + 1, d, h, mi, s);
    WatermarkFields(y, mo + 1, d, h, mi, s);
    DecodeOfFields(n, y, mo, d, h, mi, s);
    DayRoundTrip(Day(t));
    assert MakeDay(y, mo, d) == Day(t);
    TimeOfDaySplit(t);
    assert MsFromTime(t) == 0;
  }

  lemma DecodeOfFields(n: int, y: int, mo: int, d: int, h: int, mi: int, s: int)
    requires n / 10000000000 == y && (n / 100000000) % 100 == mo + 1 && (n / 1000000) % 100 == d
    requires (n / 10000) % 100 == h && (n / 100) % 100 == mi && n % 100 == s
    ensures DecodeWatermark(n) == MakeDate(MakeDay(y, mo, d), MakeTime(h, mi, s, 0))
  {
  }

  /** MakeDay of a month from 0 to 11 and a date from 1 to 31 stays within the year: the
      latest such day, 31 December, is its last. */
  lemma DayInYear(y: int, m: int, d: int)
    requires 0 <= m < 12 && 1 <= d <= 31
    ensures DayFromYear(y) <= MakeDay(y, m, d) < DayFromYear(y + 1)
  {
    MakeDayInYear(y, m, d);
    YearStep(y);
  }

  lemma DayOfDate(z: int, w: int)
    requires 0 <= w < 86400000
    ensures Day(MakeDate(z, w)) == z && TimeWithinDay(MakeDate(z, w)) == w
  {
    DivModUnique(MakeDate(z, w), 86400000, z, w);
  }

  /** setFullYear(y) always lands in year y: the month and date it keeps fit in any year,
      a 29 February rolling over to 1 March. */
  lemma AdvancedInYear(c: int, y: int)
    ensures YearFromTime(SetFullYear(c, y)) == y
  {
    var m, d := MonthFromTime(c), DateFromTime(c);
    DateBounds(c);
    var z := MakeDay(y, m, d);
    DayInYear(y, m, d);
    var w := TimeWithinDay(c);
    assert SetFullYear(c, y) == MakeDate(z, w);
    DayOfDate(z, w);
    YearFromDayUnique(y, z);
  }

  /** A time value lies between the first and the last millisecond of its year. */
  lemma YearBounds(t: int, y: int)
    requires y == YearFromTime(t)
    ensures DayFromYear(y) * 86400000 <= t < DayFromYear(y + 1) * 86400000
  {
    var z := Day(t);
    assert DayFromYear(y) <= z < DayFromYear(y + 1);
    assert t == z * 86400000 + TimeWithinDay(t);
  }

  /** Rolling forward never gives an instant before now ... */
  lemma RollForwardNotPast(c: int, now: int)
    ensures RollForward(c, now, YearFromTime(now)) >= now
  {
    if c < now {
      var y := YearFromTime(now);
      SetFullYearBounds(c, y + 1);
      YearBounds(now, y);
      assert RollForward(c, now, y) == SetFullYear(c, y + 1);
    }
  }

  /** setFullYear(y) gives an instant within year y. */
  lemma SetFullYearBounds(c: int, y: int)
    ensures DayFromYear(y) * 86400000 <= SetFullYear(c, y) < DayFromYear(y + 1) * 86400000
  {
    var m, d := MonthFromTime(c), DateFromTime(c);
    DateBounds(c);
    var z := MakeDay(y, m, d);
    DayInYear(y, m, d);
    var w := TimeWithinDay(c);
    assert SetFullYear(c, y) == MakeDate(z, w);
  }

  /** ... moves an instant before now into the next year, and keeps any other. */
  lemma RollForwardYear(c: int, now: int, y: int)
    ensures c < now ==> YearFromTime(RollForward(c, now, y)) == y + 1
    ensures c >= now ==> RollForward(c, now, y) == c
  {
    if c < now {
      assert RollForward(c, now, y) == SetFullYear(c, y + 1);
      AdvancedInYear(c, y + 1);
    }
  }

  /** ... and keeps whole minutes whole. */
  lemma RollForwardWholeMinute(c: int, now: int, y: int)
    requires c % 60000 == 0
    ensures RollForward(c, now, y) % 60000 == 0
  {
    if c < now {
      var w := TimeWithinDay(c);
      var q := c / 60000;
      DivModUnique(c, 86400000, Day(c), w);
      DivModUnique(w, 60000, q - Day(c) * 1440, 0);
      var t := SetFullYear(c, y + 1);
      var z2 := MakeDay(y + 1, MonthFromTime(c), DateFromTime(c));
      assert t == MakeDate(z2, w);
      DivModUnique(t, 60000, z2 * 1440 + w / 60000, 0);
    }
  }

  /** A date and a time of whole hours and minutes is a whole minute. */
  lemma DateWholeMinute(z: int, h: int, mi: int)
    ensures MakeDate(z, MakeTime(h, mi, 0, 0)) % 60000 == 0
  {
    DivModUnique(MakeDate(z, MakeTime(h, mi, 0, 0)), 60000, z * 1440 + h * 60 + mi, 0);
  }

  lemma CandidateWholeMinute(now: int, month: int, day: int, hour: int, minute: int)
    ensures CandidateInstant(now, month, day, hour, minute) % 60000 == 0
  {
    var y := YearFromTime(now);
    var yr := if 0 <= y <= 99 then 1900 + y else y;
    var z := MakeDay(yr, month - 1, day);
    assert CandidateInstant(now, month, day, hour, minute) == MakeDate(z, MakeTime(hour, minute, 0, 0));
    DateWholeMinute(z, hour, minute);
  }

  lemma DateUtcCivil(y: int, m: int, d: int, h: int, mi: int)
    requires !(0 <= y <= 99)
    ensures DateUtc(y, m, d, h, mi, 0, 0) == MakeDate(MakeDay(y, m, d), MakeTime(h, mi, 0, 0))
  {
  }

  /** With in-range arguments, the candidate is that date and time of the current year. */
  lemma CandidateInYear(now: int, month: int, day: int, hour: int, minute: int)
    requires now >= 0 && 1 <= month <= 12 && 1 <= day <= 31
    requires 0 <= hour < 24 && 0 <= minute < 60
    ensures YearFromTime(CandidateInstant(now, month, day, hour, minute)) == YearFromTime(now)
    ensures CandidateInstant(now, month, day, hour, minute)
         == MakeDate(MakeDay(YearFromTime(now), month - 1, day), MakeTime(hour, minute, 0, 0))
  {
    var y := YearFromTime(now);
    YearOfNonNegative(now);
    DateUtcCivil(y, month - 1, day, hour, minute);
    var z := MakeDay(y, month - 1, day);
    DayInYear(y, month - 1, day);
    TimeOfDayUnique(z, hour, minute);
    YearFromDayUnique(y, z);
  }

  lemma FireRolled(now: int, month: int, day: int, hour: int, minute: int)
    ensures FireInstant(now, month, day, hour, minute)
         == RollForward(CandidateInstant(now, month, day, hour, minute), now, YearFromTime(now))
  {
  }

  /** The fire instant is in the current year, or in the next one exactly when the
      candidate was before now: one year forward at most. */
  lemma FireInstantYear(now: int, month: int, day: int, hour: int, minute: int)
    requires now >= 0 && 1 <= month <= 12 && 1 <= day <= 31
    requires 0 <= hour < 24 && 0 <= minute < 60
    ensures YearFromTime(FireInstant(now, month, day, hour, minute))
         == if CandidateInstant(now, month, day, hour, minute) < now then YearFromTime(now) + 1 else YearFromTime(now)
  {
    var c := CandidateInstant(now, month, day, hour, minute);
    FireRolled(now, month, day, hour, minute);
    RollForwardYear(c, now, YearFromTime(now));
    if c >= now {
      CandidateInYear(now, month, day, hour, minute);
    }
  }

  /** A date that exists in the current year y, already past, fires on the same date and
      time of year y + 1. */
  lemma FireInstantNextYear(now: int, y: int, month: int, day: int, hour: int, minute: int)
    requires now >= 0 && y == YearFromTime(now) && 1 <= month <= 12
    requires 1 <= day <= DaysInMonth(month - 1, LeapDays(y))
    requires 0 <= hour < 24 && 0 <= minute < 60
    requires CandidateInstant(now, month, day, hour, minute) < now
    ensures FireInstant(now, month, day, hour, minute) == DateUtc(y + 1, month - 1, day, hour, minute, 0, 0)
  {
    DaysInMonthBounds(month - 1, LeapDays(y));
    FirePastCandidate(now, y, month, day, hour, minute);
    NextYearCivil(y, month - 1, day, hour, minute);
  }

  /** A candidate before now is moved by setFullYear(y + 1). */
  lemma FirePastCandidate(now: int, y: int, month: int, day: int, hour: int, minute: int)
    requires now >= 0 && y == YearFromTime(now) && 1 <= month <= 12 && 1 <= day <= 31
    requires 0 <= hour < 24 && 0 <= minute < 60
    requires CandidateInstant(now, month, day, hour, minute) < now
    ensures y >= 1970
    ensures FireInstant(now, month, day, hour, minute)
         == SetFullYear(MakeDate(MakeDay(y, month - 1, day), MakeTime(hour, minute, 0, 0)), y + 1)
  {
    var c := CandidateInstant(now, month, day, hour, minute);
    YearOfNonNegative(now);
    CandidateInYear(now, month, day, hour, minute);
    FireRolled(now, month, day, hour, minute);
    assert RollForward(c, now, y) == SetFullYear(c, y + 1);
  }

  /** The same date and time, one year on, through Date.UTC */
  lemma NextYearCivil(y: int, m: int, date: int, hour: int, min: int)
    requires y >= 1970 && 0 <= m < 12 && 1 <= date <= DaysInMonth(m, LeapDays(y))
    requires 0 <= hour < 24 && 0 <= min < 60
    ensures SetFullYear(MakeDate(MakeDay(y, m, date), MakeTime(hour, min, 0, 0)), y + 1)
         == DateUtc(y + 1, m, date, hour, min, 0, 0)
  {
    SetFullYearOfCivil(y, m, date, hour, min, y + 1);
    DateUtcCivil(y + 1, m, date, hour, min);
  }

  /** setFullYear on a valid date and time gives the same date and time in the new year. */
  lemma SetFullYearOfCivil(y: int, m: int, date: int, hour: int, min: int, y2: int)
    requires 0 <= m < 12 && 1 <= date <= DaysInMonth(m, LeapDays(y))
    requires 0 <= hour < 24 && 0 <= min < 60
    ensures SetFullYear(MakeDate(MakeDay(y, m, date), MakeTime(hour, min, 0, 0)), y2)
         == MakeDate(MakeDay(y2, m, date), MakeTime(hour, min, 0, 0))
  {
    CivilUnique(y, m, date, hour, min);
  }

  /** The next minute after a whole minute is a whole minute. */
  lemma NextWholeMinute(f: int)
    requires f % 60000 == 0
    ensures (f + 60000) % 60000 == 0
  {
    DivModUnique(f + 60000, 60000, f / 60000 + 1, 0);
  }

  /** The watermark of a whole minute from 1970 on */
  lemma WholeMinuteExpiry(t: int)
    requires t >= 0 && t % 60000 == 0
    ensures var e := ExpiryWatermark(t);
      e > 0 && e % 100 == 0 && DecodeWatermark(e) == t
  {
    YearOfNonNegative(t);
    var q := t / 60000;
    DivModUnique(t, 1000, q * 60, 0);
    DivModUnique(q * 60, 60, q, 0);
    assert SecFromTime(t) == 0;
    WatermarkRoundTrip(t);
    FieldBounds(t);
    var e := ExpiryWatermark(t);
    assert e == WatermarkValue(YearFromTime(t), MonthFromTime(t) + 1, DateFromTime(t), HourFromTime(t), MinFromTime(t), 0);
    WatermarkFields(YearFromTime(t), MonthFromTime(t) + 1, DateFromTime(t), HourFromTime(t), MinFromTime(t), 0);
  }

  /** The list view's classifier agrees with the creation rule on every schedule that
      create builds from in-range arguments (days and months are never -1). */
  lemma CreateClassifiersAgree(now: int, minute: Arg, hour: Arg, day: Arg, month: Arg, dayOfWeek: Arg)
    requires now >= 0
    requires day != Given(Wildcard) && month != Given(Wildcard)
    ensures DisplayIsOneTime(CreateSchedule(now, minute, hour, day, month, dayOfWeek)) == IsOneTimeArgs(day, month)
  {
  }

  /** ... and on every schedule that update rebuilds, against the rule update applies to
      the merged day and month. */
  lemma MergeClassifiersAgree(current: Schedule, now: int, minute: Arg, hour: Arg, day: Arg, month: Arg,
                              dayOfWeek: Arg)
    requires now >= 0
    requires day != Given(Wildcard) && month != Given(Wildcard)
    ensures DisplayIsOneTime(MergeSchedule(current, now, minute, hour, day, month, dayOfWeek))
         == IsOneTimeArgs(Final(current.mdays, day), Final(current.months, month))
  {
  }

  /** An update that gives every schedule field rebuilds exactly the schedule create would
      build from the same arguments. */
  lemma MergeAllGiven(current: Schedule, now: int, minute: Arg, hour: Arg, day: Arg, month: Arg, dayOfWeek: Arg)
    requires !minute.Undefined? && !hour.Undefined? && !day.Undefined? && !month.Undefined?
    requires !dayOfWeek.Undefined?
    ensures MergeSchedule(current, now, minute, hour, day, month, dayOfWeek)
         == CreateSchedule(now, minute, hour, day, month, dayOfWeek)
  {
  }

  /** Where the two classifiers part: a stored schedule with empty day and month lists and
      a positive expiresAt is "One-time" to the list view, while update reads both fields
      as undefined and treats the alarm as recurring. */
  lemma ClassifiersDisagreeOnEmptyLists()
    ensures var s := Schedule("UTC", 20250101000100, [0], [0], [], [], [Wildcard]);
      DisplayIsOneTime(s) && !IsOneTimeArgs(DecodeField(s.mdays), DecodeField(s.months))
  {
  }

  // The documented examples

  /** hour 9, minute 0, day and month null: recurring, with the lists [9], [0], [-1], [-1],
      [-1], a schedule that scheduleSchema would refuse. */
  lemma RecurringExample(now: int)
    ensures CreateSchedule(now, Given(0), Given(9), Null, Null, Undefined)
         == Schedule("UTC", 0, [9], [0], [Wildcard], [Wildcard], [Wildcard])
    ensures ParseSchedule(ScheduleInput(Some("UTC"), Some(0), [9], [0], [Wildcard], [Wildcard], [Wildcard])).Err?
  {
  }

  /** 25 December, 14:30, created on 2024-01-01T00:00:00Z: fires 2024-12-25T14:30:00Z ... */
  lemma OneTimeExampleSameYear(now: int)
    requires now == 1704067200000
    ensures FireInstant(now, 12, 25, 14, 30) == 1735137000000
  {
    Year2024(now);
    var y := YearFromTime(now);
    ChristmasCandidate(now, y);
    FireRolled(now, 12, 25, 14, 30);
    RollForwardYear(1735137000000, now, y);
  }

  /** ... and expires at 20241225143100. */
  lemma OneTimeExampleExpiry(now: int)
    requires now == 1704067200000
    ensures ExpiresAt(now, Given(25), Given(12), Given(14), Given(30)) == 20241225143100
  {
    OneTimeExampleSameYear(now);
    ExpiresAtOneTime(now, 12, 25, 14, 30);
    ExampleExpiry(FireInstant(now, 12, 25, 14, 30));
  }

  lemma ExpiresAtOneTime(now: int, month: int, day: int, hour: int, minute: int)
    ensures ExpiresAt(now, Given(day), Given(month), Given(hour), Given(minute))
         == OneTimeExpiry(FireInstant(now, month, day, hour, minute))
  {
  }

  lemma ExampleExpiry(f: int)
    requires f == 1735137000000
    ensures OneTimeExpiry(f) == 20241225143100
  {
    ExampleWatermark(f + 60000, 2024);
  }

  lemma ChristmasCandidate(now: int, y: int)
    requires y == 2024 && y == YearFromTime(now)
    ensures CandidateInstant(now, 12, 25, 14, 30) == 1735137000000
  {
    Years2024And2025(y);
    DateUtcValue(y, 11, 25, 14, 30, 19723, 1);
  }

  lemma ChristmasNextYear(y: int)
    requires y == 2024
    ensures DateUtc(y + 1, 11, 25, 14, 30, 0, 0) == 1766673000000
  {
    Years2024And2025(y);
    DateUtcValue(y + 1, 11, 25, 14, 30, 20089, 0);
  }

  /** 2024-12-25T14:31:00Z is written 20241225143100. */
  lemma ExampleWatermark(t: int, y: int)
    requires t == 1735137060000 && y == 2024
    ensures ExpiryWatermark(t) == 20241225143100
  {
    Years2024And2025(y);
    MakeDayInYear(y, 11, 25);
    assert t == MakeDate(MakeDay(y, 11, 25), MakeTime(14, 31, 0, 0));
    CivilUnique(y, 11, 25, 14, 31);
  }

  /** The same alarm created on 2024-12-26T00:00:00Z fires 2025-12-25T14:30:00Z. */
  lemma OneTimeExampleNextYear(now: int)
    requires now == 1735171200000
    ensures FireInstant(now, 12, 25, 14, 30) == 1766673000000
  {
    Year2024(now);
    var y := YearFromTime(now);
    ChristmasCandidate(now, y);
    DecemberLength(y);
    FireInstantNextYear(now, y, 12, 25, 14, 30);
    ChristmasNextYear(y);
  }

  /** 29 February, midnight, created on 2024-03-01T00:00:00Z: setFullYear(2025) keeps the
      date 29 of February, which 2025 rolls over to 2025-03-01T00:00:00Z. */
  lemma LeapDayExample(now: int)
    requires now == 1709251200000
    ensures FireInstant(now, 2, 29, 0, 0) == 1740787200000
  {
    Year2024(now);
    var y := YearFromTime(now);
    LeapDayCandidate(now, y);
    LeapFebruary(y);
    FireInstantNextYear(now, y, 2, 29, 0, 0);
    LeapDayNextYear(y);
  }

  lemma LeapDayCandidate(now: int, y: int)
    requires y == 2024 && y == YearFromTime(now)
    ensures CandidateInstant(now, 2, 29, 0, 0) == 1709164800000
  {
    Years2024And2025(y);
    DateUtcValue(y, 1, 29, 0, 0, 19723, 1);
  }

  lemma DecemberLength(y: int)
    requires y == 2024
    ensures DaysInMonth(11, LeapDays(y)) == 31
  {
  }

  lemma LeapFebruary(y: int)
    requires y == 2024
    ensures DaysInMonth(1, LeapDays(y)) == 29
  {
    Years2024And2025(y);
  }

  lemma LeapDayNextYear(y: int)
    requires y == 2024
    ensures DateUtc(y + 1, 1, 29, 0, 0, 0, 0) == 1740787200000
  {
    Years2024And2025(y);
    DateUtcValue(y + 1, 1, 29, 0, 0, 20089, 0);
  }

  lemma Years2024And2025(y: int)
    requires y == 2024
    ensures DayFromYear(y) == 19723 && LeapDays(y) == 1
    ensures DayFromYear(y + 1) == 20089 && LeapDays(y + 1) == 0
  {
  }

  lemma Year2024(t: int)
    requires 1704067200000 <= t < 1735689600000
    ensures YearFromTime(t) == 2024
  {
    var y := 2024;
    Years2024And2025(y);
    YearFromDayUnique(y, Day(t));
  }

  /** Date.UTC of a whole minute, given the first day and the leap flag of its year */
  lemma DateUtcValue(y: int, m: int, d: int, h: int, mi: int, first: int, leap: int)
    requires !(0 <= y <= 99) && 0 <= m < 12
    requires DayFromYear(y) == first && LeapDays(y) == leap
    ensures DateUtc(y, m, d, h, mi, 0, 0) == (first + MonthStart(m, leap) + d - 1) * 86400000 + h * 3600000 + mi * 60000
  {
    DateUtcCivil(y, m, d, h, mi);
    MakeDayInYear(y, m, d);
  }
}
