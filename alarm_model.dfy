/**
  The alarm records and their schemas (src/models/alarm.ts).

  A schedule holds one list of accepted values per calendar field, in the form the
  cron-job.org scheduler takes; the alarm tool only ever writes one-element lists, with
  -1 meaning "any value". `expiresAt` is 0 for a recurring schedule and otherwise the
  instant, written as the decimal number YYYYMMDDhhmmss, after which the job must not fire.

  A stored alarm document carries whatever its creator spread into it: the declared type
  has `description`, while the alarm tool writes `message`, so both are optional here.
*/
module AlarmModel {
  import opened Wrappers

  const Wildcard: int := -1

  datatype Schedule = Schedule(
    timezone: string,
    expiresAt: int,
    hours: seq<int>,
    minutes: seq<int>,
    mdays: seq<int>,
    months: seq<int>,
    wdays: seq<int>)

  datatype Alarm = Alarm(
    id: Option<string>,
    userId: string,
    name: string,
    description: Option<string>,
    message: Option<string>,
    schedule: Schedule,
    cronJobId: Option<int>,
    active: bool,
    createdAt: int,
    updatedAt: int)

  /** The fields a caller hands to the alarm service's createAlarm, which spreads them
      into the new record. */
  datatype AlarmInput = AlarmInput(
    name: string,
    description: Option<string>,
    message: Option<string>,
    schedule: Schedule)

  /** A partial alarm, as given to a `$set` update: each present field overwrites. */
  datatype AlarmPatch = AlarmPatch(
    name: Option<string>,
    message: Option<string>,
    schedule: Option<Schedule>,
    cronJobId: Option<int>,
    active: Option<bool>)

  const EmptyPatch: AlarmPatch := AlarmPatch(None, None, None, None, None)

  // The schemas, as validity predicates and default-filling parsers

  predicate AllIn(xs: seq<int>, lo: int, hi: int) {
    forall i :: 0 <= i < |xs| ==> lo <= xs[i] <= hi
  }

  /** scheduleSchema's field rules */
  predicate ValidFields(hours: seq<int>, minutes: seq<int>, mdays: seq<int>, months: seq<int>, wdays: seq<int>) {
    && AllIn(hours, 0, 23)
    && AllIn(minutes, 0, 59)
    && AllIn(mdays, 1, 31)
    && AllIn(months, 1, 12)
    && AllIn(wdays, -1, 7)
  }

  predicate ValidSchedule(s: Schedule) {
    ValidFields(s.hours, s.minutes, s.mdays, s.months, s.wdays)
  }

  /** A schedule as it may arrive before parsing: timezone and expiresAt may be absent. */
  datatype ScheduleInput = ScheduleInput(
    timezone: Option<string>,
    expiresAt: Option<int>,
    hours: seq<int>,
    minutes: seq<int>,
    mdays: seq<int>,
    months: seq<int>,
    wdays: seq<int>)

  datatype SchemaError = InvalidField(field: string)

  const DefaultTimezone: string := "UTC"

  /** scheduleSchema.parse: fills the defaults "UTC" and 0, then checks every field. */
  function ParseSchedule(raw: ScheduleInput): (r: Result<Schedule, SchemaError>)
    ensures r.Ok? ==> ValidSchedule(r.value)
    ensures r.Ok? ==> r.value.timezone == (if raw.timezone.Some? then raw.timezone.value else "UTC")
    ensures r.Ok? ==> r.value.expiresAt == (if raw.expiresAt.Some? then raw.expiresAt.value else 0)
    ensures r.Ok? ==> && r.value.hours == raw.hours && r.value.minutes == raw.minutes
                      && r.value.mdays == raw.mdays && r.value.months == raw.months
                      && r.value.wdays == raw.wdays
    ensures r.Err? <==> !ValidFields(raw.hours, raw.minutes, raw.mdays, raw.months, raw.wdays)
  {
    if !AllIn(raw.hours, 0, 23) then Err(InvalidField("hours"))
    else if !AllIn(raw.minutes, 0, 59) then Err(InvalidField("minutes"))
    else if !AllIn(raw.mdays, 1, 31) then Err(InvalidField("mdays"))
    else if !AllIn(raw.months, 1, 12) then Err(InvalidField("months"))
    else if !AllIn(raw.wdays, -1, 7) then Err(InvalidField("wdays"))
    else Ok(Schedule(raw.timezone.GetOr(DefaultTimezone), raw.expiresAt.GetOr(0),
                     raw.hours, raw.minutes, raw.mdays, raw.months, raw.wdays))
  }

  /** alarmSchema's rules on a record (with `active` already defaulted) */
  predicate ValidAlarm(a: Alarm) {
    && |a.userId| > 0
    && |a.name| > 0
    && a.description.Some?
    && ValidSchedule(a.schedule)
  }

  /** alarmSchema's default for `active` */
  function ActiveOrDefault(active: Option<bool>): (b: bool)
    ensures active.None? ==> b
    ensures active.Some? ==> b == active.value
  {
    active.GetOr(true)
  }

  /** createAlarmSchema: exactly name, description and schedule, checked as in alarmSchema */
  predicate ValidCreateRequest(i: AlarmInput) {
    && |i.name| > 0
    && i.description.Some?
    && i.message.None?
    && ValidSchedule(i.schedule)
  }

  // How the tool's one-element lists fare under the schema

  /** A wildcard in hours, minutes, mdays or months breaks scheduleSchema; only
      wdays accepts -1. */
  lemma WildcardAgainstSchema(s: Schedule)
    requires ValidSchedule(s)
    ensures Wildcard !in s.hours && Wildcard !in s.minutes
    ensures Wildcard !in s.mdays && Wildcard !in s.months
    ensures ValidSchedule(s.(wdays := [Wildcard]))
  {
  }
}
