# Alarm scheduling core of a Telegram assistant, in Dafny

The assistant lets a user manage alarms through an LLM tool:

- the tool (`alarm` with the operations list, create, update and delete) turns nullable
  minute / hour / day / month / weekday arguments into a cron-job.org schedule;
- the alarm service stores the alarm in MongoDB, creates a job on cron-job.org that calls
  a webhook, and deletes or deactivates alarms on behalf of their owner;
- when the webhook fires, the service sends a Telegram message for the alarm.

This project models that core and proves properties of the model:

- `wrappers.dfy`: `Option` and `Result`.
- `text.dfy` (module `Text`): `String(n)`, `padStart(2, "0")`, `parseInt(s, 10)` and ASCII
  `toLowerCase`, with their round trips.
- `civil_time.dfy` (module `CivilTime`): the ECMA-262 time-value arithmetic behind
  `Date.UTC`, `setFullYear` and the `getUTC...` accessors (section 21.4.1 of ECMA-262),
  in integer milliseconds.
- `alarm_model.dfy` (module `AlarmModel`): the `Alarm` record, the schedule, the create
  request and a partial update, and the zod schemas as predicates and a default-filling
  parser.
- `alarm_schedule.dfy` (module `AlarmSchedule`): the tool's field encoding, its
  one-time rule, the fire instant, the `YYYYMMDDhhmmss` expiry watermark, the update merge
  rule, and the list view's one-time classifier.
- `alarm_repository.dfy` (module `AlarmStore`): the alarms collection as a class whose
  state is a sequence of records with distinct ids, in insertion order, with the lookups,
  `$set` patches, delete and deactivate.
- `cron_job.dfy` (module `CronJob`): the request bodies, endpoints, headers and error
  texts of the cron-job.org client; the HTTP outcome is a parameter.
- `alarm_service.dfy` (module `AlarmServices`): the lifecycle coordinator as a class over
  the store, the set of remote job ids, the log of requests sent to cron-job.org and the
  outbox of Telegram messages.
- `alarm_tool.dfy` (module `AlarmTools`): the tool as a class whose fields are the
  module-level `currentUserId` and `currentUserAlarms`.
- `json_clean.dfy` (module `JsonClean`): `removeEmpty` over a JSON datatype.

Everything outside the program is a parameter of the operation that uses it:

- the clock (`now`, from which the current year is read, the server's zone being UTC);
- the id MongoDB assigns on insert;
- the outcome of each HTTP call to cron-job.org;
- the webhook base URL and the API key.

Each tool operation is also written as a function of a `World` value (the cached
alarms, the stored records, the requests sent to cron-job.org and the remote jobs):
`CreateStep`, `UpdateStep` and `DeleteStep`. The tool's methods end in exactly the world
and reply those functions give, and the lemmas beside them state what each operation
does to that world, including that create and delete keep the store and cron-job.org
linked (`Linked`: distinct ids, and every job a record names exists and is its own).

Time values are integer milliseconds since the epoch, as the code computes them
(`Date.UTC`, `getTime() + 60000`), not seconds.

Three facts about the code as written shape the model:

- `alarmService.createAlarm` hands `input.cronExpression` to `createJob`
  (src/services/alarm.service.ts:32). The create request has no such field
  (src/models/alarm.ts:25-29), so that argument is a parameter of its own,
  `cronExpression: Option<ScheduleInput>`.
  - When it is `None`, as the code reads it, `createJob` throws a `TypeError` reading
    `schedule.expiresAt` before sending anything. The program runs on Bun, whose engine
    is JavaScriptCore, so the message is "undefined is not an object (evaluating
    'schedule.expiresAt')".
  - The inserted record then stays without a `cronJobId`, and the tool replies
    "Failed to create alarm: undefined is not an object (evaluating 'schedule.expiresAt')".
  - `AlarmTools.AlarmTool.CreateAlarm` and `AlarmTools.CreateWithoutExpression` state this
    case outright.
- The tool calls `alarmService.updateAlarm` (src/ai/tools/alarm.tool.ts:261), which does
  not exist. `AlarmTool.UpdateAlarm` returns the alarm id, the user id and the update
  data it would hand over, and a parameter says whether that step threw. The store is
  not changed.
- `triggerAlarm` reads `description`, while the tool stores only `message`. An alarm
  created through the tool therefore always notifies "Reminder"
  (`AlarmServices.TriggerIgnoresMessage`).

## Model

| member | source | states |
|---|---|---|
| AlarmModel.ParseSchedule | src/models/alarm.ts:3-11 | parsing succeeds exactly when hours ⊆ 0..23, minutes ⊆ 0..59, mdays ⊆ 1..31, months ⊆ 1..12 and wdays ⊆ -1..7; on success the lists are copied unchanged, timezone defaults to "UTC" and expiresAt to 0 |
| AlarmModel.ValidAlarm | src/models/alarm.ts:13-23 | alarmSchema: non-empty userId and name, a description, and a valid schedule |
| AlarmModel.ValidCreateRequest | src/models/alarm.ts:25-29 | createAlarmSchema: the name, description and schedule of alarmSchema, nothing else |
| AlarmModel.ActiveOrDefault | src/models/alarm.ts:20 | an absent `active` reads as true, a given one as itself |
| AlarmModel.WildcardAgainstSchema | src/models/alarm.ts:6-10 | no valid schedule holds -1 in hours, minutes, mdays or months, while wdays = [-1] keeps a valid schedule valid |
| Text.NatToStringValue | src/ai/tools/alarm.tool.ts:164-168 | the decimal rendering of n is a digit string whose value is n |
| Text.DigitsValueAppend | src/ai/tools/alarm.tool.ts:170 | the value of a concatenation of digit strings is the left value shifted by the right length plus the right value |
| Text.Pad2Value | src/ai/tools/alarm.tool.ts:164-168 | any n below 100, rendered and padded to two characters, is two digits whose value is n |
| Text.ParseInt | src/ai/tools/alarm.tool.ts:170 | NaN exactly when no digit follows the optional sign; a number only from a string that starts with a sign or a digit |
| Text.ParseIntDigits | src/ai/tools/alarm.tool.ts:170 | parseInt of a non-empty digit string is its value |
| Text.ParseIntNegative | src/ai/tools/alarm.tool.ts:170 | parseInt of "-" followed by digits is minus their value |
| Text.ParseIntToString | src/ai/tools/alarm.tool.ts:170 | parseInt reads back every rendered integer, negative ones included |
| Text.ParseNatThenText | src/services/cron-job.service.ts:79 | parseInt of a number followed by a non-digit reads the number and stops |
| Text.DigitPrefixStops | src/ai/tools/alarm.tool.ts:170 | parseInt's digit run ends at the first non-digit |
| Text.LowerIdempotent | src/ai/tools/alarm.tool.ts:138 | lower-casing twice is lower-casing once |
| CivilTime.DateUtc | src/ai/tools/alarm.tool.ts:152 | Date.UTC: years 0..99 read as 1900..1999, then MakeDate(MakeDay, MakeTime) |
| CivilTime.SetFullYear | src/ai/tools/alarm.tool.ts:156 | the same month, date and time of day in the given year, normalised like MakeDay |
| CivilTime.YearFromDay | src/ai/tools/alarm.tool.ts:147 | the year of a day is the one whose interval [DayFromYear(y), DayFromYear(y+1)) holds it |
| CivilTime.YearFromDayUnique | src/ai/tools/alarm.tool.ts:147 | that year interval is unique |
| CivilTime.DayFromYearMonotone | src/ai/tools/alarm.tool.ts:147 | later years start on later days, at least 365 days later |
| CivilTime.MonthOfDayInYear | src/ai/tools/alarm.tool.ts:164-165 | a day within a year lies in the month getUTCMonth names, with a date from 1 to that month's length |
| CivilTime.MonthDateUnique | src/ai/tools/alarm.tool.ts:164-165 | a valid month and date are read back as themselves |
| CivilTime.DayRoundTrip | src/ai/tools/alarm.tool.ts:152 | rebuilding a day from its year, month and date with MakeDay gives that day |
| CivilTime.TimeRoundTrip | src/ai/tools/alarm.tool.ts:152-168 | Date.UTC of the getUTC fields of a time value gives that value back (years outside 0..99) |
| CivilTime.CivilUnique | src/ai/tools/alarm.tool.ts:152-168 | a valid date and time of day are read back field for field by the getUTC accessors |
| AlarmSchedule.DecodeField | src/ai/tools/alarm.tool.ts:213-216 | undefined exactly when the list is empty; null exactly when the first element is -1; otherwise the first element itself |
| AlarmSchedule.EncodeField | src/ai/tools/alarm.tool.ts:178-182 | one element; a value v other than -1 gives a list that reads back as v, null or undefined gives one that reads back as null |
| AlarmSchedule.CreateSchedule | src/ai/tools/alarm.tool.ts:143-183 | timezone "UTC", expiresAt by the one-time rule, and each field encoded to [v] or [-1] |
| AlarmSchedule.MergeField | src/ai/tools/alarm.tool.ts:253-257 | undefined keeps the current list, null gives [-1], a value v gives [v] |
| AlarmSchedule.MergeSchedule | src/ai/tools/alarm.tool.ts:210-258 | timezone "UTC"; each list merged by the field rule; expiresAt the one create would compute from the final values (each argument, or the current first element with -1 read as null); 0 unless the final day and month are given, and then positive and decoding to the fire instant plus 60 s |
| AlarmSchedule.MergeAllGiven | src/ai/tools/alarm.tool.ts:210-258 | an update that gives every schedule field builds exactly the schedule create builds |
| AlarmSchedule.IsOneTimeArgs | src/ai/tools/alarm.tool.ts:143 | one-time exactly when day and month are both neither null nor undefined |
| AlarmSchedule.DisplayIsOneTime | src/ai/tools/alarm.tool.ts:106-108 | "One-time" exactly when expiresAt > 0 and neither the first mday nor the first month is -1 |
| AlarmSchedule.FireInstant | src/ai/tools/alarm.tool.ts:146-157 | the fire instant is never before now and is a whole minute |
| AlarmSchedule.CandidateInYear | src/ai/tools/alarm.tool.ts:147-152 | with in-range arguments, the candidate is that date and time of the current year |
| AlarmSchedule.FireInstantYear | src/ai/tools/alarm.tool.ts:152-157 | the fire instant is in the next year exactly when the candidate was before now, else in the current year: one year forward at most |
| AlarmSchedule.FirePastCandidate | src/ai/tools/alarm.tool.ts:155-157 | a past candidate is moved by setFullYear(currentYear + 1) |
| AlarmSchedule.FireInstantNextYear | src/ai/tools/alarm.tool.ts:152-157 | a past date that exists in the current year fires on the same date and time of the next year |
| AlarmSchedule.RollForwardNotPast | src/ai/tools/alarm.tool.ts:155-157 | after the roll forward the instant is not before now |
| AlarmSchedule.AdvancedInYear | src/ai/tools/alarm.tool.ts:156 | setFullYear(y) gives an instant in year y |
| AlarmSchedule.ExpiryWatermark | src/ai/tools/alarm.tool.ts:160-170 | parseInt of the YYYYMMDDhhmmss text of t is the number those digits stand for |
| AlarmSchedule.WatermarkParses | src/ai/tools/alarm.tool.ts:163-170 | parseInt of the watermark text always yields a number, the value of its digits |
| AlarmSchedule.WatermarkRoundTrip | src/ai/tools/alarm.tool.ts:160-170 | decoding the watermark of a whole second from year 0 on gives that instant back |
| AlarmSchedule.WholeMinuteExpiry | src/ai/tools/alarm.tool.ts:160-170 | the watermark of a whole minute from 1970 on is positive, ends in 00 and decodes to that minute |
| AlarmSchedule.OneTimeExpiry | src/ai/tools/alarm.tool.ts:159-170 | for a whole-minute fire instant from 1970 on, expiresAt is positive, its seconds digits are 00, and it decodes to the fire instant plus 60 s |
| AlarmSchedule.ExpiresAt | src/ai/tools/alarm.tool.ts:143-171 | 0 unless day and month are both given; from 1970 on positive exactly when they are, and then it decodes to the fire instant (hour and minute defaulting to 0) plus 60 s |
| AlarmSchedule.CreateClassifiersAgree | src/ai/tools/alarm.tool.ts:106-143 | on schedules that create builds, the list view's "One-time" agrees with the tool's one-time rule |
| AlarmSchedule.MergeClassifiersAgree | src/ai/tools/alarm.tool.ts:210-218 | on schedules that update rebuilds, "One-time" agrees with the rule applied to the merged day and month |
| AlarmSchedule.ClassifiersDisagreeOnEmptyLists | src/ai/tools/alarm.tool.ts:213-218 | a stored schedule with empty day and month lists and a positive expiresAt is "One-time" to the list view but recurring to update |
| AlarmSchedule.RecurringExample | src/ai/tools/alarm.tool.ts:172-183 | "every day at 9": lists [9], [0], [-1], [-1], [-1] with expiresAt 0, which scheduleSchema refuses |
| AlarmSchedule.OneTimeExampleSameYear | src/ai/tools/alarm.tool.ts:146-157 | 25 December 14:30 asked on 2024-01-01 fires 2024-12-25T14:30Z |
| AlarmSchedule.OneTimeExampleExpiry | src/ai/tools/alarm.tool.ts:143-171 | ... with expiresAt 20241225143100 |
| AlarmSchedule.OneTimeExampleNextYear | src/ai/tools/alarm.tool.ts:155-157 | asked on 2024-12-26 it fires 2025-12-25T14:30Z |
| AlarmSchedule.LeapDayExample | src/ai/tools/alarm.tool.ts:152-157 | 29 February asked on 2024-03-01 fires 2025-03-01T00:00Z: setFullYear normalises the missing leap day |
| AlarmStore.Find | src/repositories/alarm.repository.ts:17-24 | none exactly when no record passes; a found record is in the collection and passes |
| AlarmStore.FindFirst | src/repositories/alarm.repository.ts:17-24 | the lookup returns the first record that passes |
| AlarmStore.Filter | src/repositories/alarm.repository.ts:26-32 | never longer than the collection |
| AlarmStore.FilterMembers | src/repositories/alarm.repository.ts:26-32 | a record is listed exactly when it is in the collection and passes |
| AlarmStore.FilterAppend | src/repositories/alarm.repository.ts:26-32 | filtering keeps collection order |
| AlarmStore.FilterAll | src/repositories/alarm.repository.ts:26-32 | a filter every record passes returns the whole collection |
| AlarmStore.FindByIdAt | src/repositories/alarm.repository.ts:17-20 | with distinct ids, the lookup by a record's id finds that record |
| AlarmStore.FindAppend | src/repositories/alarm.repository.ts:12-15 | after an insert, the new record is found by its id when no older one has it, and every other lookup is unchanged |
| AlarmStore.AppendUnique | src/repositories/alarm.repository.ts:12-15 | inserting under a new id keeps ids distinct |
| AlarmStore.ApplyPatch | src/repositories/alarm.repository.ts:34-40 | each field the patch gives is set, updatedAt is now, and id, userId, description and createdAt are kept |
| AlarmStore.PatchById | src/repositories/alarm.repository.ts:34-40 | same length; the record with the id is patched and every other record is kept |
| AlarmStore.PatchAbsent | src/repositories/alarm.repository.ts:34-40 | an update of an absent id changes nothing |
| AlarmStore.PatchLast | src/services/alarm.service.ts:19-37 | updating the record just inserted patches it alone |
| AlarmStore.PatchUnique | src/repositories/alarm.repository.ts:34-40 | an update keeps ids distinct |
| AlarmStore.PatchFindSame | src/repositories/alarm.repository.ts:34-40 | after an update, the lookup by that id finds the patched record (or nothing, as before) |
| AlarmStore.PatchFindOther | src/repositories/alarm.repository.ts:34-40 | lookups by other ids are unchanged by an update |
| AlarmStore.FilterUnique | src/repositories/alarm.repository.ts:42-45 | filtering keeps ids distinct |
| AlarmStore.FindFilter | src/repositories/alarm.repository.ts:42-45 | dropping records the lookup would skip does not change what it finds |
| AlarmStore.RemoveFind | src/repositories/alarm.repository.ts:42-45 | delete keeps ids distinct, the id is then not found, and lookups by other ids are unchanged |
| AlarmStore.ByUserExactly | src/repositories/alarm.repository.ts:26-32 | the listings by user and by active flag hold exactly the matching records |
| AlarmStore.DeactivateKeeps | src/repositories/alarm.repository.ts:47-53 | deactivation sets active to false and updatedAt to now, and keeps every other field |
| AlarmStore.AlarmRepository.CreateAlarm | src/repositories/alarm.repository.ts:12-15 | the record is stored and returned with its own `_id` or the driver's; a taken id fails with a duplicate-key error and stores nothing |
| AlarmStore.AlarmRepository.GetAlarmById | src/repositories/alarm.repository.ts:17-20 | the stored record with that id, or none exactly when no record has it |
| AlarmStore.AlarmRepository.GetAlarmByCronJobId | src/repositories/alarm.repository.ts:22-24 | a stored record with that cronJobId, or none exactly when no record has it |
| AlarmStore.AlarmRepository.GetAlarmsByUserId | src/repositories/alarm.repository.ts:26-28 | exactly the records with that userId, in collection order |
| AlarmStore.AlarmRepository.GetActiveAlarms | src/repositories/alarm.repository.ts:30-32 | exactly the active records, in collection order |
| AlarmStore.AlarmRepository.UpdateAlarm | src/repositories/alarm.repository.ts:34-40 | the new collection is the old one with that id patched; ids stay distinct |
| AlarmStore.AlarmRepository.DeleteAlarm | src/repositories/alarm.repository.ts:42-45 | the new collection is the old one without that id |
| AlarmStore.AlarmRepository.DeactivateAlarm | src/repositories/alarm.repository.ts:47-53 | the new collection is the old one with that id switched off and updatedAt refreshed |
| CronJob.JobScheduleOf | src/services/cron-job.service.ts:52-55 | the schedule is copied field for field, with expiresAt defaulting to 0 |
| CronJob.BuildBody | src/services/cron-job.service.ts:45-57 | an undefined schedule fails before anything is sent; otherwise the body holds the title and url, enabled, saveResponses, requestMethod 0 and the copied schedule |
| CronJob.CreateJob | src/services/cron-job.service.ts:43-84 | a PUT to /jobs with the body; the result is the answer's jobId, or the API error text on failure |
| CronJob.UpdateJob | src/services/cron-job.service.ts:106-140 | a PATCH to /jobs/{jobId} with the same body; it succeeds exactly when the server answered, and a failure carries the "Cron-job.org API error: ..." text |
| CronJob.DeleteJob | src/services/cron-job.service.ts:86-104 | a DELETE to /jobs/{jobId} without a body; it succeeds exactly when the server answered, and a failure carries the "Cron-job.org API error: ..." text |
| CronJob.CreateUpdateSameBody | src/services/cron-job.service.ts:109-121 | create and update send identical bodies for the same url, schedule and title |
| CronJob.JobUrlId | src/services/cron-job.service.ts:89-125 | the job id is the tail of a job's URL and parseInt reads it back |
| CronJob.ApiErrorStatus | src/services/cron-job.service.ts:76-80 | an API error message starts with "Cron-job.org API error: ", followed by the positive HTTP status (parseInt gives it back) or by "Unknown" when there is none |
| AlarmServices.NewAlarm | src/services/alarm.service.ts:11-17 | the inserted record has the caller's userId and the input's fields, is active, has no id or cronJobId, and is created and updated now |
| AlarmServices.TriggerText | src/services/alarm.service.ts:109 | "⏰ **name**\n\n" followed by the description, or "Reminder" when it is missing or empty |
| AlarmServices.TriggerEffect | src/services/alarm.service.ts:101-110 | at most one notification; none exactly when the alarm is missing or inactive; otherwise it goes to the alarm's user with the trigger text |
| AlarmServices.TriggerIgnoresMessage | src/services/alarm.service.ts:109 | an alarm created with a message and no description notifies "Reminder" |
| AlarmServices.TriggerAfterDeactivate | src/services/alarm.service.ts:79-107 | a deactivated alarm triggers nothing |
| AlarmServices.TriggerAfterDelete | src/services/alarm.service.ts:57-107 | a deleted alarm triggers nothing, and every other alarm triggers as before |
| AlarmServices.TriggerAfterJobAttached | src/services/alarm.service.ts:37-110 | attaching the job id leaves the notification as it was |
| AlarmServices.AlarmService.CreateAlarm | src/services/alarm.service.ts:9-47 | a taken id fails and changes nothing; an empty id fails after the insert, before any request; otherwise exactly createJob's request is sent, and on success the record gets the job id, which is returned and recorded as a remote job, while on failure the record stays without one |
| AlarmServices.AlarmService.GetAlarmsByUserId | src/services/alarm.service.ts:49-51 | exactly the user's records |
| AlarmServices.AlarmService.GetActiveAlarms | src/services/alarm.service.ts:53-55 | exactly the active records |
| AlarmServices.AlarmService.RemoveJob | src/services/alarm.service.ts:66-73 | a delete request only when a truthy cronJobId is present; the remote job goes only when the server answered, and a failure is swallowed |
| AlarmServices.AlarmService.DeleteAlarm | src/services/alarm.service.ts:57-77 | "Alarm not found" and "Unauthorized" change nothing and send nothing; otherwise the best-effort job removal, then the record is removed |
| AlarmServices.AlarmService.DeactivateAlarm | src/services/alarm.service.ts:79-99 | as delete, but the record stays with active false and updatedAt refreshed |
| AlarmServices.AlarmService.TriggerAlarm | src/services/alarm.service.ts:101-122 | the outbox gains exactly the trigger effect; the store and the remote side are untouched |
| AlarmTools.FindByName | src/ai/tools/alarm.tool.ts:138 | a case-insensitive match from the cache, or none exactly when no cached name matches ignoring case |
| AlarmTools.CreateRefusal | src/ai/tools/alarm.tool.ts:134-141 | a missing or empty name is refused with the error text; otherwise refused exactly when a cached alarm has the name ignoring case, with the warning naming that alarm |
| AlarmTools.DuplicateIgnoresCase | src/ai/tools/alarm.tool.ts:138-141 | a name matching a cached one ignoring case is refused, and so is its lower-case form |
| AlarmTools.ToolInput | src/ai/tools/alarm.tool.ts:172-175 | the service gets the name, no description, the schedule and the message or "" |
| AlarmTools.UpdateData | src/ai/tools/alarm.tool.ts:205-258 | name and message only when given; a merged schedule exactly when some schedule argument is given; nothing else |
| AlarmTools.TextOnlyUpdate | src/ai/tools/alarm.tool.ts:205-207 | an update giving a name and a message and no schedule argument changes only the name, the message and updatedAt |
| AlarmTools.UpdateKeepsUndefinedFields | src/ai/tools/alarm.tool.ts:253-257 | fields left undefined keep their current lists |
| AlarmTools.DeleteTarget | src/ai/tools/alarm.tool.ts:272-282 | by id when an id is given, else by name ignoring case, else nothing; a target is always a cached alarm |
| AlarmTools.DeleteById | src/ai/tools/alarm.tool.ts:274-275 | with distinct ids, a delete by id finds that alarm, whatever the name says |
| AlarmTools.StoredRecord | src/ai/tools/alarm.tool.ts:172-184 | the record create stores: the generated id, the user, the name, no description, the message or "", the built schedule, no job, active, created and updated now |
| AlarmTools.CreateAppends | src/ai/tools/alarm.tool.ts:134-186 | past the refusals and under a fresh id, exactly one record is appended with those fields, and a job id it carries names an existing job |
| AlarmTools.CreateWithoutExpression | src/ai/tools/alarm.tool.ts:172-184 | an undefined schedule argument replies "Failed to create alarm: " followed by JavaScriptCore's TypeError text, sends nothing, creates no job and keeps the record |
| AlarmTools.CreateSucceeds | src/ai/tools/alarm.tool.ts:172-188 | when cron-job.org answers: the reply names the alarm, one PUT to /jobs is recorded, the job exists, the record carries its id, and the refreshed cache holds exactly the user's records, the new one included |
| AlarmTools.CreateApiFails | src/ai/tools/alarm.tool.ts:172-184 | when cron-job.org refuses: "Failed to create alarm: Cron-job.org API error: <status> <error>", the request recorded, no job, the record kept without one, the cache unchanged |
| AlarmTools.CreateDuplicateId | src/ai/tools/alarm.tool.ts:172-184 | an assigned id the store already holds fails with the duplicate-key text and changes nothing |
| AlarmTools.CreateFailureKeepsJobs | src/ai/tools/alarm.tool.ts:134-188 | only a successful create changes the jobs or the cache; a refusal changes nothing |
| AlarmTools.LinkedAppend | src/services/alarm.service.ts:19-37 | inserting under a fresh id a record whose job is new and now exists keeps the store linked to cron-job.org |
| AlarmTools.CreateKeepsLinked | src/ai/tools/alarm.tool.ts:130-189 | create keeps the store linked to cron-job.org when the job id returned is new |
| AlarmTools.UpdateKeepsStore | src/ai/tools/alarm.tool.ts:191-267 | update never changes the store, the requests or the jobs; only a success refreshes the cache; what is handed over is a cached id with the caller's user |
| AlarmTools.DeleteRemoves | src/ai/tools/alarm.tool.ts:269-297 | a successful delete leaves no record with the target's id, keeps every other id's record and distinct ids, and the cache holds exactly the user's remaining records |
| AlarmTools.DeleteFailureChangesNothing | src/ai/tools/alarm.tool.ts:269-297 | a refused or failed delete changes nothing; a successful one acted on a stored record the user owns |
| AlarmTools.DeleteKeepsLinked | src/ai/tools/alarm.tool.ts:269-297 | delete keeps the store linked to cron-job.org: the job removed is the deleted record's own |
| AlarmTools.AlarmTool.SetContext | src/ai/tools/alarm.tool.ts:10-13 | the user is remembered and the cache holds exactly that user's alarms |
| AlarmTools.AlarmTool.ListAlarms | src/ai/tools/alarm.tool.ts:118-128 | the cache is refreshed to the user's alarms and listed |
| AlarmTools.AlarmTool.CreateAlarm | src/ai/tools/alarm.tool.ts:130-189 | the reply, cache, store, requests and jobs are exactly CreateStep's; a refusal changes nothing; an undefined schedule argument fails with the TypeError text and sends nothing; a success refreshes the cache |
| AlarmTools.AlarmTool.UpdateAlarm | src/ai/tools/alarm.tool.ts:191-267 | the reply, hand-over and cache are exactly UpdateStep's: a missing id or one not in the cache is refused and hands nothing over; otherwise (alarmId, userId, updateData) is handed over, and the reply names the new name or the current one |
| AlarmTools.AlarmTool.DeleteAlarm | src/ai/tools/alarm.tool.ts:269-297 | the reply, cache, store, requests and jobs are exactly DeleteStep's: no target or one without an id is refused; "Alarm not found" and "Unauthorized" become "Failed to delete alarm: ..." and change nothing; otherwise the record goes, with its job's best-effort removal |
| AlarmTools.AlarmTool.Execute | src/ai/tools/alarm.tool.ts:92-315 | without a user context it refuses and changes nothing; list refreshes the cache and shows it; create, update and delete end exactly as CreateStep, UpdateStep and DeleteStep say, and only update hands anything over |
| JsonClean.DropNullish | src/services/utils.service.ts:9 | no nullish element remains, and each remaining one was there |
| JsonClean.KeepEntries | src/services/utils.service.ts:18-25 | only entries whose value is kept remain, and each remaining one was there |
| JsonClean.DropNullishAppend | src/services/utils.service.ts:7-9 | dropping keeps the order of what remains |
| JsonClean.KeepEntriesAppend | src/services/utils.service.ts:15-28 | the reducer keeps key order |
| JsonClean.RemoveEmpty | src/services/utils.service.ts:1-34 | null, undefined and primitives are returned unchanged; an array becomes undefined or a non-empty array; an object stays an object |
| JsonClean.RemoveEmptyClean | src/services/utils.service.ts:1-34 | the result has nothing left to remove |
| JsonClean.RemoveEmptyOfClean | src/services/utils.service.ts:1-34 | a value with nothing to remove is returned as it is |
| JsonClean.RemoveEmptyIdempotent | src/services/utils.service.ts:1-34 | applying removeEmpty twice equals applying it once |
| JsonClean.ArrayOfNothing | src/services/utils.service.ts:6-11 | an array whose elements all clean to nullish becomes undefined |
| JsonClean.ObjectOfNothing | src/services/utils.service.ts:14-31 | an object whose keys are all dropped becomes {}, not undefined, and is itself dropped when nested |
| JsonClean.ArrayKeepsOrder | src/services/utils.service.ts:6-11 | an array keeps its cleaned non-nullish elements in order |
| JsonClean.NestedEmpties | src/services/utils.service.ts:14-31 | an empty array inside an object is dropped, but an empty object inside an array stays |

## Left out

- I/O is not modelled:
  - MongoDB, axios, Telegram's `sendMessage` and the Sentry logger are replaced by
    parameters (the assigned id, the HTTP outcome) and by recorded effects (the request
    log, the job set, the outbox);
  - logging and the `console.log` calls are dropped.
- Malformed ids: `new ObjectId(id)` throws for a string that is not 24 hex digits. The
  model treats every id as a plain string key.
- The duplicate-key error text: the model uses a short form of MongoDB's "E11000
  duplicate key error" message, not the driver's full text.
- Concurrency: webhook triggers racing with user edits, and the `await` interleavings,
  are out of scope. Each operation is atomic and reads the clock once. The code calls
  `new Date()` separately for createdAt, updatedAt and each update.
- TimeClip: Date values beyond ±8.64e15 ms (NaN dates) are not modelled; time values are
  unbounded integers.
- Two-digit years: `Date.UTC` maps years 0..99 to 1900..1999. `DateUtc` models this, but
  the round-trip lemmas exclude those years.
- `parseInt` is modelled on exact integers. Every year a valid Date can hold is at most
  275760 (TimeClip's limit), so every watermark is below 2.8e15 < 2^53, and a JS double
  holds it exactly.
- Text.Lower: only ASCII letters are lower-cased. `toLowerCase`'s full Unicode case
  mapping is not modelled.
- The free-text output strings are replaced by `Reply` values carrying the alarm's name or
  the listed alarms:
  - the tool's success messages;
  - `formatAlarmsForContext`, `formatAlarmForDisplay` and `getAlarmToolDescription`.

  The display classifier of `formatAlarmForDisplay` is modelled (`DisplayIsOneTime`).
- The unknown-operation branch (src/ai/tools/alarm.tool.ts:309-310): the operation is an
  enumeration, so that branch cannot occur.
- An error other than `Error` ("Unknown error"): only `Error` messages occur in the model.
- The response data in API error text: it is modelled as a string. The code interpolates
  whatever JSON body axios returns.
- Dates in `removeEmpty`: `Date` values (createdAt) are objects with no own enumerable
  keys, so `removeEmpty` would drop them as empty objects. The JSON model has no
  separate Date case: such a value is `Obj([])`.
- `setAlarmToolContext` is never called anywhere in the repository. `AlarmTool.SetContext`
  models it, and `Execute` refuses while no context is set.
- AlarmTools.TextOnlyUpdate (and `Params` generally): `message` is optional in the model,
  as in the `execute` signature (src/ai/tools/alarm.tool.ts:84), although the input schema
  requires it (src/ai/tools/alarm.tool.ts:73). The model therefore admits calls the schema
  would reject; every lemma holds for them too.
- AlarmTools.CreateKeepsLinked: it assumes that cron-job.org never returns a job id it
  already handed out; the code relies on this without checking it.
- `alarmService.updateAlarm` does not exist. AlarmTools.AlarmTool.UpdateAlarm models the
  call as an abstract step that leaves the store unchanged.
- AlarmServices.AlarmService.CreateAlarm: the schedule argument is a parameter, since
  `input.cronExpression` is not a field of the create request. The tool's path passes it
  as the environment gives it.
- AlarmStore.Filter: its own contract states only the length bound; what it lists is
  stated by `FilterMembers`, `FilterAppend` and `FilterAll`.
- `getAlarmByCronJobId` and `getActiveAlarms` are modelled, but nothing in the core calls
  them.
