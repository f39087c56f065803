/**
  The alarm lifecycle (src/services/alarm.service.ts): a coordinator over the local store
  and the jobs on cron-job.org. Every remote answer, the id the driver assigns, the clock
  and the webhook base URL and API key are parameters; Telegram's sendMessage is recorded
  as a notification in an outbox.
*/
module AlarmServices {
  import opened Wrappers
  import opened AlarmModel
  import opened AlarmStore
  import opened CronJob

  /** A message handed to Telegram's sendMessage: the chat (the alarm's user) and the text */
  datatype Notification = Notification(chatId: string, text: string)

  datatype ServiceError =
    | StoreFailure(store: StoreError)
    | NoIdReturned
    | NotFound
    | Unauthorized
    | JobFailure(job: JobError)

  /** The message of the error the service throws */
  function ServiceErrorMessage(e: ServiceError): string {
    match e
    case StoreFailure(DuplicateKey(id)) => "E11000 duplicate key error: _id " + id
    case NoIdReturned => "Failed to create alarm - no ID returned"
    case NotFound => "Alarm not found"
    case Unauthorized => "Unauthorized"
    case JobFailure(j) => ErrorMessage(j)
  }

  /** The record createAlarm inserts: the user, the input's fields, active, both dates now */
  function NewAlarm(userId: string, input: AlarmInput, now: int): (a: Alarm)
    ensures a.id.None? && a.cronJobId.None? && a.active
    ensures a.userId == userId && a.name == input.name && a.description == input.description
    ensures a.message == input.message && a.schedule == input.schedule
    ensures a.createdAt == now && a.updatedAt == now
  {
    Alarm(None, userId, input.name, input.description, input.message, input.schedule, None, true, now, now)
  }

  /** The title of an alarm's job */
  function JobTitle(name: string): string { "Alarm: " + name }

  const DefaultReminder: string := "Reminder"

  /** "⏰ **name**\n\n" followed by the description, or "Reminder" when it is missing or empty */
  function TriggerText(a: Alarm): (t: string)
    ensures a.description.None? || a.description == Some("") ==> t == "⏰ **" + a.name + "**\n\n" + DefaultReminder
    ensures a.description.Some? && a.description.value != "" ==> t == "⏰ **" + a.name + "**\n\n" + a.description.value
  {
    "⏰ **" + a.name + "**\n\n" + (if a.description.Some? && a.description.value != "" then a.description.value else DefaultReminder)
  }

  /** What triggering an alarm id sends: one notification to the alarm's user when the alarm
      exists and is active, nothing otherwise. */
  function TriggerEffect(s: seq<Alarm>, alarmId: string): (r: seq<Notification>)
    ensures |r| <= 1
    ensures r == [] <==> FindById(s, alarmId).None? || !FindById(s, alarmId).value.active
    ensures r != [] ==> r[0] == Notification(FindById(s, alarmId).value.userId, TriggerText(FindById(s, alarmId).value))
  {
    var a := FindById(s, alarmId);
    if a.Some? && a.value.active then [Notification(a.value.userId, TriggerText(a.value))] else []
  }

  /** `if (alarm.cronJobId)`: absent and 0 are both falsy. */
  predicate HasJob(cronJobId: Option<int>) {
    cronJobId.Some? && cronJobId.value != 0
  }

  // Properties over several operations

  /** An alarm created through the tool has no description, so its notification reads
      "Reminder" whatever message was stored with it. */
  lemma TriggerIgnoresMessage(userId: string, name: string, message: string, schedule: Schedule, now: int)
    ensures TriggerText(NewAlarm(userId, AlarmInput(name, None, Some(message), schedule), now))
         == "⏰ **" + name + "**\n\n" + "Reminder"
  {
  }

  /** Once an alarm is deactivated, triggering it sends nothing. */
  lemma TriggerAfterDeactivate(s: seq<Alarm>, alarmId: string, now: int)
    requires UniqueIds(s)
    ensures TriggerEffect(PatchById(s, alarmId, DeactivatePatch, now), alarmId) == []
  {
    PatchFindSame(s, alarmId, DeactivatePatch, now);
  }

  /** Once an alarm is deleted, triggering it sends nothing, and every other alarm triggers
      as before. */
  lemma TriggerAfterDelete(s: seq<Alarm>, alarmId: string, other: string)
    requires UniqueIds(s)
    ensures TriggerEffect(RemoveId(s, alarmId), alarmId) == []
    ensures other != alarmId ==> TriggerEffect(RemoveId(s, alarmId), other) == TriggerEffect(s, other)
  {
    RemoveFind(s, alarmId, other);
  }

  /** Attaching the job id to a record leaves its notification as it was. */
  lemma TriggerAfterJobAttached(s: seq<Alarm>, alarmId: string, jobId: int, now: int)
    requires UniqueIds(s)
    ensures TriggerEffect(PatchById(s, alarmId, EmptyPatch.(cronJobId := Some(jobId)), now), alarmId)
         == TriggerEffect(s, alarmId)
  {
    PatchFindSame(s, alarmId, EmptyPatch.(cronJobId := Some(jobId)), now);
  }

  class AlarmService {
    const repo: AlarmRepository
    const apiKey: string
    /** CRONJOB_WEBHOOK_URL */
    const webhookBase: string
    /** The ids of the jobs that exist on cron-job.org */
    var jobs: set<int>
    /** Every request sent to cron-job.org, in order */
    var requests: seq<Request>
    /** Every message handed to Telegram, in order */
    var outbox: seq<Notification>

    ghost predicate Valid()
      reads this, repo
    {
      repo.Valid()
    }

    constructor (repo: AlarmRepository, apiKey: string, webhookBase: string)
      requires repo.Valid()
      ensures Valid()
      ensures this.repo == repo && this.apiKey == apiKey && this.webhookBase == webhookBase
      ensures jobs == {} && requests == [] && outbox == []
    {
      this.repo := repo;
      this.apiKey := apiKey;
      this.webhookBase := webhookBase;
      jobs, requests, outbox := {}, [], [];
    }

    /** createAlarm: insert the record, then create its job, then attach the job id. The
        schedule handed to createJob is `cronExpression`, an argument of its own here. */
    method CreateAlarm(userId: string, input: AlarmInput, now: int, generatedId: string,
                       cronExpression: Option<ScheduleInput>, outcome: HttpOutcome)
      returns (r: Result<Alarm, ServiceError>)
      requires Valid()
      modifies this, repo
      ensures Valid() && outbox == old(outbox)
      ensures var stored := NewAlarm(userId, input, now).(id := Some(generatedId));
        var call := CreateJob(apiKey, webhookBase + generatedId, cronExpression, JobTitle(input.name), outcome);
        if FindById(old(repo.alarms), generatedId).Some? then
          && r == Err(StoreFailure(DuplicateKey(generatedId)))
          && repo.alarms == old(repo.alarms) && requests == old(requests) && jobs == old(jobs)
        else if generatedId == "" then
          && r == Err(NoIdReturned)
          && repo.alarms == old(repo.alarms) + [stored] && requests == old(requests) && jobs == old(jobs)
        else
          && requests == old(requests) + (if call.sent.Some? then [call.sent.value] else [])
          && (call.result.Err? ==>
                && r == Err(JobFailure(call.result.error))
                && repo.alarms == old(repo.alarms) + [stored] && jobs == old(jobs))
          && (call.result.Ok? ==>
                && r == Ok(stored.(cronJobId := Some(call.result.value)))
                && repo.alarms == old(repo.alarms) + [r.value]
                && jobs == old(jobs) + {call.result.value})
    {
      var alarm := NewAlarm(userId, input, now);
      var created := repo.CreateAlarm(alarm, generatedId);
      if created.Err? {
        r := Err(StoreFailure(created.error));
        return;
      }
      var alarmId := created.value.id.value;
      if alarmId == "" {
        r := Err(NoIdReturned);
        return;
      }
      var call := CreateJob(apiKey, webhookBase + alarmId, cronExpression, JobTitle(input.name), outcome);
      if call.sent.Some? {
        requests := requests + [call.sent.value];
      }
      if call.result.Err? {
        r := Err(JobFailure(call.result.error));
        return;
      }
      var jobId := call.result.value;
      jobs := jobs + {jobId};
      PatchLast(old(repo.alarms), created.value, EmptyPatch.(cronJobId := Some(jobId)), now);
      repo.UpdateAlarm(alarmId, EmptyPatch.(cronJobId := Some(jobId)), now);
      r := Ok(created.value.(cronJobId := Some(jobId)));
    }

    method GetAlarmsByUserId(userId: string) returns (r: seq<Alarm>)
      ensures forall a :: a in r <==> a in repo.alarms && a.userId == userId
      ensures r == ByUser(repo.alarms, userId)
    {
      r := repo.GetAlarmsByUserId(userId);
    }

    method GetActiveAlarms() returns (r: seq<Alarm>)
      ensures forall a :: a in r <==> a in repo.alarms && a.active
      ensures r == ActiveAlarms(repo.alarms)
    {
      r := repo.GetActiveAlarms();
    }

    /** The best-effort removal of an alarm's job: asked for only when the alarm has one; a
        failure is logged and otherwise ignored, and the job then stays. */
    method RemoveJob(cronJobId: Option<int>, outcome: HttpOutcome)
      modifies this`requests, this`jobs
      ensures !HasJob(cronJobId) ==> requests == old(requests) && jobs == old(jobs)
      ensures HasJob(cronJobId) ==>
        && requests == old(requests) + [Request(Delete, JobUrl(cronJobId.value), Headers(apiKey), None)]
        && jobs == if outcome.Answered? then old(jobs) - {cronJobId.value} else old(jobs)
    {
      if HasJob(cronJobId) {
        var call := DeleteJob(apiKey, cronJobId.value, outcome);
        requests := requests + [call.sent.value];
        if call.result.Ok? {
          jobs := jobs - {cronJobId.value};
        }
      }
    }

    /** deleteAlarm: only the owner may delete; the job goes first (best effort), then the
        record. */
    method DeleteAlarm(alarmId: string, userId: string, outcome: HttpOutcome) returns (r: Result<(), ServiceError>)
      requires Valid()
      modifies this, repo
      ensures Valid() && outbox == old(outbox)
      ensures var a := FindById(old(repo.alarms), alarmId);
        if a.None? then
          r == Err(NotFound) && repo.alarms == old(repo.alarms) && requests == old(requests) && jobs == old(jobs)
        else if a.value.userId != userId then
          r == Err(Unauthorized) && repo.alarms == old(repo.alarms) && requests == old(requests) && jobs == old(jobs)
        else
          && r == Ok(())
          && repo.alarms == RemoveId(old(repo.alarms), alarmId)
          && requests == old(requests) + (if HasJob(a.value.cronJobId) then [Request(Delete, JobUrl(a.value.cronJobId.value), Headers(apiKey), None)] else [])
          && jobs == (if HasJob(a.value.cronJobId) && outcome.Answered? then old(jobs) - {a.value.cronJobId.value} else old(jobs))
    {
      var a := repo.GetAlarmById(alarmId);
      if a.None? {
        r := Err(NotFound);
        return;
      }
      if a.value.userId != userId {
        r := Err(Unauthorized);
        return;
      }
      RemoveJob(a.value.cronJobId, outcome);
      repo.DeleteAlarm(alarmId);
      r := Ok(());
    }

    /** deactivateAlarm: as deleteAlarm, but the record stays, switched off. */
    method DeactivateAlarm(alarmId: string, userId: string, now: int, outcome: HttpOutcome)
      returns (r: Result<(), ServiceError>)
      requires Valid()
      modifies this, repo
      ensures Valid() && outbox == old(outbox)
      ensures var a := FindById(old(repo.alarms), alarmId);
        if a.None? then
          r == Err(NotFound) && repo.alarms == old(repo.alarms) && requests == old(requests) && jobs == old(jobs)
        else if a.value.userId != userId then
          r == Err(Unauthorized) && repo.alarms == old(repo.alarms) && requests == old(requests) && jobs == old(jobs)
        else
          && r == Ok(())
          && repo.alarms == PatchById(old(repo.alarms), alarmId, DeactivatePatch, now)
          && requests == old(requests) + (if HasJob(a.value.cronJobId) then [Request(Delete, JobUrl(a.value.cronJobId.value), Headers(apiKey), None)] else [])
          && jobs == (if HasJob(a.value.cronJobId) && outcome.Answered? then old(jobs) - {a.value.cronJobId.value} else old(jobs))
    {
      var a := repo.GetAlarmById(alarmId);
      if a.None? {
        r := Err(NotFound);
        return;
      }
      if a.value.userId != userId {
        r := Err(Unauthorized);
        return;
      }
      RemoveJob(a.value.cronJobId, outcome);
      repo.DeactivateAlarm(alarmId, now);
      r := Ok(());
    }

    /** triggerAlarm: at most one notification, never an error, and the store is untouched
        (a one-time alarm stays as it is after firing). */
    method TriggerAlarm(alarmId: string)
      requires Valid()
      modifies this`outbox
      ensures outbox == old(outbox) + TriggerEffect(repo.alarms, alarmId)
    {
      var a := repo.GetAlarmById(alarmId);
      if a.Some? && a.value.active {
        outbox := outbox + [Notification(a.value.userId, TriggerText(a.value))];
      }
    }
  }
}
