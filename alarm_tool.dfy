/**
  The alarm tool's operations (src/ai/tools/alarm.tool.ts): list, create, update and
  delete, run for the user whose context was loaded, against that user's cached alarms.
  The module-level `currentUserId` and `currentUserAlarms` are the fields of AlarmTool.
  The free-text success messages are replaced by replies that carry the alarm's name or
  the listed alarms; the error and warning texts are kept word for word.
*/
module AlarmTools {
  import opened Wrappers
  import opened Text
  import opened AlarmModel
  import opened AlarmStore
  import CronJob
  import opened AlarmSchedule
  import opened AlarmServices

  datatype Operation = List | Create | Update | Delete

  /** The tool call's parameters; `undefined` is None or Undefined. */
  datatype Params = Params(
    operation: Operation,
    alarmId: Option<string>,
    name: Option<string>,
    message: Option<string>,
    minute: Arg,
    hour: Arg,
    day: Arg,
    month: Arg,
    dayOfWeek: Arg)

  /** What the world contributes to one call: the clock, the id the store assigns, the
      schedule argument the service hands to createJob, the cron-job.org outcome, and the
      outcome of the update step (None when it succeeds, else its error message). */
  datatype Env = Env(
    now: int,
    generatedId: string,
    cronExpression: Option<ScheduleInput>,
    remote: CronJob.HttpOutcome,
    updateStep: Option<string>)

  datatype Reply =
    | Listed(alarms: seq<Alarm>)
    | Created(name: string)
    | Updated(name: string)
    | Deleted(name: string)
    | Refused(text: string)
    | Failure(text: string)

  /** A string argument is truthy when it is given and not empty. */
  predicate Truthy(s: Option<string>) { s.Some? && s.value != "" }

  /** `alarm._id?.toString()` in a template: "undefined" when the record has no id */
  function IdText(a: Alarm): string { if a.id.Some? then a.id.value else "undefined" }

  const NoContextText: string := "Error: User context not available. Cannot manage alarms."
  const NameRequiredText: string := "Error: Name is required to create an alarm."
  const AlarmIdRequiredText: string := "Error: alarmId is required to update an alarm."
  const MissingIdText: string := "Error: Alarm ID not found. Cannot delete alarm."

  function DuplicateText(name: string, existing: Alarm): string {
    "Warning: An alarm named \"" + name + "\" already exists (ID: " + IdText(existing)
      + "). Use update operation to modify it, or delete it first."
  }

  function UpdateNotFoundText(alarmId: string): string {
    "Error: Alarm with ID \"" + alarmId + "\" not found. Check the list of existing alarms above."
  }

  function DeleteNotFoundText(alarmId: Option<string>, name: Option<string>): string {
    "Error: Alarm not found. "
      + (if Truthy(alarmId) then "ID: " + alarmId.value
         else if Truthy(name) then "Name: " + name.value
         else "Provide either alarmId or name")
      + ". Check the list of existing alarms above."
  }

  function OperationName(op: Operation): string {
    match op
    case List => "list"
    case Create => "create"
    case Update => "update"
    case Delete => "delete"
  }

  /** The catch-all reply for an error thrown by the service */
  function FailedText(op: Operation, message: string): string {
    "Failed to " + OperationName(op) + " alarm: " + message
  }

  /** The create catch-all's prefix, written out */
  lemma FailedCreateText(m: string)
    ensures FailedText(Create, m) == "Failed to create alarm: " + m
  {
    assert "Failed to " + "create" + " alarm: " == "Failed to create alarm: ";
  }

  // Lookups in the cached alarms

  /** The first cached alarm whose name equals `name`, ignoring case */
  function FindByName(s: seq<Alarm>, name: string): (r: Option<Alarm>)
    ensures r.Some? ==> r.value in s && Lower(r.value.name) == Lower(name)
    ensures r.None? <==> forall i :: 0 <= i < |s| ==> Lower(s[i].name) != Lower(name)
  {
    Find(s, (a: Alarm) => Lower(a.name) == Lower(name))
  }

  /** Why create refuses, if it does: no name, or a cached alarm of that name in any case */
  function CreateRefusal(cache: seq<Alarm>, name: Option<string>): (r: Option<string>)
    ensures !Truthy(name) ==> r == Some(NameRequiredText)
    ensures Truthy(name) ==> (r.None? <==> forall i :: 0 <= i < |cache| ==> Lower(cache[i].name) != Lower(name.value))
    ensures Truthy(name) && r.Some? ==>
      exists i :: 0 <= i < |cache| && Lower(cache[i].name) == Lower(name.value) && r == Some(DuplicateText(name.value, cache[i]))
  {
    if !Truthy(name) then Some(NameRequiredText)
    else
      var existing := FindByName(cache, name.value);
      if existing.Some? then Some(DuplicateText(name.value, existing.value)) else None
  }

  /** The input create hands to the service: no description, the message or "" */
  function ToolInput(name: string, message: Option<string>, schedule: Schedule): (i: AlarmInput)
    ensures i.name == name && i.description.None? && i.schedule == schedule
    ensures i.message == Some(if message.Some? then message.value else "")
  {
    AlarmInput(name, None, Some(message.GetOr("")), schedule)
  }

  /** Some schedule argument is given (null counts as given). */
  predicate ScheduleGiven(p: Params) {
    !p.minute.Undefined? || !p.hour.Undefined? || !p.day.Undefined? || !p.month.Undefined?
      || !p.dayOfWeek.Undefined?
  }

  /** updateData: name and message when given, a rebuilt schedule when some schedule
      argument is given, and nothing else. */
  function UpdateData(current: Alarm, p: Params, now: int): (u: AlarmPatch)
    ensures u.name == p.name && u.message == p.message
    ensures u.cronJobId.None? && u.active.None?
    ensures u.schedule.Some? <==> ScheduleGiven(p)
    ensures u.schedule.Some? ==>
      u.schedule.value == MergeSchedule(current.schedule, now, p.minute, p.hour, p.day, p.month, p.dayOfWeek)
  {
    AlarmPatch(p.name, p.message,
               if ScheduleGiven(p) then Some(MergeSchedule(current.schedule, now, p.minute, p.hour, p.day, p.month, p.dayOfWeek))
               else None,
               None, None)
  }

  /** The alarm delete acts on: by id when an id is given, else by name ignoring case */
  function DeleteTarget(cache: seq<Alarm>, alarmId: Option<string>, name: Option<string>): (r: Option<Alarm>)
    ensures Truthy(alarmId) ==> r == FindById(cache, alarmId.value)
    ensures !Truthy(alarmId) && Truthy(name) ==> r == FindByName(cache, name.value)
    ensures !Truthy(alarmId) && !Truthy(name) ==> r.None?
    ensures r.Some? ==> r.value in cache
  {
    if Truthy(alarmId) then FindById(cache, alarmId.value)
    else if Truthy(name) then FindByName(cache, name.value)
    else None
  }

  // Properties of the tool's rules

  /** The duplicate check ignores case both ways: a name is refused whenever some cached
      alarm's name has the same lower-case form. */
  lemma DuplicateIgnoresCase(cache: seq<Alarm>, name: string, i: int)
    requires name != "" && 0 <= i < |cache| && Lower(cache[i].name) == Lower(name)
    ensures CreateRefusal(cache, Some(name)).Some?
    ensures CreateRefusal(cache, Some(Lower(name))).Some?
  {
    LowerIdempotent(name);
  }

  /** An update that gives a name and a message but no schedule argument changes, once
      applied, only those two fields and updatedAt. */
  lemma TextOnlyUpdate(a: Alarm, p: Params, now: int, t: int, m: string)
    requires p.name.Some? && p.message == Some(m) && !ScheduleGiven(p)
    ensures ApplyPatch(a, UpdateData(a, p, now), t) == a.(name := p.name.value, message := Some(m), updatedAt := t)
  {
  }

  /** An update that gives schedule arguments keeps the lists of the fields left undefined. */
  lemma UpdateKeepsUndefinedFields(a: Alarm, p: Params, now: int)
    requires ScheduleGiven(p)
    ensures var s := UpdateData(a, p, now).schedule.value;
      && (p.minute.Undefined? ==> s.minutes == a.schedule.minutes)
      && (p.hour.Undefined? ==> s.hours == a.schedule.hours)
      && (p.day.Undefined? ==> s.mdays == a.schedule.mdays)
      && (p.month.Undefined? ==> s.months == a.schedule.months)
      && (p.dayOfWeek.Undefined? ==> s.wdays == a.schedule.wdays)
  {
  }

  /** A delete with an id never falls back to the name, and with distinct ids it finds the
      one alarm with that id. */
  lemma DeleteById(cache: seq<Alarm>, name: Option<string>, i: int)
    requires UniqueIds(cache) && 0 <= i < |cache| && cache[i].id.value != ""
    ensures DeleteTarget(cache, cache[i].id, name) == Some(cache[i])
  {
    FindByIdAt(cache, i);
  }

  // A tool call's effect, on values

  /** Everything one tool call can change: the cached alarms, the stored records, the
      requests sent to cron-job.org and the jobs that exist there. */
  datatype World = World(cache: seq<Alarm>, alarms: seq<Alarm>, requests: seq<CronJob.Request>, jobs: set<int>)

  /** The record create hands to the store, before a job is attached */
  function StoredRecord(userId: string, p: Params, env: Env): (a: Alarm)
    requires p.name.Some?
    ensures a.id == Some(env.generatedId) && a.userId == userId && a.name == p.name.value
    ensures a.description.None? && a.message == Some(if p.message.Some? then p.message.value else "")
    ensures a.schedule == CreateSchedule(env.now, p.minute, p.hour, p.day, p.month, p.dayOfWeek)
    ensures a.cronJobId.None? && a.active && a.createdAt == env.now && a.updatedAt == env.now
  {
    var schedule := CreateSchedule(env.now, p.minute, p.hour, p.day, p.month, p.dayOfWeek);
    NewAlarm(userId, ToolInput(p.name.value, p.message, schedule), env.now).(id := Some(env.generatedId))
  }

  /** The create operation from start to finish: the tool's refusals, the service's
      createAlarm, and on success the refreshed cache. */
  function CreateStep(w: World, userId: string, p: Params, env: Env, apiKey: string, webhookBase: string): (Reply, World)
  {
    var refusal := CreateRefusal(w.cache, p.name);
    if refusal.Some? then (Refused(refusal.value), w)
    else
      var stored := StoredRecord(userId, p, env);
      if FindById(w.alarms, env.generatedId).Some? then
        (Failure(FailedText(Create, ServiceErrorMessage(StoreFailure(DuplicateKey(env.generatedId))))), w)
      else if env.generatedId == "" then
        (Failure(FailedText(Create, ServiceErrorMessage(NoIdReturned))), w.(alarms := w.alarms + [stored]))
      else
        var call := CronJob.CreateJob(apiKey, webhookBase + env.generatedId, env.cronExpression, JobTitle(p.name.value), env.remote);
        var requests := w.requests + (if call.sent.Some? then [call.sent.value] else []);
        if call.result.Err? then
          (Failure(FailedText(Create, ServiceErrorMessage(JobFailure(call.result.error)))),
           w.(alarms := w.alarms + [stored], requests := requests))
        else
          var alarms := w.alarms + [stored.(cronJobId := Some(call.result.value))];
          (Created(p.name.value), World(ByUser(alarms, userId), alarms, requests, w.jobs + {call.result.value}))
  }

  /** The update operation: the refusals, the (alarmId, userId, updateData) handed to the
      update step, and on success the refreshed cache. The store itself is not changed. */
  function UpdateStep(w: World, userId: string, p: Params, env: Env): (Reply, Option<(string, string, AlarmPatch)>, World)
  {
    if !Truthy(p.alarmId) then (Refused(AlarmIdRequiredText), None, w)
    else
      var current := FindById(w.cache, p.alarmId.value);
      if current.None? then (Refused(UpdateNotFoundText(p.alarmId.value)), None, w)
      else
        var handed := Some((p.alarmId.value, userId, UpdateData(current.value, p, env.now)));
        if env.updateStep.Some? then (Failure(FailedText(Update, env.updateStep.value)), handed, w)
        else
          (Updated(if Truthy(p.name) then p.name.value else current.value.name), handed,
           w.(cache := ByUser(w.alarms, userId)))
  }

  /** The delete operation: the refusals, the service's deleteAlarm (its job first, best
      effort, then the record), and on success the refreshed cache. */
  function DeleteStep(w: World, userId: string, p: Params, env: Env, apiKey: string): (Reply, World)
  {
    var target := DeleteTarget(w.cache, p.alarmId, p.name);
    if target.None? then (Refused(DeleteNotFoundText(p.alarmId, p.name)), w)
    else if !Truthy(target.value.id) then (Refused(MissingIdText), w)
    else
      var stored := FindById(w.alarms, target.value.id.value);
      if stored.None? then (Failure(FailedText(Delete, ServiceErrorMessage(NotFound))), w)
      else if stored.value.userId != userId then (Failure(FailedText(Delete, ServiceErrorMessage(Unauthorized))), w)
      else
        var job := stored.value.cronJobId;
        var alarms := RemoveId(w.alarms, target.value.id.value);
        var requests := w.requests
          + (if HasJob(job) then [CronJob.Request(CronJob.Delete, CronJob.JobUrl(job.value), CronJob.Headers(apiKey), None)] else []);
        var jobs := if HasJob(job) && env.remote.Answered? then w.jobs - {job.value} else w.jobs;
        (Deleted(target.value.name), World(ByUser(alarms, userId), alarms, requests, jobs))
  }

  /** The store and cron-job.org agree: ids are distinct, every job a record names exists,
      and no two records name the same job. */
  ghost predicate Linked(w: World) {
    && UniqueIds(w.alarms)
    && (forall a :: a in w.alarms && a.cronJobId.Some? ==> a.cronJobId.value in w.jobs)
    && (forall a, b :: a in w.alarms && b in w.alarms && a.cronJobId.Some? && a.cronJobId == b.cronJobId ==> a == b)
  }

  // Properties of the create operation

  /** Past the refusals and under a fresh id, create appends one record: the stored record
      itself, or, when cron-job.org answered, that record with the returned job id, which
      then exists. */
  lemma CreateShape(w: World, userId: string, p: Params, env: Env, apiKey: string, webhookBase: string)
    returns (a: Alarm)
    requires CreateRefusal(w.cache, p.name).None? && FindById(w.alarms, env.generatedId).None?
    ensures CreateStep(w, userId, p, env, apiKey, webhookBase).1.alarms == w.alarms + [a]
    ensures a == StoredRecord(userId, p, env)
         || (env.remote.Answered? && a == StoredRecord(userId, p, env).(cronJobId := Some(env.remote.jobId)))
    ensures a.cronJobId.None? ==> CreateStep(w, userId, p, env, apiKey, webhookBase).1.jobs == w.jobs
    ensures a.cronJobId.Some? ==>
      CreateStep(w, userId, p, env, apiKey, webhookBase).1.jobs == w.jobs + {a.cronJobId.value}
  {
    var stored := StoredRecord(userId, p, env);
    if env.generatedId == "" {
      a := stored;
    } else {
      var call := CronJob.CreateJob(apiKey, webhookBase + env.generatedId, env.cronExpression, JobTitle(p.name.value), env.remote);
      if call.result.Err? {
        a := stored;
      } else {
        a := stored.(cronJobId := Some(call.result.value));
      }
    }
  }

  /** A create that is not refused, under an id not yet stored, appends exactly one record
      with the user, the name, the message or "", the built schedule and active true; its job
      id, when it has one, is a job that now exists. */
  lemma CreateAppends(w: World, userId: string, p: Params, env: Env, apiKey: string, webhookBase: string)
    requires CreateRefusal(w.cache, p.name).None? && FindById(w.alarms, env.generatedId).None?
    ensures var w' := CreateStep(w, userId, p, env, apiKey, webhookBase).1;
      && |w'.alarms| == |w.alarms| + 1 && w'.alarms[..|w.alarms|] == w.alarms
      && var a := w'.alarms[|w.alarms|];
      && a.id == Some(env.generatedId) && a.userId == userId && a.name == p.name.value
      && a.description.None? && a.message == Some(if p.message.Some? then p.message.value else "")
      && a.schedule == CreateSchedule(env.now, p.minute, p.hour, p.day, p.month, p.dayOfWeek) && a.active
      && (a.cronJobId.Some? ==> a.cronJobId.value in w'.jobs)
  {
    var a := CreateShape(w, userId, p, env, apiKey, webhookBase);
    assert (w.alarms + [a])[..|w.alarms|] == w.alarms;
  }

  /** An undefined cronExpression makes createJob throw before any request: the reply is
      "Failed to create alarm: undefined is not an object (evaluating 'schedule.expiresAt')",
      JavaScriptCore's TypeError text, nothing is sent, no job exists, and the record stays. */
  lemma CreateWithoutExpression(w: World, userId: string, p: Params, env: Env, apiKey: string, webhookBase: string)
    requires CreateRefusal(w.cache, p.name).None? && FindById(w.alarms, env.generatedId).None?
    requires env.generatedId != "" && env.cronExpression.None?
    ensures CreateStep(w, userId, p, env, apiKey, webhookBase)
         == (Failure("Failed to create alarm: " + CronJob.ScheduleMissingMessage),
             w.(alarms := w.alarms + [StoredRecord(userId, p, env)]))
  {
    var call := CronJob.CreateJob(apiKey, webhookBase + env.generatedId, env.cronExpression, JobTitle(p.name.value), env.remote);
    assert call.sent.None? && call.result == Err(CronJob.ScheduleMissing);
    assert ServiceErrorMessage(JobFailure(call.result.error)) == CronJob.ScheduleMissingMessage;
    assert w.requests + [] == w.requests;
    FailedCreateText(CronJob.ScheduleMissingMessage);
  }

  /** When cron-job.org answers, the reply names the alarm, the one PUT is recorded, the job
      exists, its id is attached to the new record, and the cache shows the record. */
  lemma CreateSucceeds(w: World, userId: string, p: Params, env: Env, apiKey: string, webhookBase: string, input: ScheduleInput)
    requires CreateRefusal(w.cache, p.name).None? && FindById(w.alarms, env.generatedId).None?
    requires env.generatedId != "" && env.cronExpression == Some(input) && env.remote.Answered?
    ensures var (reply, w') := CreateStep(w, userId, p, env, apiKey, webhookBase);
      var a := StoredRecord(userId, p, env).(cronJobId := Some(env.remote.jobId));
      && reply == Created(p.name.value)
      && w'.alarms == w.alarms + [a]
      && w'.jobs == w.jobs + {env.remote.jobId}
      && |w'.requests| == |w.requests| + 1 && w'.requests[..|w.requests|] == w.requests
      && w'.requests[|w.requests|].verb == CronJob.Put && w'.requests[|w.requests|].url == CronJob.JobsUrl()
      && a in w'.cache
      && forall b :: b in w'.cache <==> b in w'.alarms && b.userId == userId
  {
    var (reply, w') := CreateStep(w, userId, p, env, apiKey, webhookBase);
    assert w'.requests[..|w.requests|] == w.requests;
    var a := StoredRecord(userId, p, env).(cronJobId := Some(env.remote.jobId));
    assert a in w'.alarms;
    forall b
      ensures b in w'.cache <==> b in w'.alarms && b.userId == userId
    {
      ByUserExactly(w'.alarms, userId, b);
    }
  }

  /** When cron-job.org refuses, the reply carries the API error text, the request stays
      recorded, no job exists, and the record stays without a job id. */
  lemma CreateApiFails(w: World, userId: string, p: Params, env: Env, apiKey: string, webhookBase: string, input: ScheduleInput)
    requires CreateRefusal(w.cache, p.name).None? && FindById(w.alarms, env.generatedId).None?
    requires env.generatedId != "" && env.cronExpression == Some(input) && env.remote.Failed?
    ensures var (reply, w') := CreateStep(w, userId, p, env, apiKey, webhookBase);
      && reply == Failure("Failed to create alarm: " + ("Cron-job.org API error: "
                          + (CronJob.StatusText(env.remote.status) + (" " + CronJob.ErrorText(env.remote.data, env.remote.message)))))
      && w'.alarms == w.alarms + [StoredRecord(userId, p, env)]
      && w'.jobs == w.jobs && |w'.requests| == |w.requests| + 1 && w'.cache == w.cache
  {
    FailedCreateText(CronJob.ApiErrorMessage(env.remote.status, env.remote.data, env.remote.message));
  }

  /** An id the store already holds fails the insert: nothing changes anywhere. */
  lemma CreateDuplicateId(w: World, userId: string, p: Params, env: Env, apiKey: string, webhookBase: string)
    requires CreateRefusal(w.cache, p.name).None? && FindById(w.alarms, env.generatedId).Some?
    ensures CreateStep(w, userId, p, env, apiKey, webhookBase)
         == (Failure("Failed to create alarm: " + ("E11000 duplicate key error: _id " + env.generatedId)), w)
  {
    FailedCreateText(ServiceErrorMessage(StoreFailure(DuplicateKey(env.generatedId))));
  }

  /** Only a create that succeeds touches the jobs or the cache. */
  lemma CreateFailureKeepsJobs(w: World, userId: string, p: Params, env: Env, apiKey: string, webhookBase: string)
    ensures var (reply, w') := CreateStep(w, userId, p, env, apiKey, webhookBase);
      !reply.Created? ==> w'.jobs == w.jobs && w'.cache == w.cache
    ensures var (reply, w') := CreateStep(w, userId, p, env, apiKey, webhookBase);
      reply.Refused? ==> w' == w
  {
  }

  /** Appending a record under a fresh id keeps a world linked when the record's job, if it
      names one, is new and now exists. */
  lemma LinkedAppend(w: World, a: Alarm, w': World)
    requires Linked(w) && a.id.Some? && FindById(w.alarms, a.id.value).None?
    requires w'.alarms == w.alarms + [a]
    requires a.cronJobId.None? ==> w'.jobs == w.jobs
    requires a.cronJobId.Some? ==> a.cronJobId.value !in w.jobs && w'.jobs == w.jobs + {a.cronJobId.value}
    ensures Linked(w')
  {
    AppendUnique(w.alarms, a);
    forall x, y | x in w'.alarms && y in w'.alarms && x.cronJobId.Some? && x.cronJobId == y.cronJobId
      ensures x == y
    {
      if x != a && y != a {
        assert x in w.alarms && y in w.alarms;
      }
    }
  }

  /** Create keeps the store and cron-job.org linked, given that cron-job.org answers with an
      id it has not handed out before. */
  lemma CreateKeepsLinked(w: World, userId: string, p: Params, env: Env, apiKey: string, webhookBase: string)
    requires Linked(w)
    requires env.remote.Answered? ==> env.remote.jobId !in w.jobs
    ensures Linked(CreateStep(w, userId, p, env, apiKey, webhookBase).1)
  {
    var w' := CreateStep(w, userId, p, env, apiKey, webhookBase).1;
    if CreateRefusal(w.cache, p.name).None? && FindById(w.alarms, env.generatedId).None? {
      var a := CreateShape(w, userId, p, env, apiKey, webhookBase);
      LinkedAppend(w, a, w');
    } else {
      assert w' == w;
    }
  }

  // Properties of the update and delete operations

  /** Update never changes the store, the requests or the jobs; only a success refreshes
      the cache, and only an id found in the cache is handed over, with the caller's user. */
  lemma UpdateKeepsStore(w: World, userId: string, p: Params, env: Env)
    ensures var (reply, handed, w') := UpdateStep(w, userId, p, env);
      && w'.alarms == w.alarms && w'.requests == w.requests && w'.jobs == w.jobs
      && (reply.Updated? ==> w'.cache == ByUser(w.alarms, userId))
      && (!reply.Updated? ==> w'.cache == w.cache)
      && (handed.Some? ==> handed.value.1 == userId && FindById(w.cache, handed.value.0).Some?)
  {
  }

  /** A delete that succeeds removes every record with the target's id, keeps every other
      id's record, and leaves the cache showing only the user's remaining alarms. */
  lemma DeleteRemoves(w: World, userId: string, p: Params, env: Env, apiKey: string, other: string)
    requires UniqueIds(w.alarms)
    ensures var (reply, w') := DeleteStep(w, userId, p, env, apiKey);
      var target := DeleteTarget(w.cache, p.alarmId, p.name);
      reply.Deleted? ==>
        && target.Some? && Truthy(target.value.id)
        && FindById(w'.alarms, target.value.id.value).None?
        && (other != target.value.id.value ==> FindById(w'.alarms, other) == FindById(w.alarms, other))
        && UniqueIds(w'.alarms)
        && forall b :: b in w'.cache <==> b in w'.alarms && b.userId == userId
  {
    var (reply, w') := DeleteStep(w, userId, p, env, apiKey);
    var target := DeleteTarget(w.cache, p.alarmId, p.name);
    if reply.Deleted? {
      RemoveFind(w.alarms, target.value.id.value, other);
      forall b
        ensures b in w'.cache <==> b in w'.alarms && b.userId == userId
      {
        ByUserExactly(w'.alarms, userId, b);
      }
    }
  }

  /** Only the owner's delete changes anything: a refusal or a failure leaves the cache, the
      store, the requests and the jobs as they were. */
  lemma DeleteFailureChangesNothing(w: World, userId: string, p: Params, env: Env, apiKey: string)
    ensures var (reply, w') := DeleteStep(w, userId, p, env, apiKey);
      !reply.Deleted? ==> w' == w
    ensures var (reply, w') := DeleteStep(w, userId, p, env, apiKey);
      reply.Deleted? ==>
        && FindById(w.alarms, DeleteTarget(w.cache, p.alarmId, p.name).value.id.value).Some?
        && FindById(w.alarms, DeleteTarget(w.cache, p.alarmId, p.name).value.id.value).value.userId == userId
  {
  }

  /** Delete keeps the store and cron-job.org linked: the job removed is the deleted record's
      own, which no remaining record names. */
  lemma DeleteKeepsLinked(w: World, userId: string, p: Params, env: Env, apiKey: string)
    requires Linked(w)
    ensures Linked(DeleteStep(w, userId, p, env, apiKey).1)
  {
    var (reply, w') := DeleteStep(w, userId, p, env, apiKey);
    if reply.Deleted? {
      var id := DeleteTarget(w.cache, p.alarmId, p.name).value.id.value;
      var d := FindById(w.alarms, id).value;
      RemoveFind(w.alarms, id, id);
      forall a | a in w'.alarms
        ensures a in w.alarms && a.id != Some(id)
      {
        FilterMembers(w.alarms, (x: Alarm) => x.id != Some(id), a);
      }
      forall a | a in w'.alarms && a.cronJobId.Some?
        ensures a.cronJobId.value in w'.jobs
      {
        assert a != d;
      }
    }
  }

  class AlarmTool {
    const service: AlarmService
    var currentUserId: Option<string>
    var currentUserAlarms: seq<Alarm>

    ghost predicate Valid()
      reads this, service, service.repo
    {
      service.Valid()
    }

    /** What a tool call can change, as a value */
    ghost function State(): World
      reads this, service, service.repo
    {
      World(currentUserAlarms, service.repo.alarms, service.requests, service.jobs)
    }

    constructor (service: AlarmService)
      requires service.Valid()
      ensures Valid() && this.service == service
      ensures currentUserId.None? && currentUserAlarms == []
    {
      this.service := service;
      currentUserId := None;
      currentUserAlarms := [];
    }

    /** setAlarmToolContext: remember the user and load that user's alarms. */
    method SetContext(userId: string)
      requires Valid()
      modifies this
      ensures Valid()
      ensures currentUserId == Some(userId) && currentUserAlarms == ByUser(service.repo.alarms, userId)
    {
      currentUserId := Some(userId);
      currentUserAlarms := service.GetAlarmsByUserId(userId);
    }

    /** The list operation: refresh the cache and show it. */
    method ListAlarms(userId: string) returns (reply: Reply)
      requires Valid()
      modifies this`currentUserAlarms
      ensures currentUserAlarms == ByUser(service.repo.alarms, userId)
      ensures reply == Listed(currentUserAlarms)
    {
      currentUserAlarms := service.GetAlarmsByUserId(userId);
      reply := Listed(currentUserAlarms);
    }

    /** The create operation */
    method CreateAlarm(userId: string, p: Params, env: Env) returns (reply: Reply)
      requires Valid()
      modifies this`currentUserAlarms, service, service.repo
      ensures Valid() && service.outbox == old(service.outbox)
      ensures (reply, State()) == CreateStep(old(State()), userId, p, env, service.apiKey, service.webhookBase)
      ensures CreateRefusal(old(currentUserAlarms), p.name).Some? ==>
        && reply == Refused(CreateRefusal(old(currentUserAlarms), p.name).value)
        && service.repo.alarms == old(service.repo.alarms)
        && service.requests == old(service.requests) && service.jobs == old(service.jobs)
        && currentUserAlarms == old(currentUserAlarms)
      ensures CreateRefusal(old(currentUserAlarms), p.name).None? && env.cronExpression.None? ==>
        && reply == Failure(FailedText(Create, if FindById(old(service.repo.alarms), env.generatedId).Some?
                                              then ServiceErrorMessage(StoreFailure(DuplicateKey(env.generatedId)))
                                              else if env.generatedId == "" then ServiceErrorMessage(NoIdReturned)
                                              else CronJob.ScheduleMissingMessage))
        && service.requests == old(service.requests) && service.jobs == old(service.jobs)
      ensures reply.Created? ==> currentUserAlarms == ByUser(service.repo.alarms, userId)
    {
      var refusal := CreateRefusal(currentUserAlarms, p.name);
      if refusal.Some? {
        reply := Refused(refusal.value);
        return;
      }
      var name := p.name.value;
      var schedule := CreateSchedule(env.now, p.minute, p.hour, p.day, p.month, p.dayOfWeek);
      assert NewAlarm(userId, ToolInput(name, p.message, schedule), env.now).(id := Some(env.generatedId))
          == StoredRecord(userId, p, env);
      var r := service.CreateAlarm(userId, ToolInput(name, p.message, schedule), env.now, env.generatedId,
                                   env.cronExpression, env.remote);
      if r.Err? {
        reply := Failure(FailedText(Create, ServiceErrorMessage(r.error)));
        return;
      }
      currentUserAlarms := service.GetAlarmsByUserId(userId);
      reply := Created(name);
    }

    /** The update operation. The service has no update, so handing over the update data is
        an abstract step: it is returned in `handed`, and `env.updateStep` says whether the
        step threw. The store is not changed here. */
    method UpdateAlarm(userId: string, p: Params, env: Env) returns (reply: Reply, handed: Option<(string, string, AlarmPatch)>)
      requires Valid()
      modifies this`currentUserAlarms
      ensures (reply, handed, State()) == UpdateStep(old(State()), userId, p, env)
      ensures !Truthy(p.alarmId) ==> reply == Refused(AlarmIdRequiredText) && handed.None?
      ensures Truthy(p.alarmId) && FindById(old(currentUserAlarms), p.alarmId.value).None? ==>
        reply == Refused(UpdateNotFoundText(p.alarmId.value)) && handed.None?
      ensures Truthy(p.alarmId) && FindById(old(currentUserAlarms), p.alarmId.value).Some? ==>
        var current := FindById(old(currentUserAlarms), p.alarmId.value).value;
        && handed == Some((p.alarmId.value, userId, UpdateData(current, p, env.now)))
        && reply == (if env.updateStep.Some? then Failure(FailedText(Update, env.updateStep.value))
                     else Updated(if Truthy(p.name) then p.name.value else current.name))
      ensures reply.Updated? ==> currentUserAlarms == ByUser(service.repo.alarms, userId)
      ensures !reply.Updated? ==> currentUserAlarms == old(currentUserAlarms)
    {
      handed := None;
      if !Truthy(p.alarmId) {
        reply := Refused(AlarmIdRequiredText);
        return;
      }
      var alarmId := p.alarmId.value;
      var current := FindById(currentUserAlarms, alarmId);
      if current.None? {
        reply := Refused(UpdateNotFoundText(alarmId));
        return;
      }
      handed := Some((alarmId, userId, UpdateData(current.value, p, env.now)));
      if env.updateStep.Some? {
        reply := Failure(FailedText(Update, env.updateStep.value));
        return;
      }
      currentUserAlarms := service.GetAlarmsByUserId(userId);
      reply := Updated(if Truthy(p.name) then p.name.value else current.value.name);
    }

    /** The delete operation */
    method DeleteAlarm(userId: string, p: Params, env: Env) returns (reply: Reply)
      requires Valid()
      modifies this`currentUserAlarms, service, service.repo
      ensures Valid() && service.outbox == old(service.outbox)
      ensures (reply, State()) == DeleteStep(old(State()), userId, p, env, service.apiKey)
      ensures var target := DeleteTarget(old(currentUserAlarms), p.alarmId, p.name);
        && (target.None? ==> reply == Refused(DeleteNotFoundText(p.alarmId, p.name)))
        && (target.Some? && !Truthy(target.value.id) ==> reply == Refused(MissingIdText))
        && (reply.Refused? ==>
              && service.repo.alarms == old(service.repo.alarms) && service.requests == old(service.requests)
              && service.jobs == old(service.jobs) && currentUserAlarms == old(currentUserAlarms))
        && (target.Some? && Truthy(target.value.id) ==>
              var stored := FindById(old(service.repo.alarms), target.value.id.value);
              if stored.Some? && stored.value.userId == userId then
                && reply == Deleted(target.value.name)
                && service.repo.alarms == RemoveId(old(service.repo.alarms), target.value.id.value)
                && currentUserAlarms == ByUser(service.repo.alarms, userId)
              else
                && reply == Failure(FailedText(Delete, ServiceErrorMessage(if stored.None? then NotFound else Unauthorized)))
                && service.repo.alarms == old(service.repo.alarms)
                && service.requests == old(service.requests) && service.jobs == old(service.jobs)
                && currentUserAlarms == old(currentUserAlarms))
    {
      var target := DeleteTarget(currentUserAlarms, p.alarmId, p.name);
      if target.None? {
        reply := Refused(DeleteNotFoundText(p.alarmId, p.name));
        return;
      }
      if !Truthy(target.value.id) {
        reply := Refused(MissingIdText);
        return;
      }
      var r := service.DeleteAlarm(target.value.id.value, userId, env.remote);
      if r.Err? {
        reply := Failure(FailedText(Delete, ServiceErrorMessage(r.error)));
        return;
      }
      currentUserAlarms := service.GetAlarmsByUserId(userId);
      reply := Deleted(target.value.name);
    }

    /** execute: refuse without a user context, else run the operation asked for. Only an
        update hands anything over. */
    method Execute(p: Params, env: Env) returns (reply: Reply, handed: Option<(string, string, AlarmPatch)>)
      requires Valid()
      modifies this`currentUserAlarms, service, service.repo
      ensures Valid() && service.outbox == old(service.outbox)
      ensures !Truthy(currentUserId) ==> reply == Refused(NoContextText) && handed.None? && State() == old(State())
      ensures Truthy(currentUserId) && p.operation == List ==>
        && reply == Listed(ByUser(service.repo.alarms, currentUserId.value)) && handed.None?
        && State() == old(State()).(cache := ByUser(old(service.repo.alarms), currentUserId.value))
      ensures Truthy(currentUserId) && p.operation == Create ==>
        && handed.None?
        && (reply, State()) == CreateStep(old(State()), currentUserId.value, p, env, service.apiKey, service.webhookBase)
      ensures Truthy(currentUserId) && p.operation == Update ==>
        (reply, handed, State()) == UpdateStep(old(State()), currentUserId.value, p, env)
      ensures Truthy(currentUserId) && p.operation == Delete ==>
        && handed.None?
        && (reply, State()) == DeleteStep(old(State()), currentUserId.value, p, env, service.apiKey)
      ensures p.operation == Update ==> service.repo.alarms == old(service.repo.alarms)
    {
      handed := None;
      if !Truthy(currentUserId) {
        reply := Refused(NoContextText);
        return;
      }
      var userId := currentUserId.value;
      match p.operation
      case List =>
        reply := ListAlarms(userId);
      case Create =>
        reply := CreateAlarm(userId, p, env);
      case Update =>
        reply, handed := UpdateAlarm(userId, p, env);
      case Delete =>
        reply := DeleteAlarm(userId, p, env);
    }
  }
}
