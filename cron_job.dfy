/**
  The cron-job.org client (src/services/cron-job.service.ts): the requests that createJob,
  updateJob and deleteJob send, and how their failures are reported. The HTTP exchange
  itself is a parameter: the outcome the server (or the network) produced.
*/
module CronJob {
  import opened Wrappers
  import opened Text
  import opened AlarmModel

  const BaseUrl: string := "https://api.cron-job.org"

  /** cron-job.org's request method code for GET */
  const MethodGet: int := 0

  /** The job's schedule object: the argument spread, with expiresAt defaulted to 0 */
  datatype JobSchedule = JobSchedule(
    timezone: Option<string>,
    expiresAt: int,
    hours: seq<int>,
    minutes: seq<int>,
    mdays: seq<int>,
    months: seq<int>,
    wdays: seq<int>)

  datatype Job = Job(
    title: string,
    url: string,
    enabled: bool,
    saveResponses: bool,
    requestMethod: int,
    schedule: JobSchedule)

  datatype RequestBody = RequestBody(job: Job)

  datatype HttpMethod = Put | Patch | Delete

  datatype Request = Request(
    verb: HttpMethod,
    url: string,
    headers: seq<(string, string)>,
    body: Option<RequestBody>)

  /** How an HTTP exchange ended: an answer (whose `jobId` createJob reads), or an axios
      error with the response's status and body when there was a response. */
  datatype HttpOutcome =
    | Answered(jobId: int)
    | Failed(status: Option<int>, data: Option<string>, message: string)

  /** A failure of a client call: the wrapped API error, or the TypeError raised when the
      schedule argument is undefined (it is not an axios error, so it is rethrown as is). */
  datatype JobError = ApiError(message: string) | ScheduleMissing

  /** What a client call did: the request it sent, if it got that far, and its result */
  datatype Call<T> = Call(sent: Option<Request>, result: Result<T, JobError>)

  /** The TypeError message for `schedule.expiresAt` on an undefined schedule, in the wording
      of JavaScriptCore, the engine of the Bun runtime the program runs on */
  const ScheduleMissingMessage: string := "undefined is not an object (evaluating 'schedule.expiresAt')"

  function ErrorMessage(e: JobError): string {
    match e
    case ApiError(m) => m
    case ScheduleMissing => ScheduleMissingMessage
  }

  function Headers(apiKey: string): seq<(string, string)> {
    [("Content-Type", "application/json"), ("Authorization", "Bearer " + apiKey)]
  }

  function JobsUrl(): string { BaseUrl + "/jobs" }

  /** `${baseUrl}/jobs/${jobId}` */
  function JobUrl(jobId: int): string { BaseUrl + "/jobs/" + IntToString(jobId) }

  /** `{ ...schedule, expiresAt: schedule.expiresAt ?? 0 }` */
  function JobScheduleOf(s: ScheduleInput): (r: JobSchedule)
    ensures r.timezone == s.timezone
    ensures r.expiresAt == (if s.expiresAt.Some? then s.expiresAt.value else 0)
    ensures r.hours == s.hours && r.minutes == s.minutes && r.mdays == s.mdays
    ensures r.months == s.months && r.wdays == s.wdays
  {
    JobSchedule(s.timezone, s.expiresAt.GetOr(0), s.hours, s.minutes, s.mdays, s.months, s.wdays)
  }

  /** The body both createJob and updateJob build; an undefined schedule fails before
      anything is sent. */
  function BuildBody(url: string, schedule: Option<ScheduleInput>, title: string): (r: Result<RequestBody, JobError>)
    ensures schedule.None? <==> r == Err(ScheduleMissing)
    ensures r.Ok? ==> && r.value.job.title == title && r.value.job.url == url
                      && r.value.job.enabled && r.value.job.saveResponses
                      && r.value.job.requestMethod == MethodGet
                      && r.value.job.schedule == JobScheduleOf(schedule.value)
  {
    if schedule.None? then Err(ScheduleMissing)
    else Ok(RequestBody(Job(title, url, true, true, MethodGet, JobScheduleOf(schedule.value))))
  }

  /** `error.response?.status || "Unknown"`: a missing or zero status reads "Unknown". */
  function StatusText(status: Option<int>): string {
    if status.Some? && status.value != 0 then IntToString(status.value) else "Unknown"
  }

  /** `error.response?.data || error.message`: an empty or missing body gives the message. */
  function ErrorText(data: Option<string>, message: string): string {
    if data.Some? && data.value != "" then data.value else message
  }

  const ApiErrorPrefix: string := "Cron-job.org API error: "

  function ApiErrorMessage(status: Option<int>, data: Option<string>, message: string): string {
    ApiErrorPrefix + (StatusText(status) + (" " + ErrorText(data, message)))
  }

  /** The result a call reports for an outcome, given what a successful answer yields */
  function Wrap<T>(outcome: HttpOutcome, value: T): Result<T, JobError> {
    match outcome
    case Answered(_) => Ok(value)
    case Failed(status, data, message) => Err(ApiError(ApiErrorMessage(status, data, message)))
  }

  /** createJob: PUT /jobs with the body; the answer's jobId is the result. */
  function CreateJob(apiKey: string, url: string, schedule: Option<ScheduleInput>, title: string,
                     outcome: HttpOutcome): (c: Call<int>)
    ensures schedule.None? ==> c == Call(None, Err(ScheduleMissing))
    ensures schedule.Some? ==> c.sent == Some(Request(Put, JobsUrl(), Headers(apiKey), Some(BuildBody(url, schedule, title).value)))
    ensures schedule.Some? && outcome.Answered? ==> c.result == Ok(outcome.jobId)
    ensures schedule.Some? && outcome.Failed? ==>
      c.result == Err(ApiError(ApiErrorMessage(outcome.status, outcome.data, outcome.message)))
  {
    match BuildBody(url, schedule, title)
    case Err(e) => Call(None, Err(e))
    case Ok(body) =>
      Call(Some(Request(Put, JobsUrl(), Headers(apiKey), Some(body))),
           Wrap(outcome, if outcome.Answered? then outcome.jobId else 0))
  }

  /** updateJob: PATCH /jobs/{jobId} with the same body as createJob. */
  function UpdateJob(apiKey: string, jobId: int, url: string, schedule: Option<ScheduleInput>, title: string,
                     outcome: HttpOutcome): (c: Call<()>)
    ensures schedule.None? ==> c == Call(None, Err(ScheduleMissing))
    ensures schedule.Some? ==> c.sent == Some(Request(Patch, JobUrl(jobId), Headers(apiKey), Some(BuildBody(url, schedule, title).value)))
    ensures schedule.Some? ==> (c.result.Ok? <==> outcome.Answered?)
    ensures schedule.Some? && outcome.Failed? ==>
      c.result == Err(ApiError(ApiErrorMessage(outcome.status, outcome.data, outcome.message)))
  {
    match BuildBody(url, schedule, title)
    case Err(e) => Call(None, Err(e))
    case Ok(body) => Call(Some(Request(Patch, JobUrl(jobId), Headers(apiKey), Some(body))), Wrap(outcome, ()))
  }

  /** deleteJob: DELETE /jobs/{jobId} without a body. */
  function DeleteJob(apiKey: string, jobId: int, outcome: HttpOutcome): (c: Call<()>)
    ensures c.sent == Some(Request(Delete, JobUrl(jobId), Headers(apiKey), None))
    ensures c.result.Ok? <==> outcome.Answered?
    ensures outcome.Failed? ==>
      c.result == Err(ApiError(ApiErrorMessage(outcome.status, outcome.data, outcome.message)))
  {
    Call(Some(Request(Delete, JobUrl(jobId), Headers(apiKey), None)), Wrap(outcome, ()))
  }

  // Properties

  /** For the same url, schedule and title, create and update send the same body. */
  lemma CreateUpdateSameBody(apiKey: string, jobId: int, url: string, schedule: Option<ScheduleInput>,
                             title: string, o1: HttpOutcome, o2: HttpOutcome)
    ensures CreateJob(apiKey, url, schedule, title, o1).sent.Some?
        <==> UpdateJob(apiKey, jobId, url, schedule, title, o2).sent.Some?
    ensures CreateJob(apiKey, url, schedule, title, o1).sent.Some? ==>
      CreateJob(apiKey, url, schedule, title, o1).sent.value.body
        == UpdateJob(apiKey, jobId, url, schedule, title, o2).sent.value.body
  {
  }

  /** The job id can be read back from the end of a job's URL. */
  lemma JobUrlId(jobId: int)
    ensures JobUrl(jobId)[|BaseUrl + "/jobs/"|..] == IntToString(jobId)
    ensures ParseInt(JobUrl(jobId)[|BaseUrl + "/jobs/"|..]) == Some(jobId)
  {
    DropPrefix(BaseUrl + "/jobs/", IntToString(jobId));
    ParseIntToString(jobId);
  }

  /** An API error with a real (positive) HTTP status carries it right after the prefix,
      where parseInt reads it back; without one the message says "Unknown". */
  lemma ApiErrorStatus(status: Option<int>, data: Option<string>, message: string)
    ensures ApiErrorMessage(status, data, message)[..|ApiErrorPrefix|] == ApiErrorPrefix
    ensures status.Some? && status.value > 0 ==>
      ParseInt(ApiErrorMessage(status, data, message)[|ApiErrorPrefix|..]) == Some(status.value)
    ensures (status.None? || status == Some(0)) ==>
      ApiErrorMessage(status, data, message)[|ApiErrorPrefix|..] == "Unknown " + ErrorText(data, message)
  {
    var tail := " " + ErrorText(data, message);
    AfterPrefix(StatusText(status), tail);
    if status.Some? && status.value > 0 {
      assert StatusText(status) == NatToString(status.value);
      ParseNatThenText(status.value, tail);
    }
  }

  lemma AfterPrefix(status: string, tail: string)
    ensures (ApiErrorPrefix + (status + tail))[..|ApiErrorPrefix|] == ApiErrorPrefix
    ensures (ApiErrorPrefix + (status + tail))[|ApiErrorPrefix|..] == status + tail
  {
  }
}
