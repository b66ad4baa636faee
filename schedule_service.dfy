/**
 * ScheduleService: jobs read from configuration are validated, wrapped with
 * an MDC context and handed to Spring's TaskScheduler; CRON jobs go through a
 * DesyncTrigger, DURATION jobs run at a fixed rate. The service tracks one
 * scheduler handle per job id and can cancel one job or all of them.
 *
 * The TaskScheduler is modelled as a registry of live submissions that hands
 * out fresh handles. What it does with a submission is a function of the
 * submission: a future, null (a trigger with no first execution time), or a
 * thrown rejection (TaskRejectedException). Futures may complete on their own.
 * CronExpression.parse and Duration.parse are functions given to the service:
 * `cronParse` yields the exception parsing throws (None when the expression is
 * valid), `durationParse` the parsed duration or the exception.
 */
module ScheduleService {
  import opened Wrappers
  import opened JavaLang
  import opened JavaTime
  import DesyncTrigger
  import opened MdcUtils

  datatype JobType = CRON | DURATION

  /** String.valueOf of the enum constant: its name. */
  function JobTypeName(t: JobType): string
  {
    match t
    case CRON => "CRON"
    case DURATION => "DURATION"
  }

  /** A job's configuration; `jobType` is the `type` property. */
  datatype JobConfig = JobConfig(jobType: Option<JobType>, value: Option<string>, endpoint: Option<string>,
                                 description: Option<string>, disabled: bool)

  /** A task body: one passed to register (named by its caller), or the default JobHandler. */
  datatype Handler = Registered(name: string) | DefaultJobHandler(jobId: string, config: JobConfig)

  type Task = Runnable<Handler>

  /** How a task was handed to the scheduler: schedule(task, trigger) or scheduleAtFixedRate(task, period). */
  datatype Plan = OnTrigger(trigger: DesyncTrigger.DesyncTrigger) | AtFixedRate(period: Duration)

  datatype Submission = Submission(task: Task, plan: Plan)

  /** A ScheduledFuture returned by the scheduler. */
  datatype Handle = Handle(serial: nat)

  const CRON_WINDOW: Duration := OfSeconds(5)
  const CRON_JITTER: Duration := OfSeconds(1)
  const CRON_HINT: string := "'. Expected 6 fields: sec min hour day-of-month month day-of-week (optional year)."
  const DURATION_HINT: string := "Invalid ISO-8601 duration (e.g., PT30S, PT5M, PT1H, P1DT2H): "

  function NullFutureError(jobId: string): Throwable
  {
    IllegalStateException("TaskScheduler returned null ScheduledFuture for " + jobId)
  }

  /**
   * cronTrigger: a valid expression gets a UTC CronTrigger wrapped in a
   * DesyncTrigger with a five-second window and one second of jitter, a
   * trigger that always passes afterPropertiesSet. An IllegalArgumentException
   * from the parser is reported as a new one with the parser's as cause; any
   * other throwable is not caught and propagates as it is.
   */
  function CronTriggerFor(jobId: string, expr: string, appName: string, host: string,
                          cronParse: string -> Option<Throwable>): (r: Result<DesyncTrigger.DesyncTrigger, Throwable>)
    ensures r.Ok? <==> cronParse(expr).None?
    ensures r.Ok? ==>
              && r.value == DesyncTrigger.Wrap(Some(DesyncTrigger.CronTrigger(expr, "UTC")), true, Some(jobId), Some(appName), Some(host),
                                 Some(CRON_WINDOW), Some(CRON_JITTER))
              && DesyncTrigger.AfterPropertiesSet(r.value).None?
    ensures r.Err? && cronParse(expr).value.className == "IllegalArgumentException" ==>
              r.error == IllegalArgumentException("Invalid CRON expression for job " + jobId + ": '" + expr + CRON_HINT,
                                                  cronParse(expr))
    ensures r.Err? && cronParse(expr).value.className != "IllegalArgumentException" ==> r.error == cronParse(expr).value
  {
    if cronParse(expr).Some? then
      if cronParse(expr).value.className == "IllegalArgumentException" then
        Err(IllegalArgumentException("Invalid CRON expression for job " + jobId + ": '" + expr + CRON_HINT, cronParse(expr)))
      else Err(cronParse(expr).value)
    else
      Ok(DesyncTrigger.Wrap(Some(DesyncTrigger.CronTrigger(expr, "UTC")), true, Some(jobId), Some(appName), Some(host),
              Some(CRON_WINDOW), Some(CRON_JITTER)))
  }

  /**
   * parsePositiveDuration: the parsed duration when it is strictly positive;
   * otherwise one IllegalArgumentException naming the value, whose cause is
   * the parse failure or the "must be positive" rejection.
   */
  function ParsePositiveDuration(value: string, durationParse: string -> Result<Duration, Throwable>)
    : (r: Result<Duration, Throwable>)
    ensures r.Ok? <==> durationParse(value).Ok? && durationParse(value).value.nanos > 0
    ensures r.Ok? ==> r.value == durationParse(value).value
    ensures durationParse(value).Err? ==>
              r == Err(IllegalArgumentException(DURATION_HINT + value, Some(durationParse(value).error)))
    ensures durationParse(value).Ok? && durationParse(value).value.nanos <= 0 ==>
              r == Err(IllegalArgumentException(DURATION_HINT + value,
                                                Some(IllegalArgumentException("Duration must be positive: " + value, None))))
  {
    match durationParse(value)
    case Err(e) => Err(IllegalArgumentException(DURATION_HINT + value, Some(e)))
    case Ok(d) =>
      if d.IsZero() || d.IsNegative() then
        Err(IllegalArgumentException(DURATION_HINT + value,
                                     Some(IllegalArgumentException("Duration must be positive: " + value, None))))
      else Ok(d)
  }

  /** What schedule accepts: a type, a value, and a value that parses for that type. */
  predicate ValidConfig(cfg: JobConfig, cronParse: string -> Option<Throwable>,
                        durationParse: string -> Result<Duration, Throwable>)
  {
    && cfg.jobType.Some? && cfg.value.Some?
    && match cfg.jobType.value
       case CRON => cronParse(Trim(cfg.value.value)).None?
       case DURATION => durationParse(Trim(cfg.value.value)).Ok? && durationParse(Trim(cfg.value.value)).value.nanos > 0
  }

  /** The registered handler for the id, or a default JobHandler. */
  function BaseTask(jobId: string, cfg: JobConfig, handlers: map<string, Handler>): Handler
  {
    if jobId in handlers then handlers[jobId] else DefaultJobHandler(jobId, cfg)
  }

  /** What the service's validation depends on: its registered handlers, identity and the two parsers. */
  datatype Context = Context(handlers: map<string, Handler>, appName: string, host: string,
                             cronParse: string -> Option<Throwable>,
                             durationParse: string -> Result<Duration, Throwable>)

  /**
   * The part of schedule that runs before track: check the type and the
   * value (in that order), trim the value, pick the job body, wrap it with
   * the MDC context and build the plan.
   */
  function PrepareSubmission(jobId: string, cfg: JobConfig, ctx: Context): (r: Result<Submission, Throwable>)
    ensures r.Ok? <==> ValidConfig(cfg, ctx.cronParse, ctx.durationParse)
    ensures cfg.jobType.None? ==> r == Err(NullPointerException(Some("Job type is required")))
    ensures cfg.jobType.Some? && cfg.value.None? ==> r == Err(NullPointerException(Some("Job value is required")))
  {
    if cfg.jobType.None? then Err(NullPointerException(Some("Job type is required")))
    else if cfg.value.None? then Err(NullPointerException(Some("Job value is required")))
    else
      var rawValue := Trim(cfg.value.value);
      var task := MdcUtils.Wrap(Body(BaseTask(jobId, cfg, ctx.handlers)),
                                map["jobId" := jobId, "jobType" := JobTypeName(cfg.jobType.value)]);
      match cfg.jobType.value
      case CRON =>
        var t := CronTriggerFor(jobId, rawValue, ctx.appName, ctx.host, ctx.cronParse);
        if t.Err? then Err(t.error) else Ok(Submission(task, OnTrigger(t.value)))
      case DURATION =>
        var p := ParsePositiveDuration(rawValue, ctx.durationParse);
        if p.Err? then Err(p.error) else Ok(Submission(task, AtFixedRate(p.value)))
  }

  /**
   * A prepared submission runs the registered handler (or the default one)
   * inside the job's MDC context: a CRON job on the desynchronised trigger
   * for its trimmed expression, a DURATION job at the fixed positive rate.
   */
  lemma PrepareSubmissionBuilds(jobId: string, cfg: JobConfig, ctx: Context)
    requires PrepareSubmission(jobId, cfg, ctx).Ok?
    ensures var r := PrepareSubmission(jobId, cfg, ctx);
      && r.value.task == MdcUtils.Wrap(Body(BaseTask(jobId, cfg, ctx.handlers)),
                                       map["jobId" := jobId, "jobType" := JobTypeName(cfg.jobType.value)])
      && Innermost(r.value.task) == BaseTask(jobId, cfg, ctx.handlers)
    ensures var r := PrepareSubmission(jobId, cfg, ctx);
      cfg.jobType == Some(CRON) ==>
        && r.value.plan.OnTrigger?
        && r.value.plan.trigger.delegate == Some(DesyncTrigger.CronTrigger(Trim(cfg.value.value), "UTC"))
        && r.value.plan.trigger.key == Some(jobId)
        && r.value.plan.trigger.window == Some(CRON_WINDOW)
        && r.value.plan.trigger.jitter == Some(CRON_JITTER)
        && DesyncTrigger.AfterPropertiesSet(r.value.plan.trigger).None?
    ensures var r := PrepareSubmission(jobId, cfg, ctx);
      cfg.jobType == Some(DURATION) ==>
        && r.value.plan == AtFixedRate(ctx.durationParse(Trim(cfg.value.value)).value)
        && r.value.plan.period.nanos > 0
  {
  }

  /** A configuration table entry: the job id and its (possibly null) configuration. */
  type JobEntry = (string, Option<JobConfig>)

  function JobIds(entries: seq<JobEntry>): set<string>
  {
    if entries == [] then {} else JobIds(entries[..|entries| - 1]) + {entries[|entries| - 1].0}
  }

  lemma {:induction false} JobIdsContains(entries: seq<JobEntry>, k: int)
    requires 0 <= k < |entries|
    ensures entries[k].0 in JobIds(entries)
  {
    if k < |entries| - 1 {
      JobIdsContains(entries[..|entries| - 1], k);
    }
  }

  lemma JobIdsSnoc(entries: seq<JobEntry>, i: int)
    requires 0 <= i < |entries|
    ensures JobIds(entries[..i + 1]) == JobIds(entries[..i]) + {entries[i].0}
  {
    assert entries[..i + 1][..i] == entries[..i];
  }

  /** The table is a map: no id occurs twice. */
  predicate DistinctIds(entries: seq<JobEntry>)
  {
    forall i, j | 0 <= i < j < |entries| :: entries[i].0 != entries[j].0
  }

  /** An id among the table's ids belongs to one of its entries. */
  lemma {:induction false} JobIdsWitness(entries: seq<JobEntry>, id: string) returns (k: int)
    requires id in JobIds(entries)
    ensures 0 <= k < |entries| && entries[k].0 == id
  {
    var n := |entries| - 1;
    if entries[n].0 == id {
      k := n;
    } else {
      k := JobIdsWitness(entries[..n], id);
    }
  }

  /** In a table without repeats, an entry's id is not among the ids before it. */
  lemma DistinctIdsFresh(entries: seq<JobEntry>, i: int)
    requires DistinctIds(entries) && 0 <= i < |entries|
    ensures entries[i].0 !in JobIds(entries[..i])
  {
    if entries[i].0 in JobIds(entries[..i]) {
      var k := JobIdsWitness(entries[..i], entries[i].0);
    }
  }

  /** What Spring's TaskScheduler does with one submission. */
  datatype Answer =
    | Future                      // a ScheduledFuture
    | NullFuture                  // null: the trigger has no first execution time
    | Rejected(error: Throwable)  // a thrown TaskRejectedException

  /** The exception track ends with for the scheduler's answer, if any. */
  function ScheduleError(jobId: string, a: Answer): (r: Option<Throwable>)
    ensures r.None? <==> a.Future?
    ensures a.NullFuture? ==> r == Some(NullFutureError(jobId))
    ensures a.Rejected? ==> r == Some(a.error)
  {
    match a
    case Future => None
    case NullFuture => Some(NullFutureError(jobId))
    case Rejected(e) => Some(e)
  }

  /** Every handle live in l2 but not in l1 was issued at or after `issued1`. */
  ghost predicate NewHandlesFrom(l1: map<Handle, Submission>, l2: map<Handle, Submission>, issued1: int)
  {
    forall h | h in l2 && h !in l1 :: h.serial >= issued1
  }

  /** start skips an entry with no configuration or a disabled one. */
  predicate Attempted(cfg: Option<JobConfig>)
  {
    cfg.Some? && !cfg.value.disabled
  }

  /**
   * The error start logs for one entry, if any: the preparation's exception,
   * or the null-future error or the rejection when the scheduler does not accept the submission.
   */
  function FailureOf(entry: JobEntry, ctx: Context, answer: Submission -> Answer): (r: seq<(string, Throwable)>)
    ensures |r| <= 1
    ensures |r| == 1 ==> r[0].0 == entry.0
  {
    if !Attempted(entry.1) then []
    else
      var p := PrepareSubmission(entry.0, entry.1.value, ctx);
      if p.Err? then [(entry.0, p.error)]
      else
        var e := ScheduleError(entry.0, answer(p.value));
        if e.None? then [] else [(entry.0, e.value)]
  }

  /** An entry fails exactly when it is attempted and either its configuration is invalid or the scheduler refuses it. */
  lemma FailureOfIff(entry: JobEntry, ctx: Context, answer: Submission -> Answer)
    ensures |FailureOf(entry, ctx, answer)| == 1
            <==> Attempted(entry.1)
                 && (!ValidConfig(entry.1.value, ctx.cronParse, ctx.durationParse)
                     || !answer(PrepareSubmission(entry.0, entry.1.value, ctx).value).Future?)
  {
  }

  /** The errors start logs, one per failing entry, in table order. */
  function StartFailures(entries: seq<JobEntry>, ctx: Context, answer: Submission -> Answer): (r: seq<(string, Throwable)>)
    ensures |r| <= |entries|
    ensures forall k | 0 <= k < |r| :: r[k].0 in JobIds(entries)
  {
    if entries == [] then []
    else StartFailures(entries[..|entries| - 1], ctx, answer) + FailureOf(entries[|entries| - 1], ctx, answer)
  }

  lemma StartFailuresSnoc(entries: seq<JobEntry>, i: int, ctx: Context, answer: Submission -> Answer)
    requires 0 <= i < |entries|
    ensures StartFailures(entries[..i + 1], ctx, answer)
            == StartFailures(entries[..i], ctx, answer) + FailureOf(entries[i], ctx, answer)
  {
    assert entries[..i + 1][..i] == entries[..i];
  }

  /** From (s0, l0) to (s, l) the id keeps the handle it had, and that handle its submission. */
  ghost predicate KeptIn(id: string, s0: map<string, Handle>, l0: map<Handle, Submission>,
                   s: map<string, Handle>, l: map<Handle, Submission>)
  {
    && (id in s <==> id in s0)
    && (id in s ==> s[id] == s0[id] && s[id] in l0 && s[id] in l && l[s[id]] == l0[s[id]])
  }

  /**
   * From (s0, l0) to (s, l) nothing changes for any id but jobId, nor for
   * any submission outside `own0`, the handles the service owned.
   */
  ghost predicate OthersKept(jobId: string, s0: map<string, Handle>, l0: map<Handle, Submission>, own0: set<Handle>,
                       s: map<string, Handle>, l: map<Handle, Submission>)
  {
    && (forall other | other != jobId :: KeptIn(other, s0, l0, s, l))
    && (forall h | h in l0 && h !in own0 :: h in l && l[h] == l0[h])
  }

  /**
   * The outcome start leaves, from (s0, l0) to (s, l), for one table entry.
   * A prepared entry's previous handle is no longer live, whether or not its
   * new submission was accepted.
   */
  ghost predicate SettledIn(entry: JobEntry, ctx: Context, answer: Submission -> Answer, s0: map<string, Handle>,
                      l0: map<Handle, Submission>, s: map<string, Handle>, l: map<Handle, Submission>)
  {
    var id := entry.0;
    if Attempted(entry.1) && PrepareSubmission(id, entry.1.value, ctx).Ok? then
      var sub := PrepareSubmission(id, entry.1.value, ctx).value;
      && (id in s0 ==> s0[id] !in l)
      && if answer(sub).Future? then id in s && s[id] in l && l[s[id]] == sub else id !in s
    else KeptIn(id, s0, l0, s, l)
  }

  lemma KeptTransitive(id: string, s0: map<string, Handle>, l0: map<Handle, Submission>,
                       s1: map<string, Handle>, l1: map<Handle, Submission>,
                       s2: map<string, Handle>, l2: map<Handle, Submission>)
    requires KeptIn(id, s0, l0, s1, l1) && KeptIn(id, s1, l1, s2, l2)
    ensures KeptIn(id, s0, l0, s2, l2)
  {
  }

  lemma OthersKeptTransitive(jobId: string, s0: map<string, Handle>, l0: map<Handle, Submission>, own0: set<Handle>,
                             s1: map<string, Handle>, l1: map<Handle, Submission>, own1: set<Handle>,
                             s2: map<string, Handle>, l2: map<Handle, Submission>)
    requires OthersKept(jobId, s0, l0, own0, s1, l1) && OthersKept(jobId, s1, l1, own1, s2, l2)
    requires own1 <= own0
    ensures OthersKept(jobId, s0, l0, own0, s2, l2)
  {
    forall other | other != jobId
      ensures KeptIn(other, s0, l0, s2, l2)
    {
      KeptTransitive(other, s0, l0, s1, l1, s2, l2);
    }
  }

  /** A settled entry stays settled through a step that keeps its id and only adds fresh handles. */
  lemma SettledStable(entry: JobEntry, ctx: Context, answer: Submission -> Answer, s0: map<string, Handle>,
                      l0: map<Handle, Submission>, s1: map<string, Handle>, l1: map<Handle, Submission>, issued1: int,
                      s2: map<string, Handle>, l2: map<Handle, Submission>)
    requires SettledIn(entry, ctx, answer, s0, l0, s1, l1) && KeptIn(entry.0, s1, l1, s2, l2)
    requires NewHandlesFrom(l1, l2, issued1) && (entry.0 in s0 ==> s0[entry.0].serial < issued1)
    ensures SettledIn(entry, ctx, answer, s0, l0, s2, l2)
  {
  }

  /** An entry settled after a step that kept its id is settled from before that step. */
  lemma SettledAfterKept(entry: JobEntry, ctx: Context, answer: Submission -> Answer, s0: map<string, Handle>,
                         l0: map<Handle, Submission>, s1: map<string, Handle>, l1: map<Handle, Submission>,
                         s2: map<string, Handle>, l2: map<Handle, Submission>)
    requires KeptIn(entry.0, s0, l0, s1, l1) && SettledIn(entry, ctx, answer, s1, l1, s2, l2)
    ensures SettledIn(entry, ctx, answer, s0, l0, s2, l2)
  {
  }

  /** One more entry of the table handled: every entry so far is settled, and every other id kept. */
  lemma StartStep(entries: seq<JobEntry>, i: int, ctx: Context, answer: Submission -> Answer,
                  s0: map<string, Handle>, l0: map<Handle, Submission>,
                  s1: map<string, Handle>, l1: map<Handle, Submission>, issued1: int,
                  s2: map<string, Handle>, l2: map<Handle, Submission>)
    requires 0 <= i < |entries| && entries[i].0 !in JobIds(entries[..i])
    requires NewHandlesFrom(l1, l2, issued1) && forall id | id in s0 :: s0[id].serial < issued1
    requires forall k | 0 <= k < i :: SettledIn(entries[k], ctx, answer, s0, l0, s1, l1)
    requires forall id | id !in JobIds(entries[..i]) :: KeptIn(id, s0, l0, s1, l1)
    requires SettledIn(entries[i], ctx, answer, s1, l1, s2, l2)
    requires forall other | other != entries[i].0 :: KeptIn(other, s1, l1, s2, l2)
    ensures forall k | 0 <= k < i + 1 :: SettledIn(entries[k], ctx, answer, s0, l0, s2, l2)
    ensures forall id | id !in JobIds(entries[..i + 1]) :: KeptIn(id, s0, l0, s2, l2)
  {
    JobIdsSnoc(entries, i);
    forall k | 0 <= k < i + 1
      ensures SettledIn(entries[k], ctx, answer, s0, l0, s2, l2)
    {
      if k == i {
        SettledAfterKept(entries[i], ctx, answer, s0, l0, s1, l1, s2, l2);
      } else {
        JobIdsContains(entries[..i], k);
        SettledStable(entries[k], ctx, answer, s0, l0, s1, l1, issued1, s2, l2);
      }
    }
    forall other | other !in JobIds(entries[..i + 1])
      ensures KeptIn(other, s0, l0, s2, l2)
    {
      KeptTransitive(other, s0, l0, s1, l1, s2, l2);
    }
  }

  /**
   * What handling one entry does, from (s1, l1, own1, issued1) to (s2, l2,
   * own2, issued2): the entry is settled, nothing else changes, and any new
   * handle is newly issued.
   */
  ghost predicate EntryHandled(entry: JobEntry, ctx: Context, answer: Submission -> Answer,
                               s1: map<string, Handle>, l1: map<Handle, Submission>, own1: set<Handle>, issued1: int,
                               s2: map<string, Handle>, l2: map<Handle, Submission>, own2: set<Handle>, issued2: int)
  {
    && SettledIn(entry, ctx, answer, s1, l1, s2, l2)
    && OthersKept(entry.0, s1, l1, own1, s2, l2)
    && NewHandlesFrom(l1, l2, issued1)
    && issued2 >= issued1
    && (forall h | h in own2 :: h in own1 || h.serial >= issued1)
  }

  /**
   * What start has achieved after the first i entries, from (s0, l0, own0)
   * with handle serials below issued0, to (s, l, own) with issued serials.
   */
  ghost predicate StartProgress(entries: seq<JobEntry>, i: int, ctx: Context, answer: Submission -> Answer,
                                s0: map<string, Handle>, l0: map<Handle, Submission>, own0: set<Handle>, issued0: int,
                                s: map<string, Handle>, l: map<Handle, Submission>, own: set<Handle>, issued: int)
    requires 0 <= i <= |entries|
  {
    && (forall k | 0 <= k < i :: SettledIn(entries[k], ctx, answer, s0, l0, s, l))
    && (forall id | id !in JobIds(entries[..i]) :: KeptIn(id, s0, l0, s, l))
    && (forall h | h in l0 && h !in own0 :: h in l && l[h] == l0[h])
    && (forall h | h in l0 :: h.serial < issued0)
    && (forall id | id in s0 :: s0[id] in l0)
    && issued >= issued0
    && (forall h | h in own :: h in own0 || h.serial >= issued0)
  }

  /** Before the first entry nothing is settled yet and every id keeps what it has. */
  lemma StartProgressInit(entries: seq<JobEntry>, ctx: Context, answer: Submission -> Answer,
                          s: map<string, Handle>, l: map<Handle, Submission>, own: set<Handle>, issued: int)
    requires forall id | id in s :: s[id] in own
    requires own <= l.Keys
    requires forall h | h in l :: h.serial < issued
    ensures StartProgress(entries, 0, ctx, answer, s, l, own, issued, s, l, own, issued)
  {
  }

  /** Handling entry i, which settles it and keeps everything else, extends the progress by one. */
  lemma StartProgressStep(entries: seq<JobEntry>, i: int, ctx: Context, answer: Submission -> Answer,
                          s0: map<string, Handle>, l0: map<Handle, Submission>, own0: set<Handle>, issued0: int,
                          s1: map<string, Handle>, l1: map<Handle, Submission>, own1: set<Handle>, issued1: int,
                          s2: map<string, Handle>, l2: map<Handle, Submission>, own2: set<Handle>, issued2: int)
    requires 0 <= i < |entries| && entries[i].0 !in JobIds(entries[..i])
    requires StartProgress(entries, i, ctx, answer, s0, l0, own0, issued0, s1, l1, own1, issued1)
    requires EntryHandled(entries[i], ctx, answer, s1, l1, own1, issued1, s2, l2, own2, issued2)
    ensures StartProgress(entries, i + 1, ctx, answer, s0, l0, own0, issued0, s2, l2, own2, issued2)
  {
    StartStep(entries, i, ctx, answer, s0, l0, s1, l1, issued1, s2, l2);
    forall h | h in l0 && h !in own0 ensures h in l2 && l2[h] == l0[h] {
      assert h !in own1;
    }
  }

  /** A step that changes nothing keeps every id whose handle is live. */
  lemma OthersKeptRefl(jobId: string, s: map<string, Handle>, l: map<Handle, Submission>, own: set<Handle>)
    requires forall id | id in s :: s[id] in l
    ensures OthersKept(jobId, s, l, own, s, l)
  {
  }

  /** Giving a fresh handle to a new id keeps every other id and every existing submission. */
  lemma OthersKeptAdopt(jobId: string, s: map<string, Handle>, l: map<Handle, Submission>, own: set<Handle>,
                        h: Handle, sub: Submission)
    requires forall id | id in s :: s[id] in l
    requires h !in l
    ensures OthersKept(jobId, s, l, own, s[jobId := h], l[h := sub])
  {
    var s', l' := s[jobId := h], l[h := sub];
    forall other | other != jobId
      ensures KeptIn(other, s, l, s', l')
    {
      if other in s {
        assert s[other] in l;
      }
    }
  }

  /** Updating a key after removing it is the same as updating it. */
  lemma RemoveThenUpdate<K, V>(m: map<K, V>, k: K, v: V)
    ensures (m - {k})[k := v] == m[k := v]
  {
  }

  /** Spring's TaskScheduler, as far as the service observes it. */
  class TaskScheduler {
    /** What the scheduler does with each submission. */
    const answer: Submission -> Answer
    /** The submissions that are scheduled and not cancelled, by handle. */
    var live: map<Handle, Submission>
    /** Serial number of the next handle. */
    var issued: nat
    /** Futures that have completed on their own; cancelling one returns false. */
    var done: set<Handle>

    ghost predicate Valid()
      reads this
    {
      forall h | h in live :: h.serial < issued
    }

    constructor(answer: Submission -> Answer)
      ensures Valid() && this.answer == answer && live == map[] && issued == 0 && done == {}
    {
      this.answer := answer;
      live := map[];
      issued := 0;
      done := {};
    }

    /**
     * schedule / scheduleAtFixedRate: a fresh handle for an accepted
     * submission, null, or the rejection thrown; only an accepted one is live.
     */
    method Schedule(s: Submission) returns (r: Result<Option<Handle>, Throwable>)
      requires Valid()
      modifies this
      ensures Valid() && done == old(done)
      ensures answer(s).Future? ==>
                && r == Ok(Some(Handle(old(issued))))
                && Handle(old(issued)) !in old(live)
                && live == old(live)[Handle(old(issued)) := s]
                && issued == old(issued) + 1
      ensures answer(s).NullFuture? ==> r == Ok(None) && live == old(live) && issued == old(issued)
      ensures answer(s).Rejected? ==> r == Err(answer(s).error) && live == old(live) && issued == old(issued)
    {
      match answer(s)
      case NullFuture => return Ok(None);
      case Rejected(e) => return Err(e);
      case Future =>
        r := Ok(Some(Handle(issued)));
        live := live[Handle(issued) := s];
        issued := issued + 1;
    }

    /** ScheduledFuture.cancel(false): true exactly when the future was live and had not completed. */
    method Cancel(h: Handle) returns (cancelled: bool)
      requires Valid()
      modifies this
      ensures Valid() && issued == old(issued) && done == old(done)
      ensures cancelled == (h in old(live) && h !in done)
      ensures live == old(live) - {h}
    {
      cancelled := h in live && h !in done;
      live := live - {h};
    }

    /** A future completes without being cancelled: its trigger has no next time, or a periodic run threw. */
    method Complete(h: Handle)
      requires Valid()
      modifies this
      ensures Valid() && done == old(done) + {h} && live == old(live) && issued == old(issued)
    {
      done := done + {h};
    }
  }

  class ScheduleService {
    /** ${spring.application.name:scheduling-example} */
    const appName: string
    /** ${HOSTNAME:unknown} */
    const host: string
    const taskScheduler: TaskScheduler
    const cronParse: string -> Option<Throwable>
    const durationParse: string -> Result<Duration, Throwable>
    /** jobId -> task body registered before startup. */
    var jobHandlers: map<string, Handler>
    /** jobId -> handle of its current schedule. */
    var scheduled: map<string, Handle>
    /** The job each of the service's live handles belongs to. */
    ghost var owner: map<Handle, string>

    /**
     * Every tracked handle is live in the scheduler, and tracked handles and
     * job ids correspond one to one.
     */
    ghost predicate Valid()
      reads this, taskScheduler
    {
      && taskScheduler.Valid()
      && owner.Keys <= taskScheduler.live.Keys
      && (forall h | h in owner :: owner[h] in scheduled && scheduled[owner[h]] == h)
      && (forall id | id in scheduled :: scheduled[id] in owner && owner[scheduled[id]] == id)
    }

    constructor(appNameProperty: Option<string>, hostProperty: Option<string>, taskScheduler: TaskScheduler,
                cronParse: string -> Option<Throwable>, durationParse: string -> Result<Duration, Throwable>)
      requires taskScheduler.Valid()
      ensures Valid()
      ensures appName == (if appNameProperty.Some? then appNameProperty.value else "scheduling-example")
      ensures host == (if hostProperty.Some? then hostProperty.value else "unknown")
      ensures this.taskScheduler == taskScheduler && this.cronParse == cronParse && this.durationParse == durationParse
      ensures jobHandlers == map[] && scheduled == map[]
    {
      appName := if appNameProperty.Some? then appNameProperty.value else "scheduling-example";
      host := if hostProperty.Some? then hostProperty.value else "unknown";
      this.taskScheduler := taskScheduler;
      this.cronParse := cronParse;
      this.durationParse := durationParse;
      jobHandlers := map[];
      scheduled := map[];
      owner := map[];
    }

    /** The handle tracked for an id, as a set of at most one. */
    function Tracked(jobId: string): set<Handle>
      reads this
    {
      if jobId in scheduled then {scheduled[jobId]} else {}
    }

    /** Nothing about any other id changes, nor any submission the service does not own. */
    twostate predicate OthersUnchanged(jobId: string)
      reads this, taskScheduler
    {
      OthersKept(jobId, old(scheduled), old(taskScheduler.live), old(owner).Keys, scheduled, taskScheduler.live)
    }

    /** register: both arguments must be non-null (the id is checked first). */
    method Register(jobId: Option<string>, handler: Option<Handler>) returns (thrown: Option<Throwable>)
      requires Valid()
      modifies this
      ensures Valid()
      ensures thrown.None? <==> jobId.Some? && handler.Some?
      ensures thrown.Some? ==> thrown.value == NullPointerException(None) && jobHandlers == old(jobHandlers)
      ensures thrown.None? ==> jobHandlers == old(jobHandlers)[jobId.value := handler.value]
      ensures scheduled == old(scheduled) && owner == old(owner)
    {
      if jobId.None? || handler.None? {
        return Some(NullPointerException(None));
      }
      jobHandlers := jobHandlers[jobId.value := handler.value];
      thrown := None;
    }

    /** cancel: drops the id's handle; true exactly when there was one and its future had not completed. */
    method Cancel(jobId: string) returns (cancelled: bool)
      requires Valid()
      modifies this, taskScheduler
      ensures Valid()
      ensures cancelled == (jobId in old(scheduled) && old(scheduled)[jobId] !in taskScheduler.done)
      ensures scheduled == old(scheduled) - {jobId}
      ensures taskScheduler.live == old(taskScheduler.live) - old(Tracked(jobId))
      ensures OthersUnchanged(jobId)
      ensures jobHandlers == old(jobHandlers) && taskScheduler.done == old(taskScheduler.done)
      ensures taskScheduler.issued == old(taskScheduler.issued)
      ensures owner.Keys <= old(owner).Keys
    {
      if jobId in scheduled {
        var prev := scheduled[jobId];
        scheduled := scheduled - {jobId};
        owner := owner - {prev};
        cancelled := taskScheduler.Cancel(prev);
      } else {
        cancelled := false;
      }
    }

    /** The second half of track, for an id that has no handle: schedule and record the future. */
    method Adopt(jobId: string, s: Submission) returns (thrown: Option<Throwable>)
      requires Valid() && jobId !in scheduled
      modifies this, taskScheduler
      ensures Valid()
      ensures jobHandlers == old(jobHandlers) && taskScheduler.done == old(taskScheduler.done)
      ensures thrown == ScheduleError(jobId, taskScheduler.answer(s))
      ensures thrown.Some? ==> scheduled == old(scheduled) && taskScheduler.live == old(taskScheduler.live)
      ensures thrown.None? ==>
                && jobId in scheduled
                && scheduled[jobId].serial == old(taskScheduler.issued)
                && scheduled == old(scheduled)[jobId := scheduled[jobId]]
                && taskScheduler.live == old(taskScheduler.live)[scheduled[jobId] := s]
      ensures OthersUnchanged(jobId)
      ensures NewHandlesFrom(old(taskScheduler.live), taskScheduler.live, old(taskScheduler.issued))
      ensures taskScheduler.issued >= old(taskScheduler.issued)
      ensures forall h | h in owner :: h in old(owner) || h.serial >= old(taskScheduler.issued)
    {
      assert forall id | id in scheduled :: scheduled[id] in taskScheduler.live by {
        forall id | id in scheduled ensures scheduled[id] in taskScheduler.live {
          assert scheduled[id] in owner;
        }
      }
      var future := taskScheduler.Schedule(s);
      if future.Err? {
        OthersKeptRefl(jobId, scheduled, taskScheduler.live, owner.Keys);
        return Some(future.error);
      }
      if future.value.None? {
        OthersKeptRefl(jobId, scheduled, taskScheduler.live, owner.Keys);
        return Some(NullFutureError(jobId));
      }
      var h := future.value.value;
      OthersKeptAdopt(jobId, scheduled, old(taskScheduler.live), owner.Keys, h, s);
      scheduled := scheduled[jobId := h];
      owner := owner[h := jobId];
      thrown := None;
    }

    /**
     * track: the id's previous handle, if any, is removed and cancelled
     * first; then the submission is scheduled. A null future or a rejection
     * is an error, and the id is then left with no handle at all.
     */
    method Track(jobId: string, s: Submission) returns (thrown: Option<Throwable>)
      requires Valid()
      modifies this, taskScheduler
      ensures Valid()
      ensures jobHandlers == old(jobHandlers) && taskScheduler.done == old(taskScheduler.done)
      ensures thrown == ScheduleError(jobId, taskScheduler.answer(s))
      ensures jobId in old(scheduled) ==> old(scheduled)[jobId] !in taskScheduler.live
      ensures thrown.Some? ==>
                && scheduled == old(scheduled) - {jobId}
                && taskScheduler.live == old(taskScheduler.live) - old(Tracked(jobId))
      ensures thrown.None? ==>
                && jobId in scheduled
                && scheduled[jobId] !in old(taskScheduler.live)
                && scheduled == old(scheduled)[jobId := scheduled[jobId]]
                && taskScheduler.live == (old(taskScheduler.live) - old(Tracked(jobId)))[scheduled[jobId] := s]
      ensures OthersUnchanged(jobId)
      ensures NewHandlesFrom(old(taskScheduler.live), taskScheduler.live, old(taskScheduler.issued))
      ensures taskScheduler.issued >= old(taskScheduler.issued)
      ensures forall h | h in owner :: h in old(owner) || h.serial >= old(taskScheduler.issued)
    {
      ghost var s0, l0, own0 := scheduled, taskScheduler.live, owner.Keys;
      var hadPrevious := Cancel(jobId);
      ghost var s1, l1, own1 := scheduled, taskScheduler.live, owner.Keys;
      thrown := Adopt(jobId, s);
      OthersKeptTransitive(jobId, s0, l0, own0, s1, l1, own1, scheduled, taskScheduler.live);
      if thrown.None? {
        RemoveThenUpdate(s0, jobId, scheduled[jobId]);
      }
    }

    function Ctx(): Context
      reads this
    {
      Context(jobHandlers, appName, host, cronParse, durationParse)
    }

    function Prepare(jobId: string, cfg: JobConfig): Result<Submission, Throwable>
      reads this
    {
      PrepareSubmission(jobId, cfg, Ctx())
    }

    /** schedule: a configuration that fails validation changes nothing; a valid one is tracked. */
    method Schedule(jobId: string, cfg: JobConfig) returns (thrown: Option<Throwable>)
      requires Valid()
      modifies this, taskScheduler
      ensures Valid()
      ensures jobHandlers == old(jobHandlers) && taskScheduler.done == old(taskScheduler.done)
      ensures old(Prepare(jobId, cfg)).Err? ==>
                && thrown == Some(old(Prepare(jobId, cfg)).error)
                && scheduled == old(scheduled) && taskScheduler.live == old(taskScheduler.live)
      ensures old(Prepare(jobId, cfg)).Ok? ==>
                && thrown == ScheduleError(jobId, taskScheduler.answer(old(Prepare(jobId, cfg)).value))
                && (jobId in old(scheduled) ==> old(scheduled)[jobId] !in taskScheduler.live)
      ensures old(Prepare(jobId, cfg)).Ok? && taskScheduler.answer(old(Prepare(jobId, cfg)).value).Future? ==>
                && jobId in scheduled && scheduled[jobId] in taskScheduler.live
                && taskScheduler.live[scheduled[jobId]] == old(Prepare(jobId, cfg)).value
      ensures old(Prepare(jobId, cfg)).Ok? && !taskScheduler.answer(old(Prepare(jobId, cfg)).value).Future? ==>
                jobId !in scheduled
      ensures forall h | h in taskScheduler.live :: h in old(taskScheduler.live) || (h in owner && owner[h] == jobId)
      ensures NewHandlesFrom(old(taskScheduler.live), taskScheduler.live, old(taskScheduler.issued))
      ensures OthersUnchanged(jobId)
      ensures taskScheduler.issued >= old(taskScheduler.issued)
      ensures forall h | h in owner :: h in old(owner) || h.serial >= old(taskScheduler.issued)
    {
      var prepared := Prepare(jobId, cfg);
      if prepared.Err? {
        return Some(prepared.error);
      }
      thrown := Track(jobId, prepared.value);
    }

    /** One iteration of start: skip the entry, or schedule it and report its failure. */
    method StartEntry(entry: JobEntry) returns (failure: seq<(string, Throwable)>)
      requires Valid()
      modifies this, taskScheduler
      ensures Valid()
      ensures jobHandlers == old(jobHandlers) && taskScheduler.done == old(taskScheduler.done)
      ensures failure == FailureOf(entry, Ctx(), taskScheduler.answer)
      ensures EntryHandled(entry, Ctx(), taskScheduler.answer,
                           old(scheduled), old(taskScheduler.live), old(owner).Keys, old(taskScheduler.issued),
                           scheduled, taskScheduler.live, owner.Keys, taskScheduler.issued)
    {
      failure := [];
      var (id, cfg) := entry;
      if cfg.Some? && !cfg.value.disabled {
        var thrown := Schedule(id, cfg.value);
        if thrown.Some? {
          failure := [(id, thrown.value)];
        }
      }
    }

    /**
     * start: every entry is settled independently. Skipped entries and
     * entries that fail validation keep what they had, a failure is
     * collected instead of stopping the loop, and ids outside the table are
     * untouched. A null or empty table changes nothing.
     */
    method Start(jobs: Option<seq<JobEntry>>) returns (failures: seq<(string, Throwable)>)
      requires Valid()
      requires jobs.Some? ==> DistinctIds(jobs.value)
      modifies this, taskScheduler
      ensures Valid()
      ensures jobHandlers == old(jobHandlers) && taskScheduler.done == old(taskScheduler.done)
      ensures jobs.None? || jobs.value == [] ==>
                failures == [] && scheduled == old(scheduled) && taskScheduler.live == old(taskScheduler.live)
      ensures jobs.Some? ==> failures == StartFailures(jobs.value, Ctx(), taskScheduler.answer)
      ensures jobs.Some? ==>
                forall k | 0 <= k < |jobs.value| ::
                  SettledIn(jobs.value[k], Ctx(), taskScheduler.answer, old(scheduled), old(taskScheduler.live),
                            scheduled, taskScheduler.live)
      ensures forall id | jobs.None? || id !in JobIds(jobs.value) ::
                KeptIn(id, old(scheduled), old(taskScheduler.live), scheduled, taskScheduler.live)
      ensures forall h | h in old(taskScheduler.live) && h !in old(owner) ::
                h in taskScheduler.live && taskScheduler.live[h] == old(taskScheduler.live)[h]
    {
      failures := [];
      if jobs.None? || jobs.value == [] {
        forall id ensures KeptIn(id, scheduled, taskScheduler.live, scheduled, taskScheduler.live) {
          if id in scheduled {
            assert scheduled[id] in owner;
          }
        }
        return;
      }
      assert jobs.value[..|jobs.value|] == jobs.value;
      ghost var ctx := Ctx();
      failures := StartAll(jobs.value);
      assert Ctx() == ctx;
    }

    /** The `forEach` over the table: each entry is handled in turn. */
    method StartAll(entries: seq<JobEntry>) returns (failures: seq<(string, Throwable)>)
      requires Valid() && DistinctIds(entries)
      modifies this, taskScheduler
      ensures Valid()
      ensures jobHandlers == old(jobHandlers) && taskScheduler.done == old(taskScheduler.done)
      ensures failures == StartFailures(entries, Ctx(), taskScheduler.answer)
      ensures StartProgress(entries, |entries|, Ctx(), taskScheduler.answer,
                            old(scheduled), old(taskScheduler.live), old(owner).Keys, old(taskScheduler.issued),
                            scheduled, taskScheduler.live, owner.Keys, taskScheduler.issued)
    {
      failures := [];
      ghost var ctx, answer := Ctx(), taskScheduler.answer;
      ghost var s0, l0, own0 := scheduled, taskScheduler.live, owner.Keys;
      ghost var issued0 := taskScheduler.issued;
      StartProgressInit(entries, ctx, answer, s0, l0, own0, issued0);
      var i := 0;
      while i < |entries|
        invariant 0 <= i <= |entries|
        invariant Valid()
        invariant jobHandlers == old(jobHandlers) && taskScheduler.done == old(taskScheduler.done) && Ctx() == ctx
        invariant failures == StartFailures(entries[..i], ctx, answer)
        invariant StartProgress(entries, i, ctx, answer, s0, l0, own0, issued0,
                                scheduled, taskScheduler.live, owner.Keys, taskScheduler.issued)
      {
        failures := StartNext(entries, i, failures, ctx, answer, s0, l0, own0, issued0);
        i := i + 1;
      }
      assert entries[..i] == entries;
    }

    /**
     * The loop body of start: handling entry i adds its failure to those of
     * the entries before it and extends the progress over them by one.
     */
    method StartNext(entries: seq<JobEntry>, i: int, failures: seq<(string, Throwable)>,
                     ghost ctx: Context, ghost answer: Submission -> Answer,
                     ghost s0: map<string, Handle>, ghost l0: map<Handle, Submission>,
                     ghost own0: set<Handle>, ghost issued0: int) returns (failures': seq<(string, Throwable)>)
      requires Valid() && DistinctIds(entries) && 0 <= i < |entries|
      requires ctx == Ctx() && answer == taskScheduler.answer
      requires failures == StartFailures(entries[..i], ctx, answer)
      requires StartProgress(entries, i, ctx, answer, s0, l0, own0, issued0,
                             scheduled, taskScheduler.live, owner.Keys, taskScheduler.issued)
      modifies this, taskScheduler
      ensures Valid()
      ensures jobHandlers == old(jobHandlers) && taskScheduler.done == old(taskScheduler.done) && Ctx() == ctx
      ensures failures' == StartFailures(entries[..i + 1], ctx, answer)
      ensures StartProgress(entries, i + 1, ctx, answer, s0, l0, own0, issued0,
                            scheduled, taskScheduler.live, owner.Keys, taskScheduler.issued)
    {
      DistinctIdsFresh(entries, i);
      ghost var s1, l1, own1, issued1 := scheduled, taskScheduler.live, owner.Keys, taskScheduler.issued;
      var failure := StartEntry(entries[i]);
      failures' := failures + failure;
      StartFailuresSnoc(entries, i, ctx, answer);
      StartProgressStep(entries, i, ctx, answer, s0, l0, own0, issued0, s1, l1, own1, issued1,
                        scheduled, taskScheduler.live, owner.Keys, taskScheduler.issued);
    }

    /**
     * stop: every handle the service tracks is cancelled and the map is
     * emptied; submissions the service does not own stay live.
     */
    method Stop()
      requires Valid()
      modifies this, taskScheduler
      ensures Valid()
      ensures scheduled == map[]
      ensures taskScheduler.live == old(taskScheduler.live) - old(owner).Keys
      ensures old(scheduled) == map[] ==> taskScheduler.live == old(taskScheduler.live)
      ensures jobHandlers == old(jobHandlers) && taskScheduler.done == old(taskScheduler.done)
    {
      var ids := scheduled.Keys;
      while ids != {}
        invariant ids <= scheduled.Keys
        invariant scheduled == old(scheduled) && owner == old(owner) && jobHandlers == old(jobHandlers)
        invariant taskScheduler.Valid() && taskScheduler.done == old(taskScheduler.done)
        invariant taskScheduler.live == old(taskScheduler.live) - (set h | h in owner && owner[h] !in ids)
        decreases ids
      {
        var id :| id in ids;
        var h := scheduled[id];
        var wasLive := taskScheduler.Cancel(h);
        assert (set g | g in owner && owner[g] !in ids - {id}) == (set g | g in owner && owner[g] !in ids) + {h};
        ids := ids - {id};
      }
      assert (set g | g in owner && owner[g] !in ids) == owner.Keys;
      if old(scheduled) == map[] {
        assert owner.Keys == {};
      }
      scheduled := map[];
      owner := map[];
    }
  }

  /** A second cancel of the same id finds nothing and returns false. */
  method CancelTwice(svc: ScheduleService, jobId: string) returns (first: bool, second: bool)
    requires svc.Valid()
    modifies svc, svc.taskScheduler
    ensures svc.Valid()
    ensures first == (jobId in old(svc.scheduled) && old(svc.scheduled)[jobId] !in svc.taskScheduler.done) && !second
    ensures jobId !in svc.scheduled
  {
    first := svc.Cancel(jobId);
    second := svc.Cancel(jobId);
  }

  /** A second stop cancels nothing more. */
  method StopTwice(svc: ScheduleService)
    requires svc.Valid()
    modifies svc, svc.taskScheduler
    ensures svc.Valid() && svc.scheduled == map[]
    ensures svc.taskScheduler.live == old(svc.taskScheduler.live) - old(svc.owner).Keys
  {
    svc.Stop();
    ghost var afterFirst := svc.taskScheduler.live;
    svc.Stop();
    assert svc.taskScheduler.live == afterFirst;
  }
}
