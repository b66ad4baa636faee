# Verified model of the spring-examples core

This project is a Dafny model of the parts of the spring-examples repository
that hold real logic. The rest of the repository is Spring wiring, which is
left out.

- **Desynchronised scheduling** (`10_scheduling`, `11_scheduling`):
  - `DesyncUtils` computes a per-instance splay plus a random half-window and a jitter, clamped into the window.
  - `DesyncTrigger` shifts a delegate trigger's next execution time by that delay.
  - `MdcUtils` wraps tasks so their failures are rethrown with a diagnostic context.
  - `ScheduleService` registers, schedules, starts, tracks, cancels and stops jobs on a `TaskScheduler`.
  - `DesyncSchedulingService` keeps four demo counters and builds `TaskStatistics` from them.
  - The `DesyncAspect` sleeps a computed delay before it proceeds with an annotated method.
- **FizzBuzz websocket** (`08_websocket`): the `MessageType` enum, the classification and message text of each number, and the scheduled broadcast with its counter.
- **Server-sent events** (`10_sse`): the emitter list, with subscribe, disconnect and broadcast. Each attempted send draws the next `long` id, and broadcast afterwards removes every emitter whose send failed.
- **JMS consumer** (`06_activemq`): three listeners that buffer every message before handling it, plus the buffer's copy, clear and count.
- **Product search** (`07_elasticsearch`): the defaults `saveProduct` fills in, and the text of the full-text and the advanced search query.
- **POM tool** (`11_libs/scripts/cli.py`):
  - POM validation rules;
  - `${...}` property resolution;
  - GAV formatting;
  - the version sort key and the `_sort_version_keys` ordering;
  - the dependency matrix that `create_dict` builds;
  - the sorted form `prepare_for_serialization` gives that matrix.

## How the model is built

Pure code becomes datatypes, functions and lemmas. Code that updates objects becomes classes:

- `ScheduleService`, `TaskScheduler`, `DesyncSchedulingService`,
- the aspect,
- the FizzBuzz controller,
- the SSE `Service`,
- the JMS `Consumer`,
- `Product`.

Each method on those classes is proved against a specification function or a state invariant.

The Python loops (`validate_pom`, `PropertyResolver.resolve`, `create_dict`) are methods with loop invariants. Each is proved equal to a recursive reference definition, and the rule-level lemmas are proved about that definition.

Java semantics are modelled explicitly where they matter (modules `JavaLang` and `JavaTime`):

- 32- and 64-bit wrap-around;
- truncating `/` and `%`;
- `String.trim`, `String.valueOf` and `Integer.toString`;
- `Duration.toMillis`, which truncates toward zero;
- `Objects.hash` with `String.hashCode`.

`PyLang` does the same for Python: truthiness, `str`, `split`/`join`, `find`, membership and the code-point string order.

Outside inputs become parameters, because the model cannot see them:

- clocks (`Instant.now`, `LocalDateTime.now`, `TimeUtils.getTimestamp`);
- random draws (`ThreadLocalRandom`, `Random`);
- interrupts;
- an emitter's send failures;
- the results of `CronExpression.parse` and `Duration.parse`.

The delay lemmas hold for every draw. The bounds lemmas say what the draws must satisfy.

## Model

| member | source | states |
|---|---|---|
| DesyncUtils.Clamp | 10_scheduling/src/main/java/org/example/spring/scheduling/desync/DesyncUtils.java:55-57 | the result lies in [lo, hi] when lo <= hi; in-range values are kept; values below lo map to lo and values above hi map to hi; when hi < lo the result is lo (`Math.max` wins) |
| DesyncUtils.ClampIdempotent | 10_scheduling/src/main/java/org/example/spring/scheduling/desync/DesyncUtils.java:55-57 | clamping twice equals clamping once |
| DesyncUtils.ClampMonotone | 10_scheduling/src/main/java/org/example/spring/scheduling/desync/DesyncUtils.java:55-57 | clamping preserves order |
| DesyncUtils.StringHash | 10_scheduling/src/main/java/org/example/spring/scheduling/desync/DesyncUtils.java:40 | `String.hashCode` (31-fold with 32-bit wrap) always yields an `int` |
| DesyncUtils.ElementHash | 10_scheduling/src/main/java/org/example/spring/scheduling/desync/DesyncUtils.java:40 | a null element contributes 0, as in `Objects.hash`; any value is an `int` |
| DesyncUtils.ObjectsHash | 10_scheduling/src/main/java/org/example/spring/scheduling/desync/DesyncUtils.java:40 | `Objects.hash(appName, host, key)` always yields an `int` |
| DesyncUtils.ObjectsHashOrderDependent | 10_scheduling/src/main/java/org/example/spring/scheduling/desync/DesyncUtils.java:40 | the hash depends on argument order: swapping two arguments gives 126046 versus 126976 |
| DesyncUtils.WindowMillis | 10_scheduling/src/main/java/org/example/spring/scheduling/desync/DesyncUtils.java:37 | the window in millis is at least 1; it is `window.toMillis()` when that is positive, otherwise 1 |
| DesyncUtils.Splay | 10_scheduling/src/main/java/org/example/spring/scheduling/desync/DesyncUtils.java:40 | the splay (`floorMod` of the hash) lies in [0, winMs) |
| DesyncUtils.JitterBound | 10_scheduling/src/main/java/org/example/spring/scheduling/desync/DesyncUtils.java:46 | the jitter bound is `max(0, jitter.toMillis())` |
| DesyncUtils.ComputeDelay | 10_scheduling/src/main/java/org/example/spring/scheduling/desync/DesyncUtils.java:35-52 | for every draw, the delay lies in [0, winMs] millis, is never negative and is a whole number of millis |
| DesyncUtils.DegenerateWindowIsOneMilli | 10_scheduling/src/main/java/org/example/spring/scheduling/desync/DesyncUtils.java:37-51 | a window of at most 1 ms always yields a delay of 0 or 1 ms |
| DesyncUtils.NoJitterIgnoresDraw | 10_scheduling/src/main/java/org/example/spring/scheduling/desync/DesyncUtils.java:46-48 | with a non-positive jitter the jitter draw has no effect on the delay |
| DesyncUtils.RawDelayExact | 10_scheduling/src/main/java/org/example/spring/scheduling/desync/DesyncUtils.java:43-50 | with draws in range and no `long` overflow, the unclamped total is splay + rand/2 + jitter, with the jitter in [-bound, bound] and rand/2 in [0, winMs/2] |
| DesyncUtils.DelayBand | 10_scheduling/src/main/java/org/example/spring/scheduling/desync/DesyncUtils.java:35-52 | the delay lies between clamp(splay - bound) and clamp(splay + winMs/2 + bound) |
| DesyncUtils.ExactDelayWhenUnclamped | 10_scheduling/src/main/java/org/example/spring/scheduling/desync/DesyncUtils.java:50-51 | without jitter, and when splay + rand/2 fits in the window, the delay is exactly splay + rand/2 |
| DesyncTrigger.RequireNonNull | 10_scheduling/src/main/java/org/example/spring/scheduling/desync/DesyncTrigger.java:37-40 | succeeds exactly on a non-null value and returns it; otherwise throws an NPE named after the field |
| DesyncTrigger.RequirePositive | 10_scheduling/src/main/java/org/example/spring/scheduling/desync/DesyncTrigger.java:80-86 | accepts exactly a non-null, strictly positive duration; null throws an NPE; zero or negative durations throw IllegalArgumentException "… must be > PT0S" |
| DesyncTrigger.RequireNonNegative | 10_scheduling/src/main/java/org/example/spring/scheduling/desync/DesyncTrigger.java:88-94 | accepts exactly a non-null, non-negative duration; otherwise an NPE or IllegalArgumentException, with the message text as written in the source |
| DesyncTrigger.AfterPropertiesSet | 10_scheduling/src/main/java/org/example/spring/scheduling/desync/DesyncTrigger.java:36-43 | throws nothing exactly when the trigger is well formed; the fields are checked in order (delegate, key, appName, host, window, jitter) and the first failing one decides: a null field throws an NPE named after it, a window that is not positive throws IllegalArgumentException "window must be > PT0S", a negative jitter throws IllegalArgumentException with the jitter message |
| DesyncTrigger.ComputeShift | 10_scheduling/src/main/java/org/example/spring/scheduling/desync/DesyncTrigger.java:68-78 | returns base+delay when that is after now; otherwise now+250 ms (`MIN_FALLBACK_SKEW`) when the delay is zero, else now+delay; with a non-negative delay the result is after now and at least base+delay |
| DesyncTrigger.TriggerDelay | 10_scheduling/src/main/java/org/example/spring/scheduling/desync/DesyncTrigger.java:51 | the trigger's delay lies within [0, window] millis |
| DesyncTrigger.NextExecution | 10_scheduling/src/main/java/org/example/spring/scheduling/desync/DesyncTrigger.java:46-66 | a null delegate throws an NPE; a delegate with no next time yields null; a null window or jitter throws an NPE after the clock is read; otherwise the result is the delegate time shifted by `ComputeShift` with the trigger's delay, and it is after now; the clock read and the computed delay are recorded first; the pre-log is scheduled exactly when a pre-log scheduler exists and the delegate time is in the future |
| DesyncTrigger.WellFormedFiresInFuture | 10_scheduling/src/main/java/org/example/spring/scheduling/desync/DesyncTrigger.java:36-78 | a trigger that passed `afterPropertiesSet` always fires after now and no earlier than the delegate time; without the fallback it fires at most one window later |
| DesyncTrigger.WrapWithDefaults | 10_scheduling/src/main/java/org/example/spring/scheduling/desync/DesyncTrigger.java:109-112 | the five-argument `wrap` uses a 7-minute window and a 20-second jitter and keeps the other arguments |
| DesyncTrigger.WrapAcceptsZeroWindow | 10_scheduling/src/main/java/org/example/spring/scheduling/desync/DesyncTrigger.java:97-106 | `wrap` does not validate: a zero window passes `wrap` and `nextExecution` runs, while `afterPropertiesSet` rejects it |
| MdcUtils.Rethrow | 10_scheduling/src/main/java/org/example/spring/scheduling/logging/MdcUtils.java:27-31 | an `Exception` is wrapped in a RuntimeException with the given message; an `Error` passes through unchanged |
| MdcUtils.WithMdc | 10_scheduling/src/main/java/org/example/spring/scheduling/logging/MdcUtils.java:24-32 | a supplier's value is returned unchanged; its Exception is wrapped in a RuntimeException "Error executing supplier with MDC context"; an Error passes through |
| MdcUtils.Run | 10_scheduling/src/main/java/org/example/spring/scheduling/logging/MdcUtils.java:41-48 | running a (wrapped) runnable invokes exactly its innermost task once, and throws exactly when that task throws |
| MdcUtils.Wrap | 10_scheduling/src/main/java/org/example/spring/scheduling/logging/MdcUtils.java:41-48 | wrapping keeps the same innermost task |
| MdcUtils.WrapRunsOriginal | 10_scheduling/src/main/java/org/example/spring/scheduling/logging/MdcUtils.java:41-48 | the wrapped runnable runs the same innermost runnable; it throws nothing when the original throws nothing; a failure is rethrown as `Rethrow("Error executing runnable with MDC context", …)`; the MDC map has no effect on the outcome |
| DesyncAspect.Proceed | 11_scheduling/src/main/java/org/foo/scheduling/desync/DesyncAspect.java:105-109 | a target's value is returned; its failure is wrapped in RuntimeException "Error executing desync task" |
| DesyncAspect.AroundOutcomes | 11_scheduling/src/main/java/org/foo/scheduling/desync/DesyncAspect.java:85-113 | a bad window or jitter fails before anything runs; otherwise the target's value is returned, or its failure is wrapped twice (by the aspect and by `withMdc`) |
| DesyncAspect.AroundStepsShape | 11_scheduling/src/main/java/org/foo/scheduling/desync/DesyncAspect.java:93-106 | the target proceeds exactly once, and last; the sleep is skipped exactly when the delay is 0; any sleep lasts between 1 ms and the window |
| DesyncAspect.DesyncAspect.constructor | 11_scheduling/src/main/java/org/foo/scheduling/desync/DesyncAspect.java:70-74 | appName and host default to "app" and "unknown" |
| DesyncAspect.DesyncAspect.Sleep | 11_scheduling/src/main/java/org/foo/scheduling/desync/DesyncAspect.java:120-127 | a null or non-positive delay sleeps nothing; otherwise one sleep is recorded, and an interrupt sets the thread's interrupt flag |
| DesyncAspect.DesyncAspect.Around | 11_scheduling/src/main/java/org/foo/scheduling/desync/DesyncAspect.java:85-113 | the result is the one `AroundOutcomes` describes; a parse failure leaves the state unchanged; otherwise the recorded steps are the sleep (if any) then the proceed |
| ScheduleService.CronTriggerFor | 10_scheduling/src/main/java/org/example/spring/scheduling/service/ScheduleService.java:123-145 | succeeds exactly when the expression parses; the trigger then wraps the UTC cron trigger with the job id, a PT5S window and a PT1S jitter, and passes `afterPropertiesSet`; an IllegalArgumentException from the parser becomes an IllegalArgumentException naming the job id and the expression, with the parser's exception as cause; any other parser exception propagates unchanged |
| ScheduleService.ParsePositiveDuration | 10_scheduling/src/main/java/org/example/spring/scheduling/service/ScheduleService.java:148-159 | succeeds exactly on a parsed, strictly positive duration; a parse failure and a non-positive duration are each wrapped in IllegalArgumentException with the documented message |
| ScheduleService.PrepareSubmission | 10_scheduling/src/main/java/org/example/spring/scheduling/service/ScheduleService.java:95-120 | succeeds exactly on a valid config; a missing type or value throws the NPE with the source's message |
| ScheduleService.PrepareSubmissionBuilds | 10_scheduling/src/main/java/org/example/spring/scheduling/service/ScheduleService.java:95-119 | the submitted runnable is the handler wrapped with MDC keys jobId/jobType; CRON jobs get a well-formed desync trigger keyed by the job id; DURATION jobs run at a fixed rate with the trimmed, positive period |
| ScheduleService.ScheduleError | 10_scheduling/src/main/java/org/example/spring/scheduling/service/ScheduleService.java:174-179 | track ends without an error exactly when the scheduler answers with a future; a null future gives the IllegalStateException naming the job, a rejection is rethrown as is |
| ScheduleService.FailureOf | 10_scheduling/src/main/java/org/example/spring/scheduling/service/ScheduleService.java:69-80 | `start` reports at most one failure per entry, under that entry's id |
| ScheduleService.FailureOfIff | 10_scheduling/src/main/java/org/example/spring/scheduling/service/ScheduleService.java:69-80 | an entry fails exactly when it is enabled and either its config is invalid or the scheduler does not answer with a future |
| ScheduleService.StartFailures | 10_scheduling/src/main/java/org/example/spring/scheduling/service/ScheduleService.java:69-80 | `start` reports at most one failure per job, each for a job in the map |
| ScheduleService.ScheduleService.constructor | 10_scheduling/src/main/java/org/example/spring/scheduling/service/ScheduleService.java:34-41 | appName and host default to "scheduling-example" and "unknown"; nothing is registered or scheduled |
| ScheduleService.ScheduleService.Register | 10_scheduling/src/main/java/org/example/spring/scheduling/service/ScheduleService.java:49-51 | a null id or handler throws an NPE and changes nothing; otherwise the handler is stored under the id; the schedule is untouched |
| ScheduleService.ScheduleService.Cancel | 10_scheduling/src/main/java/org/example/spring/scheduling/service/ScheduleService.java:54-57 | returns true exactly when the job was scheduled and its future had not completed; removes it and cancels exactly its futures; no other job is affected |
| ScheduleService.ScheduleService.Adopt | 10_scheduling/src/main/java/org/example/spring/scheduling/service/ScheduleService.java:174-179 | the error is `ScheduleError` of the scheduler's answer; on an error nothing is recorded; otherwise the new future is stored under the job id; no other job is affected |
| ScheduleService.ScheduleService.Track | 10_scheduling/src/main/java/org/example/spring/scheduling/service/ScheduleService.java:165-181 | any previous future of the job is cancelled first and is no longer live afterwards, whatever the outcome; then the new future is stored, or, on a null future or a rejection, the job is left unscheduled and that error is returned |
| ScheduleService.ScheduleService.Schedule | 10_scheduling/src/main/java/org/example/spring/scheduling/service/ScheduleService.java:95-120 | a bad config throws its error and changes nothing; otherwise the previous future is no longer live, the error is `ScheduleError` of the answer, the prepared submission is live under the job id exactly when the answer is a future, and the job is unscheduled otherwise; only this job's futures change |
| ScheduleService.ScheduleService.StartEntry | 10_scheduling/src/main/java/org/example/spring/scheduling/service/ScheduleService.java:70-79 | one entry of `start`: disabled entries are skipped; failures (invalid config, null future, rejection) are collected, never thrown; the entry is settled as `SettledIn` says |
| ScheduleService.ScheduleService.Start | 10_scheduling/src/main/java/org/example/spring/scheduling/service/ScheduleService.java:60-81 | a null or empty map changes nothing; otherwise the failures are exactly `StartFailures`, every listed job is settled as its config and the scheduler's answer ask (its previous future cancelled, the new one live exactly when it is a future), jobs not listed keep their futures, and live futures this service does not own are never touched |
| ScheduleService.ScheduleService.StartAll | 10_scheduling/src/main/java/org/example/spring/scheduling/service/ScheduleService.java:69-80 | the `forEach` loop: failures and state after every entry are those of processing the entries in order |
| ScheduleService.ScheduleService.StartNext | 10_scheduling/src/main/java/org/example/spring/scheduling/service/ScheduleService.java:70-79 | one step of that loop keeps the loop's invariant |
| ScheduleService.ScheduleService.Stop | 10_scheduling/src/main/java/org/example/spring/scheduling/service/ScheduleService.java:84-91 | all of this service's futures are cancelled and its map is cleared; other futures survive; with nothing scheduled it changes nothing |
| ScheduleService.CancelTwice | 10_scheduling/src/main/java/org/example/spring/scheduling/service/ScheduleService.java:54-57 | the first `cancel` returns whether the job had an uncompleted future; a second `cancel` of the same job returns false |
| ScheduleService.StopTwice | 10_scheduling/src/main/java/org/example/spring/scheduling/service/ScheduleService.java:84-91 | stopping twice leaves the same state as stopping once |
| DesyncSchedulingService.FixedRateWorkValues | 10_scheduling/src/main/java/org/example/spring/scheduling/service/DesyncSchedulingService.java:43 | for a non-negative count the simulated work is 1000, 1500 or 2000 ms |
| DesyncSchedulingService.FixedRateWorkNeverNegative | 10_scheduling/src/main/java/org/example/spring/scheduling/service/DesyncSchedulingService.java:43 | after the counter wraps, Java's `%` makes the sleep shorter (as low as 0 ms) but never negative |
| DesyncSchedulingService.FixedDelayWorkValues | 10_scheduling/src/main/java/org/example/spring/scheduling/service/DesyncSchedulingService.java:63 | for a non-negative count the simulated work is 800, 1000, 1200 or 1400 ms |
| DesyncSchedulingService.FixedDelayWorkNeverNegative | 10_scheduling/src/main/java/org/example/spring/scheduling/service/DesyncSchedulingService.java:63 | for any count the sleep stays in [200, 1400] ms |
| DesyncSchedulingService.DesyncSchedulingService.constructor | 10_scheduling/src/main/java/org/example/spring/scheduling/service/DesyncSchedulingService.java:23-26 | all four counters start at 0 |
| DesyncSchedulingService.DesyncSchedulingService.FixedRateTask | 10_scheduling/src/main/java/org/example/spring/scheduling/service/DesyncSchedulingService.java:36-48 | increments its own counter with `int` wrap and no other; the sleep is `FixedRateWork` of the new count and non-negative |
| DesyncSchedulingService.DesyncSchedulingService.FixedDelayTask | 10_scheduling/src/main/java/org/example/spring/scheduling/service/DesyncSchedulingService.java:56-68 | increments its own counter with `int` wrap and no other; the sleep is positive |
| DesyncSchedulingService.DesyncSchedulingService.CronTask | 10_scheduling/src/main/java/org/example/spring/scheduling/service/DesyncSchedulingService.java:76-88 | increments the cron counter only; sleeps 500 ms |
| DesyncSchedulingService.DesyncSchedulingService.HighFrequencyTask | 10_scheduling/src/main/java/org/example/spring/scheduling/service/DesyncSchedulingService.java:96-108 | increments the desync counter only; sleeps 200 ms |
| DesyncSchedulingService.DesyncSchedulingService.LongRunningTask | 10_scheduling/src/main/java/org/example/spring/scheduling/service/DesyncSchedulingService.java:116-127 | sleeps 3000 ms and counts nothing |
| DesyncSchedulingService.DesyncSchedulingService.ConditionalTask | 10_scheduling/src/main/java/org/example/spring/scheduling/service/DesyncSchedulingService.java:135-145 | takes the business branch exactly for hours 9 to 16 |
| DesyncSchedulingService.DesyncSchedulingService.GetTaskStatistics | 10_scheduling/src/main/java/org/example/spring/scheduling/service/DesyncSchedulingService.java:150-158 | the statistics carry the four counters in the constructor's argument order, with the current time |
| DesyncSchedulingService.DesyncSchedulingService.ResetCounters | 10_scheduling/src/main/java/org/example/spring/scheduling/service/DesyncSchedulingService.java:163-169 | all four counters read 0 afterwards |
| DesyncSchedulingService.ResetThenRunEach | 10_scheduling/src/main/java/org/example/spring/scheduling/service/DesyncSchedulingService.java:150-169 | after a reset and one run of each counted task, the statistics total 4 |
| TaskStatistics.TotalCountAsWritten | 10_scheduling/src/main/java/org/example/spring/scheduling/model/TaskStatistics.java:28-30 | the result is a `long`; it equals the true sum whenever the `int` partial sums do not overflow |
| TaskStatistics.TotalCountAsWrittenWraps | 10_scheduling/src/main/java/org/example/spring/scheduling/model/TaskStatistics.java:28-30 | two counters at `Integer.MAX_VALUE` give a total of -2 |
| TaskStatistics.TotalCount | 10_scheduling/src/main/java/org/example/spring/scheduling/model/TaskStatistics.java:28-30 | the corrected total (in `long` arithmetic) equals the true sum whenever that fits in a `long` |
| TaskStatistics.TotalCountExact | 10_scheduling/src/main/java/org/example/spring/scheduling/model/TaskStatistics.java:28-30 | for non-negative counters the corrected total is the exact, non-negative sum |
| TaskStatistics.TotalCountZero | 10_scheduling/src/main/java/org/example/spring/scheduling/model/TaskStatistics.java:28-30 | all-zero counters total 0 in both versions |
| TaskStatistics.Pad2 | 10_scheduling/src/main/java/org/example/spring/scheduling/model/TaskStatistics.java:35-37 | a two-digit field whose value is the number |
| TaskStatistics.FormattedTimestamp | 10_scheduling/src/main/java/org/example/spring/scheduling/model/TaskStatistics.java:35-37 | "N/A" exactly when there is no timestamp; otherwise an 8-character `HH:mm:ss` string whose digit pairs are the hour, minute and second |
| FizzBuzzWebSocket.DetermineMessageType | 08_websocket/src/main/java/org/example/spring/websocket/websocket/FizzBuzzWebSocket.java:90-100 | FIZZBUZZ exactly for multiples of 15, FIZZ for other multiples of 3, BUZZ for other multiples of 5, NUMBER otherwise |
| FizzBuzzWebSocket.GenerateFizzBuzzMessage | 08_websocket/src/main/java/org/example/spring/websocket/websocket/FizzBuzzWebSocket.java:102-115 | the message is the type's lead text, the decimal number and the type's trailing text |
| FizzBuzzWebSocket.MessageIdentifiesNumber | 08_websocket/src/main/java/org/example/spring/websocket/websocket/FizzBuzzWebSocket.java:102-115 | different numbers always give different messages |
| FizzBuzzWebSocket.ScheduledMessage | 08_websocket/src/main/java/org/example/spring/websocket/websocket/FizzBuzzWebSocket.java:47-55 | a scheduled broadcast's topic is one of the enum's values, never "welcome" |
| FizzBuzzWebSocket.HandleMessage | 08_websocket/src/main/java/org/example/spring/websocket/websocket/FizzBuzzWebSocket.java:36-43 | the reply has topic "welcome", the given timestamp, and the echo prefix followed by `String.valueOf` of the payload |
| FizzBuzzWebSocket.FizzBuzzController.constructor | 08_websocket/src/main/java/org/example/spring/websocket/websocket/FizzBuzzWebSocket.java:19 | the counter starts at 1 and nothing has been broadcast |
| FizzBuzzWebSocket.FizzBuzzController.SendFizzBuzzMessage | 08_websocket/src/main/java/org/example/spring/websocket/websocket/FizzBuzzWebSocket.java:46-88 | builds the message for the old counter value and increments the counter with `int` wrap; the message is broadcast unless sending fails; an Exception is caught and logged, an Error propagates |
| FizzBuzzWebSocket.CounterAfter | 08_websocket/src/main/java/org/example/spring/websocket/websocket/FizzBuzzWebSocket.java:47 | the counter is always an `int` |
| FizzBuzzWebSocket.CounterAfterRuns | 08_websocket/src/main/java/org/example/spring/websocket/websocket/FizzBuzzWebSocket.java:47 | after k < `Integer.MAX_VALUE` broadcasts the counter is k + 1 |
| FizzBuzzWebSocket.CounterWraps | 08_websocket/src/main/java/org/example/spring/websocket/websocket/FizzBuzzWebSocket.java:47 | after `Integer.MAX_VALUE` broadcasts the counter wraps to `Integer.MIN_VALUE` |
| MessageTypes.ToString | 08_websocket/src/main/java/org/example/spring/websocket/model/MessageType.java:35-38 | `toString` gives the wire value, which is one of `getAllValues()` |
| MessageTypes.AllTypesComplete | 08_websocket/src/main/java/org/example/spring/websocket/model/MessageType.java:13-17 | `values()` lists every constant exactly once |
| MessageTypes.ValueInjective | 08_websocket/src/main/java/org/example/spring/websocket/model/MessageType.java:13-17 | distinct constants have distinct wire values |
| MessageTypes.AllValuesDistinct | 08_websocket/src/main/java/org/example/spring/websocket/model/MessageType.java:13-17 | the wire values of `values()` are pairwise distinct |
| MessageTypes.Values | 08_websocket/src/main/java/org/example/spring/websocket/model/MessageType.java:44-48 | one value per constant, in order |
| MessageTypes.GetAllValues | 08_websocket/src/main/java/org/example/spring/websocket/model/MessageType.java:44-48 | exactly fizz, buzz, fizzbuzz, number and welcome, in declaration order |
| MessageTypes.ToMap | 08_websocket/src/main/java/org/example/spring/websocket/model/MessageType.java:54-57 | `Collectors.toMap` succeeds exactly when no key repeats; its keys are the stream's keys; a collision names a key from the stream |
| MessageTypes.ToMapContents | 08_websocket/src/main/java/org/example/spring/websocket/model/MessageType.java:54-57 | without repeats, the map has one entry per key, holding that key's value |
| MessageTypes.Descriptions | 08_websocket/src/main/java/org/example/spring/websocket/model/MessageType.java:54-57 | one description per constant, in order |
| MessageTypes.GetAllWithDescriptions | 08_websocket/src/main/java/org/example/spring/websocket/model/MessageType.java:54-57 | never throws; five entries, each value mapped to its description |
| SseService.Emitter.constructor | 10_sse/src/main/java/org/foo/sse/sse/SseService.java:37 | the emitter keeps the timeout it was created with |
| SseService.IdText | 10_sse/src/main/java/org/foo/sse/sse/SseService.java:69 | an event id is sent as non-empty decimal text |
| SseService.IdTextInjective | 10_sse/src/main/java/org/foo/sse/sse/SseService.java:69 | equal id texts mean equal ids |
| SseService.DetermineEventType | 10_sse/src/main/java/org/foo/sse/sse/SseService.java:107-119 | ALERT for multiples of 5; otherwise NEWS for multiples of 4, STOCK for multiples of 3, WEATHER for even numbers, SYSTEM for the rest (first match wins) |
| SseService.DetermineEventTypePriority | 10_sse/src/main/java/org/foo/sse/sse/SseService.java:107-119 | 20, 12, 9, 14 and 1 pick ALERT, NEWS, STOCK, WEATHER and SYSTEM, which shows the order of the conditions |
| SseService.GenerateEventData | 10_sse/src/main/java/org/foo/sse/sse/SseService.java:121-134 | the data is the type's lead text, the decimal number and the type's trailing text |
| SseService.EventDataIdentifiesNumber | 10_sse/src/main/java/org/foo/sse/sse/SseService.java:121-134 | for one event type, different numbers give different data |
| SseService.RandomEvent | 10_sse/src/main/java/org/foo/sse/sse/SseService.java:92-102 | the event's type is that of the counter and its id is the decimal event id |
| SseService.RemoveAll | 10_sse/src/main/java/org/foo/sse/sse/SseService.java:81 | `removeAll` never lengthens the list |
| SseService.RemoveAllMembers | 10_sse/src/main/java/org/foo/sse/sse/SseService.java:81 | after `removeAll` an emitter is listed exactly when it was listed and is not among the dead |
| SseService.RemoveAllAppend | 10_sse/src/main/java/org/foo/sse/sse/SseService.java:81 | `removeAll` works element by element: it distributes over concatenation |
| SseService.RemoveAllNothing | 10_sse/src/main/java/org/foo/sse/sse/SseService.java:81 | removing no emitters leaves the list unchanged |
| SseService.RemoveAllDistinct | 10_sse/src/main/java/org/foo/sse/sse/SseService.java:81 | `removeAll` keeps the list free of repeats |
| SseService.FailedOf | 10_sse/src/main/java/org/foo/sse/sse/SseService.java:74-77 | the dead list is drawn from the emitters |
| SseService.FailedOfMembers | 10_sse/src/main/java/org/foo/sse/sse/SseService.java:74-77 | an emitter is dead exactly when it is listed and its send failed |
| SseService.FirstEscape | 10_sse/src/main/java/org/foo/sse/sse/SseService.java:66-78 | the position of the first emitter whose send throws something other than an IOException: no earlier emitter escapes, and the position is the list's length when none does |
| SseService.NextLong | 10_sse/src/main/java/org/foo/sse/sse/SseService.java:69 | `getAndIncrement` on a `long` gives a different `long` |
| SseService.IdAfter | 10_sse/src/main/java/org/foo/sse/sse/SseService.java:69 | the id after k sends is a `long` |
| SseService.IdAfterWraps | 10_sse/src/main/java/org/foo/sse/sse/SseService.java:69 | the id after k attempts is the first id plus k, with 64-bit wrap |
| SseService.Deliveries | 10_sse/src/main/java/org/foo/sse/sse/SseService.java:66-78 | every emitter either receives the event or is dead |
| SseService.DeliveriesTargets | 10_sse/src/main/java/org/foo/sse/sse/SseService.java:66-78 | every delivery goes to a listed emitter whose send succeeded and carries the event |
| SseService.SurvivorsAreExactlyTheUnfailed | 10_sse/src/main/java/org/foo/sse/sse/SseService.java:63-86 | after a broadcast, the emitters left are exactly those whose send did not fail |
| SseService.RemoveFirst | 10_sse/src/main/java/org/foo/sse/sse/SseService.java:39-52 | `List.remove(o)` shortens the list by one exactly when the emitter was in it |
| SseService.RemoveFirstDistinct | 10_sse/src/main/java/org/foo/sse/sse/SseService.java:39-52 | on a repeat-free list, `remove` takes out exactly that emitter |
| SseService.Service.constructor | 10_sse/src/main/java/org/foo/sse/sse/SseService.java:28-31 | both counters start at 1; no client is connected |
| SseService.Service.Subscribe | 10_sse/src/main/java/org/foo/sse/sse/SseService.java:36-58 | a fresh emitter with timeout `Long.MAX_VALUE` is appended; nothing else changes |
| SseService.Service.Disconnect | 10_sse/src/main/java/org/foo/sse/sse/SseService.java:39-52 | the emitter is removed and no longer listed; nothing else changes |
| SseService.Service.SendEvent | 10_sse/src/main/java/org/foo/sse/sse/SseService.java:63-86 | every listed emitter is tried in order and each attempt draws the next id; the emitters whose send failed are removed afterwards; when a send throws something other than an IOException, that is thrown at the first such emitter, the list is left as it was and the ids drawn so far stay drawn; the counter is untouched |
| SseService.Service.SendRandomEvent | 10_sse/src/main/java/org/foo/sse/sse/SseService.java:92-105 | the event built from the counter and the next id is broadcast as in `SendEvent`, with the same outcome when a send escapes; the counter is incremented with `int` wrap |
| SseService.Service.GetActiveClientCount | 10_sse/src/main/java/org/foo/sse/sse/SseService.java:139-141 | the number of listed emitters |
| MessageConsumer.ProcessMessage | 06_activemq/src/main/java/org/example/spring/activemq/service/MessageConsumer.java:48-65 | a null type throws an NPE; ERROR logs at error level and WARNING at warn level, exactly; INFO and SUCCESS log at info level |
| MessageConsumer.Handle | 06_activemq/src/main/java/org/example/spring/activemq/service/MessageConsumer.java:21-46 | the error-queue listener never throws; the other two throw exactly when the type is null |
| MessageConsumer.Buffer | 06_activemq/src/main/java/org/example/spring/activemq/service/MessageConsumer.java:19-46 | the buffer never holds more messages than there were calls |
| MessageConsumer.Received | 06_activemq/src/main/java/org/example/spring/activemq/service/MessageConsumer.java:19-46 | the messages received, in arrival order |
| MessageConsumer.BufferWithoutClear | 06_activemq/src/main/java/org/example/spring/activemq/service/MessageConsumer.java:19-46 | without a clear, the buffer holds every received message in order, even those whose handling threw |
| MessageConsumer.ClearForgets | 06_activemq/src/main/java/org/example/spring/activemq/service/MessageConsumer.java:82-85 | a clear forgets every message before it |
| MessageConsumer.Consumer.constructor | 06_activemq/src/main/java/org/example/spring/activemq/service/MessageConsumer.java:19 | the buffer starts empty |
| MessageConsumer.Consumer.ReceiveOn | 06_activemq/src/main/java/org/example/spring/activemq/service/MessageConsumer.java:21-46 | appends the message before handling it; what it throws is `Handle` |
| MessageConsumer.Consumer.ReceiveMessage | 06_activemq/src/main/java/org/example/spring/activemq/service/MessageConsumer.java:21-28 | the message is buffered; throws exactly when its type is null |
| MessageConsumer.Consumer.ReceiveTopicMessage | 06_activemq/src/main/java/org/example/spring/activemq/service/MessageConsumer.java:30-37 | the message is buffered; throws exactly when its type is null |
| MessageConsumer.Consumer.ReceiveErrorMessage | 06_activemq/src/main/java/org/example/spring/activemq/service/MessageConsumer.java:39-46 | the message is buffered; never throws |
| MessageConsumer.Consumer.GetReceivedMessages | 06_activemq/src/main/java/org/example/spring/activemq/service/MessageConsumer.java:78-80 | a fresh copy with the buffer's contents |
| MessageConsumer.Consumer.ClearReceivedMessages | 06_activemq/src/main/java/org/example/spring/activemq/service/MessageConsumer.java:82-85 | the buffer is empty afterwards |
| MessageConsumer.Consumer.GetMessageCount | 06_activemq/src/main/java/org/example/spring/activemq/service/MessageConsumer.java:87-89 | the buffer's length |
| ProductService.Product.constructor | 07_elasticsearch/src/main/java/org/example/spring/elasticsearch/model/Product.java:18-45 | a new product has every field null |
| ProductService.WithDefaults | 07_elasticsearch/src/main/java/org/example/spring/elasticsearch/service/ProductService.java:27-39 | createdAt and active are always set afterwards; set values are kept; missing ones become now and true; no other field changes |
| ProductService.WithDefaultsIdempotent | 07_elasticsearch/src/main/java/org/example/spring/elasticsearch/service/ProductService.java:27-39 | saving again keeps the first defaults |
| ProductService.WithDefaultsKeepsInactive | 07_elasticsearch/src/main/java/org/example/spring/elasticsearch/service/ProductService.java:27-39 | an inactive product stays inactive |
| ProductService.SaveProduct | 07_elasticsearch/src/main/java/org/example/spring/elasticsearch/service/ProductService.java:27-39 | updates the product in place to `WithDefaults` and returns the same object |
| ProductService.FullTextQuery | 07_elasticsearch/src/main/java/org/example/spring/elasticsearch/service/ProductService.java:94-108 | the query is a fixed head, `String.valueOf` of the text and a fixed tail |
| ProductService.FullTextQueryInjective | 07_elasticsearch/src/main/java/org/example/spring/elasticsearch/service/ProductService.java:94-108 | different texts give different queries |
| ProductService.FullTextQueryNull | 07_elasticsearch/src/main/java/org/example/spring/elasticsearch/service/ProductService.java:94-108 | a null text searches for the word "null" |
| ProductService.Render | 07_elasticsearch/src/main/java/org/example/spring/elasticsearch/service/ProductService.java:121-181 | a clause is rendered as an object |
| ProductService.RenderBraces | 07_elasticsearch/src/main/java/org/example/spring/elasticsearch/service/ProductService.java:121-181 | a rendered clause starts with `{` and ends with `}` and a newline |
| ProductService.NonBlankIff | 07_elasticsearch/src/main/java/org/example/spring/elasticsearch/service/ProductService.java:119 | a filter counts exactly when it is non-null and not blank after `trim` |
| ProductService.IsNonBlank | 07_elasticsearch/src/main/java/org/example/spring/elasticsearch/service/ProductService.java:119 | decides `NonBlank` |
| ProductService.PriceClauses | 07_elasticsearch/src/main/java/org/example/spring/elasticsearch/service/ProductService.java:145-182 | at most one range clause, present exactly when a bound is given; between, from or to, as the bounds given |
| ProductService.JoinClauses | 07_elasticsearch/src/main/java/org/example/spring/elasticsearch/service/ProductService.java:117-184 | empty exactly when there are no clauses |
| ProductService.JoinClausesEnds | 07_elasticsearch/src/main/java/org/example/spring/elasticsearch/service/ProductService.java:117-184 | the joined list starts with the first clause and ends with the last |
| ProductService.JoinClausesBraces | 07_elasticsearch/src/main/java/org/example/spring/elasticsearch/service/ProductService.java:117-184 | a non-empty joined list starts with `{` and ends with `}` and a newline |
| ProductService.JoinClausesSnoc | 07_elasticsearch/src/main/java/org/example/spring/elasticsearch/service/ProductService.java:117-184 | appending a clause adds a separator only after the first |
| ProductService.AppendClause | 07_elasticsearch/src/main/java/org/example/spring/elasticsearch/service/ProductService.java:120-130 | one `if (hasConditions) append(",")` step keeps the builder equal to the head plus the joined clauses |
| ProductService.AdvancedSearch | 07_elasticsearch/src/main/java/org/example/spring/elasticsearch/service/ProductService.java:110-188 | the built query is `AdvancedQuery` of the filters |
| ProductService.AdvancedQueryFrame | 07_elasticsearch/src/main/java/org/example/spring/elasticsearch/service/ProductService.java:110-188 | the query is the bool head, the must list and the bool tail |
| ProductService.MustListEmpty | 07_elasticsearch/src/main/java/org/example/spring/elasticsearch/service/ProductService.java:110-188 | the must list is empty exactly when no filter is given |
| ProductService.MustListSeparators | 07_elasticsearch/src/main/java/org/example/spring/elasticsearch/service/ProductService.java:110-188 | a non-empty must list starts with `{` and ends with `}` and a newline, so no leading or trailing comma |
| ProductService.ClausePresence | 07_elasticsearch/src/main/java/org/example/spring/elasticsearch/service/ProductService.java:110-188 | a name clause exists exactly for a non-blank name and a category clause exactly for a non-blank category, each carrying its filter |
| ProductService.PricePresence | 07_elasticsearch/src/main/java/org/example/spring/elasticsearch/service/ProductService.java:110-188 | exactly one range clause when a bound is given, none otherwise |
| ProductService.ClauseOrder | 07_elasticsearch/src/main/java/org/example/spring/elasticsearch/service/ProductService.java:110-188 | clauses appear in the order name, category, range |
| ProductService.AdvancedQueryNameOnly | 07_elasticsearch/src/main/java/org/example/spring/elasticsearch/service/ProductService.java:110-188 | a name alone gives a single wildcard clause |
| ProductService.AdvancedQueryNameAndRange | 07_elasticsearch/src/main/java/org/example/spring/elasticsearch/service/ProductService.java:110-188 | a name and both bounds give a wildcard and a between clause, separated by one comma |
| PomModel.Lookup | 11_libs/scripts/cli.py:348-349 | the value returned is that of an entry with the name |
| PomModel.PyStr | 11_libs/scripts/cli.py:348-349 | `str(value)` keeps strings and renders integers in decimal |
| PomModel.LookupUnique | 11_libs/scripts/cli.py:348-349 | when property names are unique, the lookup of a listed (name, value) pair returns that value |
| PomFormatter.GavParts | 11_libs/scripts/cli.py:364-373 | one non-empty part per truthy coordinate |
| PomFormatter.FormatGavEmpty | 11_libs/scripts/cli.py:364-373 | empty exactly when no coordinate is truthy |
| PomFormatter.FormatGavFull | 11_libs/scripts/cli.py:364-373 | all three coordinates give "groupId: …, artifactId: …, version: …" |
| PomFormatter.FormatGavSingle | 11_libs/scripts/cli.py:364-373 | a single coordinate gives no separator |
| PomFormatter.FormatDependency | 11_libs/scripts/cli.py:376-381 | the GAV, followed by " (scope: …)" exactly when the scope is truthy and not "compile" |
| PomFormatter.ExtractNamespace | 11_libs/scripts/cli.py:77-82 | empty exactly when there is no `}`; otherwise the tag's prefix up to and including its first `}` |
| PomFormatter.ExtractNamespaceOfQualified | 11_libs/scripts/cli.py:77-82 | a qualified tag `{uri}local` gives `{uri}` |
| PomValidation.ValidatePom | 11_libs/scripts/cli.py:187-253 | the issues are exactly `PomIssues`, with the rules applied in source order |
| PomValidation.CheckVersionless | 11_libs/scripts/cli.py:213-219 | its loop yields exactly `VersionlessIssues` |
| PomValidation.CheckCircular | 11_libs/scripts/cli.py:222-231 | its loop yields exactly `CircularIssues` |
| PomValidation.CheckDuplicates | 11_libs/scripts/cli.py:234-240 | its loop, with its seen-set, yields exactly `DuplicateIssues` |
| PomValidation.CheckPlaceholders | 11_libs/scripts/cli.py:243-251 | its loop yields exactly `PlaceholderIssues` |
| PomValidation.MissingVersionRule | 11_libs/scripts/cli.py:201-210 | a missing version is reported exactly for a falsy version outside `pom` packaging; a missing groupId or artifactId is reported exactly when that coordinate is falsy |
| PomValidation.VersionlessRule | 11_libs/scripts/cli.py:213-219 | nothing is reported under a parent; otherwise one issue per versionless dependency, and each one is reported |
| PomValidation.CircularRule | 11_libs/scripts/cli.py:222-231 | every self-dependency is reported, and each report names the project's own GAV |
| PomValidation.DuplicateCount | 11_libs/scripts/cli.py:234-240 | issues plus distinct keys equal the number of dependencies, so every repeat after the first is reported |
| PomValidation.DistinctKeysNoDuplicates | 11_libs/scripts/cli.py:234-240 | distinct keys give no duplicate issue |
| PomValidation.PlaceholderRule | 11_libs/scripts/cli.py:243-251 | a placeholder issue for a value exists exactly when some property has that value and it does not resolve |
| PomValidation.PlaceholderMessageInjective | 11_libs/scripts/cli.py:243-251 | distinct values give distinct messages |
| PomValidation.CompletePomIsClean | 11_libs/scripts/cli.py:187-253 | a POM with all three coordinates and nothing else has no issues |
| PropertyResolver.Matches | 11_libs/scripts/cli.py:344-346 | `finditer` matches are placeholders, left to right, without overlap |
| PropertyResolver.ReplaceAll | 11_libs/scripts/cli.py:350 | `str.replace` leaves text without the pattern unchanged |
| PropertyResolver.Resolve | 11_libs/scripts/cli.py:329-352 | the loop yields exactly `ResolveSpec` |
| PropertyResolver.MatchesAtOpener | 11_libs/scripts/cli.py:344-346 | at `${` with a `}` later and a non-empty name, the match ends at the first `}` |
| PropertyResolver.EarlyReturnIsOptimisation | 11_libs/scripts/cli.py:340-341 | the early return for text without `${` changes nothing: the result is the loop's |
| PropertyResolver.ResolveWithoutOpener | 11_libs/scripts/cli.py:340-341 | text without `${` is returned unchanged |
| PropertyResolver.ApplyAllUnknown | 11_libs/scripts/cli.py:346-350 | a pass of unknown names changes nothing |
| PropertyResolver.ResolveUnknownIntact | 11_libs/scripts/cli.py:346-350 | text whose placeholders name no property is returned unchanged |
| PropertyResolver.ResolveEmptyProperties | 11_libs/scripts/cli.py:346-350 | with no properties, every text is returned unchanged |
| PropertyResolver.ReplaceSingle | 11_libs/scripts/cli.py:350 | replacing the only placeholder splices in the replacement |
| PropertyResolver.ResolveSingle | 11_libs/scripts/cli.py:346-352 | a single known placeholder is replaced by `str` of the property's value |
| PropertyResolver.ScanInterleaved | 11_libs/scripts/cli.py:344-346 | on literal text interleaved with placeholders, `finditer` finds one match per placeholder, in order, each capturing its name |
| PropertyResolver.ReplaceInterleaved | 11_libs/scripts/cli.py:350 | one `str.replace` of `${n}` replaces exactly the tokens still reading `${n}` and nothing in the literal text |
| PropertyResolver.ApplyStepInterleaved | 11_libs/scripts/cli.py:346-350 | one more loop iteration adds the next name to the replaced ones exactly when it is a property |
| PropertyResolver.ApplyAllInterleaved | 11_libs/scripts/cli.py:346-350 | after the first i matches, the text holds the replacements of exactly the known names among them |
| PropertyResolver.ResolveInterleaved | 11_libs/scripts/cli.py:329-352 | on literal text with any number of placeholders (names may repeat), every placeholder naming a property becomes `str` of its value and every other one is left as it is |
| VersionSort.Key | 11_libs/scripts/cli.py:498-521 | the key keeps the version text, so it never merges two versions |
| VersionSort.KeyRank | 11_libs/scripts/cli.py:498-521 | class 0 exactly for "inherited", class 1 exactly for property references, and a semantic key exactly for other versions with at least three dot parts |
| VersionSort.KeyInjective | 11_libs/scripts/cli.py:498-521 | distinct versions have distinct keys |
| VersionSort.KeyLtIrreflexive | 11_libs/scripts/cli.py:498-523 | the key order is irreflexive |
| VersionSort.KeyLtTransitive | 11_libs/scripts/cli.py:498-523 | the key order is transitive |
| VersionSort.KeyLtTotal | 11_libs/scripts/cli.py:498-523 | the order is total on keys that Python can compare |
| VersionSort.KeyLeAntisymmetric | 11_libs/scripts/cli.py:498-523 | `<=` on keys is antisymmetric |
| VersionSort.KeyLeTransitive | 11_libs/scripts/cli.py:498-523 | `<=` on keys is transitive |
| VersionSort.InsertBy | 11_libs/scripts/cli.py:523 | insertion adds exactly the one element |
| VersionSort.SortBy | 11_libs/scripts/cli.py:523 | sorting permutes its input |
| VersionSort.SortSorted | 11_libs/scripts/cli.py:523 | sorting comparable keys gives sorted output |
| VersionSort.SortedUnique | 11_libs/scripts/cli.py:523 | with an injective key, the sorted permutation is unique |
| VersionSort.SortVersionKeys | 11_libs/scripts/cli.py:487-523 | raises exactly when semantic and plain keys are mixed (Python cannot compare them); otherwise returns a sorted permutation |
| VersionSort.SortVersionKeysUnique | 11_libs/scripts/cli.py:487-523 | any sorted permutation is the result |
| VersionSort.SortedGroups | 11_libs/scripts/cli.py:487-523 | "inherited" comes first, then property references, then the rest |
| VersionSort.SortedSemanticDescending | 11_libs/scripts/cli.py:487-523 | semantic versions come in descending (major, minor, patch) order |
| DependencyMatrix.CreateDict | 11_libs/scripts/cli.py:526-579 | the two nested loops build exactly `Build(Entries(poms))` |
| DependencyMatrix.AddDependencies | 11_libs/scripts/cli.py:542-558 | one inner loop adds exactly that POM's entries |
| DependencyMatrix.DependencyEntry | 11_libs/scripts/cli.py:544-558 | a counted dependency is filed under its group, artifact, resolved version and project name |
| DependencyMatrix.AddHolds | 11_libs/scripts/cli.py:558 | after an add, the matrix holds its old entries and exactly the new one |
| DependencyMatrix.AddIdempotent | 11_libs/scripts/cli.py:558 | adding an entry twice equals adding it once (set semantics) |
| DependencyMatrix.BuildHolds | 11_libs/scripts/cli.py:526-579 | the matrix holds an entry exactly when it was listed |
| DependencyMatrix.BuildNoEmptyLevels | 11_libs/scripts/cli.py:526-579 | no group, artifact or version level is ever empty |
| DependencyMatrix.BuildOrderIndependent | 11_libs/scripts/cli.py:526-579 | the matrix depends only on which entries are listed, not on their order or repeats |
| DependencyMatrix.DepEntriesMembers | 11_libs/scripts/cli.py:542-558 | a POM contributes exactly its counted dependencies, under its own name |
| DependencyMatrix.EntriesMembers | 11_libs/scripts/cli.py:526-579 | the entries are those of each POM's dependencies and managed dependencies |
| DependencyMatrix.CreateDictHolds | 11_libs/scripts/cli.py:526-579 | the matrix lists a project under (group, artifact, version) exactly when that project declares such a dependency or managed dependency |
| DependencyMatrix.SortedList | 11_libs/scripts/cli.py:603 | `sorted(set)` lists each member once, in increasing order |
| DependencyMatrix.PrepareLevel | 11_libs/scripts/cli.py:597-627 | one level of the prepared form holds one pair per key, in sorted key order |
| DependencyMatrix.FindPrepared | 11_libs/scripts/cli.py:597-627 | looking a key up in a prepared level finds exactly its prepared value |
| DependencyMatrix.PreparedIncreasing | 11_libs/scripts/cli.py:597-627 | the keys of a prepared level are strictly increasing |
| DependencyMatrix.PrepareHolds | 11_libs/scripts/cli.py:587-627 | the prepared form lists a project under (group, artifact, version) exactly when the matrix holds it |
| JavaLang.WrapInt | 08_websocket/src/main/java/org/example/spring/websocket/websocket/FizzBuzzWebSocket.java:47 | `int` wrap-around: the result is an `int` congruent to the input mod 2^32, and an `int` input is kept |
| JavaLang.WrapLong | 10_sse/src/main/java/org/foo/sse/sse/SseService.java:69 | `long` wrap-around, in the same terms for 2^64 |
| JavaLang.JRem | 08_websocket/src/main/java/org/example/spring/websocket/websocket/FizzBuzzWebSocket.java:91 | Java's `%`: the remainder takes the sign of the dividend and is zero exactly when the divisor divides |
| JavaLang.JDiv | 10_scheduling/src/main/java/org/example/spring/scheduling/desync/DesyncUtils.java:37 | Java's `/`: |q·b| <= |a| < |q·b| + |b|, the quotient is non-negative when the signs agree and non-positive when they differ, and it is `a / b` for non-negative operands |
| JavaLang.DivUnique | 10_scheduling/src/main/java/org/example/spring/scheduling/desync/DesyncUtils.java:37 | the natural quotient is the only k with k·d <= n < k·d + d |
| JavaLang.JDivUnique | 10_scheduling/src/main/java/org/example/spring/scheduling/desync/DesyncUtils.java:37 | any q with the bracket and sign properties of `JDiv` is `JDiv`, so those properties pin truncating division down |
| JavaLang.IntToStringInjective | 08_websocket/src/main/java/org/example/spring/websocket/websocket/FizzBuzzWebSocket.java:107 | distinct `int`s print distinctly |
| JavaLang.NatToStringRoundTrip | 08_websocket/src/main/java/org/example/spring/websocket/websocket/FizzBuzzWebSocket.java:107 | reading back the decimal digits gives the number |
| JavaLang.TrimEmptyIff | 07_elasticsearch/src/main/java/org/example/spring/elasticsearch/service/ProductService.java:119 | `trim()` gives "" exactly when every char is at most a space |
| PyLang.JoinSplit | 11_libs/scripts/cli.py:498-521 | `split` loses nothing: joining its parts with the separator gives the text back |
| PyLang.StrLtTotal | 11_libs/scripts/cli.py:603 | Python's string order is total |
| PyLang.StrLtTransitive | 11_libs/scripts/cli.py:603 | Python's string order is transitive |
| PyLang.IndexOf | 11_libs/scripts/cli.py:77-82 | the first position of a char, or nothing exactly when the char is absent |

## Left out

- XML parsing, file I/O and the command line of the POM tool are not part of this model: `parse_pom` and `_get_text` (the callers of `_extract_namespace`), `print_pom`, `find_pom_files`, `process_pom`, `write_json`, the `cmd_` functions, argument parsing and `main`. A POM is an input value here.
- Cron and duration parsing (`CronExpression.parse`, `Duration.parse`) are functions supplied to `ScheduleService`; the model takes their results and does not parse.
- `Instant.now`, `LocalDateTime.now`, `TimeUtils.getTimestamp`, `ThreadLocalRandom` and `Random` draws, and thread interrupts are parameters.
- `Instant` and `Duration` arithmetic is unbounded: the `DateTimeException` or `ArithmeticException` that `Instant.plus` throws past `Instant.MAX`, and `Duration` overflow, are not modelled.
- `Thread.sleep` is recorded or returned as a duration, never waited.
- Logging is left out everywhere: messages, levels and the FizzBuzz/SSE disconnect log lines (which only log).
- Concurrency is not modelled: `ConcurrentHashMap`, `CopyOnWriteArrayList`, `AtomicInteger`/`AtomicLong` and thread pools are modelled as single-threaded fields and sequences; every call runs to completion alone.
- The FizzBuzz `AtomicInteger` counter and the SSE counters are static in the source; the model keeps them as fields of the one instance Spring creates.
- Emitter sends and websocket broadcasts are not performed; which emitters fail is an input set, and a broadcast's failure is an input.
- ScheduleService.TaskScheduler: Spring's scheduler is a small model class holding its live futures and the completed ones. What it answers for a submission (a future, null, or a rejection) is a fixed function of the submission; its timing and executor state are not modelled, and a future completes only through `Complete`.
- ScheduleService.ScheduleService.Start: an `Error` (rather than an `Exception`) thrown by the cron parser or by the scheduler would end the Java `forEach` early; the model collects it like any other failure and carries on.
- ScheduleService.CronTriggerFor: an exception counts as an IllegalArgumentException by its class name; subclasses of IllegalArgumentException are not distinguished.
- DesyncUtils.ComputeDelay: the 64-bit wrap of `splayMs + randMs / 2 + jitMs` is modelled. Two failures are not: the ArithmeticException `Duration.toMillis` throws when the window or the jitter exceeds `Long.MAX_VALUE` milliseconds, and the IllegalArgumentException of `nextLong` when `winMs + 1` or `jitBound + 1` wraps at `Long.MAX_VALUE`. The delay is stated for every window and jitter, as if neither could happen.
- PropertyResolver.Resolve: the closed-form lemma `ResolveInterleaved` covers literal text, property names and replacement values that contain no `$`. Text with a stray `$`, and a replacement that itself spells a placeholder (so a later pass would replace inside it), are covered only by `ResolveSpec` itself, not by a closed-form lemma.
- DesyncAspect, in `11_scheduling`, imports the `DesyncUtils` of its own package, which is not part of this model; the `10_scheduling` `DesyncUtils` is used in its place.
- DesyncAspect imports an `MdcUtils` of its own module, which is not part of this model; the `10_scheduling` `MdcUtils` is used in its place.
- `06_activemq`'s `Message` class is not part of this model; the `07_activemq` `Message` shape (same fields) is used.
- `10_sse`'s `EventType` is not part of this model; the `09_sse` `EventType` (same constants) is used.
- The product repository and the Elasticsearch client are left out: the find, delete and search passthroughs, and the search calls themselves. `productRepository.save` is taken to return the product it was given, unchanged; an id the repository might assign is not modelled. The two search methods return the query text they build.
- `BigDecimal` prices are carried as their `toString` text.
- Python's `str` of a float property value is carried as text; integer values are rendered in decimal.
- `isdigit` is modelled for ASCII digits only.
- `_sort_version_keys` is not called anywhere in the source; it is modelled as written anyway.
- DesyncUtils.StringHash: matches Java's `String.hashCode` only for text in the Basic Multilingual Plane, because Dafny chars are code points while Java hashes UTF-16 units.
- DesyncUtils.StringHash: its contract only bounds the range; the concrete values are pinned by `ObjectsHashOrderDependent`.
- DesyncUtils.ObjectsHash: its contract only bounds the range, for the same reason.
- ScheduleService.ScheduleService.Register: `Objects.requireNonNull` without a message throws an NPE with no message; the model does not state which of the two arguments was null.
- MessageConsumer.ProcessMessage: the text of the NPE a `switch` on null throws is not modelled.
- Documentation and code disagree in two places, and the model follows the code:
  - the splay is documented as order-independent, but `Objects.hash` is order-dependent (`ObjectsHashOrderDependent`);
  - the random term is documented as drawn from (0, window], but `nextLong(0, winMs + 1)` draws from [0, winMs].
- `RequireNonNegative`'s message contains "â‰¥", the mis-encoded "≥" that the source file holds; the model keeps the source's text.

## Findings

| source | as written | input that shows it | evidently intended | confidence | as-written member | corrected member |
|---|---|---|---|---|---|---|
| 10_scheduling/src/main/java/org/example/spring/scheduling/model/TaskStatistics.java:28-30 | `getTotalCount` returns a `long`, but adds the three `int` counters in `int` arithmetic first, so that partial sum wraps | `TaskStatistics(Integer.MAX_VALUE, Integer.MAX_VALUE, 0, 0)` totals -2 | the exact sum in `long` arithmetic | not executed | TaskStatistics.TotalCountAsWritten, TaskStatistics.TotalCountAsWrittenWraps | TaskStatistics.TotalCount, TaskStatistics.TotalCountExact |
