/**
 * DesyncAspect: around every method annotated with @Desync, compute the
 * DesyncUtils delay, sleep for it, then proceed with the method, all inside
 * MdcUtils.withMdc with the context {"jobId": key}.
 *
 * The aspect is a class whose state is the record of what the current thread
 * did (`steps`) and the thread's interrupt flag. The results of
 * Duration.parse on the annotation's strings, the random draws, whether an
 * interrupt arrives while sleeping, and the target method's outcome are
 * parameters.
 */
module DesyncAspect {
  import opened Wrappers
  import opened JavaLang
  import opened JavaTime
  import opened DesyncUtils
  import opened MdcUtils

  const TARGET_FAILURE: string := "Error executing desync task"

  /** One observable step of a call to around. */
  datatype Step =
    | DelayComputed(delay: Duration)
    | Slept(millis: int, cutShort: bool)
    | Proceeded

  /** The sleep helper returns at once for null, zero and negative durations. */
  predicate SleepSkipped(d: Option<Duration>)
  {
    d.None? || d.value.IsZero() || d.value.IsNegative()
  }

  /** pjp.proceed() inside `catch (Throwable t) { throw new RuntimeException(..., t); }`. */
  function Proceed<T>(target: Result<T, Throwable>): (r: Result<T, Throwable>)
    ensures target.Ok? ==> r == target
    ensures target.Err? ==> r == Err(RuntimeException(TARGET_FAILURE, target.error))
  {
    if target.Ok? then target else Err(RuntimeException(TARGET_FAILURE, target.error))
  }

  /** What around returns or throws, given the two parse results and the target's outcome. */
  function AroundResult<T>(key: string, window: Result<Duration, Throwable>, jitter: Result<Duration, Throwable>,
                           target: Result<T, Throwable>): (r: Result<T, Throwable>)
  {
    if window.Err? then Err(window.error)
    else if jitter.Err? then Err(jitter.error)
    else WithMdc(map["jobId" := key], Proceed(target))
  }

  /**
   * The target's value comes back unchanged; any failure of the target,
   * Exception or Error alike, comes back wrapped twice: first by the aspect,
   * then by withMdc. Parse failures leave before withMdc and are not wrapped.
   */
  lemma AroundOutcomes<T>(key: string, window: Result<Duration, Throwable>, jitter: Result<Duration, Throwable>,
                          target: Result<T, Throwable>)
    ensures window.Err? ==> AroundResult(key, window, jitter, target) == Err(window.error)
    ensures window.Ok? && jitter.Err? ==> AroundResult(key, window, jitter, target) == Err(jitter.error)
    ensures window.Ok? && jitter.Ok? && target.Ok? ==> AroundResult(key, window, jitter, target) == target
    ensures window.Ok? && jitter.Ok? && target.Err? ==>
              AroundResult(key, window, jitter, target)
              == Err(RuntimeException(SUPPLIER_FAILURE, RuntimeException(TARGET_FAILURE, target.error)))
  {
  }

  /** The steps of a run whose parses succeeded, for the computed delay. */
  function AroundSteps(delay: Duration, cutShort: bool): seq<Step>
  {
    [DelayComputed(delay)]
    + (if SleepSkipped(Some(delay)) then [] else [Slept(delay.ToMillis(), cutShort)])
    + [Proceeded]
  }

  /**
   * The method runs exactly once, after sleeping exactly the computed delay
   * (no sleep when it is zero), and that sleep never exceeds the window.
   */
  lemma AroundStepsShape(key: string, appName: string, host: string, window: Duration, jitter: Duration,
                         rand: int, jit: int, cutShort: bool)
    ensures var d := ComputeDelay(Some(key), Some(appName), Some(host), window, jitter, rand, jit);
            var s := AroundSteps(d, cutShort);
            && s[|s| - 1] == Proceeded
            && (forall i | 0 <= i < |s| - 1 :: !s[i].Proceeded?)
            && (d.ToMillis() == 0 <==> |s| == 2)
            && (forall i | 0 <= i < |s| && s[i].Slept? :: 0 < s[i].millis <= WindowMillis(window))
  {
  }

  class DesyncAspect {
    /** ${spring.application.name:app} */
    const appName: string
    /** ${HOSTNAME:unknown} */
    const host: string
    /** What this thread has done so far. */
    var steps: seq<Step>
    /** The thread's interrupt flag. */
    var interrupted: bool

    /** The properties are taken as configured, or fall back to "app" and "unknown". */
    constructor(appNameProperty: Option<string>, hostProperty: Option<string>)
      ensures appName == (if appNameProperty.Some? then appNameProperty.value else "app")
      ensures host == (if hostProperty.Some? then hostProperty.value else "unknown")
      ensures steps == [] && !interrupted
    {
      appName := if appNameProperty.Some? then appNameProperty.value else "app";
      host := if hostProperty.Some? then hostProperty.value else "unknown";
      steps := [];
      interrupted := false;
    }

    /**
     * The sleep helper. A sleep that is interrupted (or starts with the flag
     * already set) ends early and leaves the flag set; nothing is thrown.
     */
    method Sleep(d: Option<Duration>, interruptArrives: bool)
      modifies this
      ensures SleepSkipped(d) ==> steps == old(steps) && interrupted == old(interrupted)
      ensures !SleepSkipped(d) ==>
                && steps == old(steps) + [Slept(d.value.ToMillis(), old(interrupted) || interruptArrives)]
                && interrupted == (old(interrupted) || interruptArrives)
    {
      if d.None? || d.value.IsZero() || d.value.IsNegative() {
        return;
      }
      var cutShort := interrupted || interruptArrives;
      steps := steps + [Slept(d.value.ToMillis(), cutShort)];
      if cutShort {
        interrupted := true;
      }
    }

    /**
     * around. `window` and `jitter` are the outcomes of Duration.parse on the
     * annotation's strings; `target` is the outcome of pjp.proceed().
     */
    method Around<T>(key: string, window: Result<Duration, Throwable>, jitter: Result<Duration, Throwable>,
                     rand: int, jit: int, interruptArrives: bool, target: Result<T, Throwable>)
      returns (r: Result<T, Throwable>)
      modifies this
      ensures r == AroundResult(key, window, jitter, target)
      ensures (window.Err? || jitter.Err?) ==> steps == old(steps) && interrupted == old(interrupted)
      ensures window.Ok? && jitter.Ok? ==>
                var d := ComputeDelay(Some(key), Some(appName), Some(host), window.value, jitter.value, rand, jit);
                && steps == old(steps) + AroundSteps(d, old(interrupted) || interruptArrives)
                && interrupted == (old(interrupted) || (!SleepSkipped(Some(d)) && interruptArrives))
    {
      if window.Err? {
        return Err(window.error);
      }
      if jitter.Err? {
        return Err(jitter.error);
      }
      var delay := ComputeDelay(Some(key), Some(appName), Some(host), window.value, jitter.value, rand, jit);
      steps := steps + [DelayComputed(delay)];
      Sleep(Some(delay), interruptArrives);
      steps := steps + [Proceeded];
      r := WithMdc(map["jobId" := key], Proceed(target));
    }
  }
}
