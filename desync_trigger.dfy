/**
 * DesyncTrigger: a Trigger decorator that moves each firing of its delegate
 * forward by DesyncUtils.computeDelay, keeps the result in the future, and
 * optionally schedules a log task at the undelayed boundary.
 *
 * The trigger's fields are final, so it is a value. A field the source may
 * leave null is an Option. The delegate's own answer, the clock and the two
 * random draws are parameters of NextExecution.
 */
module DesyncTrigger {
  import opened Wrappers
  import opened JavaLang
  import opened JavaTime
  import opened DesyncUtils

  /** The trigger being decorated. */
  datatype TriggerRef = CronTrigger(expression: string, zone: string) | OtherTrigger(name: string)

  datatype DesyncTrigger = DesyncTrigger(
    delegate: Option<TriggerRef>,
    hasPrelogScheduler: bool,
    key: Option<string>,
    appName: Option<string>,
    host: Option<string>,
    window: Option<Duration>,
    jitter: Option<Duration>)

  const DEFAULT_WINDOW: Duration := OfSeconds(7 * 60)
  const DEFAULT_JITTER: Duration := OfSeconds(20)
  const MIN_FALLBACK_SKEW: Duration := OfMillis(250)

  /** Objects.requireNonNull(o, name). */
  function RequireNonNull<T>(o: Option<T>, name: string): (r: Result<T, Throwable>)
    ensures r.Ok? <==> o.Some?
    ensures r.Ok? ==> r.value == o.value
    ensures r.Err? ==> r.error == NullPointerException(Some(name))
  {
    if o.None? then Err(NullPointerException(Some(name))) else Ok(o.value)
  }

  /** requirePositive: null, zero and negative durations are rejected, in that order of checks. */
  function RequirePositive(d: Option<Duration>, name: string): (r: Result<Duration, Throwable>)
    ensures r.Ok? <==> d.Some? && d.value.nanos > 0
    ensures r.Ok? ==> r.value == d.value
    ensures d.None? ==> r == Err(NullPointerException(Some(name)))
    ensures d.Some? && d.value.nanos <= 0 ==> r == Err(IllegalArgumentException(name + " must be > PT0S", None))
  {
    if d.None? then Err(NullPointerException(Some(name)))
    else if d.value.IsZero() || d.value.IsNegative() then Err(IllegalArgumentException(name + " must be > PT0S", None))
    else Ok(d.value)
  }

  /** requireNonNegative: null and negative durations are rejected; zero is accepted. */
  function RequireNonNegative(d: Option<Duration>, name: string): (r: Result<Duration, Throwable>)
    ensures r.Ok? <==> d.Some? && d.value.nanos >= 0
    ensures r.Ok? ==> r.value == d.value
    ensures d.None? ==> r == Err(NullPointerException(Some(name)))
    ensures d.Some? && d.value.nanos < 0
            ==> r == Err(IllegalArgumentException(name + " must be \U{00E2}\U{2030}\U{00A5} PT0S", None))
  {
    if d.None? then Err(NullPointerException(Some(name)))
    else if d.value.IsNegative() then Err(IllegalArgumentException(name + " must be \U{00E2}\U{2030}\U{00A5} PT0S", None))
    else Ok(d.value)
  }

  /** The configuration afterPropertiesSet accepts. Empty strings pass: only null is refused. */
  predicate WellFormed(t: DesyncTrigger)
  {
    && t.delegate.Some? && t.key.Some? && t.appName.Some? && t.host.Some?
    && t.window.Some? && t.window.value.nanos > 0
    && t.jitter.Some? && t.jitter.value.nanos >= 0
  }

  /** afterPropertiesSet: None when the trigger is usable, otherwise the first failed check's exception. */
  function AfterPropertiesSet(t: DesyncTrigger): (r: Option<Throwable>)
    ensures r.None? <==> WellFormed(t)
    ensures t.delegate.None? ==> r == Some(NullPointerException(Some("delegate")))
    ensures t.delegate.Some? && t.key.None? ==> r == Some(NullPointerException(Some("key")))
    ensures t.delegate.Some? && t.key.Some? && t.appName.None? ==> r == Some(NullPointerException(Some("appName")))
    ensures t.delegate.Some? && t.key.Some? && t.appName.Some? && t.host.None?
            ==> r == Some(NullPointerException(Some("host")))
    ensures t.delegate.Some? && t.key.Some? && t.appName.Some? && t.host.Some? && t.window.None?
            ==> r == Some(NullPointerException(Some("window")))
    ensures t.delegate.Some? && t.key.Some? && t.appName.Some? && t.host.Some?
            && t.window.Some? && t.window.value.nanos <= 0
            ==> r == Some(IllegalArgumentException("window must be > PT0S", None))
    ensures t.delegate.Some? && t.key.Some? && t.appName.Some? && t.host.Some?
            && t.window.Some? && t.window.value.nanos > 0 && t.jitter.None?
            ==> r == Some(NullPointerException(Some("jitter")))
    ensures t.delegate.Some? && t.key.Some? && t.appName.Some? && t.host.Some?
            && t.window.Some? && t.window.value.nanos > 0 && t.jitter.Some? && t.jitter.value.nanos < 0
            ==> r == Some(IllegalArgumentException("jitter must be \U{00E2}\U{2030}\U{00A5} PT0S", None))
  {
    assert "window" + " must be > PT0S" == "window must be > PT0S";
    assert "jitter" + " must be \U{00E2}\U{2030}\U{00A5} PT0S" == "jitter must be \U{00E2}\U{2030}\U{00A5} PT0S";
    if t.delegate.None? then Some(NullPointerException(Some("delegate")))
    else if t.key.None? then Some(NullPointerException(Some("key")))
    else if t.appName.None? then Some(NullPointerException(Some("appName")))
    else if t.host.None? then Some(NullPointerException(Some("host")))
    else if RequirePositive(t.window, "window").Err? then Some(RequirePositive(t.window, "window").error)
    else if RequireNonNegative(t.jitter, "jitter").Err? then Some(RequireNonNegative(t.jitter, "jitter").error)
    else None
  }

  /**
   * computeShift: base + delay when that is still in the future, otherwise now
   * plus the delay (or plus 250 ms when the delay is zero). For a non-negative
   * delay the result is in the future and never earlier than base + delay.
   */
  function ComputeShift(base: Instant, now: Instant, delay: Duration): (r: Instant)
    ensures base.Plus(delay).IsAfter(now) ==> r == base.Plus(delay)
    ensures !base.Plus(delay).IsAfter(now) && delay.IsZero() ==> r == now.Plus(MIN_FALLBACK_SKEW)
    ensures !base.Plus(delay).IsAfter(now) && !delay.IsZero() ==> r == now.Plus(delay)
    ensures !delay.IsNegative() ==> r.IsAfter(now) && r.nanos >= base.nanos + delay.nanos
  {
    var candidate := base.Plus(delay);
    if candidate.IsAfter(now) then candidate
    else
      var minSkew := if delay.IsZero() then MIN_FALLBACK_SKEW else delay;
      now.Plus(minSkew)
  }

  /** What one nextExecution call does besides returning. */
  datatype Event =
    | ClockRead(now: Instant)
    | DelayComputed(delay: Duration)
    | PrelogScheduled(at: Instant)

  datatype Firing = Firing(events: seq<Event>, outcome: Result<Option<Instant>, Throwable>)

  /** The delay computeDelay yields for this trigger's fields. */
  function TriggerDelay(t: DesyncTrigger, rand: int, jit: int): (d: Duration)
    requires t.window.Some? && t.jitter.Some?
    ensures 0 <= d.ToMillis() <= WindowMillis(t.window.value)
  {
    ComputeDelay(t.key, t.appName, t.host, t.window.value, t.jitter.value, rand, jit)
  }

  /**
   * Trigger.nextExecution. `delegateNext` is what the delegate answered (None
   * when it has no further firing), `now` is Instant.now(), and rand and jit
   * are the draws made inside computeDelay.
   */
  function NextExecution(t: DesyncTrigger, delegateNext: Option<Instant>, now: Instant, rand: int, jit: int): (f: Firing)
    ensures t.delegate.None? ==> f == Firing([], Err(NullPointerException(None)))
    ensures t.delegate.Some? && delegateNext.None? ==> f == Firing([], Ok(None))
    ensures t.delegate.Some? && delegateNext.Some? && (t.window.None? || t.jitter.None?) ==>
              f == Firing([ClockRead(now)], Err(NullPointerException(None)))
    ensures t.delegate.Some? && delegateNext.Some? && t.window.Some? && t.jitter.Some? ==>
              && f.outcome == Ok(Some(ComputeShift(delegateNext.value, now, TriggerDelay(t, rand, jit))))
              && |f.events| >= 2 && f.events[0] == ClockRead(now) && f.events[1] == DelayComputed(TriggerDelay(t, rand, jit))
    ensures f.outcome.Ok? && f.outcome.value.Some? ==>
              && delegateNext.Some? && t.window.Some? && t.jitter.Some?
              && f.outcome.value.value.IsAfter(now)
              && f.outcome.value.value == ComputeShift(delegateNext.value, now, TriggerDelay(t, rand, jit))
    ensures f.outcome.Ok? && f.outcome.value.Some? ==>
              (PrelogScheduled(delegateNext.value) in f.events
               <==> t.hasPrelogScheduler && delegateNext.value.IsAfter(now))
    ensures forall e | e in f.events && e.PrelogScheduled? :: delegateNext.Some? && e.at == delegateNext.value
  {
    if t.delegate.None? then Firing([], Err(NullPointerException(None)))
    else if delegateNext.None? then Firing([], Ok(None))
    else
      var base := delegateNext.value;
      if t.window.None? || t.jitter.None? then Firing([ClockRead(now)], Err(NullPointerException(None)))
      else
        var delay := TriggerDelay(t, rand, jit);
        var shifted := ComputeShift(base, now, delay);
        var prelog := if t.hasPrelogScheduler && base.IsAfter(now) then [PrelogScheduled(base)] else [];
        Firing([ClockRead(now), DelayComputed(delay)] + prelog, Ok(Some(shifted)))
  }

  /**
   * A trigger that passed afterPropertiesSet never fails: every firing of the
   * delegate becomes one in the future, delayed by at most the window.
   */
  lemma WellFormedFiresInFuture(t: DesyncTrigger, base: Instant, now: Instant, rand: int, jit: int)
    requires AfterPropertiesSet(t).None?
    ensures var f := NextExecution(t, Some(base), now, rand, jit);
            && f.outcome.Ok? && f.outcome.value.Some?
            && f.outcome.value.value.IsAfter(now)
            && f.outcome.value.value.nanos >= base.nanos
            && (base.Plus(TriggerDelay(t, rand, jit)).IsAfter(now) ==>
                  f.outcome.value.value.nanos - base.nanos <= WindowMillis(t.window.value) * NANOS_PER_MILLI)
  {
    var d := TriggerDelay(t, rand, jit);
    assert d == OfMillis(d.ToMillis());
  }

  /** The seven-argument wrap: builds the trigger as given, without validating it. */
  function Wrap(delegate: Option<TriggerRef>, hasPrelogScheduler: bool, key: Option<string>, appName: Option<string>,
                host: Option<string>, window: Option<Duration>, jitter: Option<Duration>): DesyncTrigger
  {
    DesyncTrigger(delegate, hasPrelogScheduler, key, appName, host, window, jitter)
  }

  /** The five-argument wrap: a seven-minute window with twenty seconds of jitter. */
  function WrapWithDefaults(delegate: Option<TriggerRef>, hasPrelogScheduler: bool, key: Option<string>,
                            appName: Option<string>, host: Option<string>): (t: DesyncTrigger)
    ensures t.window == Some(DEFAULT_WINDOW) && t.window.value.ToMillis() == 420_000
    ensures t.jitter == Some(DEFAULT_JITTER) && t.jitter.value.ToMillis() == 20_000
    ensures t.delegate == delegate && t.key == key && t.appName == appName && t.host == host
  {
    Wrap(delegate, hasPrelogScheduler, key, appName, host, Some(DEFAULT_WINDOW), Some(DEFAULT_JITTER))
  }

  /**
   * wrap never validates: a trigger with a zero window is built, refused by
   * afterPropertiesSet, and still fires, with a window of 1 ms.
   */
  lemma WrapAcceptsZeroWindow(base: Instant, now: Instant)
    ensures var t := Wrap(Some(OtherTrigger("t")), false, Some("k"), Some("a"), Some("h"), Some(Duration(0)), Some(Duration(0)));
            && AfterPropertiesSet(t) == Some(IllegalArgumentException("window must be > PT0S", None))
            && NextExecution(t, Some(base), now, 0, 0).outcome.Ok?
  {
    var t := Wrap(Some(OtherTrigger("t")), false, Some("k"), Some("a"), Some("h"), Some(Duration(0)), Some(Duration(0)));
    assert RequirePositive(t.window, "window").Err?;
    assert "window" + " must be > PT0S" == "window must be > PT0S";
  }
}
