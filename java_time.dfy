/**
 * java.time values as exact nanosecond counts. Duration stores seconds and
 * nanos separately; its total nanosecond value is what every operation used
 * here depends on.
 */
module JavaTime {
  import opened JavaLang

  const NANOS_PER_MILLI: int := 1_000_000
  const NANOS_PER_SECOND: int := 1_000_000_000

  datatype Duration = Duration(nanos: int)
  {
    /** Duration.toMillis(): whole milliseconds, truncated toward zero. */
    function ToMillis(): int { JDiv(nanos, NANOS_PER_MILLI) }

    predicate IsZero() { nanos == 0 }

    predicate IsNegative() { nanos < 0 }
  }

  function OfMillis(ms: int): (d: Duration)
    ensures d.ToMillis() == ms
    ensures d.IsZero() <==> ms == 0
    ensures d.IsNegative() <==> ms < 0
  {
    Duration(ms * NANOS_PER_MILLI)
  }

  function OfSeconds(s: int): (d: Duration)
    ensures d.ToMillis() == s * 1000
  {
    Duration(s * NANOS_PER_SECOND)
  }

  /** An instant on the time line, in nanoseconds since the epoch. */
  datatype Instant = Instant(nanos: int)
  {
    function Plus(d: Duration): Instant { Instant(nanos + d.nanos) }

    predicate IsAfter(other: Instant) { nanos > other.nanos }
  }

  /** A local date-time; only the time-of-day fields are read by the models. */
  datatype LocalDateTime = LocalDateTime(year: int, month: int, day: int, hour: int, minute: int, second: int, nano: int)
  {
    ghost predicate Valid()
    {
      1 <= month <= 12 && 1 <= day <= 31 && 0 <= hour < 24 && 0 <= minute < 60 && 0 <= second < 60
      && 0 <= nano < NANOS_PER_SECOND
    }
  }
}
