/**
 * The statistics snapshot of the scheduling example: three `int` counts, one
 * `long` count and an optional time stamp.
 */
module TaskStatistics {
  import opened Wrappers
  import opened JavaLang
  import opened JavaTime

  datatype TaskStatistics = TaskStatistics(fixedRateCount: int, fixedDelayCount: int, cronCount: int,
                                           asyncCount: int, timestamp: Option<LocalDateTime>)
  {
    /** The Java field types: three `int`s and a `long`. */
    predicate WellTyped()
    {
      IsInt(fixedRateCount) && IsInt(fixedDelayCount) && IsInt(cronCount) && IsLong(asyncCount)
    }

    /** The mathematical sum of the four counts. */
    function Sum(): int
    {
      fixedRateCount + fixedDelayCount + cronCount + asyncCount
    }
  }

  /**
   * getTotalCount as written: the three `int` counts are added in 32-bit
   * arithmetic, and only that partial sum is widened to `long`.
   */
  function TotalCountAsWritten(st: TaskStatistics): (r: int)
    requires st.WellTyped()
    ensures IsLong(r)
    ensures (&& IsInt(st.fixedRateCount + st.fixedDelayCount)
             && IsInt(st.fixedRateCount + st.fixedDelayCount + st.cronCount)
             && IsLong(st.Sum()))
            ==> r == st.Sum()
  {
    var partial := WrapInt(WrapInt(st.fixedRateCount + st.fixedDelayCount) + st.cronCount);
    WrapLong(partial + st.asyncCount)
  }

  /** Two counts at Integer.MAX_VALUE make the as-written total negative. */
  lemma TotalCountAsWrittenWraps()
    ensures var st := TaskStatistics(INT_MAX, INT_MAX, 0, 0, None);
            st.WellTyped() && st.Sum() == 2 * INT_MAX && TotalCountAsWritten(st) == -2
  {
    var st := TaskStatistics(INT_MAX, INT_MAX, 0, 0, None);
    assert WrapInt(INT_MAX + INT_MAX) == -2;
    assert WrapInt(-2 + 0) == -2;
    assert WrapLong(-2 + 0) == -2;
  }

  /** The total over `long` arithmetic throughout: the exact sum whenever that fits in a `long`. */
  function TotalCount(st: TaskStatistics): (r: int)
    requires st.WellTyped()
    ensures IsLong(r)
    ensures IsLong(st.Sum()) ==> r == st.Sum()
  {
    WrapLong(st.Sum())
  }

  /** With counts that a scheduler can reach (none negative), the corrected total never wraps. */
  lemma TotalCountExact(st: TaskStatistics)
    requires st.WellTyped()
    requires st.fixedRateCount >= 0 && st.fixedDelayCount >= 0 && st.cronCount >= 0
    requires 0 <= st.asyncCount <= LONG_MAX - 3 * INT_MAX
    ensures TotalCount(st) == st.Sum() >= 0
  {
  }

  /** Both definitions agree on all-zero counts: the total is 0. */
  lemma TotalCountZero(timestamp: Option<LocalDateTime>)
    ensures TotalCountAsWritten(TaskStatistics(0, 0, 0, 0, timestamp)) == 0
    ensures TotalCount(TaskStatistics(0, 0, 0, 0, timestamp)) == 0
  {
  }

  /** A number below 100 as two decimal digits, zero-padded. */
  function Pad2(n: nat): (s: string)
    requires n < 100
    ensures |s| == 2 && IsDigits(s) && DigitsValue(s) == n
  {
    var s := [DigitChar(n / 10), DigitChar(n % 10)];
    assert s[..1] == [DigitChar(n / 10)];
    assert s[..1][..0] == [];
    assert DigitsValue(s[..1]) == n / 10;
    s
  }

  /** getFormattedTimestamp: "HH:mm:ss", or "N/A" when there is no time stamp. */
  function FormattedTimestamp(st: TaskStatistics): (r: string)
    requires st.timestamp.Some? ==> st.timestamp.value.Valid()
    ensures r == "N/A" <==> st.timestamp.None?
    ensures st.timestamp.Some? ==>
              && |r| == 8 && r[2] == ':' && r[5] == ':'
              && IsDigits(r[0..2]) && DigitsValue(r[0..2]) == st.timestamp.value.hour
              && IsDigits(r[3..5]) && DigitsValue(r[3..5]) == st.timestamp.value.minute
              && IsDigits(r[6..8]) && DigitsValue(r[6..8]) == st.timestamp.value.second
  {
    match st.timestamp
    case None => "N/A"
    case Some(t) =>
      var hh, mm, ss := Pad2(t.hour), Pad2(t.minute), Pad2(t.second);
      var r := hh + ":" + mm + ":" + ss;
      assert r[0..2] == hh && r[3..5] == mm && r[6..8] == ss;
      r
  }
}
