/**
 * The demonstration service of the scheduling example: four task bodies that
 * count their runs, two that count nothing, a statistics snapshot and a
 * reset. Each counter is an `AtomicInteger`, so an increment wraps at
 * Integer.MAX_VALUE. The simulated work of a task is returned as the number
 * of milliseconds it asks Thread.sleep for.
 */
module DesyncSchedulingService {
  import opened Wrappers
  import opened JavaLang
  import opened JavaTime
  import opened TaskStatistics

  /** Simulated work of the fixed-rate task for its run number. */
  function FixedRateWork(count: int): int
  {
    1000 + JRem(count, 3) * 500
  }

  /** Simulated work of the fixed-delay task for its run number. */
  function FixedDelayWork(count: int): int
  {
    800 + JRem(count, 4) * 200
  }

  /** The run numbers a counter reaches from zero give 1, 1.5 or 2 seconds, in turn. */
  lemma FixedRateWorkValues(count: int)
    requires count >= 0
    ensures FixedRateWork(count) in {1000, 1500, 2000}
    ensures FixedRateWork(count) == 1000 + (count % 3) * 500
  {
  }

  /** Past the wrap-around the remainder is negative, but the sleep never is. */
  lemma FixedRateWorkNeverNegative(count: int)
    ensures FixedRateWork(count) in {0, 500, 1000, 1500, 2000}
    ensures count < 0 && count % 3 != 0 ==> FixedRateWork(count) < 1000
  {
  }

  lemma FixedDelayWorkValues(count: int)
    requires count >= 0
    ensures 800 <= FixedDelayWork(count) <= 1400
    ensures FixedDelayWork(count) in {800, 1000, 1200, 1400}
  {
  }

  lemma FixedDelayWorkNeverNegative(count: int)
    ensures 200 <= FixedDelayWork(count) <= 1400
  {
  }

  /** The conditional task's business-hours window. */
  predicate BusinessHours(hour: int)
  {
    hour >= 9 && hour < 17
  }

  class DesyncSchedulingService {
    var taskCounter: int
    var cronTaskCounter: int
    var delayTaskCounter: int
    var desyncTaskCounter: int

    ghost predicate Valid()
      reads this
    {
      IsInt(taskCounter) && IsInt(cronTaskCounter) && IsInt(delayTaskCounter) && IsInt(desyncTaskCounter)
    }

    constructor()
      ensures Valid()
      ensures taskCounter == 0 && cronTaskCounter == 0 && delayTaskCounter == 0 && desyncTaskCounter == 0
    {
      taskCounter := 0;
      cronTaskCounter := 0;
      delayTaskCounter := 0;
      desyncTaskCounter := 0;
    }

    /** fixedRateTask: counts the run, then works for FixedRateWork(count) ms. */
    method FixedRateTask() returns (count: int, sleepMillis: int)
      requires Valid()
      modifies this
      ensures Valid()
      ensures taskCounter == WrapInt(old(taskCounter) + 1) && count == taskCounter
      ensures old(taskCounter) < INT_MAX ==> count == old(taskCounter) + 1
      ensures sleepMillis == FixedRateWork(count) && sleepMillis >= 0
      ensures cronTaskCounter == old(cronTaskCounter) && delayTaskCounter == old(delayTaskCounter)
              && desyncTaskCounter == old(desyncTaskCounter)
    {
      taskCounter := WrapInt(taskCounter + 1);
      count := taskCounter;
      FixedRateWorkNeverNegative(count);
      sleepMillis := FixedRateWork(count);
    }

    /** fixedDelayTask: counts the run, then works for FixedDelayWork(count) ms. */
    method FixedDelayTask() returns (count: int, sleepMillis: int)
      requires Valid()
      modifies this
      ensures Valid()
      ensures delayTaskCounter == WrapInt(old(delayTaskCounter) + 1) && count == delayTaskCounter
      ensures old(delayTaskCounter) < INT_MAX ==> count == old(delayTaskCounter) + 1
      ensures sleepMillis == FixedDelayWork(count) && sleepMillis > 0
      ensures taskCounter == old(taskCounter) && cronTaskCounter == old(cronTaskCounter)
              && desyncTaskCounter == old(desyncTaskCounter)
    {
      delayTaskCounter := WrapInt(delayTaskCounter + 1);
      count := delayTaskCounter;
      FixedDelayWorkNeverNegative(count);
      sleepMillis := FixedDelayWork(count);
    }

    /** cronTask: counts the run, then works for half a second. */
    method CronTask() returns (count: int, sleepMillis: int)
      requires Valid()
      modifies this
      ensures Valid()
      ensures cronTaskCounter == WrapInt(old(cronTaskCounter) + 1) && count == cronTaskCounter
      ensures old(cronTaskCounter) < INT_MAX ==> count == old(cronTaskCounter) + 1
      ensures sleepMillis == 500
      ensures taskCounter == old(taskCounter) && delayTaskCounter == old(delayTaskCounter)
              && desyncTaskCounter == old(desyncTaskCounter)
    {
      cronTaskCounter := WrapInt(cronTaskCounter + 1);
      count := cronTaskCounter;
      sleepMillis := 500;
    }

    /** highFrequencyTask: counts the run, then works for 200 ms. */
    method HighFrequencyTask() returns (count: int, sleepMillis: int)
      requires Valid()
      modifies this
      ensures Valid()
      ensures desyncTaskCounter == WrapInt(old(desyncTaskCounter) + 1) && count == desyncTaskCounter
      ensures old(desyncTaskCounter) < INT_MAX ==> count == old(desyncTaskCounter) + 1
      ensures sleepMillis == 200
      ensures taskCounter == old(taskCounter) && cronTaskCounter == old(cronTaskCounter)
              && delayTaskCounter == old(delayTaskCounter)
    {
      desyncTaskCounter := WrapInt(desyncTaskCounter + 1);
      count := desyncTaskCounter;
      sleepMillis := 200;
    }

    /** longRunningTask: works for three seconds and counts nothing. */
    method LongRunningTask() returns (sleepMillis: int)
      ensures sleepMillis == 3000
    {
      sleepMillis := 3000;
    }

    /** conditionalTask: logs the business-hours message or the skip message; counts nothing. */
    method ConditionalTask(now: LocalDateTime) returns (ranBusinessBranch: bool)
      ensures ranBusinessBranch <==> 9 <= now.hour < 17
      ensures ranBusinessBranch == BusinessHours(now.hour)
    {
      var hour := now.hour;
      if hour >= 9 && hour < 17 {
        ranBusinessBranch := true;
      } else {
        ranBusinessBranch := false;
      }
    }

    /** getTaskStatistics: the snapshot reports the high-frequency counter as asyncCount. */
    method GetTaskStatistics(now: LocalDateTime) returns (st: TaskStatistics)
      requires Valid()
      ensures st.WellTyped()
      ensures st == TaskStatistics(taskCounter, delayTaskCounter, cronTaskCounter, desyncTaskCounter, Some(now))
    {
      st := TaskStatistics(taskCounter, delayTaskCounter, cronTaskCounter, desyncTaskCounter, Some(now));
    }

    /** resetCounters: all four counters back to zero. */
    method ResetCounters()
      modifies this
      ensures Valid()
      ensures taskCounter == 0 && cronTaskCounter == 0 && delayTaskCounter == 0 && desyncTaskCounter == 0
    {
      taskCounter := 0;
      delayTaskCounter := 0;
      cronTaskCounter := 0;
      desyncTaskCounter := 0;
    }
  }

  /** After a reset, one run of each counted task is what the statistics report, totalling 4. */
  method ResetThenRunEach(svc: DesyncSchedulingService, now: LocalDateTime) returns (st: TaskStatistics)
    requires svc.Valid()
    modifies svc
    ensures st == TaskStatistics(1, 1, 1, 1, Some(now))
    ensures TotalCountAsWritten(st) == 4 && TotalCount(st) == 4
  {
    svc.ResetCounters();
    var c1, w1 := svc.FixedRateTask();
    var c2, w2 := svc.FixedDelayTask();
    var c3, w3 := svc.CronTask();
    var c4, w4 := svc.HighFrequencyTask();
    st := svc.GetTaskStatistics(now);
  }
}
