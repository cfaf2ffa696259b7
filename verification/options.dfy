/**
  The `WorkerOptions` configuration record. Durations are `TimeSpan` ticks of
  100 nanoseconds; both properties are freely settable, so a non-positive task
  count and a zero or negative duration are representable.
 */
module Options {
  import opened MachineInt

  /** A count of 100 ns ticks, the unit of `DateTime` and `TimeSpan`. */
  type Ticks = int

  const TicksPerSecond: int := 10_000_000

  datatype WorkerOptions = WorkerOptions(numberOfTasks: int32, maxTaskDuration: Ticks)

  /** A freshly constructed `WorkerOptions`: one task, 120 seconds. */
  function Default(): (o: WorkerOptions)
    ensures o.numberOfTasks == 1
    ensures o.maxTaskDuration == 120 * TicksPerSecond
  {
    WorkerOptions(1, 120 * TicksPerSecond)
  }

  /** How many times the spawn loop `for (i = 0; i < NumberOfTasks; i++)` runs. */
  function TaskCount(o: WorkerOptions): (n: nat)
    ensures o.numberOfTasks <= 0 ==> n == 0
    ensures o.numberOfTasks > 0 ==> n == o.numberOfTasks
  {
    if o.numberOfTasks <= 0 then 0 else o.numberOfTasks
  }

  /**
    `MaxTaskDuration / 2`: TimeSpan's division by a double rounds the quotient
    to the nearest tick, ties to the even tick.
   */
  function Half(m: Ticks): (h: Ticks)
    ensures m % 2 == 0 ==> 2 * h == m
    ensures m % 2 != 0 ==> (2 * h == m - 1 || 2 * h == m + 1) && h % 2 == 0
  {
    var q := m / 2;
    if m % 2 == 0 || q % 2 == 0 then q else q + 1
  }

  /** Under the default options a task turns Degraded after 60 seconds of silence. */
  lemma DefaultDegradedThreshold()
    ensures Half(Default().maxTaskDuration) == 60 * TicksPerSecond
  {
  }
}
