/**
  The health scan looks a task's timestamp up under its runtime `Task.Id`,
  while the spawn loop and the activity update store timestamps under the
  counter id the task was started with. Unless the two ids coincide, a task's
  staleness is never seen. This module shows the discrepancy on a concrete
  scenario and defines the intended scan: the task at position `i` of the
  list was started with counter id `i + 1` (`SpawnNextPairsPositionWithId`,
  `ExecutePairsPositionWithId`), and that is the key it is judged by.
 */
module KeyMismatch {
  import opened MachineInt
  import opened Options
  import opened Health
  import opened Monitorable

  /** The tasks, each carrying the counter id it was started with instead of its runtime id. */
  function Relabel(tasks: seq<TaskRecord>): (r: seq<TaskRecord>)
    requires |tasks| <= MAX
    ensures |r| == |tasks|
    ensures forall i :: 0 <= i < |r| ==> r[i].id == i + 1 && r[i].status == tasks[i].status
  {
    seq(|tasks|, i requires 0 <= i < |tasks| => TaskRecord(i + 1, tasks[i].status))
  }

  /** The intended health scan: the same loop, judging each task by its own counter id. */
  function CorrectedMonitorHealth(s: Service, now: Ticks): (r: HealthStatus)
    requires |s.tasks| <= MAX
    ensures r == Worst(Relabel(s.tasks), s.taskLastExecution, now, s.options.maxTaskDuration)
  {
    Scan(Relabel(s.tasks), s.taskLastExecution, now, s.options.maxTaskDuration, Healthy)
  }

  /** In tracked bookkeeping every task has a timestamp under its counter id. */
  lemma EveryTaskIsTracked(s: Service)
    requires Tracked(s)
    ensures forall k: int32 :: 1 <= k <= |s.tasks| ==> k in s.taskLastExecution
  {
    NewIdsRange(0, s.taskCounter);
  }

  /** Task `i` faulted or was canceled, or its own timestamp is more than `MaxTaskDuration` old. */
  predicate FailingAt(s: Service, now: Ticks, i: int) {
    && 0 <= i < |s.tasks|
    && (|| Abnormal(s.tasks[i])
        || (i + 1 in s.taskLastExecution && now - s.taskLastExecution[i + 1] > s.options.maxTaskDuration))
  }

  /**
    The corrected scan is Unhealthy exactly when some task faulted or was
    canceled, or some task's own timestamp is more than `MaxTaskDuration` old.
   */
  lemma CorrectedUnhealthyIff(s: Service, now: Ticks)
    requires Tracked(s)
    ensures CorrectedMonitorHealth(s, now) == Unhealthy <==> exists i :: FailingAt(s, now, i)
  {
    var t, last, max := Relabel(s.tasks), s.taskLastExecution, s.options.maxTaskDuration;
    WorstUnhealthyIff(t, last, now, max);
    if CorrectedMonitorHealth(s, now) == Unhealthy {
      var i :| 0 <= i < |t| && (Abnormal(t[i]) || Overdue(t[i], last, now, max));
      assert FailingAt(s, now, i);
    }
    if exists i :: FailingAt(s, now, i) {
      var i :| FailingAt(s, now, i);
      assert Abnormal(t[i]) || Overdue(t[i], last, now, max);
    }
  }

  /**
    Reporting activity resets a task's staleness clock: right after task `i`
    reports at `t0`, and for as long as at most half of `MaxTaskDuration` has
    passed, the corrected scan finds nothing wrong with that task.
   */
  lemma ActivityResetsStaleness(s: Service, i: nat, t0: Ticks, now: Ticks)
    requires Tracked(s) && i < |s.tasks|
    requires t0 <= now && now - t0 <= Half(s.options.maxTaskDuration) && now - t0 <= s.options.maxTaskDuration
    ensures var r := UpdateTaskExecutionTime(s, i + 1, t0);
      Severity(Relabel(r.tasks)[i], r.taskLastExecution, now, r.options.maxTaskDuration) ==
        (if Abnormal(s.tasks[i]) then Unhealthy else Healthy)
  {
  }

  /**
    As written, a service whose runtime task ids carry no timestamp is judged
    on task status alone: it is Healthy at any time unless a task faulted or
    was canceled, however long ago the tasks last reported.
   */
  lemma AsWrittenIgnoresStaleness(s: Service, now: Ticks)
    requires forall i :: 0 <= i < |s.tasks| ==> s.tasks[i].id !in s.taskLastExecution
    ensures MonitorHealth(s, now) == Healthy <==> forall i :: 0 <= i < |s.tasks| ==> !Abnormal(s.tasks[i])
  {
    MonitorHealthUnhealthyIff(s, now);
    MonitorHealthDegradedIff(s, now);
  }

  /** Two workers, at most two seconds each, started at time 0 with runtime ids `r1` and `r2`. */
  function ScenarioStart(r1: int32, r2: int32): (s: Service)
    ensures Tracked(s) && s.taskLastExecution == map[1 := 0, 2 := 0]
    ensures s.tasks == [TaskRecord(r1, Other), TaskRecord(r2, Other)]
    ensures s.options.maxTaskDuration == 2 * TicksPerSecond
  {
    var s0 := Create(WorkerOptions(2, 2 * TicksPerSecond));
    IdsNeverReused(s0, [TaskRecord(r1, Other), TaskRecord(r2, Other)], 0);
    ExecuteAsync(s0, [TaskRecord(r1, Other), TaskRecord(r2, Other)], 0)
  }

  /**
    Worker 1 reports activity every half second, worker 2 never does. With the
    corrected scan the service is Healthy at 1 s, Degraded at 1.1 s (worker 2
    is past half the limit) and Unhealthy at 2.1 s (past the limit). As
    written, with runtime ids other than 1 and 2, it is Healthy throughout.
   */
  lemma TwoWorkerScenario(r1: int32, r2: int32)
    requires r1 !in {1, 2} && r2 !in {1, 2}
    ensures var s := ScenarioStart(r1, r2);
      var at1 := UpdateTaskExecutionTime(UpdateTaskExecutionTime(s, 1, 5_000_000), 1, 10_000_000);
      var at2 := UpdateTaskExecutionTime(at1, 1, 20_000_000);
      && CorrectedMonitorHealth(at1, 10_000_000) == Healthy
      && CorrectedMonitorHealth(at1, 11_000_000) == Degraded
      && CorrectedMonitorHealth(at2, 21_000_000) == Unhealthy
      && MonitorHealth(at1, 11_000_000) == Healthy
      && MonitorHealth(at2, 21_000_000) == Healthy
  {
    var s := ScenarioStart(r1, r2);
    var at1 := UpdateTaskExecutionTime(UpdateTaskExecutionTime(s, 1, 5_000_000), 1, 10_000_000);
    var at2 := UpdateTaskExecutionTime(at1, 1, 20_000_000);
    assert at1.taskLastExecution == map[1 := 10_000_000, 2 := 0];
    assert at2.taskLastExecution == map[1 := 20_000_000, 2 := 0];
    var t := Relabel(s.tasks);
    assert t == [TaskRecord(1, Other), TaskRecord(2, Other)];
    assert t[1..] == [TaskRecord(2, Other)];
    assert t[1..][1..] == [];
    assert s.tasks[1..] == [TaskRecord(r2, Other)];
    assert s.tasks[1..][1..] == [];
    var max := 2 * TicksPerSecond;
    assert Half(max) == TicksPerSecond;
    assert Severity(t[0], at1.taskLastExecution, 10_000_000, max) == Healthy;
    assert Severity(t[1], at1.taskLastExecution, 10_000_000, max) == Healthy;
    assert Severity(t[0], at1.taskLastExecution, 11_000_000, max) == Healthy;
    assert Severity(t[1], at1.taskLastExecution, 11_000_000, max) == Degraded;
    assert Severity(t[1], at2.taskLastExecution, 21_000_000, max) == Unhealthy;
    AsWrittenIgnoresStaleness(at1, 11_000_000);
    AsWrittenIgnoresStaleness(at2, 21_000_000);
    assert Worst(t[1..], at1.taskLastExecution, 10_000_000, max) == Healthy;
  }
}
