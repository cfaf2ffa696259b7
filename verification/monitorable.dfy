/**
  The supervision bookkeeping of `MonitorableBackgroundService`: a counter of
  spawned workers, the list of started tasks, the last-activity table keyed by
  the counter id, and the options. Every operation is a pure transition on an
  immutable `Service` value; the clock is an explicit `now` parameter and the
  runtime's answer to `Task.Run` (its task id and status) is given data.
 */
module Monitorable {
  import opened MachineInt
  import opened Options
  import opened Health

  /** The `TaskStatus` values the health scan distinguishes. */
  datatype TaskStatus = Other | RanToCompletion | Faulted | Canceled

  /**
    A started task as the runtime reports it. `id` is the runtime-assigned
    `Task.Id`, which is unrelated to the counter id the task was started with.
   */
  datatype TaskRecord = TaskRecord(id: int32, status: TaskStatus)

  datatype Service = Service(
    taskCounter: int32,
    tasks: seq<TaskRecord>,
    taskLastExecution: map<int32, Ticks>,
    options: WorkerOptions)

  /** The ids `c+1, …, c+n` handed out by `n` wrapping increments of a counter at `c`. */
  function NewIds(c: int32, n: nat): set<int32>
    decreases n
  {
    if n == 0 then {} else {Increment(c)} + NewIds(Increment(c), n - 1)
  }

  /** Without overflow the new ids are exactly the integers after `c` up to `c + n`. */
  lemma {:induction false} NewIdsRange(c: int32, n: nat)
    requires c + n <= MAX
    ensures forall k: int32 :: k in NewIds(c, n) <==> c < k <= c + n
    decreases n
  {
    if n > 0 {
      NewIdsRange(c + 1, n - 1);
    }
  }

  /**
    The bookkeeping of a service whose counter has never wrapped: one task per
    id handed out, and a timestamp for exactly the ids `1..taskCounter`.
   */
  predicate Tracked(s: Service) {
    && 0 <= s.taskCounter
    && |s.tasks| == s.taskCounter
    && s.taskLastExecution.Keys == NewIds(0, s.taskCounter)
  }

  /** A service as constructed, before `ExecuteAsync` runs. */
  function Create(options: WorkerOptions): (s: Service)
    ensures Tracked(s)
    ensures s.tasks == [] && s.options == options
  {
    Service(0, [], map[], options)
  }

  // ---------------------------------------------------------------------------
  // Health scan
  // ---------------------------------------------------------------------------

  /** A task that ended in a fault or a cancellation. */
  predicate Abnormal(t: TaskRecord) {
    t.status == Faulted || t.status == Canceled
  }

  /** `t`'s key has a timestamp older than `max` ticks. */
  predicate Overdue(t: TaskRecord, last: map<int32, Ticks>, now: Ticks, max: Ticks) {
    t.id in last && now - last[t.id] > max
  }

  /** `t`'s key has a timestamp older than half of `max` ticks but not older than `max`. */
  predicate Lagging(t: TaskRecord, last: map<int32, Ticks>, now: Ticks, max: Ticks) {
    t.id in last && Half(max) < now - last[t.id] <= max
  }

  /** The verdict one task deserves on its own. */
  function Severity(t: TaskRecord, last: map<int32, Ticks>, now: Ticks, max: Ticks): HealthStatus {
    if Abnormal(t) || Overdue(t, last, now, max) then Unhealthy
    else if Lagging(t, last, now, max) then Degraded
    else Healthy
  }

  /** The reference verdict: the most severe per-task verdict over the whole list. */
  function Worst(tasks: seq<TaskRecord>, last: map<int32, Ticks>, now: Ticks, max: Ticks): HealthStatus
    decreases |tasks|
  {
    if |tasks| == 0 then Healthy
    else Worse(Severity(tasks[0], last, now, max), Worst(tasks[1..], last, now, max))
  }

  /** One pass of the scan loop's body, with `acc` the verdict so far. */
  function Step(t: TaskRecord, last: map<int32, Ticks>, now: Ticks, max: Ticks, acc: HealthStatus): HealthStatus {
    match t.status
    case Faulted => Unhealthy
    case Canceled => Unhealthy
    case _ =>
      if t.id in last then
        var age := now - last[t.id];
        if age > max then Unhealthy
        else if age > Half(max) then (if acc != Unhealthy then Degraded else acc)
        else acc
      else acc
  }

  /** A loop step never lowers the verdict: it is the worse of `acc` and the task's own verdict. */
  lemma StepIsWorse(t: TaskRecord, last: map<int32, Ticks>, now: Ticks, max: Ticks, acc: HealthStatus)
    ensures Step(t, last, now, max, acc) == Worse(acc, Severity(t, last, now, max))
  {
  }

  /**
    The scan loop from some point on: examine the tasks in order and stop as
    soon as the verdict is Unhealthy. Whatever the verdict so far, the result
    is the same as scanning every remaining task.
   */
  function Scan(tasks: seq<TaskRecord>, last: map<int32, Ticks>, now: Ticks, max: Ticks, acc: HealthStatus): (r: HealthStatus)
    ensures r == Worse(acc, Worst(tasks, last, now, max))
    decreases |tasks|
  {
    if |tasks| == 0 then acc
    else
      var next := Step(tasks[0], last, now, max, acc);
      StepIsWorse(tasks[0], last, now, max, acc);
      if next == Unhealthy then next
      else Scan(tasks[1..], last, now, max, next)
  }

  /**
    `MonitorHealth`: scan the tasks with the current time. The early exit does
    not change the verdict: it is the maximum per-task severity.
   */
  function MonitorHealth(s: Service, now: Ticks): (r: HealthStatus)
    ensures r == Worst(s.tasks, s.taskLastExecution, now, s.options.maxTaskDuration)
  {
    Scan(s.tasks, s.taskLastExecution, now, s.options.maxTaskDuration, Healthy)
  }

  lemma {:induction false} WorstUnhealthyIff(tasks: seq<TaskRecord>, last: map<int32, Ticks>, now: Ticks, max: Ticks)
    ensures Worst(tasks, last, now, max) == Unhealthy <==>
      exists i :: 0 <= i < |tasks| && (Abnormal(tasks[i]) || Overdue(tasks[i], last, now, max))
    decreases |tasks|
  {
    if |tasks| > 0 {
      WorstUnhealthyIff(tasks[1..], last, now, max);
      if Worst(tasks, last, now, max) == Unhealthy && Severity(tasks[0], last, now, max) != Unhealthy {
        var i :| 0 <= i < |tasks[1..]| && (Abnormal(tasks[1..][i]) || Overdue(tasks[1..][i], last, now, max));
        assert tasks[i + 1] == tasks[1..][i];
      }
      if exists i :: 0 <= i < |tasks| && (Abnormal(tasks[i]) || Overdue(tasks[i], last, now, max)) {
        var i :| 0 <= i < |tasks| && (Abnormal(tasks[i]) || Overdue(tasks[i], last, now, max));
        if i > 0 {
          assert tasks[1..][i - 1] == tasks[i];
        }
      }
    }
  }

  lemma {:induction false} WorstAtLeastDegradedIff(tasks: seq<TaskRecord>, last: map<int32, Ticks>, now: Ticks, max: Ticks)
    ensures Worst(tasks, last, now, max) != Healthy <==>
      exists i :: 0 <= i < |tasks| && Severity(tasks[i], last, now, max) != Healthy
    decreases |tasks|
  {
    if |tasks| > 0 {
      WorstAtLeastDegradedIff(tasks[1..], last, now, max);
      if Worst(tasks, last, now, max) != Healthy && Severity(tasks[0], last, now, max) == Healthy {
        var i :| 0 <= i < |tasks[1..]| && Severity(tasks[1..][i], last, now, max) != Healthy;
        assert tasks[i + 1] == tasks[1..][i];
      }
      if exists i :: 0 <= i < |tasks| && Severity(tasks[i], last, now, max) != Healthy {
        var i :| 0 <= i < |tasks| && Severity(tasks[i], last, now, max) != Healthy;
        if i > 0 {
          assert tasks[1..][i - 1] == tasks[i];
        }
      }
    }
  }

  /**
    The scan answers Unhealthy exactly when some task faulted or was canceled,
    or some task's key has a timestamp more than `MaxTaskDuration` old.
   */
  lemma MonitorHealthUnhealthyIff(s: Service, now: Ticks)
    ensures MonitorHealth(s, now) == Unhealthy <==>
      exists i :: 0 <= i < |s.tasks| &&
        (Abnormal(s.tasks[i]) || Overdue(s.tasks[i], s.taskLastExecution, now, s.options.maxTaskDuration))
  {
    WorstUnhealthyIff(s.tasks, s.taskLastExecution, now, s.options.maxTaskDuration);
  }

  /**
    The scan answers Degraded exactly when no task is Unhealthy-worthy and some
    task's key has a timestamp more than half of `MaxTaskDuration` old (and
    not more than `MaxTaskDuration`).
   */
  lemma MonitorHealthDegradedIff(s: Service, now: Ticks)
    ensures MonitorHealth(s, now) == Degraded <==>
      (forall i :: 0 <= i < |s.tasks| ==>
         !Abnormal(s.tasks[i]) && !Overdue(s.tasks[i], s.taskLastExecution, now, s.options.maxTaskDuration)) &&
      (exists i :: 0 <= i < |s.tasks| && Lagging(s.tasks[i], s.taskLastExecution, now, s.options.maxTaskDuration))
  {
    var last, max := s.taskLastExecution, s.options.maxTaskDuration;
    WorstUnhealthyIff(s.tasks, last, now, max);
    WorstAtLeastDegradedIff(s.tasks, last, now, max);
    if MonitorHealth(s, now) == Degraded {
      var i :| 0 <= i < |s.tasks| && Severity(s.tasks[i], last, now, max) != Healthy;
      assert Lagging(s.tasks[i], last, now, max);
    }
    if (forall i :: 0 <= i < |s.tasks| ==> !Abnormal(s.tasks[i]) && !Overdue(s.tasks[i], last, now, max)) &&
       (exists i :: 0 <= i < |s.tasks| && Lagging(s.tasks[i], last, now, max)) {
      var i :| 0 <= i < |s.tasks| && Lagging(s.tasks[i], last, now, max);
      assert Severity(s.tasks[i], last, now, max) != Healthy;
    }
  }

  /** A single faulted or canceled task anywhere in the list makes the service Unhealthy. */
  lemma AbnormalTaskForcesUnhealthy(s: Service, now: Ticks, i: nat)
    requires i < |s.tasks| && Abnormal(s.tasks[i])
    ensures MonitorHealth(s, now) == Unhealthy
  {
    MonitorHealthUnhealthyIff(s, now);
  }

  /** A service with no tasks is Healthy. */
  lemma NoTasksIsHealthy(s: Service, now: Ticks)
    requires s.tasks == []
    ensures MonitorHealth(s, now) == Healthy
  {
  }

  /**
    The thresholds for one tracked, non-abnormal task of age `now - last`:
    more than `MaxTaskDuration` is Unhealthy, more than half of it (and at most
    all of it) is Degraded, and otherwise Healthy. Both comparisons are strict.
   */
  lemma {:induction false} SingleTaskThresholds(s: Service, now: Ticks)
    requires |s.tasks| == 1 && !Abnormal(s.tasks[0]) && s.tasks[0].id in s.taskLastExecution
    ensures var age := now - s.taskLastExecution[s.tasks[0].id];
      var max := s.options.maxTaskDuration;
      && (age > max ==> MonitorHealth(s, now) == Unhealthy)
      && (Half(max) < age <= max ==> MonitorHealth(s, now) == Degraded)
      && (age <= Half(max) && age <= max ==> MonitorHealth(s, now) == Healthy)
  {
    assert s.tasks[1..] == [];
  }

  /** Splitting the list splits the reference verdict. */
  lemma {:induction false} WorstAppend(a: seq<TaskRecord>, b: seq<TaskRecord>, last: map<int32, Ticks>, now: Ticks, max: Ticks)
    ensures Worst(a + b, last, now, max) == Worse(Worst(a, last, now, max), Worst(b, last, now, max))
    decreases |a|
  {
    if |a| == 0 {
      assert a + b == b;
    } else {
      assert (a + b)[1..] == a[1..] + b;
      WorstAppend(a[1..], b, last, now, max);
    }
  }

  /**
    A task that neither faulted nor was canceled and whose `Task.Id` has no
    timestamp contributes nothing: inserting it anywhere leaves the verdict as it was.
   */
  lemma UntrackedTaskContributesNothing(s: Service, now: Ticks, i: nat, t: TaskRecord)
    requires i <= |s.tasks|
    requires !Abnormal(t) && t.id !in s.taskLastExecution
    ensures MonitorHealth(s.(tasks := s.tasks[..i] + [t] + s.tasks[i..]), now) == MonitorHealth(s, now)
  {
    var last, max := s.taskLastExecution, s.options.maxTaskDuration;
    WorstAppend(s.tasks[..i] + [t], s.tasks[i..], last, now, max);
    WorstAppend(s.tasks[..i], [t], last, now, max);
    WorstAppend(s.tasks[..i], s.tasks[i..], last, now, max);
    assert s.tasks[..i] + s.tasks[i..] == s.tasks;
    assert [t][1..] == [];
  }

  // ---------------------------------------------------------------------------
  // Spawning
  // ---------------------------------------------------------------------------

  /**
    One iteration of the spawn loop body: `++_taskCounter`, then
    `StartTaskWithId` stamps the new id with `now`, then the started task is
    appended to the list.
   */
  function SpawnNext(s: Service, task: TaskRecord, now: Ticks): (r: Service)
    ensures r.taskCounter == Increment(s.taskCounter)
    ensures r.tasks == s.tasks + [task] && r.tasks[|s.tasks|] == task
    ensures r.options == s.options
    ensures r.taskLastExecution.Keys == s.taskLastExecution.Keys + {r.taskCounter}
    ensures r.taskLastExecution[r.taskCounter] == now
    ensures forall k :: k in s.taskLastExecution && k != r.taskCounter ==>
      r.taskLastExecution[k] == s.taskLastExecution[k]
  {
    var id := Increment(s.taskCounter);
    s.(taskCounter := id, tasks := s.tasks + [task], taskLastExecution := s.taskLastExecution[id := now])
  }

  /**
    In tracked bookkeeping without overflow, the task appended at position `p`
    is the one stamped under id `p + 1`, and the bookkeeping stays tracked.
   */
  lemma SpawnNextPairsPositionWithId(s: Service, task: TaskRecord, now: Ticks)
    requires Tracked(s) && s.taskCounter < MAX
    ensures var r := SpawnNext(s, task, now); var p := |s.tasks|;
      && r.tasks[p] == task
      && p + 1 in r.taskLastExecution && r.taskLastExecution[p + 1] == now
      && Tracked(r)
  {
    NewIdsRange(0, s.taskCounter);
    NewIdsRange(0, s.taskCounter + 1);
  }

  /** Run the loop body once per element of `started`, the tasks `Task.Run` returned. */
  function Spawn(s: Service, started: seq<TaskRecord>, now: Ticks): (r: Service)
    ensures r.tasks == s.tasks + started
    ensures r.options == s.options
    ensures r.taskCounter == Wrap(s.taskCounter + |started|)
    ensures r.taskLastExecution.Keys == s.taskLastExecution.Keys + NewIds(s.taskCounter, |started|)
    ensures forall k :: k in NewIds(s.taskCounter, |started|) ==> r.taskLastExecution[k] == now
    ensures forall k :: k in s.taskLastExecution && k !in NewIds(s.taskCounter, |started|) ==>
      r.taskLastExecution[k] == s.taskLastExecution[k]
    decreases |started|
  {
    if |started| == 0 then
      assert NewIds(s.taskCounter, 0) == {};
      s
    else
      var s1 := SpawnNext(s, started[0], now);
      var r := Spawn(s1, started[1..], now);
      var ids := NewIds(s.taskCounter, |started|);
      assert ids == {s1.taskCounter} + NewIds(s1.taskCounter, |started| - 1);
      WrapAdd(s.taskCounter + 1, |started| - 1);
      assert s1.tasks + started[1..] == s.tasks + started;
      assert r.taskLastExecution.Keys == s.taskLastExecution.Keys + ids;
      assert forall k :: k in ids ==> r.taskLastExecution[k] == now;
      r
  }

  /**
    The loop `for (var i = 0; i < Options.NumberOfTasks; i++)` from iteration
    `i` on, where iteration `i` starts `started[i]`. It runs the body once for
    each `i` below `NumberOfTasks`, so from `i` it runs `TaskCount - i` times.
   */
  function SpawnLoop(s: Service, i: nat, started: seq<TaskRecord>, now: Ticks): (r: Service)
    requires |started| >= TaskCount(s.options)
    ensures i <= TaskCount(s.options) ==> r == Spawn(s, started[i..TaskCount(s.options)], now)
    ensures i >= TaskCount(s.options) ==> r == s
    decreases |started| - i
  {
    if i < s.options.numberOfTasks then
      var s1 := SpawnNext(s, started[i], now);
      assert started[i..TaskCount(s.options)][1..] == started[i + 1..TaskCount(s.options)];
      SpawnLoop(s1, i + 1, started, now)
    else s
  }

  /**
    `ExecuteAsync`: the spawn loop from `i = 0`. It starts exactly
    `max(NumberOfTasks, 0)` tasks: the task list grows by the first that many
    started tasks, the counter advances by that many (wrapping), every new id
    is stamped with `now`, and every other timestamp is kept.
   */
  function ExecuteAsync(s: Service, started: seq<TaskRecord>, now: Ticks): (r: Service)
    requires |started| >= TaskCount(s.options)
    ensures r.tasks == s.tasks + started[..TaskCount(s.options)]
    ensures r.options == s.options
    ensures r.taskCounter == Wrap(s.taskCounter + TaskCount(s.options))
    ensures r.taskLastExecution.Keys == s.taskLastExecution.Keys + NewIds(s.taskCounter, TaskCount(s.options))
    ensures forall k :: k in NewIds(s.taskCounter, TaskCount(s.options)) ==> r.taskLastExecution[k] == now
    ensures forall k :: k in s.taskLastExecution && k !in NewIds(s.taskCounter, TaskCount(s.options)) ==>
      r.taskLastExecution[k] == s.taskLastExecution[k]
  {
    assert started[0..TaskCount(s.options)] == started[..TaskCount(s.options)];
    SpawnLoop(s, 0, started, now)
  }

  /**
    Ids are never reused: while the counter does not overflow, the ids a call
    hands out are exactly `old+1 .. old+N`, none of them already has a
    timestamp, and the bookkeeping stays `Tracked`.
   */
  lemma IdsNeverReused(s: Service, started: seq<TaskRecord>, now: Ticks)
    requires Tracked(s)
    requires |started| >= TaskCount(s.options)
    requires s.taskCounter + TaskCount(s.options) <= MAX
    ensures forall k :: k in NewIds(s.taskCounter, TaskCount(s.options)) <==>
      s.taskCounter < k <= s.taskCounter + TaskCount(s.options)
    ensures NewIds(s.taskCounter, TaskCount(s.options)) !! s.taskLastExecution.Keys
    ensures Tracked(ExecuteAsync(s, started, now))
  {
    var c, n := s.taskCounter, TaskCount(s.options);
    NewIdsRange(c, n);
    NewIdsRange(0, c);
    NewIdsSplit(c, n);
    var r := ExecuteAsync(s, started, now);
    assert r.taskCounter == c + n;
    assert |r.tasks| == c + n;
    assert r.taskLastExecution.Keys == NewIds(0, c + n);
  }

  /** Without overflow, the ids up to `c` and the next `n` ids are the ids up to `c + n`. */
  lemma NewIdsSplit(c: int32, n: nat)
    requires 0 <= c && c + n <= MAX
    ensures NewIds(0, c) + NewIds(c, n) == NewIds(0, c + n)
  {
    NewIdsRange(c, n);
    NewIdsRange(0, c);
    NewIdsRange(0, c + n);
  }

  /**
    Under the same conditions, the task `ExecuteAsync` appends at position `p`
    is the one stamped under id `p + 1`.
   */
  lemma ExecutePairsPositionWithId(s: Service, started: seq<TaskRecord>, now: Ticks, p: int)
    requires Tracked(s)
    requires |started| >= TaskCount(s.options)
    requires s.taskCounter + TaskCount(s.options) <= MAX
    requires |s.tasks| <= p < |s.tasks| + TaskCount(s.options)
    ensures var r := ExecuteAsync(s, started, now);
      && r.tasks[p] == started[p - |s.tasks|]
      && p + 1 in r.taskLastExecution && r.taskLastExecution[p + 1] == now
  {
    NewIdsRange(s.taskCounter, TaskCount(s.options));
    assert p + 1 in NewIds(s.taskCounter, TaskCount(s.options));
  }

  /** With `NumberOfTasks <= 0` the loop body never runs: nothing changes. */
  lemma NonPositiveCountSpawnsNothing(s: Service, started: seq<TaskRecord>, now: Ticks)
    requires s.options.numberOfTasks <= 0
    ensures ExecuteAsync(s, started, now) == s
  {
  }

  // ---------------------------------------------------------------------------
  // Activity updates
  // ---------------------------------------------------------------------------

  /**
    `UpdateTaskExecutionTime`: stamp `taskId` with `now` if it already has a
    timestamp, otherwise do nothing. No key is ever added.
   */
  function UpdateTaskExecutionTime(s: Service, taskId: int32, now: Ticks): (r: Service)
    ensures r.tasks == s.tasks && r.taskCounter == s.taskCounter && r.options == s.options
    ensures r.taskLastExecution.Keys == s.taskLastExecution.Keys
    ensures taskId in s.taskLastExecution ==> r.taskLastExecution[taskId] == now
    ensures forall k :: k in s.taskLastExecution && k != taskId ==>
      r.taskLastExecution[k] == s.taskLastExecution[k]
    ensures taskId !in s.taskLastExecution ==> r == s
  {
    if taskId in s.taskLastExecution then
      s.(taskLastExecution := s.taskLastExecution[taskId := now])
    else s
  }

  /** Updates keep the bookkeeping `Tracked`. */
  lemma UpdateKeepsTracked(s: Service, taskId: int32, now: Ticks)
    requires Tracked(s)
    ensures Tracked(UpdateTaskExecutionTime(s, taskId, now))
  {
  }

  /** With a clock that does not run backwards, no timestamp decreases. */
  lemma UpdateIsMonotone(s: Service, taskId: int32, now: Ticks)
    requires forall k :: k in s.taskLastExecution ==> s.taskLastExecution[k] <= now
    ensures forall k :: k in s.taskLastExecution ==>
      s.taskLastExecution[k] <= UpdateTaskExecutionTime(s, taskId, now).taskLastExecution[k]
  {
  }
}
