# Monitored background service: supervision bookkeeping and health scan

This project models the core of `MonitorableBackgroundService` in Dafny. That
is the base class of a hosted .NET worker. It starts `NumberOfTasks` copies of
a unit of work, records when each copy last reported activity, and answers a
three-valued health query.

The model is functional. `Monitorable.Service` is an immutable record with
four fields:

- `taskCounter`: the `int` counter `_taskCounter`.
- `tasks`: the list `_tasks` of started tasks. Each entry holds the task's
  runtime-assigned `Task.Id` and its `TaskStatus`.
- `taskLastExecution`: the dictionary `_taskLastExecution`, mapping a counter
  id to a `DateTime` in ticks.
- `options`: the `WorkerOptions` value.

The operations are pure functions over that record:

- `ExecuteAsync` and `StartTaskWithId` spawn tasks.
- `UpdateTaskExecutionTime` records activity.
- `MonitorHealth` computes the health verdict.

A few conventions follow from the source:

- The clock is an explicit integer `now` in 100 ns ticks.
- What `Task.Run` returns (the task's id and its status) is given data.
- `MonitorHealth` takes the record as a value. So the scan cannot change the
  task list, the timestamp table or the counter.

Modules:

- `MachineInt`: C#'s 32-bit `int` and its unchecked `++`. The `++` wraps from
  `int.MaxValue` to `int.MinValue`.
- `Options`: the `WorkerOptions` record, its defaults, and the
  `MaxTaskDuration / 2` threshold. TimeSpan's division by a double rounds
  the result to the nearest tick, with ties going to the even tick.
- `Health`: `HealthStatus`, ranked Healthy < Degraded < Unhealthy.
- `Monitorable`: the service record, the scan, spawning and activity updates.
- `KeyMismatch`: the lookup-key discrepancy described under Findings, and
  the corrected scan.

How the scan is modelled:

- `Monitorable.Scan` follows the source loop one step at a time, including
  the early `break` and the guard that keeps Degraded from overwriting
  Unhealthy.
- `Monitorable.Worst` is the reference definition: the most severe per-task
  verdict over the whole list.
- `Scan`'s contract proves that the early exit never changes the verdict.

Notes on the source's behaviour, all reflected in the model:

- Both thresholds are strict (`>`). For a positive `MaxTaskDuration`, a task
  whose age equals `MaxTaskDuration` is Degraded, not Unhealthy. For a
  positive `MaxTaskDuration`, a task whose age equals the half threshold is
  Healthy.
- Every status other than Faulted and Canceled goes through the staleness
  check. That includes tasks that ran to completion, not only running ones.
- `NumberOfTasks` and `MaxTaskDuration` are not validated. A count of zero
  or less starts no tasks. A zero or negative duration is accepted.
- The scan looks up each task's runtime `Task.Id`. Timestamps are stored
  under the counter id (see Findings).

## Model

| member | source | states |
|---|---|---|
| `Options.Default` | Berrevoets.MonitoredBackgroundService/WorkerOptions.cs:3-7 | A new options value has `NumberOfTasks` 1 and `MaxTaskDuration` 120 seconds (1,200,000,000 ticks). |
| `Options.Half` | Berrevoets.MonitoredBackgroundService/MonitorableBackgroundService.cs:54 | The Degraded threshold is exactly `m/2` for an even tick count `m`. For an odd `m` it is the even one of the two nearest ticks, so `2h` is within 1 of `m`. |
| `Options.DefaultDegradedThreshold` | Berrevoets.MonitoredBackgroundService/WorkerOptions.cs:6 | Under the default options, a task becomes Degraded after 60 seconds without activity. |
| `MachineInt.Increment` | Berrevoets.MonitoredBackgroundService/MonitorableBackgroundService.cs:85 | `++_taskCounter` adds one below `int.MaxValue`, and wraps from `int.MaxValue` to `int.MinValue`. |
| `Monitorable.Create` | Berrevoets.MonitoredBackgroundService/MonitorableBackgroundService.cs:12-21 | A newly constructed service has no tasks, a zero counter and an empty table, which satisfies the tracking invariant. |
| `Monitorable.StepIsWorse` | Berrevoets.MonitoredBackgroundService/MonitorableBackgroundService.cs:34-63 | One pass of the loop body yields the worse of the verdict so far and the task's own verdict. It never lowers the verdict, so Degraded never replaces Unhealthy. |
| `Monitorable.Scan` | Berrevoets.MonitoredBackgroundService/MonitorableBackgroundService.cs:32-68 | The loop that stops at the first Unhealthy returns the same verdict as scanning every remaining task and taking the most severe. |
| `Monitorable.MonitorHealth` | Berrevoets.MonitoredBackgroundService/MonitorableBackgroundService.cs:27-73 | The health verdict is the maximum per-task severity over the whole task list, despite the early break. |
| `Monitorable.MonitorHealthUnhealthyIff` | Berrevoets.MonitoredBackgroundService/MonitorableBackgroundService.cs:34-52 | The verdict is Unhealthy if and only if some task is Faulted or Canceled, or some task's key has a timestamp older than `MaxTaskDuration` (strict). |
| `Monitorable.MonitorHealthDegradedIff` | Berrevoets.MonitoredBackgroundService/MonitorableBackgroundService.cs:54-60 | The verdict is Degraded if and only if no task meets an Unhealthy condition and some task's key has an age above the half threshold but not above `MaxTaskDuration`. |
| `Monitorable.AbnormalTaskForcesUnhealthy` | Berrevoets.MonitoredBackgroundService/MonitorableBackgroundService.cs:32-67 | One Faulted or Canceled task anywhere in the list makes the verdict Unhealthy. |
| `Monitorable.NoTasksIsHealthy` | Berrevoets.MonitoredBackgroundService/MonitorableBackgroundService.cs:30-32 | An empty task list gives Healthy. |
| `Monitorable.SingleTaskThresholds` | Berrevoets.MonitoredBackgroundService/MonitorableBackgroundService.cs:45-60 | For one tracked task that is neither Faulted nor Canceled: age > Max gives Unhealthy, Max/2 < age <= Max gives Degraded, and age at or below both gives Healthy. |
| `Monitorable.UntrackedTaskContributesNothing` | Berrevoets.MonitoredBackgroundService/MonitorableBackgroundService.cs:42-63 | Inserting a task that is neither Faulted nor Canceled, and whose `Task.Id` has no timestamp, anywhere in the list leaves the verdict unchanged. |
| `Monitorable.NewIdsRange` | Berrevoets.MonitoredBackgroundService/MonitorableBackgroundService.cs:85 | Without overflow, `n` increments from counter `c` hand out exactly the ids `c+1 .. c+n`. |
| `Monitorable.SpawnNext` | Berrevoets.MonitoredBackgroundService/MonitorableBackgroundService.cs:85-97 | One pass of the loop body: the counter becomes its unchecked increment, the task is appended at the end of the list, the new id is stamped with `now`, and every other key keeps its timestamp. |
| `Monitorable.SpawnNextPairsPositionWithId` | Berrevoets.MonitoredBackgroundService/MonitorableBackgroundService.cs:85-97 | Under the tracking invariant and without overflow, the task appended at position `p` is the one stamped under id `p + 1`, and the invariant still holds. |
| `Monitorable.Spawn` | Berrevoets.MonitoredBackgroundService/MonitorableBackgroundService.cs:83-99 | Each started task is appended in order and the counter advances by one per task, wrapping. Every new id is stamped with `now` and every other timestamp is kept. |
| `Monitorable.SpawnLoop` | Berrevoets.MonitoredBackgroundService/MonitorableBackgroundService.cs:83-87 | The loop `for (i = 0; i < NumberOfTasks; i++)`, entered at iteration `i`, runs the body for iterations `i .. max(NumberOfTasks, 0) - 1` in order, and does nothing once `i` reaches that bound. |
| `Monitorable.ExecuteAsync` | Berrevoets.MonitoredBackgroundService/MonitorableBackgroundService.cs:79-90 | Running the loop from `i = 0` appends exactly the first `max(NumberOfTasks, 0)` started tasks. It advances the counter by that number, stamps the ids `old+1 .. old+N` with `now`, and leaves other keys alone. |
| `Monitorable.IdsNeverReused` | Berrevoets.MonitoredBackgroundService/MonitorableBackgroundService.cs:79-99 | While the counter does not overflow, the ids a call hands out are new: none already has a timestamp. Afterwards there is one task per id and a timestamp for exactly `1..counter`. |
| `Monitorable.ExecutePairsPositionWithId` | Berrevoets.MonitoredBackgroundService/MonitorableBackgroundService.cs:83-97 | Under the tracking invariant and without overflow, each task the call appends at position `p` is stamped under id `p + 1`. |
| `Monitorable.NonPositiveCountSpawnsNothing` | Berrevoets.MonitoredBackgroundService/MonitorableBackgroundService.cs:83 | When `NumberOfTasks <= 0`, the loop body never runs and the service is left exactly as it was, whatever the runtime would have started. |
| `Monitorable.UpdateTaskExecutionTime` | Berrevoets.MonitoredBackgroundService/MonitorableBackgroundService.cs:103-106 | The update writes `now` under the id only if the id already has a timestamp, and is a no-op otherwise. All other keys are unchanged, and the key set never grows. |
| `Monitorable.UpdateKeepsTracked` | Berrevoets.MonitoredBackgroundService/MonitorableBackgroundService.cs:103-106 | Activity updates preserve the tracking invariant. |
| `Monitorable.UpdateIsMonotone` | Berrevoets.MonitoredBackgroundService/MonitorableBackgroundService.cs:103-106 | If the clock does not run backwards, no timestamp decreases. |
| `KeyMismatch.AsWrittenIgnoresStaleness` | Berrevoets.MonitoredBackgroundService/MonitorableBackgroundService.cs:42-45 | When no runtime `Task.Id` has a timestamp, the verdict is Healthy exactly when no task is Faulted or Canceled, however stale the tasks are. |
| `KeyMismatch.CorrectedMonitorHealth` | Berrevoets.MonitoredBackgroundService/MonitorableBackgroundService.cs:27-73 | The intended scan looks each task up under the counter id it was started with. It returns the maximum severity over the relabelled tasks. |
| `KeyMismatch.EveryTaskIsTracked` | Berrevoets.MonitoredBackgroundService/MonitorableBackgroundService.cs:85-97 | Under the tracking invariant, every task's counter id has a timestamp. |
| `KeyMismatch.CorrectedUnhealthyIff` | Berrevoets.MonitoredBackgroundService/MonitorableBackgroundService.cs:34-52 | The corrected scan returns Unhealthy if and only if some task is Faulted or Canceled, or some task's own timestamp is older than `MaxTaskDuration`. |
| `KeyMismatch.ActivityResetsStaleness` | Berrevoets.MonitoredBackgroundService/MonitorableBackgroundService.cs:103-106 | After task `i` reports activity at `t0`, the corrected scan finds nothing wrong with that task while at most half of `MaxTaskDuration` has passed. |
| `KeyMismatch.ScenarioStart` | Berrevoets.MonitoredBackgroundService/MonitorableBackgroundService.cs:79-99 | Starting two workers at time 0 yields ids 1 and 2, both stamped 0, and satisfies the tracking invariant. |
| `KeyMismatch.TwoWorkerScenario` | Berrevoets.MonitoredBackgroundService/MonitorableBackgroundService.cs:43-60 | Two workers, Max = 2 s, worker 2 silent. The corrected scan gives Healthy at 1 s, Degraded at 1.1 s and Unhealthy at 2.1 s. As written, with runtime ids other than 1 and 2, the scan stays Healthy. |

## Findings

| source | as written | input that shows it | evidently intended | confidence | as-written member | corrected member |
|---|---|---|---|---|---|---|
| Berrevoets.MonitoredBackgroundService/MonitorableBackgroundService.cs:43-45 | The scan looks up `task.Id`, the runtime `Task.Id`. Timestamps are stored under the counter id passed to `StartTaskWithId` (:85, :97). | Two workers with runtime ids 3 and 4, `MaxTaskDuration` 2 s, worker 2 silent for 2.1 s: the scan returns Healthy (`KeyMismatch.TwoWorkerScenario`, `KeyMismatch.AsWrittenIgnoresStaleness`). | Each task is judged by the timestamp of the id it was started with, so worker 2 is Unhealthy at 2.1 s. | not executed; high that the keys differ whenever runtime ids are not 1..N | `Monitorable.MonitorHealth` | `KeyMismatch.CorrectedMonitorHealth` |

The staleness properties are stated about the corrected scan:
`KeyMismatch.CorrectedUnhealthyIff`, `KeyMismatch.ActivityResetsStaleness` and
`KeyMismatch.TwoWorkerScenario`. `Monitorable.MonitorHealth` remains the model
of the code as written. The corrected scan judges the task at position `i` by
counter id `i + 1`. Under the tracking invariant, that is the id the task was
started with.

## Left out

- The health polling worker (`HealthTests/HealthMonitorWorker.cs`) is left out. It is a timed polling loop with cancellation that logs one line per unit. It combines no severity, and it tests the result of `MonitorHealth` as a boolean, which is inconsistent with the three-valued return type.
- The example application worker (`HealthTests/MyWorker.cs`) is left out. It is a delay loop. The only part that matters here is that it updates its own counter id (`UpdateTaskExecutionTime(taskId)`), which `UpdateTaskExecutionTime` models.
- Dependency-injection registration and host start-up (`ServiceCollectionExtensions.cs`, `Program.cs`) are left out. They are glue.
- Concurrency is not modelled: `Task.Run`, `Task.WhenAll` and the join at the end of `ExecuteAsync`, cancellation tokens, and unsynchronised access to the shared dictionary from worker threads. Each operation is an atomic transition, and task status is given data rather than something the model computes.
- Logging (`LogError`, `LogWarning`, `LogInformation`, `LogTaskInformation`) is not modelled. It has no bearing on any returned value.
- Wall-clock reads (`DateTime.UtcNow`, `DateTimeOffset.Now`) are replaced by an integer tick parameter.
- One `ExecuteAsync` call takes a single `now` for all the tasks it starts. In the source, `StartTaskWithId` reads `DateTime.UtcNow` once per task (line 97), so the stamps of one call may differ by the time the loop takes. The model gives them all the same stamp, and `KeyMismatch.ScenarioStart` relies on that. The 64-bit range of `DateTime` and `TimeSpan` ticks is not enforced, because the model only subtracts valid timestamps and halves a duration, and neither can overflow.
- Options.Half: equals TimeSpan's division only while the tick count converts to a double exactly (magnitude at most 2^53). Beyond that, the double conversion's own rounding is not modelled.
- Monitorable.IdsNeverReused: proved only while `counter + NumberOfTasks` stays at or below `int.MaxValue`. After the counter wraps, the ids become negative and are not shown to be fresh.
- The `TaskStatus` values other than Faulted, Canceled and RanToCompletion are collapsed into `Other`. The scan treats all of them alike.
