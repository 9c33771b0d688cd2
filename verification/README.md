# CPU scheduling policies, modelled in Dafny

This project models the three implemented CPU-scheduling policies of a small
Go scheduling simulator (`schedulers.go`). Each policy takes a list of
process records `(id, arrival, burst, priority)` and simulates a single CPU.
FCFS and SJF each produce a Gantt trace of time slices and one report row
per process (id, priority, burst, arrival, waiting time, turnaround time,
completion). The priority scheduler produces no trace. For each process it
logs only the id, completion, waiting time and turnaround time. The model
gives all three policies the same `Row` shape: for the priority scheduler,
priority, burst and arrival are copied from the process record. The
policies are:

- **FCFS** (`Fcfs`). Runs the processes in input order behind a running
  service clock. It is modelled *as written*, with two quirks:
  - the waiting time is recomputed only when the arrival time is positive;
    otherwise the previous process's value is carried over;
  - the waiting time is never clamped at zero.
- **SJF** (`Sjf`). Sorts by burst duration once, then runs sequentially. A
  process starts at the later of "CPU free" and "process arrived", using
  the source's `max` helper.
- **SJF with priority tie-break** (`SjfPriority`). Sorts by arrival, then
  loops until every process has completed. At every pass it rebuilds the
  ready list (not completed and arrived by the current time):
  - if the ready list is empty, the clock idles one tick;
  - otherwise the process with the shortest burst runs to completion, ties
    broken by the smaller priority value. It is marked completed and the
    clock advances by its burst.

Shared records and integer sums live in `Processes`. The reorderings
(`sort.Slice` by burst or by arrival) live in `Sorting`.

Each loop of the source becomes a function over a prefix of the input
(`Fcfs.UpTo`, `Sjf.RunUpTo`) or a recursive step function with a
termination measure (`SjfPriority.Loop`). Floating-point averages and
throughput are replaced by integer totals. For these totals the model
proves turnaround = wait + burst, summed over the whole report.

Termination of the priority loop is proved without assuming positive
bursts. It uses the measure (number of pending processes, ticks until the
earliest pending arrival). Each pass either completes a process or idles,
and it idles only when nothing is ready, i.e. strictly before the earliest
pending arrival. Non-negative bursts are needed only for the
non-overlap property (`SjfPriority.RunsDoNotOverlap`).

Three behaviours of the code are worth stating up front:

- Go's `sort.Slice` is not stable. It promises only some permutation of
  the input in key order. The model fixes one such permutation (stable
  insertion by key). `Sorting.SortBy` states only "ordered permutation".
  Where a concrete outcome depends on the sort, the keys are strictly
  increasing. Then every ordered permutation is the same list
  (`Sorting.StrictlySortedUnique`).
- A reader might expect the FCFS wait to be `max(0, serviceTime - arrival)`,
  as the SJF runner computes it (schedulers.go:103). The FCFS code neither
  clamps nor recomputes for arrival ≤ 0. The model reproduces the code, and
  records both deviations under Findings.
- The priority scheduler emits no Gantt slices, only a log line per
  dispatch (id, completion, wait, turnaround). The model records that line
  as a report row, whose completion is the clock after the dispatch, and
  fills in priority, burst and arrival from the process record.

## Model

| member | source | states |
|---|---|---|
| Sjf.Max | schedulers.go:136-141 | the result is at least each argument and is one of them |
| Sorting.SortBy | schedulers.go:87-89 | sorting by a key (burst here, arrival in the pre-sort at lines 152-154) yields a permutation of the input (same length, same multiset) in non-decreasing order of that key |
| Sorting.StrictlySortedUnique | schedulers.go:152-154 | when a list's keys strictly increase, it is the only key-ordered permutation of itself, so an unstable sort cannot reorder it |
| Sorting.SortBySorted | schedulers.go:152-154 | a list whose arrival keys strictly increase is left unchanged by the pre-sort |
| Processes.SumBurstPermutation | schedulers.go:87-89 | reordering the processes, as the sorts do, leaves their total burst unchanged |
| Processes.TotalsBalance | schedulers.go:51-52 | over rows each satisfying turnaround = wait + burst, total turnaround = total wait + total burst |
| Processes.TotalBurstOfRows | schedulers.go:57-65 | a report whose rows describe the processes one-to-one has their total burst |
| Processes.BurstBeforeIsSum | schedulers.go:66 | the service clock after `n` processes is the burst sum of the first `n` |
| Fcfs.Iteration | schedulers.go:44-72 | one pass of the loop: the waiting time becomes service clock - arrival when arrival > 0 and is carried over otherwise; the clock advances by the burst; the appended slice runs from wait + arrival to the new clock; the appended row describes the process, with turnaround = wait + burst and completion = start + burst |
| Fcfs.IterationKeeps | schedulers.go:57-72 | a pass only appends: every slice and row emitted earlier is kept in place |
| Fcfs.UpTo | schedulers.go:43-73 | after `n` iterations: one slice and one row per process so far; service clock = burst sum of the first `n`; carried waiting time = the reference wait of process `n-1` (0 before the first) |
| Fcfs.UpToFacts | schedulers.go:44-54 | each emitted slice and row carries its process's id, the reference waiting time (recomputed when arrival > 0, carried over otherwise), start = wait + arrival, stop = service clock after it, turnaround = wait + burst, completion = start + burst |
| Fcfs.Schedule | schedulers.go:43-73 | exactly one slice and one row per process, in input order; the final service clock is the total burst; each row and slice as in `UpToFacts` |
| Fcfs.ScheduleTotals | schedulers.go:47-54 | summed over the report, turnaround = waiting time + total burst of the input |
| Fcfs.ContiguousWhenArrivalsPositive | schedulers.go:44-49 | when every arrival is positive, slices are back to back from time 0 and each lasts exactly its burst |
| Fcfs.CarryOverOverlaps | schedulers.go:44-46 | A(arr 0, burst 5) then B(arr 0, burst 3), in arrival order: B keeps A's wait 0, so its slice is 0..8, overlapping A's 0..5 and lasting 8 for a burst of 3, and its row reports completion 3 |
| Fcfs.RunsBeforeArrival | schedulers.go:44-49 | a single process arriving at 5 gets wait -5 and a slice 0..2 that starts before it arrives; the corrected run gives wait 0 and slice 5..7 |
| Fcfs.CorrectedIsSound | schedulers.go:103-124 | the corrected run keeps input order, never reports a negative wait, never starts a process before it arrives or before the previous slice stops, and gives each slice exactly its burst with turnaround = wait + burst |
| Fcfs.CarryOverCorrected | schedulers.go:103-124 | on the carry-over input the corrected run gives slices A 0..5 and B 5..8, with B waiting 5 |
| Fcfs.IterationAgrees | schedulers.go:44-72 | one FCFS iteration equals one corrected iteration when the process has arrived by the time the CPU is free and any carried wait equals the recomputed one |
| Fcfs.AgreesWithCorrected | schedulers.go:43-73 | if the first process arrives at 0 and every later one arrives (positively) by the time the CPU frees up for it, FCFS as written and the corrected run emit the same trace, rows and clock |
| Fcfs.ExampleRun | schedulers.go:43-73 | A(0,5), B(1,3), C(2,1) in input order run 0-5, 5-8, 8-9 with waits 0, 4, 6 |
| Sjf.Iteration | schedulers.go:103-124 | one pass of the runner: the new slice starts at or after both the clock and the arrival, at one of them, lasts exactly the burst, and the clock moves to its stop; the new row describes the process, with wait = start - arrival ≥ 0, turnaround = wait + burst and completion = the new clock |
| Sjf.IterationKeeps | schedulers.go:120-124 | a pass only appends: every slice and row emitted earlier is kept in place |
| Sjf.RunUpTo | schedulers.go:102-125 | after `n` processes the run has emitted exactly `n` slices and `n` rows |
| Sjf.RunFacts | schedulers.go:102-125 | each slice starts at the later of "previous slice stopped" (0 first) and arrival, and lasts exactly the burst; each row has wait = start - arrival, turnaround = wait + burst, completion = stop; the clock is where the last slice stopped |
| Sjf.RunInOrder | schedulers.go:102-125 | running a list in the given order emits one slice and one row per process, each as in `RunFacts` |
| Sjf.Schedule | schedulers.go:85-125 | the run order is a burst-sorted permutation of the input; one slice and row per process, each as in `RunFacts` |
| Sjf.ReportSortedByBurst | schedulers.go:87-89 | the report lists each process once, with non-decreasing burst durations |
| Sjf.SlicesDisjoint | schedulers.go:103-104 | with non-negative bursts, every slice stops no later than any later slice starts |
| Sjf.ChainDisjoint | schedulers.go:120-124 | slices chained end-to-start with non-negative lengths are pairwise non-overlapping |
| Sjf.ClockCoversBursts | schedulers.go:104 | the clock is never below the total burst of what has run |
| Sjf.NoIdleWhenArrived | schedulers.go:104 | if every process has arrived by the time the earlier ones have used their bursts, the clock is exactly the total burst (no idle time) |
| Sjf.ScheduleTotals | schedulers.go:103-108 | summed over the report, turnaround = waiting time + total burst of the input |
| SjfPriority.Available | schedulers.go:158-163 | the ready list holds exactly the indices that are not completed and have arrived by the current time, in increasing order |
| SjfPriority.Best | schedulers.go:165-171 | the chosen head is on the ready list and no ready process sorts strictly before it (shorter burst, or equal burst and smaller priority) |
| SjfPriority.RowFor | schedulers.go:184-185 | the row logged for a dispatch describes the process, starts at the current clock, reports wait = clock - arrival, turnaround = wait + burst, and completes after the burst |
| SjfPriority.Idle | schedulers.go:173-176 | with nothing ready the clock advances one tick and nothing else changes |
| SjfPriority.Dispatch | schedulers.go:179-194 | running process `i` marks it, and only it, completed, appends it to the picks, appends its row starting at the current clock, and moves the clock to that row's completion |
| SjfPriority.DispatchKeeps | schedulers.go:184-194 | a dispatch only appends: every row reported earlier is kept in place |
| SjfPriority.BestIsNoWorse | schedulers.go:165-180 | the head of the sorted ready list is ready and no worse than any ready process |
| SjfPriority.Step | schedulers.go:156-198 | a pass idles if and only if no process is ready; otherwise it adds one pick, a ready process no worse than every ready process, and dispatches it |
| SjfPriority.MinUndoneArrival | schedulers.go:156-177 | the earliest arrival among pending processes, absent exactly when none is pending |
| SjfPriority.IdleShrinksGap | schedulers.go:173-176 | an idle tick with processes pending brings the earliest pending arrival one tick closer |
| SjfPriority.StepProgresses | schedulers.go:156-191 | every pass completes one more process, or idles and shrinks the gap to the next arrival |
| SjfPriority.Loop | schedulers.go:156-198 | the loop terminates from every counted state (pending count = processes - picks), ending with as many picks as processes and none pending (that, from the initial state, each process is picked exactly once is `CompletesEachOnce`) |
| SjfPriority.Initial | schedulers.go:147-149 | the loop starts at time 0 with nothing picked, no rows, and every process pending |
| SjfPriority.InitialInv | schedulers.go:147-149 | the loop invariant holds at the start |
| SjfPriority.IdlePreservesInv | schedulers.go:173-176 | an idle tick when nothing is ready keeps the loop invariant |
| SjfPriority.DispatchTracks | schedulers.go:190-191 | dispatching a ready process keeps "completed = picked, each once" |
| SjfPriority.DispatchAccounted | schedulers.go:185-194 | dispatching keeps reported bursts + pending bursts = total burst |
| SjfPriority.DispatchReported | schedulers.go:184-194 | the new row has wait = clock - arrival ≥ 0, turnaround = wait + burst, and starts no earlier than the previous completion |
| SjfPriority.DispatchChoices | schedulers.go:165-180 | the new choice is no worse than every pending process that has arrived, and earlier choices stay justified |
| SjfPriority.DispatchIdle | schedulers.go:173-194 | earlier idle periods stay justified, the new dispatch is justified in starting when it does, and right after it the clock is exactly where its row completes, so the CPU is not idle |
| SjfPriority.DispatchPreservesInv | schedulers.go:179-194 | dispatching the best ready process keeps the loop invariant |
| SjfPriority.StepPreservesInv | schedulers.go:156-198 | one pass keeps the loop invariant |
| SjfPriority.StepCounted | schedulers.go:156-198 | one pass keeps the shape bookkeeping: pending count = processes - picks |
| SjfPriority.LoopKeepsInv | schedulers.go:156-198 | the invariant holds when the loop ends |
| SjfPriority.Schedule | schedulers.go:143-198 | the loop runs over an arrival-sorted permutation of the input and ends with as many picks as processes, each a valid index, and one row each (that every process is picked exactly once is `CompletesEachOnce`) |
| SjfPriority.ScheduleInv | schedulers.go:143-198 | the loop invariant holds of the scheduler's final state |
| SjfPriority.CompletesEachOnce | schedulers.go:156-191 | every process ends completed, and is picked exactly once |
| SjfPriority.RowsAreConsistent | schedulers.go:184-194 | each row describes the process run at that position, with wait = start - arrival ≥ 0 and turnaround = wait + burst; the first run starts at time 0 or later, and each later run starts no earlier than the previous one completed |
| SjfPriority.ChoicesAreShortestReady | schedulers.go:158-180 | each process run had arrived by its start and was no worse than every process that had arrived by then and had not yet run |
| SjfPriority.IdlesOnlyWhenNothingReady | schedulers.go:173-176 | if a dispatch starts later than the CPU became free, no process that had not run had arrived before that start |
| SjfPriority.ChainOrdered | schedulers.go:194 | rows chained end-to-start with non-negative bursts are pairwise ordered |
| SjfPriority.RunsDoNotOverlap | schedulers.go:194 | with non-negative bursts, each run completes no later than any later run starts, so the clock never goes back |
| SjfPriority.ScheduleTotals | schedulers.go:184-189 | summed over the report, turnaround = waiting time + total burst of the input |
| SjfPriority.LoopPass | schedulers.go:156-198 | while processes are pending, the loop's result is the loop's result after one more pass |
| SjfPriority.WorkedExample | schedulers.go:143-198 | A(arr 0, burst 5, pri 1), B(1,3,2), C(2,1,3) run in order A, C, B, with waits 0, 3, 5 and completions 5, 6, 9 |
| SjfPriority.WorkedPass2 | schedulers.go:158-194 | in the worked example at time 5 both B and C are ready and the shorter C is dispatched |
| SjfPriority.IdleExample | schedulers.go:173-176 | a single process arriving at 2 is dispatched after two idle ticks and reports wait 0, completion 3 |

## Left out

- Output and formatting: the `io.Writer`, `fmt` calls, the debug log line
  (schedulers.go:57-65, 110-118, 144, 197, 205-207), and the
  `outputTitle`/`outputGantt`/`outputSchedule` helpers. These helpers are
  not part of this model; the model returns the trace and rows as data
  instead. Only the string formatting is dropped. The seven values of each
  FCFS and SJF report row are modelled as a `Row`. So are the four values
  of each priority-scheduler log line (id, completion, wait, turnaround);
  that `Row` also copies priority, burst and arrival from the process
  record.
- Floating-point averages and throughput (schedulers.go:75-78, 127-129,
  201-203). The model keeps integer totals and proves how they relate.
  Empty input would divide by zero there.
- `RRSchedule` (schedulers.go:210) has an empty body, so there is no
  behaviour to model.
- The unused `Turnaround`, `Waiting` and `Burst` fields of `Process`
  (schedulers.go:16-18).
- `int64` overflow. Integers are unbounded in the model. Clock, wait and
  completion sums that would wrap around in Go are not modelled.
- The internals of `sort.Slice` and its instability.
  - The model fixes one ordered permutation: stable insertion by key.
    General properties are stated only as "ordered permutation".
    `Sorting.SortBySorted` pins the result down only for strictly
    increasing keys. When keys tie, the order the code would produce is
    not modelled.
  - Among processes whose burst and priority are both equal, the priority
    scheduler's choice is left unspecified by the source. The model keeps
    the lowest index of the arrival-sorted list.
- The `Completed` flag on input. The model starts with every process
  pending. A process already marked completed on entry would never be
  counted, so the source loop would not end.
- In-place mutation of the caller's slice (the sorts and `Completed := true`).
  The model returns the sorted list and the completion flags as part of
  its result instead.
- SjfPriority.RunsDoNotOverlap: requires non-negative bursts, because a
  negative burst moves the clock backwards in the source.
- Sjf.SlicesDisjoint: requires non-negative bursts, for the same reason.

## Findings

| source | as written | input that shows it | evidently intended | confidence | as-written member | corrected member |
|---|---|---|---|---|---|---|
| schedulers.go:44-46 | the waiting time is recomputed only when `ArrivalTime > 0`; otherwise the previous process's value is reused | A(arrival 0, burst 5), B(arrival 0, burst 3), in arrival order: B gets wait 0 and slice 0..8, overlapping A's 0..5 and lasting 8 instead of 3 | recompute the wait from the service clock for every process, clamped at zero, as the SJF runner does | not executed | Fcfs.CarryOverOverlaps | Fcfs.CorrectedIsSound |
| schedulers.go:45-49 | `serviceTime - ArrivalTime` is never clamped at zero, and the start is `waitingTime + ArrivalTime` | a single process A(arrival 5, burst 2): wait -5, slice 0..2, starting before A arrives | wait `max(0, serviceTime - ArrivalTime)`, start `max(serviceTime, ArrivalTime)` | not executed | Fcfs.RunsBeforeArrival | Fcfs.CorrectedIsSound |
