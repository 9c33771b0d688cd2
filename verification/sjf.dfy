/**
 Shortest-job-first, non-preemptive, with a static sort: the processes are
 ordered by burst duration once and then run one after another, each
 starting when both the CPU is free and the process has arrived.
 */
module Sjf {
  import opened Processes
  import opened Sorting

  /** The larger of two clock values. */
  function Max(a: int, b: int): (r: int)
    ensures r >= a && r >= b
    ensures r == a || r == b
  {
    if a > b then a else b
  }

  /** The sequential runner's state after some prefix of its input: the
      current time and what has been emitted so far. */
  datatype State = State(clock: int, gantt: seq<TimeSlice>, rows: seq<Row>)

  /** One iteration of the run loop: wait until the CPU is free and the
      process has arrived, then run it to completion. The emitted slice
      starts at the later of the two moments and lasts exactly the burst,
      the row reports the delay since arrival as a non-negative wait, and
      everything emitted before is kept. */
  function Iteration(st: State, p: Process): (r: State)
    ensures |r.gantt| == |st.gantt| + 1 && |r.rows| == |st.rows| + 1
    ensures var s := r.gantt[|st.gantt|];
            && s.pid == p.id
            && s.start >= st.clock && s.start >= p.arrival
            && (s.start == st.clock || s.start == p.arrival)
            && s.stop == s.start + p.burst && r.clock == s.stop
    ensures var row := r.rows[|st.rows|];
            && ProcessOf(row) == p
            && row.wait == r.gantt[|st.gantt|].start - p.arrival >= 0
            && row.turnaround == row.wait + p.burst
            && row.completion == r.clock
  {
    var waitTime := Max(0, st.clock - p.arrival);
    var clock := Max(st.clock, p.arrival) + p.burst;
    var turnaround := clock - p.arrival;
    var r := State(clock,
                   st.gantt + [TimeSlice(p.id, clock - p.burst, clock)],
                   st.rows + [Row(p.id, p.priority, p.burst, p.arrival, waitTime, turnaround, clock)]);
    r
  }

  /** An iteration only appends: every slice and row emitted before it is
      kept, in place. */
  lemma IterationKeeps(st: State, p: Process)
    ensures Iteration(st, p).gantt[..|st.gantt|] == st.gantt
    ensures Iteration(st, p).rows[..|st.rows|] == st.rows
  {
  }

  /** Time at which the CPU becomes free before slice `i` of `gantt`. */
  function FreeAt(gantt: seq<TimeSlice>, i: nat): int
    requires i <= |gantt|
  {
    if i == 0 then 0 else gantt[i - 1].stop
  }

  /** The run over the first `n` processes of `order`, in that order. */
  function RunUpTo(order: seq<Process>, n: nat): (st: State)
    requires n <= |order|
    ensures |st.gantt| == n && |st.rows| == n
    decreases n
  {
    if n == 0 then State(0, [], [])
    else Iteration(RunUpTo(order, n - 1), order[n - 1])
  }

  /** Slice and row `i` of `st` are what the runner emits for `order[i]`:
      the slice starts when both the CPU is free and the process has
      arrived, and lasts exactly its burst; the row reports the delay
      between arrival and start as the wait, keeps turnaround = wait +
      burst, and completes when the slice stops. */
  predicate RanAt(order: seq<Process>, st: State, i: nat)
    requires i < |order| && i < |st.gantt| && i < |st.rows|
  {
    && st.gantt[i].pid == order[i].id
    && ProcessOf(st.rows[i]) == order[i]
    && st.gantt[i].start == Max(FreeAt(st.gantt, i), order[i].arrival)
    && st.gantt[i].stop == st.gantt[i].start + order[i].burst
    && st.rows[i].wait == st.gantt[i].start - order[i].arrival
    && Balanced(st.rows[i])
    && st.rows[i].completion == st.gantt[i].stop
  }

  /** After `n` processes the clock is where the last slice stopped, and
      every slice and row emitted so far is the one `RanAt` describes. */
  lemma {:induction false} RunFacts(order: seq<Process>, n: nat)
    requires n <= |order|
    ensures RunUpTo(order, n).clock == FreeAt(RunUpTo(order, n).gantt, n)
    ensures forall i :: 0 <= i < n ==> RanAt(order, RunUpTo(order, n), i)
    decreases n
  {
    if n > 0 {
      RunFacts(order, n - 1);
      var prev := RunUpTo(order, n - 1);
      var st := RunUpTo(order, n);
      assert st == Iteration(prev, order[n - 1]);
      forall i | 0 <= i < n
        ensures RanAt(order, st, i)
      {
        if i < n - 1 {
          assert RanAt(order, prev, i);
          assert st.gantt[i] == prev.gantt[i] && st.rows[i] == prev.rows[i];
          assert FreeAt(st.gantt, i) == FreeAt(prev.gantt, i);
        }
      }
    }
  }

  /** Runs every process of `order`, in that order: one slice and one row
      per process, each as `RanAt` describes. */
  function RunInOrder(order: seq<Process>): (st: State)
    ensures |st.gantt| == |order| && |st.rows| == |order|
    ensures forall i :: 0 <= i < |order| ==> RanAt(order, st, i)
  {
    RunFacts(order, |order|);
    RunUpTo(order, |order|)
  }

  /** The result of the scheduler: the process list as the in-place sort
      leaves it, and the run over it. */
  datatype Outcome = Outcome(order: seq<Process>, run: State)

  /** Sorts by burst duration, then runs in that order. */
  function Schedule(ps: seq<Process>): (r: Outcome)
    ensures |r.order| == |ps| && multiset(r.order) == multiset(ps)
    ensures SortedBy(ByBurst, r.order)
    ensures |r.run.gantt| == |ps| && |r.run.rows| == |ps|
    ensures forall i :: 0 <= i < |ps| ==> RanAt(r.order, r.run, i)
  {
    var order := SortBy(ByBurst, ps);
    Outcome(order, RunInOrder(order))
  }

  /** Slices chained end-to-start, each of non-negative length, are
      pairwise non-overlapping. */
  lemma {:induction false} ChainDisjoint(g: seq<TimeSlice>)
    requires forall i :: 0 < i < |g| ==> g[i - 1].stop <= g[i].start
    requires forall i :: 0 <= i < |g| ==> g[i].start <= g[i].stop
    ensures forall i, j :: 0 <= i < j < |g| ==> g[i].stop <= g[j].start
    decreases |g|
  {
    if |g| > 1 {
      var g' := g[..|g| - 1];
      ChainDisjoint(g');
      forall i | 0 <= i < |g| - 1
        ensures g[i].stop <= g[|g| - 1].start
      {
        if i < |g| - 2 {
          assert g'[i].stop <= g'[|g| - 2].start;
        }
      }
    }
  }

  /** With non-negative bursts, the slices of a run are pairwise
      non-overlapping: each ends no later than any later one starts. */
  lemma SlicesDisjoint(order: seq<Process>)
    requires forall i :: 0 <= i < |order| ==> order[i].burst >= 0
    ensures forall i, j :: 0 <= i < j < |order| ==>
              RunInOrder(order).gantt[i].stop <= RunInOrder(order).gantt[j].start
  {
    var st := RunInOrder(order);
    var g := st.gantt;
    RunFacts(order, |order|);
    forall i | 0 <= i < |g|
      ensures g[i].start <= g[i].stop
      ensures i > 0 ==> g[i - 1].stop <= g[i].start
    {
      assert RanAt(order, st, i);
    }
    ChainDisjoint(g);
  }

  /** The CPU is free no earlier than the total burst of what ran. */
  lemma {:induction false} ClockCoversBursts(order: seq<Process>, n: nat)
    requires n <= |order|
    ensures RunUpTo(order, n).clock >= BurstBefore(order, n)
    decreases n
  {
    if n > 0 {
      ClockCoversBursts(order, n - 1);
      var prev := RunUpTo(order, n - 1);
      assert RunUpTo(order, n).clock == Max(prev.clock, order[n - 1].arrival) + order[n - 1].burst;
    }
  }

  /** Process `i` of `order` has arrived by the time the ones before it
      have used their bursts back to back from time zero. */
  predicate ArrivedInTime(order: seq<Process>, i: nat)
    requires i < |order|
  {
    order[i].arrival <= BurstBefore(order, i)
  }

  /** When every process has arrived by the time the ones before it have
      used their bursts, the CPU never idles: the clock is exactly the total
      burst. */
  lemma {:induction false} NoIdleWhenArrived(order: seq<Process>, n: nat)
    requires n <= |order|
    requires forall i :: 0 <= i < n ==> ArrivedInTime(order, i)
    ensures RunUpTo(order, n).clock == BurstBefore(order, n)
    decreases n
  {
    if n > 0 {
      NoIdleWhenArrived(order, n - 1);
      var prev := RunUpTo(order, n - 1);
      var p := order[n - 1];
      assert ArrivedInTime(order, n - 1);
      assert RunUpTo(order, n).clock == Max(prev.clock, p.arrival) + p.burst;
    }
  }

  /** The SJF report lists the processes in non-decreasing order of burst
      duration, each exactly once. */
  lemma ReportSortedByBurst(ps: seq<Process>)
    ensures multiset(Schedule(ps).order) == multiset(ps)
    ensures forall i, j :: 0 <= i < j < |ps| ==>
              Schedule(ps).run.rows[i].burst <= Schedule(ps).run.rows[j].burst
  {
    var r := Schedule(ps);
    forall i, j | 0 <= i < j < |ps|
      ensures r.run.rows[i].burst <= r.run.rows[j].burst
    {
      assert RanAt(r.order, r.run, i) && RanAt(r.order, r.run, j);
    }
  }

  /** Summed over an SJF report, turnaround is waiting time plus the total
      burst of the input. */
  lemma ScheduleTotals(ps: seq<Process>)
    ensures TotalTurnaround(Schedule(ps).run.rows)
            == TotalWait(Schedule(ps).run.rows) + SumBurst(ps)
  {
    var r := Schedule(ps);
    forall i | 0 <= i < |ps|
      ensures Balanced(r.run.rows[i]) && ProcessOf(r.run.rows[i]) == r.order[i]
    {
      assert RanAt(r.order, r.run, i);
    }
    TotalsBalance(r.run.rows);
    TotalBurstOfRows(r.run.rows, r.order);
    SumBurstPermutation(r.order, ps);
  }
}
