/**
 First-come-first-served, exactly as the source computes it: processes run
 in input order, a running service clock advances by each burst, and the
 waiting time is recomputed from the clock only for a process whose arrival
 time is positive; otherwise the previous process's waiting time is reused.
 The waiting time is never clamped at zero.
 */
module Fcfs {
  import opened Processes
  import Sjf

  /** The loop state after some prefix of the input: the service clock, the
      waiting time carried between iterations, and what has been emitted. */
  datatype State = State(serviceTime: int, waitingTime: int,
                         gantt: seq<TimeSlice>, rows: seq<Row>)

  /** One iteration of the source's loop over the processes. The waiting
      time is recomputed from the service clock when the arrival is
      positive and carried over otherwise; the slice starts at arrival plus
      that wait and stops at the advanced service clock; the row keeps
      turnaround = wait + burst and completion = start + burst; everything
      emitted before is kept. */
  function Iteration(st: State, p: Process): (r: State)
    ensures p.arrival > 0 ==> r.waitingTime == st.serviceTime - p.arrival
    ensures p.arrival <= 0 ==> r.waitingTime == st.waitingTime
    ensures r.serviceTime == st.serviceTime + p.burst
    ensures |r.gantt| == |st.gantt| + 1 && |r.rows| == |st.rows| + 1
    ensures r.gantt[|st.gantt|] == TimeSlice(p.id, r.waitingTime + p.arrival, r.serviceTime)
    ensures var row := r.rows[|st.rows|];
            && ProcessOf(row) == p && row.wait == r.waitingTime
            && row.turnaround == row.wait + p.burst
            && row.completion == r.gantt[|st.gantt|].start + p.burst
  {
    var waitingTime := if p.arrival > 0 then st.serviceTime - p.arrival else st.waitingTime;
    var start := waitingTime + p.arrival;
    var turnaround := p.burst + waitingTime;
    var completion := p.burst + p.arrival + waitingTime;
    var serviceTime := st.serviceTime + p.burst;
    var r := State(serviceTime, waitingTime,
                   st.gantt + [TimeSlice(p.id, start, serviceTime)],
                   st.rows + [Row(p.id, p.priority, p.burst, p.arrival, waitingTime, turnaround, completion)]);
    r
  }

  /** An iteration only appends: every slice and row emitted before it is
      kept, in place. */
  lemma IterationKeeps(st: State, p: Process)
    ensures Iteration(st, p).gantt[..|st.gantt|] == st.gantt
    ensures Iteration(st, p).rows[..|st.rows|] == st.rows
  {
  }

  /** Reference definition of the waiting time reported for process `i`:
      the clock minus the arrival when the arrival is positive, otherwise
      the value reported for the process before it (zero for the first). */
  function ExpectedWait(ps: seq<Process>, i: nat): int
    requires i < |ps|
    decreases i
  {
    if ps[i].arrival > 0 then BurstBefore(ps, i) - ps[i].arrival
    else if i == 0 then 0
    else ExpectedWait(ps, i - 1)
  }

  /** The loop after its first `n` iterations. */
  function UpTo(ps: seq<Process>, n: nat): (st: State)
    requires n <= |ps|
    ensures |st.gantt| == n && |st.rows| == n
    ensures st.serviceTime == BurstBefore(ps, n)
    ensures st.waitingTime == if n == 0 then 0 else ExpectedWait(ps, n - 1)
    decreases n
  {
    if n == 0 then State(0, 0, [], [])
    else Iteration(UpTo(ps, n - 1), ps[n - 1])
  }

  /** Slice and row `i` of `st` are the ones the source emits for process
      `i`: they carry the reference waiting time, the slice starts at
      arrival plus that wait and stops at the service clock after `i + 1`
      bursts, and the row keeps turnaround = wait + burst and completion =
      start + burst. */
  predicate EmittedAt(ps: seq<Process>, st: State, i: nat)
    requires i < |ps| && i < |st.gantt| && i < |st.rows|
  {
    && st.gantt[i].pid == ps[i].id
    && ProcessOf(st.rows[i]) == ps[i]
    && st.rows[i].wait == ExpectedWait(ps, i)
    && st.gantt[i].start == ExpectedWait(ps, i) + ps[i].arrival
    && st.gantt[i].stop == BurstBefore(ps, i + 1)
    && Balanced(st.rows[i])
    && st.rows[i].completion == st.gantt[i].start + ps[i].burst
  }

  /** The first `n` iterations emit, for each process in input order, the
      slice and row `EmittedAt` describes. */
  lemma {:induction false} UpToFacts(ps: seq<Process>, n: nat)
    requires n <= |ps|
    ensures forall i :: 0 <= i < n ==> EmittedAt(ps, UpTo(ps, n), i)
    decreases n
  {
    if n > 0 {
      UpToFacts(ps, n - 1);
      var prev := UpTo(ps, n - 1);
      var st := UpTo(ps, n);
      assert st == Iteration(prev, ps[n - 1]);
      forall i | 0 <= i < n
        ensures EmittedAt(ps, st, i)
      {
        if i < n - 1 {
          assert EmittedAt(ps, prev, i);
          assert st.gantt[i] == prev.gantt[i] && st.rows[i] == prev.rows[i];
        }
      }
    }
  }

  /** The whole FCFS run: one slice and one row per process, in input
      order; the service clock ends at the total burst. */
  function Schedule(ps: seq<Process>): (st: State)
    ensures |st.gantt| == |ps| && |st.rows| == |ps|
    ensures st.serviceTime == SumBurst(ps)
    ensures forall i :: 0 <= i < |ps| ==> EmittedAt(ps, st, i)
  {
    BurstBeforeIsSum(ps, |ps|);
    assert ps[..|ps|] == ps;
    UpToFacts(ps, |ps|);
    UpTo(ps, |ps|)
  }

  /** Summed over an FCFS report, turnaround is waiting time plus the total
      burst of the input. */
  lemma ScheduleTotals(ps: seq<Process>)
    ensures TotalTurnaround(Schedule(ps).rows) == TotalWait(Schedule(ps).rows) + SumBurst(ps)
  {
    var st := Schedule(ps);
    forall i | 0 <= i < |ps|
      ensures Balanced(st.rows[i]) && ProcessOf(st.rows[i]) == ps[i]
    {
      assert EmittedAt(ps, st, i);
    }
    TotalsBalance(st.rows);
    TotalBurstOfRows(st.rows, ps);
  }

  /** When every arrival is positive the carry-over never fires: each slice
      starts exactly when the previous one stops (the first at time zero)
      and lasts exactly its burst. */
  lemma ContiguousWhenArrivalsPositive(ps: seq<Process>)
    requires forall i :: 0 <= i < |ps| ==> ps[i].arrival > 0
    ensures forall i :: 0 <= i < |ps| ==>
              && Schedule(ps).gantt[i].start == (if i == 0 then 0 else Schedule(ps).gantt[i - 1].stop)
              && Schedule(ps).gantt[i].stop - Schedule(ps).gantt[i].start == ps[i].burst
  {
    var st := Schedule(ps);
    var g := st.gantt;
    forall i | 0 <= i < |ps|
      ensures && Schedule(ps).gantt[i].start == (if i == 0 then 0 else Schedule(ps).gantt[i - 1].stop)
              && Schedule(ps).gantt[i].stop - Schedule(ps).gantt[i].start == ps[i].burst
    {
      assert EmittedAt(ps, st, i);
      assert ExpectedWait(ps, i) == BurstBefore(ps, i) - ps[i].arrival;
      assert g[i].stop == BurstBefore(ps, i) + ps[i].burst;
      if i > 0 {
        assert EmittedAt(ps, st, i - 1);
      }
    }
  }

  /** The run the source evidently intends: waiting time recomputed from
      the clock for every process and clamped at zero. It is the same
      sequential runner the SJF scheduler uses, applied to the unsorted
      input. */
  function Corrected(ps: seq<Process>): (st: Sjf.State)
    ensures |st.gantt| == |ps| && |st.rows| == |ps|
  {
    Sjf.RunInOrder(ps)
  }

  /** The corrected run keeps input order, never reports a negative wait,
      never starts a process before it arrives or before the previous slice
      stops, gives every slice exactly its burst, and keeps
      turnaround = wait + burst. */
  lemma CorrectedIsSound(ps: seq<Process>)
    ensures var st := Corrected(ps);
            && (forall i :: 0 <= i < |ps| ==>
                  && st.gantt[i].pid == ps[i].id
                  && ProcessOf(st.rows[i]) == ps[i]
                  && st.rows[i].wait >= 0
                  && st.gantt[i].start >= ps[i].arrival
                  && st.gantt[i].stop - st.gantt[i].start == ps[i].burst
                  && Balanced(st.rows[i]))
            && (forall i, j :: 0 <= i && j == i + 1 && j < |ps| ==>
                  st.gantt[i].stop <= st.gantt[j].start)
  {
    var st := Corrected(ps);
    Sjf.RunFacts(ps, |ps|);
    forall i | 0 <= i < |ps|
      ensures && st.gantt[i].pid == ps[i].id
              && ProcessOf(st.rows[i]) == ps[i]
              && st.rows[i].wait >= 0
              && st.gantt[i].start >= ps[i].arrival
              && st.gantt[i].stop - st.gantt[i].start == ps[i].burst
              && Balanced(st.rows[i])
      ensures i + 1 < |ps| ==> st.gantt[i].stop <= st.gantt[i + 1].start
    {
      assert Sjf.RanAt(ps, st, i);
      if i + 1 < |ps| {
        assert Sjf.RanAt(ps, st, i + 1);
      }
    }
  }

  /** One iteration of the source's loop and one of the corrected runner
      emit the same slice and row when the process has arrived by the time
      the CPU is free and, should the carry-over fire, the carried wait is
      the one recomputing would give. */
  lemma IterationAgrees(f: State, s: Sjf.State, p: Process)
    requires f.gantt == s.gantt && f.rows == s.rows && f.serviceTime == s.clock
    requires p.arrival <= f.serviceTime
    requires p.arrival > 0 || f.waitingTime == f.serviceTime - p.arrival
    ensures Iteration(f, p).gantt == Sjf.Iteration(s, p).gantt
    ensures Iteration(f, p).rows == Sjf.Iteration(s, p).rows
    ensures Iteration(f, p).serviceTime == Sjf.Iteration(s, p).clock
  {
  }

  /** When the first process arrives at time zero and every later one has a
      positive arrival no later than the moment the CPU frees up for it, the
      source's FCFS and the corrected run produce the same trace and report. */
  lemma {:induction false} AgreesWithCorrected(ps: seq<Process>, n: nat)
    requires n <= |ps|
    requires |ps| > 0 ==> ps[0].arrival == 0
    requires forall i :: 0 < i < |ps| ==> 0 < ps[i].arrival <= BurstBefore(ps, i)
    ensures UpTo(ps, n).gantt == Sjf.RunUpTo(ps, n).gantt
    ensures UpTo(ps, n).rows == Sjf.RunUpTo(ps, n).rows
    ensures UpTo(ps, n).serviceTime == Sjf.RunUpTo(ps, n).clock
    decreases n
  {
    if n > 0 {
      AgreesWithCorrected(ps, n - 1);
      var f := UpTo(ps, n - 1);
      var s := Sjf.RunUpTo(ps, n - 1);
      var p := ps[n - 1];
      Sjf.RunFacts(ps, n - 1);
      if n - 1 > 0 {
        assert 0 < p.arrival <= BurstBefore(ps, n - 1);
      }
      IterationAgrees(f, s, p);
    }
  }

  /** Two processes that both arrive at time 0, A before B. */
  function CarryOverInput(): seq<Process>
  {
    [Process("A", 0, 5, 0), Process("B", 0, 3, 0)]
  }

  /** The source's two iterations on `CarryOverInput`. */
  lemma CarryOverSteps()
    ensures UpTo(CarryOverInput(), 2).gantt == [TimeSlice("A", 0, 5), TimeSlice("B", 0, 8)]
    ensures UpTo(CarryOverInput(), 2).rows[1].wait == 0
    ensures UpTo(CarryOverInput(), 2).rows[1].completion == 3
    ensures Schedule(CarryOverInput()) == UpTo(CarryOverInput(), 2)
  {
  }

  /** The carry-over quirk: B's waiting time is not recomputed but carried
      over from A (zero), so B's slice starts at 0, while A still holds the
      CPU, and stops at the service clock 8: it lasts 8 units for a burst
      of 3, and the row reports a completion of 3 with no wait. */
  lemma CarryOverOverlaps()
    ensures var ps := CarryOverInput();
            && Schedule(ps).gantt == [TimeSlice("A", 0, 5), TimeSlice("B", 0, 8)]
            && Schedule(ps).rows[1].wait == 0
            && Schedule(ps).rows[1].completion == 3
            && Schedule(ps).gantt[1].start < Schedule(ps).gantt[0].stop
            && Schedule(ps).gantt[1].stop - Schedule(ps).gantt[1].start != ps[1].burst
  {
    CarryOverSteps();
  }

  /** On the same input the corrected run starts B when A finishes, at 5,
      and reports that B waited 5 units. */
  lemma CarryOverCorrected()
    ensures var ps := CarryOverInput();
            && Corrected(ps).gantt == [TimeSlice("A", 0, 5), TimeSlice("B", 5, 8)]
            && Corrected(ps).rows[1].wait == 5
  {
    var ps := CarryOverInput();
    var c := Corrected(ps);
    assert Sjf.RanAt(ps, c, 0);
    assert Sjf.RanAt(ps, c, 1);
    assert c.gantt == [c.gantt[0], c.gantt[1]];
  }

  /** The source's single iteration on a process arriving at 5. */
  lemma LateArrivalStep()
    ensures UpTo([Process("A", 5, 2, 0)], 1)
            == State(2, -5, [TimeSlice("A", 0, 2)], [Row("A", 0, 2, 5, -5, -3, 2)])
  {
    assert Iteration(State(0, 0, [], []), Process("A", 5, 2, 0))
           == State(2, -5, [TimeSlice("A", 0, 2)], [Row("A", 0, 2, 5, -5, -3, 2)]);
  }

  /** The corrected run's single iteration on a process arriving at 5. */
  lemma LateArrivalCorrectedStep()
    ensures Sjf.RunUpTo([Process("A", 5, 2, 0)], 1)
            == Sjf.State(7, [TimeSlice("A", 5, 7)], [Row("A", 0, 2, 5, 0, 2, 7)])
  {
    assert Sjf.Iteration(Sjf.State(0, [], []), Process("A", 5, 2, 0))
           == Sjf.State(7, [TimeSlice("A", 5, 7)], [Row("A", 0, 2, 5, 0, 2, 7)]);
  }

  /** The missing clamp: a process arriving after the CPU is free gets a
      negative waiting time and a slice that starts before it arrives. */
  lemma RunsBeforeArrival()
    ensures var ps := [Process("A", 5, 2, 0)];
            && Schedule(ps).rows[0].wait == -5
            && Schedule(ps).gantt[0] == TimeSlice("A", 0, 2)
            && Schedule(ps).gantt[0].start < ps[0].arrival
            && Corrected(ps).rows[0].wait == 0
            && Corrected(ps).gantt[0] == TimeSlice("A", 5, 7)
  {
    LateArrivalStep();
    LateArrivalCorrectedStep();
  }

  /** A worked run: A(0,5), B(1,3), C(2,1) in input order wait 0, 4 and 6
      and run 0-5, 5-8, 8-9. */
  lemma ExampleRun()
    ensures var ps := [Process("A", 0, 5, 1), Process("B", 1, 3, 2), Process("C", 2, 1, 3)];
            && Schedule(ps).gantt == [TimeSlice("A", 0, 5), TimeSlice("B", 5, 8), TimeSlice("C", 8, 9)]
            && Schedule(ps).rows[0].wait == 0
            && Schedule(ps).rows[1].wait == 4
            && Schedule(ps).rows[2].wait == 6
  {
  }
}
