/**
 Shortest-job-first with a priority tie-break, arrival-aware and
 non-preemptive. The processes are first ordered by arrival time. Then, at
 each decision point, the ready list is rebuilt from the processes not yet
 completed that have arrived by the current time; if it is empty the clock
 advances by one idle tick, otherwise the process with the shortest burst
 (ties broken by the smaller priority value) runs to completion and is
 marked completed.
 */
module SjfPriority {
  import opened Processes
  import opened Sorting

  datatype Option<T> = None | Some(value: T)

  /** The loop state: which processes (by index in the arrival-sorted list)
      are completed, the current time, the indices run so far in the order
      they ran, and the report row emitted for each. */
  datatype State = State(done: seq<bool>, clock: int, picks: seq<nat>, rows: seq<Row>)

  /** Process `i` is ready at `clock`: not completed and already arrived. */
  predicate Ready(ps: seq<Process>, done: seq<bool>, clock: int, i: int) {
    0 <= i < |ps| && i < |done| && !done[i] && ps[i].arrival <= clock
  }

  /** The ready list's comparator: shorter burst first, and for equal bursts
      the smaller priority value first. */
  predicate Less(a: Process, b: Process) {
    if a.burst == b.burst then a.priority < b.priority else a.burst < b.burst
  }

  /** `a` is at least as good a choice as `b`: its burst is no longer, and
      when the bursts are equal its priority value is no larger. */
  predicate NoWorse(a: Process, b: Process) {
    a.burst <= b.burst && (a.burst == b.burst ==> a.priority <= b.priority)
  }

  /** The indices among the first `n` that are ready, in increasing order:
      the source's filtering pass over the process list. */
  function Available(ps: seq<Process>, done: seq<bool>, clock: int, n: nat): (r: seq<nat>)
    requires |done| == |ps| && n <= |ps|
    ensures forall i :: i in r <==> i < n && Ready(ps, done, clock, i)
    ensures forall k :: 0 <= k < |r| ==> r[k] < n
    ensures forall k, l :: 0 <= k < l < |r| ==> r[k] < r[l]
    decreases n
  {
    if n == 0 then []
    else
      var r := Available(ps, done, clock, n - 1);
      if !done[n - 1] && ps[n - 1].arrival <= clock then r + [n - 1] else r
  }

  /** The head of the ready list once it is sorted with `Less`: an index no
      other ready index sorts strictly before. Among exact ties the one
      listed first is kept. */
  function Best(ps: seq<Process>, avail: seq<nat>): (i: nat)
    requires |avail| > 0
    requires forall k :: 0 <= k < |avail| ==> avail[k] < |ps|
    ensures i in avail
    ensures forall k :: 0 <= k < |avail| ==> !Less(ps[avail[k]], ps[i])
    decreases |avail|
  {
    if |avail| == 1 then avail[0]
    else
      var b := Best(ps, avail[1..]);
      if Less(ps[b], ps[avail[0]]) then b else avail[0]
  }

  /** The row reported for process `p` when it is dispatched at `clock`:
      it describes `p`, starts at `clock`, reports the delay since arrival
      as the wait and keeps turnaround = wait + burst. */
  function RowFor(p: Process, clock: int): (r: Row)
    ensures ProcessOf(r) == p && r.completion == clock + p.burst
    ensures r.wait == clock - p.arrival && r.turnaround == r.wait + p.burst
  {
    var waitTime := clock - p.arrival;
    var turnaroundTime := waitTime + p.burst;
    Row(p.id, p.priority, p.burst, p.arrival, waitTime, turnaroundTime, clock + p.burst)
  }

  /** The dispatch time of a row: its completion minus its burst. */
  function Start(r: Row): int {
    r.completion - r.burst
  }

  /** The time the CPU was released before the `k`-th dispatch: the
      completion of the previous row, or zero before the first. */
  function FreeAt(rows: seq<Row>, k: nat): int
    requires k <= |rows|
  {
    if k == 0 then 0 else rows[k - 1].completion
  }

  /** No process is ready: the clock advances by one tick and nothing else
      changes. */
  function Idle(st: State): (r: State)
    ensures r.clock == st.clock + 1
    ensures r.done == st.done && r.picks == st.picks && r.rows == st.rows
  {
    st.(clock := st.clock + 1)
  }

  /** Runs process `i` to completion: it alone is marked completed, it is
      appended to the picks, its row is appended (starting at the current
      time), and the clock moves to the row's completion. */
  function Dispatch(ps: seq<Process>, st: State, i: nat): (r: State)
    requires i < |ps| && |st.done| == |ps|
    ensures |r.done| == |ps| && r.done[i]
    ensures forall j :: 0 <= j < |ps| && j != i ==> r.done[j] == st.done[j]
    ensures r.picks == st.picks + [i]
    ensures |r.rows| == |st.rows| + 1
    ensures ProcessOf(r.rows[|st.rows|]) == ps[i]
    ensures r.rows[|st.rows|].completion == st.clock + ps[i].burst
    ensures r.clock == r.rows[|st.rows|].completion
  {
    var row := RowFor(ps[i], st.clock);
    State(st.done[i := true], st.clock + ps[i].burst, st.picks + [i], st.rows + [row])
  }

  /** Dispatching only appends: every row reported before it is kept, in
      place. */
  lemma DispatchKeeps(ps: seq<Process>, st: State, i: nat)
    requires i < |ps| && |st.done| == |ps|
    ensures Dispatch(ps, st, i).rows[..|st.rows|] == st.rows
  {
  }

  /** The head of the ready list is ready and no worse than any ready
      process. */
  lemma BestIsNoWorse(ps: seq<Process>, st: State, avail: seq<nat>)
    requires |st.done| == |ps| && avail == Available(ps, st.done, st.clock, |ps|)
    requires |avail| > 0
    ensures Ready(ps, st.done, st.clock, Best(ps, avail))
    ensures forall j :: Ready(ps, st.done, st.clock, j) ==> NoWorse(ps[Best(ps, avail)], ps[j])
  {
    var i := Best(ps, avail);
    forall j | Ready(ps, st.done, st.clock, j)
      ensures NoWorse(ps[i], ps[j])
    {
      assert j in avail;
      var k :| 0 <= k < |avail| && avail[k] == j;
      assert !Less(ps[avail[k]], ps[i]);
    }
  }

  /** One pass of the source's loop: rebuild the ready list; idle a tick if
      it is empty, otherwise run its head once sorted. The pass idles
      exactly when no process is ready; otherwise it dispatches a ready
      process that is no worse than any other ready process. */
  function Step(ps: seq<Process>, st: State): (r: State)
    requires |st.done| == |ps|
    ensures (forall j :: !Ready(ps, st.done, st.clock, j)) <==> r == Idle(st)
    ensures r != Idle(st) ==>
              && |r.picks| == |st.picks| + 1
              && var i := r.picks[|st.picks|];
                 && Ready(ps, st.done, st.clock, i)
                 && (forall j :: Ready(ps, st.done, st.clock, j) ==> NoWorse(ps[i], ps[j]))
                 && r == Dispatch(ps, st, i)
  {
    var avail := Available(ps, st.done, st.clock, |ps|);
    if |avail| == 0 then
      assert avail == [];
      Idle(st)
    else
      var i := Best(ps, avail);
      BestIsNoWorse(ps, st, avail);
      var r := Dispatch(ps, st, i);
      assert r.picks[|st.picks|] == i;
      assert |r.picks| != |st.picks|;
      r
  }

  /** Number of processes not yet completed. */
  function CountUndone(done: seq<bool>): nat
    decreases |done|
  {
    if |done| == 0 then 0
    else CountUndone(done[..|done| - 1]) + (if done[|done| - 1] then 0 else 1)
  }

  /** Total burst of the processes not yet completed. */
  function UndoneBurst(ps: seq<Process>, done: seq<bool>): int
    requires |done| == |ps|
    decreases |ps|
  {
    if |ps| == 0 then 0
    else UndoneBurst(ps[..|ps| - 1], done[..|done| - 1])
         + (if done[|done| - 1] then 0 else ps[|ps| - 1].burst)
  }

  /** Earliest arrival among the processes not yet completed, if any. */
  function MinUndoneArrival(ps: seq<Process>, done: seq<bool>): (m: Option<int>)
    requires |done| == |ps|
    ensures m.None? ==> forall j :: 0 <= j < |ps| ==> done[j]
    ensures m.Some? ==> forall j :: 0 <= j < |ps| && !done[j] ==> ps[j].arrival >= m.value
    ensures m.Some? ==> exists j :: 0 <= j < |ps| && !done[j] && ps[j].arrival == m.value
    decreases |ps|
  {
    if |ps| == 0 then None
    else
      var n := |ps| - 1;
      var m := MinUndoneArrival(ps[..n], done[..n]);
      if done[n] then m
      else if m.Some? && m.value <= ps[n].arrival then m
      else Some(ps[n].arrival)
  }

  /** Idle ticks left before the earliest pending arrival: the second
      component of the loop's termination measure. */
  function Gap(ps: seq<Process>, st: State): nat
    requires |st.done| == |ps|
  {
    match MinUndoneArrival(ps, st.done)
    case None => 0
    case Some(m) => if m > st.clock then m - st.clock else 0
  }

  /** Bookkeeping: the completed processes are exactly those run so far,
      each run once, one row per run, and the count of pending ones
      matches. */
  predicate Tracks(ps: seq<Process>, done: seq<bool>, picks: seq<nat>, rows: seq<Row>) {
    && |done| == |ps|
    && |rows| == |picks|
    && (forall k :: 0 <= k < |picks| ==> picks[k] < |ps| && done[picks[k]])
    && (forall i :: 0 <= i < |ps| && done[i] ==> i in picks)
    && (forall k, l :: 0 <= k < l < |picks| ==> picks[k] != picks[l])
    && CountUndone(done) == |ps| - |picks|
  }

  /** The bursts reported plus the bursts still pending make up the total. */
  predicate Accounted(ps: seq<Process>, done: seq<bool>, rows: seq<Row>)
    requires |done| == |ps|
  {
    TotalBurst(rows) + UndoneBurst(ps, done) == SumBurst(ps)
  }

  /** Row `k` reports process `picks[k]` dispatched at the row's start, no
      earlier than time zero and than the previous row's completion, and
      after the process arrived. */
  predicate RowAt(ps: seq<Process>, picks: seq<nat>, rows: seq<Row>, k: int) {
    (0 <= k < |picks| && k < |rows| && picks[k] < |ps|) ==>
      && rows[k] == RowFor(ps[picks[k]], Start(rows[k]))
      && rows[k].wait >= 0
      && (k == 0 ==> Start(rows[k]) >= 0)
      && (k > 0 ==> rows[k - 1].completion <= Start(rows[k]))
  }

  /** Every row is reported as `RowAt` describes. */
  predicate Reported(ps: seq<Process>, picks: seq<nat>, rows: seq<Row>) {
    forall k | 0 <= k < |picks| :: RowAt(ps, picks, rows, k)
  }

  /** The `k`-th choice was no worse than process `j`, if `j` had arrived by
      the choice's start and had not run before it. */
  predicate ChoseBest(ps: seq<Process>, picks: seq<nat>, rows: seq<Row>, k: int, j: int) {
    (0 <= k < |picks| && k < |rows| && picks[k] < |ps| && 0 <= j < |ps|
     && j !in picks[..k] && ps[j].arrival <= Start(rows[k]))
    ==> NoWorse(ps[picks[k]], ps[j])
  }

  /** Each choice was no worse than any process that had arrived by its
      start and had not run before it. */
  predicate ChoicesBest(ps: seq<Process>, picks: seq<nat>, rows: seq<Row>) {
    forall k, j | 0 <= k < |picks| && 0 <= j < |ps| :: ChoseBest(ps, picks, rows, k, j)
  }

  /** If the CPU idled before the `k`-th dispatch, process `j` had already
      run or had not arrived by the dispatch. */
  predicate WaitedFor(ps: seq<Process>, picks: seq<nat>, rows: seq<Row>, k: int, j: int) {
    (0 <= k < |rows| && k <= |picks| && 0 <= j < |ps| && j !in picks[..k]
     && Start(rows[k]) > FreeAt(rows, k))
    ==> ps[j].arrival >= Start(rows[k])
  }

  /** The CPU idled before a dispatch only while no process that had not run
      yet had arrived. */
  predicate IdleJustified(ps: seq<Process>, picks: seq<nat>, rows: seq<Row>) {
    forall k, j | 0 <= k < |rows| && 0 <= j < |ps| :: WaitedFor(ps, picks, rows, k, j)
  }

  /** If the CPU has been idle since the last completion, no pending process
      has arrived yet; and the clock is not behind the last completion. */
  predicate IdleNow(ps: seq<Process>, done: seq<bool>, rows: seq<Row>, clock: int)
    requires |done| == |ps|
  {
    && clock >= FreeAt(rows, |rows|)
    && (clock > FreeAt(rows, |rows|) ==>
          forall j :: 0 <= j < |ps| && !done[j] ==> ps[j].arrival >= clock)
  }

  /** What holds at the head of every pass of the loop. */
  predicate Inv(ps: seq<Process>, st: State) {
    && Tracks(ps, st.done, st.picks, st.rows)
    && Accounted(ps, st.done, st.rows)
    && Reported(ps, st.picks, st.rows)
    && ChoicesBest(ps, st.picks, st.rows)
    && IdleJustified(ps, st.picks, st.rows)
    && IdleNow(ps, st.done, st.rows, st.clock)
  }

  // Counting lemmas for the termination measure and the burst total.

  lemma {:induction false} CountUndoneMark(done: seq<bool>, i: nat)
    requires i < |done| && !done[i]
    ensures CountUndone(done[i := true]) == CountUndone(done) - 1
    decreases |done|
  {
    var n := |done| - 1;
    assert done[i := true][..n] == if i < n then done[..n][i := true] else done[..n];
    if i < n {
      CountUndoneMark(done[..n], i);
    }
  }

  lemma {:induction false} CountUndonePositive(done: seq<bool>)
    requires CountUndone(done) > 0
    ensures exists j :: 0 <= j < |done| && !done[j]
    decreases |done|
  {
    var n := |done| - 1;
    if done[n] {
      CountUndonePositive(done[..n]);
      var j :| 0 <= j < n && !done[..n][j];
      assert !done[j];
    }
  }

  lemma {:induction false} CountUndoneZero(done: seq<bool>)
    requires CountUndone(done) == 0
    ensures forall j :: 0 <= j < |done| ==> done[j]
    decreases |done|
  {
    if |done| > 0 {
      CountUndoneZero(done[..|done| - 1]);
      forall j | 0 <= j < |done|
        ensures done[j]
      {
        if j < |done| - 1 {
          assert done[..|done| - 1][j];
        }
      }
    }
  }

  lemma {:induction false} CountUndoneNone(done: seq<bool>)
    ensures CountUndone(seq(|done|, _ => false)) == |done|
    decreases |done|
  {
    if |done| > 0 {
      CountUndoneNone(done[..|done| - 1]);
      assert seq(|done|, _ => false)[..|done| - 1] == seq(|done| - 1, _ => false);
    }
  }

  lemma {:induction false} UndoneBurstMark(ps: seq<Process>, done: seq<bool>, i: nat)
    requires |done| == |ps| && i < |done| && !done[i]
    ensures UndoneBurst(ps, done[i := true]) == UndoneBurst(ps, done) - ps[i].burst
    decreases |ps|
  {
    var n := |ps| - 1;
    assert done[i := true][..n] == if i < n then done[..n][i := true] else done[..n];
    if i < n {
      UndoneBurstMark(ps[..n], done[..n], i);
    }
  }

  lemma {:induction false} UndoneBurstNone(ps: seq<Process>)
    ensures UndoneBurst(ps, seq(|ps|, _ => false)) == SumBurst(ps)
    decreases |ps|
  {
    if |ps| > 0 {
      UndoneBurstNone(ps[..|ps| - 1]);
      assert seq(|ps|, _ => false)[..|ps| - 1] == seq(|ps| - 1, _ => false);
    }
  }

  lemma {:induction false} UndoneBurstAll(ps: seq<Process>, done: seq<bool>)
    requires |done| == |ps|
    requires forall j :: 0 <= j < |done| ==> done[j]
    ensures UndoneBurst(ps, done) == 0
    decreases |ps|
  {
    if |ps| > 0 {
      UndoneBurstAll(ps[..|ps| - 1], done[..|done| - 1]);
    }
  }

  lemma TotalBurstAppend(rows: seq<Row>, r: Row)
    ensures TotalBurst(rows + [r]) == TotalBurst(rows) + r.burst
  {
  }

  // The loop invariant is established and kept.

  /** The picks are indices of `ps`, one row each, and as many processes are
      pending as have not been picked: all the loop's exit test relies on. */
  predicate Counted(ps: seq<Process>, st: State) {
    && |st.done| == |ps| && |st.rows| == |st.picks| <= |ps|
    && (forall k :: 0 <= k < |st.picks| ==> st.picks[k] < |ps|)
    && CountUndone(st.done) == |ps| - |st.picks|
  }

  /** The state the loop starts from: nothing completed, time zero. */
  function Initial(ps: seq<Process>): (st: State)
    ensures Counted(ps, st) && |st.picks| == 0 && |st.rows| == 0
    ensures st.clock == 0 && forall j :: 0 <= j < |ps| ==> !st.done[j]
  {
    CountUndoneNone(seq(|ps|, _ => false));
    State(seq(|ps|, _ => false), 0, [], [])
  }

  lemma InitialInv(ps: seq<Process>)
    ensures Inv(ps, Initial(ps))
  {
    UndoneBurstNone(ps);
  }

  lemma IdlePreservesInv(ps: seq<Process>, st: State)
    requires Inv(ps, st)
    requires forall j :: !Ready(ps, st.done, st.clock, j)
    ensures Inv(ps, Idle(st))
  {
    forall j | 0 <= j < |ps| && !st.done[j]
      ensures ps[j].arrival >= st.clock + 1
    {
      assert !Ready(ps, st.done, st.clock, j);
    }
  }

  lemma DispatchTracks(ps: seq<Process>, st: State, i: nat)
    requires Tracks(ps, st.done, st.picks, st.rows) && i < |ps| && !st.done[i]
    ensures var st' := Dispatch(ps, st, i); Tracks(ps, st'.done, st'.picks, st'.rows)
  {
    var st' := Dispatch(ps, st, i);
    assert i !in st.picks;
    CountUndoneMark(st.done, i);
    forall j | 0 <= j < |ps| && st'.done[j]
      ensures j in st'.picks
    {
      if j != i {
        assert j in st.picks;
      }
    }
  }

  lemma DispatchAccounted(ps: seq<Process>, st: State, i: nat)
    requires |st.done| == |ps| && Accounted(ps, st.done, st.rows) && i < |ps| && !st.done[i]
    ensures var st' := Dispatch(ps, st, i); Accounted(ps, st'.done, st'.rows)
  {
    UndoneBurstMark(ps, st.done, i);
    TotalBurstAppend(st.rows, RowFor(ps[i], st.clock));
  }

  lemma DispatchReported(ps: seq<Process>, st: State, i: nat)
    requires Tracks(ps, st.done, st.picks, st.rows) && Reported(ps, st.picks, st.rows)
    requires IdleNow(ps, st.done, st.rows, st.clock) && Ready(ps, st.done, st.clock, i)
    ensures var st' := Dispatch(ps, st, i); Reported(ps, st'.picks, st'.rows)
  {
    var st' := Dispatch(ps, st, i);
    var n := |st.picks|;
    forall k | 0 <= k < |st'.picks|
      ensures RowAt(ps, st'.picks, st'.rows, k)
    {
      if k < n {
        assert RowAt(ps, st.picks, st.rows, k);
        assert st'.rows[k] == st.rows[k] && st'.picks[k] == st.picks[k];
        if k > 0 {
          assert st'.rows[k - 1] == st.rows[k - 1];
        }
      } else {
        assert st'.rows[n] == RowFor(ps[i], st.clock);
        if n > 0 {
          assert st'.rows[n - 1] == st.rows[n - 1];
        }
      }
    }
  }

  lemma DispatchChoices(ps: seq<Process>, st: State, i: nat)
    requires Tracks(ps, st.done, st.picks, st.rows) && ChoicesBest(ps, st.picks, st.rows)
    requires Ready(ps, st.done, st.clock, i)
    requires forall j :: Ready(ps, st.done, st.clock, j) ==> NoWorse(ps[i], ps[j])
    ensures var st' := Dispatch(ps, st, i); ChoicesBest(ps, st'.picks, st'.rows)
  {
    var st' := Dispatch(ps, st, i);
    var n := |st.picks|;
    forall k, j | 0 <= k < |st'.picks| && 0 <= j < |ps|
      ensures ChoseBest(ps, st'.picks, st'.rows, k, j)
    {
      if k < n {
        assert ChoseBest(ps, st.picks, st.rows, k, j);
        assert st'.picks[..k] == st.picks[..k];
        assert st'.rows[k] == st.rows[k] && st'.picks[k] == st.picks[k];
      } else if j !in st'.picks[..k] && ps[j].arrival <= Start(st'.rows[k]) {
        assert st'.picks[..k] == st.picks;
        assert Start(st'.rows[n]) == st.clock;
        assert j !in st.picks;
        assert Ready(ps, st.done, st.clock, j);
      }
    }
  }

  /** Dispatching keeps every idle period justified, the new one included,
      and leaves the CPU busy up to the clock: the clock is where the new
      row completes. */
  lemma DispatchIdle(ps: seq<Process>, st: State, i: nat)
    requires Tracks(ps, st.done, st.picks, st.rows) && IdleJustified(ps, st.picks, st.rows)
    requires IdleNow(ps, st.done, st.rows, st.clock) && Ready(ps, st.done, st.clock, i)
    ensures var st' := Dispatch(ps, st, i); IdleJustified(ps, st'.picks, st'.rows)
    ensures var st' := Dispatch(ps, st, i); st'.clock == FreeAt(st'.rows, |st'.rows|)
  {
    var st' := Dispatch(ps, st, i);
    var n := |st.picks|;
    forall k, j | 0 <= k < |st'.rows| && 0 <= j < |ps|
      ensures WaitedFor(ps, st'.picks, st'.rows, k, j)
    {
      if k < n {
        assert WaitedFor(ps, st.picks, st.rows, k, j);
        assert st'.picks[..k] == st.picks[..k];
        assert st'.rows[k] == st.rows[k];
        assert FreeAt(st'.rows, k) == FreeAt(st.rows, k);
      } else if j !in st'.picks[..k] && Start(st'.rows[k]) > FreeAt(st'.rows, k) {
        assert st'.picks[..k] == st.picks;
        assert Start(st'.rows[n]) == st.clock;
        assert FreeAt(st'.rows, n) == FreeAt(st.rows, n);
        assert j !in st.picks;
      }
    }
  }

  lemma DispatchPreservesInv(ps: seq<Process>, st: State, i: nat)
    requires Inv(ps, st)
    requires Ready(ps, st.done, st.clock, i)
    requires forall j :: Ready(ps, st.done, st.clock, j) ==> NoWorse(ps[i], ps[j])
    ensures Inv(ps, Dispatch(ps, st, i))
  {
    DispatchTracks(ps, st, i);
    DispatchAccounted(ps, st, i);
    DispatchReported(ps, st, i);
    DispatchChoices(ps, st, i);
    DispatchIdle(ps, st, i);
  }

  lemma StepPreservesInv(ps: seq<Process>, st: State)
    requires Inv(ps, st)
    ensures Inv(ps, Step(ps, st))
  {
    var r := Step(ps, st);
    if r == Idle(st) {
      IdlePreservesInv(ps, st);
    } else {
      DispatchPreservesInv(ps, st, r.picks[|st.picks|]);
    }
  }

  /** An idle tick with processes still pending brings the earliest pending
      arrival one tick closer. */
  lemma IdleShrinksGap(ps: seq<Process>, st: State)
    requires |st.done| == |ps| && CountUndone(st.done) > 0
    requires forall j :: !Ready(ps, st.done, st.clock, j)
    ensures Gap(ps, Idle(st)) < Gap(ps, st)
  {
    CountUndonePositive(st.done);
    var j :| 0 <= j < |st.done| && !st.done[j];
    assert !Ready(ps, st.done, st.clock, j);
    var m := MinUndoneArrival(ps, st.done);
    var w :| 0 <= w < |ps| && !st.done[w] && ps[w].arrival == m.value;
    assert !Ready(ps, st.done, st.clock, w);
  }

  lemma StepCounted(ps: seq<Process>, st: State)
    requires Counted(ps, st)
    ensures Counted(ps, Step(ps, st))
  {
    var r := Step(ps, st);
    if r != Idle(st) {
      CountUndoneMark(st.done, r.picks[|st.picks|]);
    }
  }

  /** Each pass makes progress: it either completes a process, or idles
      one tick closer to the earliest pending arrival. */
  lemma StepProgresses(ps: seq<Process>, st: State)
    requires Counted(ps, st) && |st.picks| < |ps|
    ensures var r := Step(ps, st);
            || |r.picks| == |st.picks| + 1
            || (|r.picks| == |st.picks| && Gap(ps, r) < Gap(ps, st))
  {
    if Step(ps, st) == Idle(st) {
      IdleShrinksGap(ps, st);
    }
  }

  /** The source's main loop: passes until every process has completed. */
  function Loop(ps: seq<Process>, st: State): (r: State)
    requires Counted(ps, st)
    ensures Counted(ps, r) && |r.picks| == |ps|
    decreases |ps| - |st.picks|, Gap(ps, st)
  {
    if |st.picks| >= |ps| then st
    else
      StepCounted(ps, st);
      StepProgresses(ps, st);
      Loop(ps, Step(ps, st))
  }

  /** The loop keeps its invariant to the end. */
  lemma {:induction false} LoopKeepsInv(ps: seq<Process>, st: State)
    requires Inv(ps, st)
    ensures Inv(ps, Loop(ps, st))
    decreases |ps| - |st.picks|, Gap(ps, st)
  {
    if |st.picks| < |ps| {
      StepCounted(ps, st);
      StepProgresses(ps, st);
      StepPreservesInv(ps, st);
      LoopKeepsInv(ps, Step(ps, st));
    }
  }

  // The scheduler and what its run satisfies.

  /** The result of the scheduler: the process list as the in-place sort by
      arrival leaves it, and the loop's final state. */
  datatype Outcome = Outcome(order: seq<Process>, final: State)

  /** Sorts by arrival time, then runs the loop from time zero until every
      process has completed. */
  function Schedule(ps: seq<Process>): (r: Outcome)
    ensures |r.order| == |ps| && multiset(r.order) == multiset(ps)
    ensures SortedBy(ByArrival, r.order)
    ensures |r.final.done| == |ps| && |r.final.picks| == |ps| && |r.final.rows| == |ps|
    ensures forall k :: 0 <= k < |ps| ==> r.final.picks[k] < |ps|
  {
    var order := SortBy(ByArrival, ps);
    Outcome(order, Loop(order, Initial(order)))
  }

  /** The loop invariant holds of the scheduler's final state. */
  lemma ScheduleInv(ps: seq<Process>)
    ensures Inv(Schedule(ps).order, Schedule(ps).final)
  {
    var order := SortBy(ByArrival, ps);
    InitialInv(order);
    LoopKeepsInv(order, Initial(order));
  }

  /** Every process is completed, and each exactly once: the run's picks are
      a permutation of the indices of the sorted list, with one report row
      each. */
  lemma CompletesEachOnce(ps: seq<Process>)
    ensures var r := Schedule(ps);
            && |r.final.rows| == |r.final.picks| == |ps|
            && (forall j :: 0 <= j < |ps| ==> r.final.done[j] && j in r.final.picks)
            && (forall k :: 0 <= k < |ps| ==> r.final.picks[k] < |ps|)
            && (forall k, l :: 0 <= k < l < |ps| ==> r.final.picks[k] != r.final.picks[l])
  {
    var r := Schedule(ps);
    ScheduleInv(ps);
    CountUndoneZero(r.final.done);
  }

  /** Each report row describes the process run at that position: the wait
      is the delay between arrival and the row's start and is not negative,
      turnaround is wait plus burst, the first run starts no earlier than
      time zero, and every later run starts no earlier than the previous
      one completed. */
  lemma RowsAreConsistent(ps: seq<Process>)
    ensures var r := Schedule(ps);
            forall k :: 0 <= k < |ps| ==>
              && ProcessOf(r.final.rows[k]) == r.order[r.final.picks[k]]
              && r.final.rows[k].wait == Start(r.final.rows[k]) - r.final.rows[k].arrival >= 0
              && Balanced(r.final.rows[k])
              && (k == 0 ==> Start(r.final.rows[k]) >= 0)
              && (k > 0 ==> r.final.rows[k - 1].completion <= Start(r.final.rows[k]))
  {
    var r := Schedule(ps);
    ScheduleInv(ps);
    forall k | 0 <= k < |ps|
      ensures ProcessOf(r.final.rows[k]) == r.order[r.final.picks[k]]
      ensures r.final.rows[k].wait == Start(r.final.rows[k]) - r.final.rows[k].arrival >= 0
      ensures Balanced(r.final.rows[k])
      ensures k == 0 ==> Start(r.final.rows[k]) >= 0
      ensures k > 0 ==> r.final.rows[k - 1].completion <= Start(r.final.rows[k])
    {
      assert RowAt(r.order, r.final.picks, r.final.rows, k);
    }
  }

  /** The selection rule: each process run had arrived by its start and was
      no worse (shorter burst, or equal burst and no larger priority value)
      than every other process that had arrived by then and had not run. */
  lemma ChoicesAreShortestReady(ps: seq<Process>)
    ensures var r := Schedule(ps);
            forall k :: 0 <= k < |ps| ==>
              r.order[r.final.picks[k]].arrival <= Start(r.final.rows[k])
    ensures var r := Schedule(ps);
            forall k, j :: 0 <= k < |ps| && 0 <= j < |ps| && j !in r.final.picks[..k]
                           && r.order[j].arrival <= Start(r.final.rows[k]) ==>
              NoWorse(r.order[r.final.picks[k]], r.order[j])
  {
    var r := Schedule(ps);
    ScheduleInv(ps);
    forall k | 0 <= k < |ps|
      ensures r.order[r.final.picks[k]].arrival <= Start(r.final.rows[k])
    {
      assert RowAt(r.order, r.final.picks, r.final.rows, k);
    }
    forall k, j | 0 <= k < |ps| && 0 <= j < |ps| && j !in r.final.picks[..k]
                  && r.order[j].arrival <= Start(r.final.rows[k])
      ensures NoWorse(r.order[r.final.picks[k]], r.order[j])
    {
      assert ChoseBest(r.order, r.final.picks, r.final.rows, k, j);
    }
  }

  /** The CPU idles only while nothing is ready: if a dispatch starts later
      than the CPU became free, no process that had not run yet had arrived
      before that start. */
  lemma IdlesOnlyWhenNothingReady(ps: seq<Process>)
    ensures var r := Schedule(ps);
            forall k, j :: 0 <= k < |ps| && 0 <= j < |ps| ==>
              (Start(r.final.rows[k]) > FreeAt(r.final.rows, k) && j !in r.final.picks[..k]
               ==> r.order[j].arrival >= Start(r.final.rows[k]))
  {
    var r := Schedule(ps);
    ScheduleInv(ps);
    forall k, j | 0 <= k < |ps| && 0 <= j < |ps|
      ensures Start(r.final.rows[k]) > FreeAt(r.final.rows, k) && j !in r.final.picks[..k]
              ==> r.order[j].arrival >= Start(r.final.rows[k])
    {
      assert WaitedFor(r.order, r.final.picks, r.final.rows, k, j);
    }
  }

  /** Rows of non-negative duration chained end-to-start are pairwise
      ordered: each completes no later than any later one starts. */
  lemma {:induction false} ChainOrdered(rows: seq<Row>)
    requires forall k :: 0 < k < |rows| ==> rows[k - 1].completion <= Start(rows[k])
    requires forall k :: 0 <= k < |rows| ==> rows[k].burst >= 0
    ensures forall k, l :: 0 <= k < l < |rows| ==> rows[k].completion <= Start(rows[l])
    decreases |rows|
  {
    if |rows| > 1 {
      var rows' := rows[..|rows| - 1];
      ChainOrdered(rows');
      forall k | 0 <= k < |rows| - 1
        ensures rows[k].completion <= Start(rows[|rows| - 1])
      {
        if k < |rows| - 2 {
          assert rows'[k].completion <= Start(rows'[|rows| - 2]);
        }
      }
    }
  }

  /** With non-negative bursts the runs do not overlap: each completes no
      later than any later one starts, so the clock never goes back. */
  lemma RunsDoNotOverlap(ps: seq<Process>)
    requires forall j :: 0 <= j < |ps| ==> ps[j].burst >= 0
    ensures var rows := Schedule(ps).final.rows;
            forall k, l :: 0 <= k < l < |rows| ==> rows[k].completion <= Start(rows[l])
  {
    var r := Schedule(ps);
    ScheduleInv(ps);
    var rows := r.final.rows;
    forall k | 0 <= k < |rows|
      ensures rows[k].burst >= 0
      ensures k > 0 ==> rows[k - 1].completion <= Start(rows[k])
    {
      assert RowAt(r.order, r.final.picks, rows, k);
      assert r.order[r.final.picks[k]] in multiset(ps);
    }
    ChainOrdered(rows);
  }

  /** Summed over the report, turnaround is waiting time plus the total
      burst of the input. */
  lemma ScheduleTotals(ps: seq<Process>)
    ensures var rows := Schedule(ps).final.rows;
            TotalTurnaround(rows) == TotalWait(rows) + SumBurst(ps)
  {
    var r := Schedule(ps);
    ScheduleInv(ps);
    var rows := r.final.rows;
    forall k | 0 <= k < |rows|
      ensures Balanced(rows[k])
    {
      assert RowAt(r.order, r.final.picks, rows, k);
    }
    TotalsBalance(rows);
    CountUndoneZero(r.final.done);
    UndoneBurstAll(r.order, r.final.done);
    SumBurstPermutation(r.order, ps);
  }

  /** One pass of the loop while processes are pending. */
  lemma LoopPass(ps: seq<Process>, st: State)
    requires Counted(ps, st) && |st.picks| < |ps|
    ensures Counted(ps, Step(ps, st)) && Loop(ps, st) == Loop(ps, Step(ps, st))
  {
    StepCounted(ps, st);
  }

  /** The worked example's input, already in arrival order. */
  function WorkedInput(): seq<Process> {
    [Process("A", 0, 5, 1), Process("B", 1, 3, 2), Process("C", 2, 1, 3)]
  }

  /** The loop state after `n` passes on the worked example. */
  function WorkedState(n: nat): State {
    var ra := Row("A", 1, 5, 0, 0, 5, 5);
    var rc := Row("C", 3, 1, 2, 3, 4, 6);
    var rb := Row("B", 2, 3, 1, 5, 8, 9);
    if n == 0 then State([false, false, false], 0, [], [])
    else if n == 1 then State([true, false, false], 5, [0], [ra])
    else if n == 2 then State([true, false, true], 6, [0, 2], [ra, rc])
    else State([true, true, true], 9, [0, 2, 1], [ra, rc, rb])
  }

  /** At time 0 only A has arrived, so A runs. */
  lemma WorkedPass1()
    ensures Step(WorkedInput(), WorkedState(0)) == WorkedState(1)
  {
    var ps, st := WorkedInput(), WorkedState(0);
    assert Available(ps, st.done, 0, 3) == [0];
    assert st.done[0 := true] == WorkedState(1).done;
  }

  /** At time 5 both B and C are ready, and the shorter C runs. */
  lemma WorkedPass2()
    ensures Step(WorkedInput(), WorkedState(1)) == WorkedState(2)
  {
    var ps, st := WorkedInput(), WorkedState(1);
    assert Available(ps, st.done, 5, 3) == [1, 2];
    assert Best(ps, [1, 2]) == 2 by {
      assert [1, 2][1..] == [2];
    }
    assert st.done[2 := true] == WorkedState(2).done;
  }

  /** At time 6 only B is left, and it runs. */
  lemma WorkedPass3()
    ensures Step(WorkedInput(), WorkedState(2)) == WorkedState(3)
  {
    var ps, st := WorkedInput(), WorkedState(2);
    assert Available(ps, st.done, 6, 3) == [1];
    assert st.done[1 := true] == WorkedState(3).done;
  }

  /** Pending count of a three-process completion vector. */
  lemma CountUndoneOfThree(a: bool, b: bool, c: bool)
    ensures CountUndone([a, b, c])
            == (if a then 0 else 1) + (if b then 0 else 1) + (if c then 0 else 1)
  {
    assert CountUndone([a]) == if a then 0 else 1 by {
      assert [a][..0] == [];
    }
    assert CountUndone([a, b]) == CountUndone([a]) + (if b then 0 else 1) by {
      assert [a, b][..1] == [a];
    }
    assert CountUndone([a, b, c]) == CountUndone([a, b]) + (if c then 0 else 1) by {
      assert [a, b, c][..2] == [a, b];
    }
  }

  /** The worked example's loop from its third pass on. */
  lemma WorkedFrom2()
    ensures Counted(WorkedInput(), WorkedState(2))
            && Loop(WorkedInput(), WorkedState(2)) == WorkedState(3)
  {
    CountUndoneOfThree(true, false, true);
    assert Counted(WorkedInput(), WorkedState(2));
    WorkedPass3();
    LoopPass(WorkedInput(), WorkedState(2));
  }

  /** The worked example's loop from its second pass on. */
  lemma WorkedFrom1()
    ensures Counted(WorkedInput(), WorkedState(1))
            && Loop(WorkedInput(), WorkedState(1)) == WorkedState(3)
  {
    CountUndoneOfThree(true, false, false);
    assert Counted(WorkedInput(), WorkedState(1));
    WorkedPass2();
    LoopPass(WorkedInput(), WorkedState(1));
    WorkedFrom2();
  }

  /** The loop on the worked example, pass by pass. */
  lemma WorkedLoop()
    ensures Counted(WorkedInput(), WorkedState(0))
            && Loop(WorkedInput(), WorkedState(0)) == WorkedState(3)
  {
    CountUndoneOfThree(false, false, false);
    assert Counted(WorkedInput(), WorkedState(0));
    WorkedPass1();
    LoopPass(WorkedInput(), WorkedState(0));
    WorkedFrom1();
  }

  /** The worked example's arrivals strictly increase, so the pre-sort
      leaves it unchanged. */
  lemma WorkedSorted()
    ensures SortBy(ByArrival, WorkedInput()) == WorkedInput()
  {
    assert StrictlySortedBy(ByArrival, WorkedInput());
    SortBySorted(ByArrival, WorkedInput());
  }

  /** The worked example's loop starts from `WorkedState(0)`. */
  lemma WorkedInitial()
    ensures Initial(WorkedInput()) == WorkedState(0)
  {
    var d := seq(3, _ => false);
    assert d[0] == d[1] == d[2] == false;
  }

  /** The worked example's run, from sorting to the loop's last pass. */
  lemma WorkedRun()
    ensures Schedule(WorkedInput()) == Outcome(WorkedInput(), WorkedState(3))
  {
    WorkedSorted();
    WorkedInitial();
    WorkedLoop();
  }

  /** A worked run: A arrives at 0 with burst 5, B at 1 with burst 3, C at 2
      with burst 1. A runs first as the only arrival; when it completes at 5
      both others are ready and the shorter C runs before B. */
  lemma WorkedExample()
    ensures var a := Process("A", 0, 5, 1);
            var b := Process("B", 1, 3, 2);
            var c := Process("C", 2, 1, 3);
            var r := Schedule([a, b, c]);
            && r.order == [a, b, c]
            && r.final.picks == [0, 2, 1]
            && r.final.rows == [Row("A", 1, 5, 0, 0, 5, 5),
                                Row("C", 3, 1, 2, 3, 4, 6),
                                Row("B", 2, 3, 1, 5, 8, 9)]
  {
    var ps := WorkedInput();
    var s3 := WorkedState(3);
    assert ps == [Process("A", 0, 5, 1), Process("B", 1, 3, 2), Process("C", 2, 1, 3)];
    assert s3.picks == [0, 2, 1];
    assert s3.rows == [Row("A", 1, 5, 0, 0, 5, 5), Row("C", 3, 1, 2, 3, 4, 6), Row("B", 2, 3, 1, 5, 8, 9)];
    WorkedRun();
    assert Schedule(ps).final == s3;
  }

  /** A run that idles: the only process arrives at 2, so the clock ticks
      idle twice before it is dispatched, and it does not wait. */
  lemma IdleExample()
    ensures var a := Process("A", 2, 1, 0);
            var r := Schedule([a]);
            r.final.rows == [Row("A", 0, 1, 2, 0, 1, 3)]
  {
  }

}
