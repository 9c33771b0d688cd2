/**
 The records every scheduler works on, and the integer sums the schedulers'
 reports are built from.
 */
module Processes {

  /** The scheduling-relevant part of a process record: identity, arrival
      time, burst duration and priority (lower value = higher priority). */
  datatype Process = Process(id: string, arrival: int, burst: int, priority: int)

  /** One interval of the Gantt trace: process `pid` holds the CPU from
      `start` to `stop`. */
  datatype TimeSlice = TimeSlice(pid: string, start: int, stop: int)

  /** One line of the report table, in the column order FCFS and SJF emit:
      id, priority, burst, arrival, waiting time, turnaround time, completion.
      The priority scheduler logs only id, completion, waiting time and
      turnaround; its rows copy the other fields from the process record. */
  datatype Row = Row(id: string, priority: int, burst: int, arrival: int,
                     wait: int, turnaround: int, completion: int)

  /** The process a report row describes. */
  function ProcessOf(r: Row): Process {
    Process(r.id, r.arrival, r.burst, r.priority)
  }

  /** Sum of the burst durations of `ps`. */
  function SumBurst(ps: seq<Process>): int
    decreases |ps|
  {
    if |ps| == 0 then 0 else SumBurst(ps[..|ps| - 1]) + ps[|ps| - 1].burst
  }

  /** Sum of the burst durations of the first `n` processes of `ps`: the
      service clock after running them back to back from time zero. */
  function BurstBefore(ps: seq<Process>, n: nat): int
    requires n <= |ps|
    decreases n
  {
    if n == 0 then 0 else BurstBefore(ps, n - 1) + ps[n - 1].burst
  }

  /** Sum of the waiting times of a report. */
  function TotalWait(rows: seq<Row>): int
    decreases |rows|
  {
    if |rows| == 0 then 0 else TotalWait(rows[..|rows| - 1]) + rows[|rows| - 1].wait
  }

  /** Sum of the turnaround times of a report. */
  function TotalTurnaround(rows: seq<Row>): int
    decreases |rows|
  {
    if |rows| == 0 then 0 else TotalTurnaround(rows[..|rows| - 1]) + rows[|rows| - 1].turnaround
  }

  /** Sum of the burst durations of the processes a report describes. */
  function TotalBurst(rows: seq<Row>): int
    decreases |rows|
  {
    if |rows| == 0 then 0 else TotalBurst(rows[..|rows| - 1]) + rows[|rows| - 1].burst
  }

  /** A row obeys the non-preemptive identity turnaround = wait + burst. */
  predicate Balanced(r: Row) {
    r.turnaround == r.wait + r.burst
  }

  /** Burst sums are additive over concatenation. */
  lemma {:induction false} SumBurstConcat(a: seq<Process>, b: seq<Process>)
    ensures SumBurst(a + b) == SumBurst(a) + SumBurst(b)
    decreases |b|
  {
    if |b| > 0 {
      var b' := b[..|b| - 1];
      assert (a + b)[..|a + b| - 1] == a + b';
      SumBurstConcat(a, b');
    } else {
      assert a + b == a;
    }
  }

  /** The prefix sum agrees with the sum of the prefix. */
  lemma {:induction false} BurstBeforeIsSum(ps: seq<Process>, n: nat)
    requires n <= |ps|
    ensures BurstBefore(ps, n) == SumBurst(ps[..n])
    decreases n
  {
    if n > 0 {
      BurstBeforeIsSum(ps, n - 1);
      assert ps[..n][..n - 1] == ps[..n - 1];
    }
  }

  /** Removing the element at `j` removes exactly its burst from the sum. */
  lemma SumBurstRemove(b: seq<Process>, j: nat)
    requires j < |b|
    ensures SumBurst(b) == SumBurst(b[..j] + b[j + 1..]) + b[j].burst
  {
    var x, pre, post := b[j], b[..j], b[j + 1..];
    assert SumBurst(b) == SumBurst(pre + [x]) + SumBurst(post) by {
      assert b == (pre + [x]) + post;
      SumBurstConcat(pre + [x], post);
    }
    assert SumBurst(pre + [x]) == SumBurst(pre) + x.burst by {
      assert (pre + [x])[..|pre|] == pre;
    }
    SumBurstConcat(pre, post);
  }

  /** Removing the element at `j` removes one copy of it from the multiset. */
  lemma MultisetRemove(b: seq<Process>, j: nat)
    requires j < |b|
    ensures multiset(b[..j] + b[j + 1..]) == multiset(b) - multiset{b[j]}
  {
    assert b == b[..j] + [b[j]] + b[j + 1..];
  }

  /** Reordering processes does not change their total burst. */
  lemma {:induction false} SumBurstPermutation(a: seq<Process>, b: seq<Process>)
    requires multiset(a) == multiset(b)
    ensures SumBurst(a) == SumBurst(b)
    decreases |a|
  {
    if |a| == 0 {
      assert |b| == |multiset(b)| == 0;
    } else {
      var x := a[|a| - 1];
      var a' := a[..|a| - 1];
      assert a == a' + [x];
      assert multiset(a') == multiset(a) - multiset{x};
      assert x in multiset(b);
      var j :| 0 <= j < |b| && b[j] == x;
      MultisetRemove(b, j);
      SumBurstPermutation(a', b[..j] + b[j + 1..]);
      SumBurstRemove(b, j);
    }
  }

  /** The total burst of a report equals the total burst of the processes it
      describes, row by row. */
  lemma {:induction false} TotalBurstOfRows(rows: seq<Row>, ps: seq<Process>)
    requires |rows| == |ps|
    requires forall i :: 0 <= i < |rows| ==> ProcessOf(rows[i]) == ps[i]
    ensures TotalBurst(rows) == SumBurst(ps)
    decreases |rows|
  {
    if |rows| > 0 {
      TotalBurstOfRows(rows[..|rows| - 1], ps[..|ps| - 1]);
    }
  }

  /** Summed over a report whose rows are all balanced, total turnaround is
      total waiting time plus total burst. */
  lemma {:induction false} TotalsBalance(rows: seq<Row>)
    requires forall i :: 0 <= i < |rows| ==> Balanced(rows[i])
    ensures TotalTurnaround(rows) == TotalWait(rows) + TotalBurst(rows)
    decreases |rows|
  {
    if |rows| > 0 {
      TotalsBalance(rows[..|rows| - 1]);
    }
  }
}
