/**
 The reorderings the schedulers apply before running: by burst duration
 (shortest job first) and by arrival time (the priority scheduler's
 pre-sort). The source uses an unstable library sort, which promises only
 a permutation ordered by the key; the model fixes one such permutation
 (stable insertion) and states only those two facts about it, together
 with their consequence that a list whose keys strictly increase is the
 only such permutation of itself.
 */
module Sorting {
  import opened Processes

  /** The field a sort compares. */
  datatype SortKey = ByBurst | ByArrival

  function Key(k: SortKey, p: Process): int {
    match k
    case ByBurst => p.burst
    case ByArrival => p.arrival
  }

  /** `s` is in non-decreasing order of key `k`. */
  predicate SortedBy(k: SortKey, s: seq<Process>) {
    forall i, j :: 0 <= i < j < |s| ==> Key(k, s[i]) <= Key(k, s[j])
  }

  /** Inserts `p` into `s`, after every leading element whose key is not
      greater than its own. */
  function Insert(k: SortKey, p: Process, s: seq<Process>): seq<Process>
    decreases |s|
  {
    if |s| == 0 || Key(k, p) < Key(k, s[0]) then [p] + s
    else [s[0]] + Insert(k, p, s[1..])
  }

  /** Insertion adds exactly the inserted element. */
  lemma {:induction false} InsertPermutes(k: SortKey, p: Process, s: seq<Process>)
    ensures |Insert(k, p, s)| == |s| + 1
    ensures multiset(Insert(k, p, s)) == multiset(s) + multiset{p}
    decreases |s|
  {
    if |s| > 0 && Key(k, p) >= Key(k, s[0]) {
      InsertPermutes(k, p, s[1..]);
      assert s == [s[0]] + s[1..];
    }
  }

  /** A lower bound on every key survives insertion of an element that
      respects it. */
  lemma {:induction false} InsertBounded(k: SortKey, p: Process, s: seq<Process>, b: int)
    requires forall i :: 0 <= i < |s| ==> b <= Key(k, s[i])
    requires b <= Key(k, p)
    ensures forall i :: 0 <= i < |Insert(k, p, s)| ==> b <= Key(k, Insert(k, p, s)[i])
    decreases |s|
  {
    if |s| > 0 && Key(k, p) >= Key(k, s[0]) {
      InsertBounded(k, p, s[1..], b);
      var t := Insert(k, p, s[1..]);
      assert Insert(k, p, s) == [s[0]] + t;
      forall i | 0 < i < |t| + 1
        ensures b <= Key(k, Insert(k, p, s)[i])
      {
        assert Insert(k, p, s)[i] == t[i - 1];
      }
    }
  }

  /** Inserting into a sorted list keeps it sorted. */
  lemma {:induction false} InsertSorted(k: SortKey, p: Process, s: seq<Process>)
    requires SortedBy(k, s)
    ensures SortedBy(k, Insert(k, p, s))
    decreases |s|
  {
    if |s| > 0 && Key(k, p) >= Key(k, s[0]) {
      var t := Insert(k, p, s[1..]);
      assert SortedBy(k, s[1..]) by {
        forall i, j | 0 <= i < j < |s| - 1
          ensures Key(k, s[1..][i]) <= Key(k, s[1..][j])
        {
          assert s[1..][i] == s[i + 1] && s[1..][j] == s[j + 1];
        }
      }
      InsertSorted(k, p, s[1..]);
      forall i | 0 <= i < |s[1..]|
        ensures Key(k, s[0]) <= Key(k, s[1..][i])
      {
        assert s[1..][i] == s[i + 1];
      }
      InsertBounded(k, p, s[1..], Key(k, s[0]));
      var r := [s[0]] + t;
      forall i, j | 0 <= i < j < |r|
        ensures Key(k, r[i]) <= Key(k, r[j])
      {
        assert r[j] == t[j - 1];
        if i > 0 {
          assert r[i] == t[i - 1];
        }
      }
    }
  }

  /** A non-empty list is its prefix followed by its last element, as a
      list and as a multiset. */
  lemma SplitLast(s: seq<Process>)
    requires |s| > 0
    ensures s == s[..|s| - 1] + [s[|s| - 1]]
    ensures multiset(s) == multiset(s[..|s| - 1]) + multiset{s[|s| - 1]}
  {
  }

  /** The sort by key `k`: a permutation of `s` (same length, same
      multiset) in non-decreasing order of key `k`, which is all the
      source's `sort.Slice` call with a `<` comparator on that key promises.
      The model fixes one such permutation, by stable insertion. */
  function SortBy(k: SortKey, s: seq<Process>): (r: seq<Process>)
    ensures |r| == |s| && multiset(r) == multiset(s)
    ensures SortedBy(k, r)
    decreases |s|
  {
    if |s| == 0 then []
    else
      var n := |s| - 1;
      var init := SortBy(k, s[..n]);
      InsertPermutes(k, s[n], init);
      InsertSorted(k, s[n], init);
      SplitLast(s);
      Insert(k, s[n], init)
  }

  /** `s` is in strictly increasing order of key `k`: no two keys tie. */
  predicate StrictlySortedBy(k: SortKey, s: seq<Process>) {
    forall i, j :: 0 <= i < j < |s| ==> Key(k, s[i]) < Key(k, s[j])
  }

  /** Dropping the last element keeps a list sorted, and strictly sorted. */
  lemma SortedInit(k: SortKey, s: seq<Process>)
    requires |s| > 0
    ensures SortedBy(k, s) ==> SortedBy(k, s[..|s| - 1])
    ensures StrictlySortedBy(k, s) ==> StrictlySortedBy(k, s[..|s| - 1])
  {
  }

  /** Of two permutations of each other, one strictly and one plainly in key
      order, the last elements agree: each is a maximum of the other. */
  lemma SortedLastAgree(k: SortKey, a: seq<Process>, b: seq<Process>)
    requires StrictlySortedBy(k, a) && SortedBy(k, b)
    requires multiset(a) == multiset(b) && |a| > 0
    ensures |b| == |a| && b[|b| - 1] == a[|a| - 1]
  {
    assert |b| == |multiset(b)| == |multiset(a)| == |a|;
    var n := |a| - 1;
    assert b[n] in multiset(a);
    var i :| 0 <= i < |a| && a[i] == b[n];
    assert a[n] in multiset(b);
    var j :| 0 <= j < |b| && b[j] == a[n];
    assert Key(k, b[j]) <= Key(k, b[n]);
  }

  /** A list whose keys are strictly increasing is the only permutation of
      itself that is in key order: when no keys tie, every sort agrees. */
  lemma {:induction false} StrictlySortedUnique(k: SortKey, a: seq<Process>, b: seq<Process>)
    requires StrictlySortedBy(k, a) && SortedBy(k, b)
    requires multiset(a) == multiset(b)
    ensures b == a
    decreases |a|
  {
    if |a| == 0 {
      assert |b| == |multiset(b)| == 0;
    } else {
      SortedLastAgree(k, a, b);
      var n := |a| - 1;
      SplitLast(a);
      SplitLast(b);
      assert multiset(a[..n]) == multiset(b[..n]) by {
        assert multiset(a[..n]) == multiset(a) - multiset{a[n]};
        assert multiset(b[..n]) == multiset(b) - multiset{b[n]};
      }
      SortedInit(k, a);
      SortedInit(k, b);
      StrictlySortedUnique(k, a[..n], b[..n]);
    }
  }

  /** Sorting a list whose keys are strictly increasing leaves it unchanged. */
  lemma SortBySorted(k: SortKey, s: seq<Process>)
    requires StrictlySortedBy(k, s)
    ensures SortBy(k, s) == s
  {
    StrictlySortedUnique(k, s, SortBy(k, s));
  }
}
