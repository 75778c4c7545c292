/** What the views derive from the task list: the filtered lists and the
    counters and progress percentage. */
module Queries {
  import opened Seqs
  import opened Tasks

  /** `tasks.filter(task => task.completed)` */
  function CompletedTasks(ts: seq<Task>): (r: seq<Task>)
    ensures IsSubsequence(r, ts)
    ensures forall t :: multiset(r)[t] == if t.completed then multiset(ts)[t] else 0
  {
    FilterIsSubsequence(ts, IsCompleted);
    Filter(ts, IsCompleted)
  }

  /** `tasks.filter(task => !task.completed)` */
  function PendingTasks(ts: seq<Task>): (r: seq<Task>)
    ensures IsSubsequence(r, ts)
    ensures forall t :: multiset(r)[t] == if t.completed then 0 else multiset(ts)[t]
  {
    FilterIsSubsequence(ts, IsPending);
    Filter(ts, IsPending)
  }

  /** The completed and the pending tasks partition the list. */
  lemma CompletedAndPendingPartition(ts: seq<Task>)
    ensures multiset(CompletedTasks(ts)) + multiset(PendingTasks(ts)) == multiset(ts)
    ensures |CompletedTasks(ts)| + |PendingTasks(ts)| == |ts|
    ensures forall t :: !(t in CompletedTasks(ts) && t in PendingTasks(ts))
  {
    SplitByFilter(ts, IsCompleted, IsPending);
  }

  /** The list getFilteredTasks returns for a filter name: the completed tasks,
      the pending ones, or, for any other name, the whole list. */
  function FilteredTasks(ts: seq<Task>, filter: string): (r: seq<Task>)
    ensures filter == "completed" ==>
              IsSubsequence(r, ts) && forall t :: multiset(r)[t] == if t.completed then multiset(ts)[t] else 0
    ensures filter == "pending" ==>
              IsSubsequence(r, ts) && forall t :: multiset(r)[t] == if t.completed then 0 else multiset(ts)[t]
    ensures filter != "completed" && filter != "pending" ==> r == ts
  {
    if filter == "completed" then CompletedTasks(ts)
    else if filter == "pending" then PendingTasks(ts)
    else ts
  }

  /** Math.round on an exact value: the nearest integer, halves rounded up. */
  function Round(x: real): int {
    (x + 0.5).Floor
  }

  /** The progress percentage: 100 * completed / total rounded, 0 for no tasks.
      It is computable in integers, and lies between 0 and 100, at the ends
      exactly when no task or every task is completed. */
  function CompletionRate(completed: nat, total: nat): (r: int)
    ensures total == 0 ==> r == 0
    ensures total > 0 ==> r == (200 * completed + total) / (2 * total)
    ensures completed <= total ==> 0 <= r <= 100
    ensures total > 0 && completed == 0 ==> r == 0
    ensures total > 0 && completed == total ==> r == 100
  {
    if total > 0 then
      RoundedPercentInIntegers(completed, total);
      PercentBounds(completed, total);
      Round(100.0 * (completed as real) / (total as real))
    else 0
  }

  /** Multiplying by a positive factor keeps a strict order, so p * b <= q * b
      gives back p <= q. */
  lemma CancelFactor(p: real, q: real, b: real)
    requires b > 0.0
    ensures p * b <= q * b ==> p <= q
  {
    assert p > q ==> (p - q) * b > 0.0;
  }

  /** The floor of an exact quotient is the integer (Euclidean) quotient. */
  lemma FloorOfQuotient(n: int, d: int)
    requires d > 0
    ensures ((n as real) / (d as real)).Floor == n / d
  {
    var q, m := n / d, n % d;
    var D, Q, M := d as real, q as real, m as real;
    assert (n as real) == D * Q + M;
    assert (n as real) / D == Q + M / D;
    assert 0.0 <= M / D < 1.0;
  }

  /** Math.round(100 * completed / total) on exact values equals
      (200 * completed + total) div (2 * total). */
  lemma RoundedPercentInIntegers(completed: nat, total: nat)
    requires total > 0
    ensures Round(100.0 * (completed as real) / (total as real)) == (200 * completed + total) / (2 * total)
  {
    var C, T := completed as real, total as real;
    var n, d := 200 * completed + total, 2 * total;
    var y, z := 100.0 * C / T, (200.0 * C + T) / (2.0 * T);
    assert y * T == 100.0 * C;
    assert z * (2.0 * T) == 200.0 * C + T;
    assert (y + 0.5) * (2.0 * T) == 2.0 * (y * T) + T;
    CancelFactor(y + 0.5, z, 2.0 * T);
    CancelFactor(z, y + 0.5, 2.0 * T);
    assert (n as real) == 200.0 * C + T && (d as real) == 2.0 * T;
    FloorOfQuotient(n, d);
  }

  /** A positive factor can be cancelled from both sides of < over the integers. */
  lemma CancelIntFactor(a: int, b: int, d: int)
    requires d > 0
    ensures a * d < b * d ==> a < b
  {
    assert a >= b ==> (a - b) * d >= 0;
  }

  /** An integer quotient lies between lo and hi when the dividend lies between
      lo * d and (hi + 1) * d. */
  lemma QuotientBetween(n: int, d: int, lo: int, hi: int)
    requires d > 0 && lo * d <= n < (hi + 1) * d
    ensures lo <= n / d <= hi
  {
    var q := n / d;
    assert q * d <= n < (q + 1) * d;
    CancelIntFactor(lo, q + 1, d);
    CancelIntFactor(q, hi + 1, d);
  }

  /** With completed <= total the integer percentage lies between 0 and 100, and
      is 0 with no completed task and 100 with every task completed. */
  lemma PercentBounds(completed: nat, total: nat)
    requires total > 0
    ensures completed <= total ==> 0 <= (200 * completed + total) / (2 * total) <= 100
    ensures completed == 0 ==> (200 * completed + total) / (2 * total) == 0
    ensures completed == total ==> (200 * completed + total) / (2 * total) == 100
  {
    var n, d := 200 * completed + total, 2 * total;
    if completed <= total {
      QuotientBetween(n, d, 0, 100);
    }
    if completed == 0 {
      QuotientBetween(n, d, 0, 0);
    }
    if completed == total {
      QuotientBetween(n, d, 100, 100);
    }
  }

  datatype Statistics = Statistics(total: nat, completed: nat, pending: int, completionRate: int)

  /** The counters of updateStatistics, updateProgress and getStatistics. */
  function Stats(ts: seq<Task>): (s: Statistics)
    ensures s.total == |ts| && s.completed == |CompletedTasks(ts)|
    ensures s.pending == |PendingTasks(ts)| == s.total - s.completed
    ensures 0 <= s.completed <= s.total
    ensures 0 <= s.completionRate <= 100
    ensures s.total == 0 ==> s.completionRate == 0
    ensures s.total > 0 ==> s.completionRate == (200 * s.completed + s.total) / (2 * s.total)
  {
    var total := |ts|;
    var completed := |CompletedTasks(ts)|;
    CompletedAndPendingPartition(ts);
    Statistics(total, completed, total - completed, CompletionRate(completed, total))
  }

  /** updateActionButtons: "clear completed" is offered exactly when some task is
      completed, "clear all" exactly when there is a task. */
  lemma ClearButtonsMatchCounters(ts: seq<Task>)
    ensures (exists i :: 0 <= i < |ts| && ts[i].completed) <==> Stats(ts).completed > 0
    ensures |ts| > 0 <==> Stats(ts).total > 0
  {
    var c := CompletedTasks(ts);
    if exists i :: 0 <= i < |ts| && ts[i].completed {
      var i :| 0 <= i < |ts| && ts[i].completed;
      assert multiset(c)[ts[i]] == multiset(ts)[ts[i]] > 0;
    }
    if |c| > 0 {
      assert c[0] in multiset(c);
      assert multiset(ts)[c[0]] > 0 && c[0].completed;
      var i :| 0 <= i < |ts| && ts[i] == c[0];
    }
  }
}
