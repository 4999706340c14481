/**
 The progress arithmetic of an upload batch: the overall percentage shown
 for file `current` of `total` at per-file progress `p`, and the simulated
 per-file progress, which grows by one random increment in [0, 15) on every
 timer tick until it reaches 100.

 The random increments are the input `ticks`, one stream for the whole batch.
 A stream that runs out before a file reaches 100 stands for a moment at
 which that file's upload is still in progress.
 */
module Progress {
  import opened Text

  /** One `Math.random() * 15` increment. */
  type Tick = r: real | 0.0 <= r < 15.0

  /** The full per-file progress. */
  const Full: real := 100.0

  /** `((current - 1) / total) * 100 + p / total` */
  function OverallProgress(current: nat, total: nat, p: real): real
    requires total > 0
  {
    ((current as real - 1.0) / total as real) * 100.0 + p / total as real
  }

  /** The overall value is one fraction: (100 * (current - 1) + p) / total. */
  lemma OverallAsFraction(current: nat, total: nat, p: real)
    requires total > 0
    ensures OverallProgress(current, total, p) == (100.0 * (current as real - 1.0) + p) / total as real
  {
  }

  /** For a file of the batch and a per-file progress in [0, 100] the overall value is in [0, 100]. */
  lemma OverallBounded(current: nat, total: nat, p: real)
    requires 1 <= current <= total
    requires 0.0 <= p <= Full
    ensures 0.0 <= OverallProgress(current, total, p) <= Full
  {
    var t := total as real;
    var n := 100.0 * (current as real - 1.0) + p;
    OverallAsFraction(current, total, p);
    assert 0.0 <= n <= 100.0 * t;
    assert n / t <= (100.0 * t) / t;
  }

  /** The overall value never decreases while the per-file progress grows. */
  lemma OverallMonotone(current: nat, total: nat, p: real, q: real)
    requires total > 0
    requires p <= q
    ensures OverallProgress(current, total, p) <= OverallProgress(current, total, q)
  {
    var t := total as real;
    OverallAsFraction(current, total, p);
    OverallAsFraction(current, total, q);
    var a, b := 100.0 * (current as real - 1.0) + p, 100.0 * (current as real - 1.0) + q;
    assert a <= b;
    assert a / t <= b / t;
  }

  /** A finished file shows `current * 100 / total`, which is where the next file starts. */
  lemma OverallAtCompletion(current: nat, total: nat)
    requires total > 0
    ensures OverallProgress(current, total, Full) == (current as real * 100.0) / total as real
    ensures OverallProgress(current, total, Full) == OverallProgress(current + 1, total, 0.0)
  {
    OverallAsFraction(current, total, Full);
    OverallAsFraction(current + 1, total, 0.0);
  }

  /** The last file of a batch, finished, shows 100. */
  lemma OverallAtEnd(total: nat)
    requires total > 0
    ensures OverallProgress(total, total, Full) == Full
  {
    OverallAtCompletion(total, total);
  }

  /** The status line shown while a batch runs. */
  function StatusText(current: nat, total: nat): string
  {
    "Uploading " + NatToString(current) + " of " + NatToString(total) + "..."
  }

  /** The sum of a run of increments. */
  function Sum(s: seq<Tick>): (r: real)
    ensures 0.0 <= r && (s != [] ==> r < 15.0 * |s| as real)
  {
    if s == [] then 0.0 else Sum(s[..|s| - 1]) + s[|s| - 1]
  }

  /** The accumulated progress after the ticks start .. k-1 of the stream. */
  function Accumulated(ticks: seq<Tick>, start: nat, k: nat): real
    requires start <= k <= |ticks|
  {
    Sum(ticks[start..k])
  }

  lemma AccumulatedStep(ticks: seq<Tick>, start: nat, k: nat)
    requires start <= k < |ticks|
    ensures Accumulated(ticks, start, k + 1) == Accumulated(ticks, start, k) + ticks[k]
  {
    assert ticks[start..k + 1][..k - start] == ticks[start..k];
  }

  /** The accumulated progress never decreases as ticks arrive. */
  lemma {:induction false} AccumulatedMonotone(ticks: seq<Tick>, start: nat, j: nat, k: nat)
    requires start <= j <= k <= |ticks|
    ensures Accumulated(ticks, start, j) <= Accumulated(ticks, start, k)
    decreases k - j
  {
    if j < k {
      AccumulatedStep(ticks, start, k - 1);
      AccumulatedMonotone(ticks, start, j, k - 1);
    }
  }

  /** The progress as displayed: kept at 100 once the accumulator reaches it. */
  function Clamp(x: real): (r: real)
  {
    if x >= Full then Full else x
  }

  /**
   Where the simulated upload of the file whose ticks start at `start` stands,
   looking at the ticks from `k` on: the index after the tick on which the
   accumulated progress reaches 100 and `true`, or the end of the stream and
   `false` when it has not reached 100 by then.
   */
  function Finish(ticks: seq<Tick>, start: nat, k: nat): (r: (nat, bool))
    requires start <= k <= |ticks|
    ensures k <= r.0 <= |ticks|
    decreases |ticks| - k
  {
    if k == |ticks| then (k, false)
    else if Accumulated(ticks, start, k + 1) >= Full then (k + 1, true)
    else Finish(ticks, start, k + 1)
  }

  /**
   The finish is the FIRST tick on which the accumulator reaches 100: before
   it the progress stays below 100, and without such a tick the file is still
   uploading at the end of the stream.
   */
  lemma {:induction false} FinishIsFirstReach(ticks: seq<Tick>, start: nat, k: nat)
    requires start <= k <= |ticks|
    ensures var r := Finish(ticks, start, k);
            && (forall m :: k < m < r.0 ==> Accumulated(ticks, start, m) < Full)
            && (r.1 ==> r.0 > k && Accumulated(ticks, start, r.0) >= Full)
            && (!r.1 ==> r.0 == |ticks| && (r.0 > k ==> Accumulated(ticks, start, r.0) < Full))
    decreases |ticks| - k
  {
    if k < |ticks| && Accumulated(ticks, start, k + 1) < Full {
      FinishIsFirstReach(ticks, start, k + 1);
    }
  }

  /** No file completes in fewer than seven ticks, since each tick adds less than 15. */
  lemma FinishNeedsSevenTicks(ticks: seq<Tick>, start: nat)
    requires start <= |ticks|
    ensures Finish(ticks, start, start).1 ==> Finish(ticks, start, start).0 >= start + 7
  {
    FinishIsFirstReach(ticks, start, start);
  }

  /** Seeing more ticks does not change a finish that has already happened. */
  lemma {:induction false} FinishExtend(ticks: seq<Tick>, more: seq<Tick>, start: nat, k: nat)
    requires start <= k <= |ticks|
    requires Finish(ticks, start, k).1
    ensures Finish(ticks + more, start, k) == Finish(ticks, start, k)
    decreases |ticks| - k
  {
    var all := ticks + more;
    assert all[start..k + 1] == ticks[start..k + 1];
    if Accumulated(ticks, start, k + 1) < Full {
      FinishExtend(ticks, more, start, k + 1);
    }
  }

  /** How many of `n` files, uploaded one after the other from tick `start` on, have finished. */
  function Completed(ticks: seq<Tick>, start: nat, n: nat): (c: nat)
    requires start <= |ticks|
    ensures c <= n
    decreases n
  {
    if n == 0 then 0
    else
      var (next, done) := Finish(ticks, start, start);
      if done then 1 + Completed(ticks, next, n - 1) else 0
  }

  /** The files from tick `start` on: the first one, then the rest from where it finished. */
  lemma CompletedStep(ticks: seq<Tick>, start: nat, n: nat)
    requires start <= |ticks| && n > 0
    ensures var (next, done) := Finish(ticks, start, start);
            Completed(ticks, start, n) == if done then 1 + Completed(ticks, next, n - 1) else 0
  {
  }

  /** A later moment of the same batch has at least as many files finished: the batch only
      moves forward. */
  lemma {:induction false} CompletedMonotone(ticks: seq<Tick>, more: seq<Tick>, start: nat, n: nat)
    requires start <= |ticks|
    ensures Completed(ticks, start, n) <= Completed(ticks + more, start, n)
    decreases n
  {
    if n > 0 {
      var (next, done) := Finish(ticks, start, start);
      if done {
        FinishExtend(ticks, more, start, start);
        CompletedMonotone(ticks, more, next, n - 1);
      }
    }
  }

  /** The overall values reported on the ticks start+1 .. stop of file `current` of `total`. */
  function TickReports(current: nat, total: nat, ticks: seq<Tick>, start: nat, stop: nat): seq<real>
    requires total > 0
    requires start <= stop <= |ticks|
    decreases stop
  {
    if stop == start then []
    else TickReports(current, total, ticks, start, stop - 1)
           + [OverallProgress(current, total, Clamp(Accumulated(ticks, start, stop)))]
  }

  /** One tick of the simulated upload: the accumulator, the reports and the finish after it. */
  lemma TickStep(current: nat, total: nat, ticks: seq<Tick>, start: nat, k: nat)
    requires 1 <= current <= total
    requires start <= k < |ticks|
    requires Finish(ticks, start, start) == Finish(ticks, start, k)
    ensures var acc := Accumulated(ticks, start, k) + ticks[k];
            && Accumulated(ticks, start, k + 1) == acc
            && TickReports(current, total, ticks, start, k + 1)
                 == TickReports(current, total, ticks, start, k) + [OverallProgress(current, total, Clamp(acc))]
            && (acc >= Full ==> Finish(ticks, start, start) == (k + 1, true))
            && (acc < Full ==> Finish(ticks, start, start) == Finish(ticks, start, k + 1))
  {
    AccumulatedStep(ticks, start, k);
  }

  ghost predicate Sorted(s: seq<real>)
  {
    forall i, j :: 0 <= i <= j < |s| ==> s[i] <= s[j]
  }

  ghost predicate Between(s: seq<real>, lo: real, hi: real)
  {
    forall i :: 0 <= i < |s| ==> lo <= s[i] <= hi
  }

  /**
   The reports of a batch past position `m`, after `i` of its `total` files
   have finished: non-decreasing, within [0, 100], and ending on the value at
   which file `i` finishes.
   */
  ghost predicate BatchReports(r: seq<real>, m: nat, i: nat, total: nat)
  {
    && m <= |r|
    && Sorted(r[m..]) && Between(r[m..], 0.0, Full)
    && (i == 0 ==> |r| == m)
    && (i > 0 ==> total > 0 && |r| > m && r[|r| - 1] == OverallProgress(i, total, Full))
  }

  /**
   The reports of one file: one per tick, non-decreasing, between the value
   at which the file starts and the value at which it finishes, and ending on
   the finishing value once the progress has reached 100.
   */
  lemma {:induction false} TickReportsShape(current: nat, total: nat, ticks: seq<Tick>, start: nat, stop: nat)
    requires 1 <= current <= total
    requires start <= stop <= |ticks|
    ensures var r := TickReports(current, total, ticks, start, stop);
            && |r| == stop - start
            && Sorted(r)
            && Between(r, OverallProgress(current, total, 0.0), OverallProgress(current, total, Full))
            && (stop > start ==>
                  r[|r| - 1] == OverallProgress(current, total, Clamp(Accumulated(ticks, start, stop))))
    decreases stop
  {
    if stop > start {
      TickReportsShape(current, total, ticks, start, stop - 1);
      var r0 := TickReports(current, total, ticks, start, stop - 1);
      var x := Clamp(Accumulated(ticks, start, stop));
      OverallMonotone(current, total, 0.0, x);
      OverallMonotone(current, total, x, Full);
      if stop - 1 > start {
        var y := Clamp(Accumulated(ticks, start, stop - 1));
        AccumulatedMonotone(ticks, start, stop - 1, stop);
        OverallMonotone(current, total, y, x);
      }
    }
  }

  /** Two runs of reports, each sorted, the first ending no higher than the second starts. */
  lemma SortedConcat(a: seq<real>, b: seq<real>, mid: real)
    requires Sorted(a) && Sorted(b)
    requires forall i :: 0 <= i < |a| ==> a[i] <= mid
    requires forall i :: 0 <= i < |b| ==> mid <= b[i]
    ensures Sorted(a + b)
  {
  }

  lemma BetweenConcat(a: seq<real>, b: seq<real>, lo: real, hi: real)
    requires Between(a, lo, hi) && Between(b, lo, hi)
    ensures Between(a + b, lo, hi)
  {
  }
}
