/** The read pool's running estimate of a task's time slice (src/read_pool.rs,
    `TimeSliceInspector`): an exponentially weighted moving average over the
    samples of three histograms.  Durations are nanoseconds: whole ones in what the
    inspector keeps, real numbers in the exact average it approximates. */
module TimeSlice {

  import opened Arithmetic

  const WEIGHT := 0.3
  const KEEP := 0.7
  const MIN_TIME_DIFF: nat := 100_000_000
  const TWO_32: nat := 0x1_0000_0000
  const TWO_64: nat := 0x1_0000_0000_0000_0000

  /** A histogram's accumulated time and number of samples. */
  datatype Totals = Totals(time: nat, count: nat)

  datatype Outcome = Skipped | Committed | DivisionByZero

  function Diff(a: Totals, b: Totals): Totals {
    Totals(if a.time > b.time then a.time - b.time else 0, if a.count > b.count then a.count - b.count else 0)
  }

  function OutcomeOf(window: Totals): Outcome {
    if window.time < MIN_TIME_DIFF || window.count == 0 then Skipped
    else if window.count % TWO_32 == 0 then DivisionByZero
    else Committed
  }

  function Merged(hists: seq<Totals>): Totals {
    if hists == [] then Totals(0, 0)
    else
      var rest := Merged(hists[..|hists| - 1]);
      var h := hists[|hists| - 1];
      Totals(rest.time + h.time, rest.count + h.count)
  }

  // ---------------------------------------------------------------------------
  // The inspector, in whole nanoseconds
  // ---------------------------------------------------------------------------

  datatype Kept = Kept(ewma: nat, last: Totals, atomicNanos: nat, poisoned: bool)

  const NEW := Kept(0, Totals(0, 0), 0, false)

  /** `mul_f64`: the product rounded to the nearest nanosecond. */
  function Scaled(x: nat, w: real): nat
    requires w >= 0.0
  {
    (x as real * w + 0.5).Floor
  }

  /** `update` on the merged totals of all histograms.  The count is truncated to 32
      bits before the division, which cuts to whole nanoseconds; a panic poisons the
      lock. */
  function KeptUpdated(s: Kept, now: Totals): Kept {
    var window := Diff(now, s.last);
    if s.poisoned then s
    else match OutcomeOf(window)
      case Skipped => s
      case DivisionByZero => s.(poisoned := true)
      case Committed =>
        var ewma := Scaled(window.time / (window.count % TWO_32), WEIGHT) + Scaled(s.ewma, KEEP);
        Kept(ewma, now, ewma % TWO_64, false)
  }

  class TimeSliceInspector {
    var ewma: nat
    var lastSum: nat
    var lastCount: nat
    var atomicNanos: nat
    var poisoned: bool

    ghost function State(): Kept
      reads this
    {
      Kept(ewma, Totals(lastSum, lastCount), atomicNanos, poisoned)
    }

    constructor ()
      ensures State() == NEW
    {
      ewma, lastSum, lastCount, atomicNanos, poisoned := 0, 0, 0, 0, false;
    }

    method Update(hists: seq<Totals>)
      modifies this
      ensures State() == KeptUpdated(old(State()), Merged(hists))
    {
      if poisoned {
        return;
      }
      var newSum: nat, newCount: nat := 0, 0;
      for i := 0 to |hists|
        invariant Totals(newSum, newCount) == Merged(hists[..i])
        invariant State() == old(State())
      {
        newSum := newSum + hists[i].time;
        newCount := newCount + hists[i].count;
        assert hists[..i + 1][..i] == hists[..i];
      }
      assert hists[..|hists|] == hists;
      var timeDiff := if newSum > lastSum then newSum - lastSum else 0;
      var countDiff := if newCount > lastCount then newCount - lastCount else 0;
      if timeDiff < MIN_TIME_DIFF || countDiff == 0 {
        return;
      }
      var divisor := (newCount - lastCount) % TWO_32;
      if divisor == 0 {
        poisoned := true;
        return;
      }
      var newVal := timeDiff / divisor;
      var newEwma := Scaled(newVal, WEIGHT) + Scaled(ewma, KEEP);
      ewma, lastSum, lastCount := newEwma, newSum, newCount;
      atomicNanos := newEwma % TWO_64;
    }
  }

  function KeptExec(s: Kept, snaps: seq<Totals>): Kept
    decreases |snaps|
  {
    if snaps == [] then s else KeptUpdated(KeptExec(s, snaps[..|snaps| - 1]), snaps[|snaps| - 1])
  }

  /** In every run the atomic mirror shows the average modulo 2^64 ... */
  lemma {:induction false} MirrorShowsAverage(snaps: seq<Totals>)
    ensures KeptExec(NEW, snaps).atomicNanos == KeptExec(NEW, snaps).ewma % TWO_64
    decreases |snaps|
  {
    if snaps != [] { MirrorShowsAverage(snaps[..|snaps| - 1]); }
  }

  /** ... which is the average itself exactly as long as that fits in 64 bits. */
  lemma MirrorIsTheAverage(snaps: seq<Totals>)
    ensures KeptExec(NEW, snaps).atomicNanos == KeptExec(NEW, snaps).ewma <==> KeptExec(NEW, snaps).ewma < TWO_64
  {
    MirrorShowsAverage(snaps);
    var x := KeptExec(NEW, snaps).ewma;
    assert 0 <= x % TWO_64 < TWO_64;
  }

  // ---------------------------------------------------------------------------
  // The exact average
  // ---------------------------------------------------------------------------

  datatype Inspector = Inspector(ewma: real, last: Totals, poisoned: bool)

  const FRESH := Inspector(0.0, Totals(0, 0), false)

  function AverageOf(window: Totals): real
    requires window.count % TWO_32 != 0
  {
    window.time as real / (window.count % TWO_32) as real
  }

  function Blend(average: real, ewma: real): real {
    average * WEIGHT + ewma * KEEP
  }

  /** The same update without any rounding. */
  function Updated(s: Inspector, now: Totals): Inspector {
    var window := Diff(now, s.last);
    if s.poisoned then s
    else match OutcomeOf(window)
      case Skipped => s
      case DivisionByZero => s.(poisoned := true)
      case Committed => Inspector(Blend(AverageOf(window), s.ewma), now, false)
  }

  // ---------------------------------------------------------------------------
  // Runs
  // ---------------------------------------------------------------------------

  function Exec(s: Inspector, snaps: seq<Totals>): Inspector
    decreases |snaps|
  {
    if snaps == [] then s else Updated(Exec(s, snaps[..|snaps| - 1]), snaps[|snaps| - 1])
  }

  /** The windows that updates committed, oldest first. */
  ghost function Windows(s: Inspector, snaps: seq<Totals>): seq<Totals>
    decreases |snaps|
  {
    if snaps == [] then []
    else
      var t := Exec(s, snaps[..|snaps| - 1]);
      var window := Diff(snaps[|snaps| - 1], t.last);
      Windows(s, snaps[..|snaps| - 1]) + (if !t.poisoned && OutcomeOf(window).Committed? then [window] else [])
  }

  /** The snapshots at which updates committed. */
  ghost function CommittedAt(s: Inspector, snaps: seq<Totals>): seq<Totals>
    decreases |snaps|
  {
    if snaps == [] then []
    else
      var t := Exec(s, snaps[..|snaps| - 1]);
      var now := snaps[|snaps| - 1];
      CommittedAt(s, snaps[..|snaps| - 1]) +
      (if !t.poisoned && OutcomeOf(Diff(now, t.last)).Committed? then [now] else [])
  }

  ghost predicate Later(a: Totals, b: Totals) { a.time <= b.time && a.count <= b.count }

  /** Histograms only grow. */
  ghost predicate Growing(snaps: seq<Totals>) {
    forall i, j :: 0 <= i < j < |snaps| ==> Later(snaps[i], snaps[j])
  }

  /** No window gathers 2^32 samples or more. */
  ghost predicate SmallWindows(snaps: seq<Totals>)
    decreases |snaps|
  {
    snaps == [] ||
    var n := |snaps| - 1;
    SmallWindows(snaps[..n]) && snaps[n].count - Exec(FRESH, snaps[..n]).last.count < TWO_32
  }

  function Power(n: nat): real { if n == 0 then 1.0 else 0.7 * Power(n - 1) }

  function Mean(w: Totals): real
    requires w.count > 0
  {
    w.time as real / w.count as real
  }

  ghost predicate Windowed(ws: seq<Totals>) {
    forall w :: w in ws ==> w.time >= MIN_TIME_DIFF && 0 < w.count < TWO_32
  }

  ghost function Means(ws: seq<Totals>): seq<real>
    requires Windowed(ws)
  {
    if ws == [] then []
    else
      var n := |ws| - 1;
      assert ws[n] in ws;
      Means(ws[..n]) + [Mean(ws[n])]
  }

  /** `0.3 * 0.7^n * m`. */
  ghost function Weigh(n: nat, m: real): real {
    if n == 0 then 0.3 * m else 0.7 * Weigh(n - 1, m)
  }

  /** The moving average written out: the i-th of n means weighs
      0.3 * 0.7^(n-1-i). */
  ghost function WeightedSum(ms: seq<real>): real {
    if ms == [] then 0.0 else Weigh(|ms| - 1, ms[0]) + WeightedSum(ms[1..])
  }

  lemma {:induction false} WeighIsProduct(n: nat, m: real)
    ensures Weigh(n, m) == 0.3 * Power(n) * m
  {
    if n > 0 { WeighIsProduct(n - 1, m); }
  }

  lemma {:induction false} WeightedSumAppend(ms: seq<real>, m: real)
    ensures WeightedSum(ms + [m]) == Blend(m, WeightedSum(ms))
  {
    if ms == [] {
      assert ms + [m] == [m];
      assert WeightedSum([m]) == Weigh(0, m) + WeightedSum([]);
    } else {
      assert (ms + [m])[1..] == ms[1..] + [m];
      WeightedSumAppend(ms[1..], m);
    }
  }

  lemma {:induction false} MergedAppend(ws: seq<Totals>, w: Totals)
    ensures Merged(ws + [w]) == Totals(Merged(ws).time + w.time, Merged(ws).count + w.count)
  {
    assert (ws + [w])[..|ws|] == ws;
  }

  /** The windows account for everything up to the last committed totals. */
  ghost predicate Partitions(s: Inspector, ws: seq<Totals>) {
    && !s.poisoned
    && Windowed(ws)
    && Merged(ws) == s.last
  }

  lemma UpdatePartitions(s: Inspector, ws: seq<Totals>, now: Totals)
    requires Partitions(s, ws) && Later(s.last, now) && now.count - s.last.count < TWO_32
    ensures var w := Diff(now, s.last);
            var ws' := ws + if OutcomeOf(w).Committed? then [w] else [];
            && Partitions(Updated(s, now), ws')
            && Later(Updated(s, now).last, now)
            && OutcomeOf(Diff(now, Updated(s, now).last)).Skipped?
  {
    var w := Diff(now, s.last);
    if OutcomeOf(w).Committed? {
      MergedAppend(ws, w);
    } else {
      assert ws + [] == ws;
    }
  }

  /** In every run over growing histograms the committed windows partition the
      samples: their times and counts add up to the last committed totals, and what
      is not yet committed is a window too small to commit. */
  lemma {:induction false} WindowsPartitionSamples(snaps: seq<Totals>)
    requires Growing(snaps) && SmallWindows(snaps)
    ensures Partitions(Exec(FRESH, snaps), Windows(FRESH, snaps))
    ensures snaps != [] ==>
              var now, last := snaps[|snaps| - 1], Exec(FRESH, snaps).last;
              Later(last, now) && OutcomeOf(Diff(now, last)).Skipped?
    decreases |snaps|
  {
    if snaps != [] {
      var n := |snaps| - 1;
      var front := snaps[..n];
      WindowsPartitionSamples(front);
      var s := Exec(FRESH, front);
      assert n > 0 ==> front[n - 1] == snaps[n - 1] && Later(snaps[n - 1], snaps[n]);
      UpdatePartitions(s, Windows(FRESH, front), snaps[n]);
    }
  }

  lemma MeansAppend(ws: seq<Totals>, w: Totals)
    requires Windowed(ws + [w])
    ensures Windowed(ws)
    ensures Means(ws + [w]) == Means(ws) + [Mean(w)]
  {
    assert (ws + [w])[..|ws|] == ws;
    assert forall x :: x in ws ==> x in ws + [w];
  }

  lemma WindowAverage(w: Totals)
    requires 0 < w.count < TWO_32
    ensures w.count % TWO_32 != 0 && AverageOf(w) == Mean(w)
  {
  }

  /** ... and the average is the weighted sum of the means of the windows. */
  lemma {:induction false} AverageIsWeightedSum(snaps: seq<Totals>)
    requires Growing(snaps) && SmallWindows(snaps)
    ensures Windowed(Windows(FRESH, snaps))
    ensures Exec(FRESH, snaps).ewma == WeightedSum(Means(Windows(FRESH, snaps)))
    decreases |snaps|
  {
    WindowsPartitionSamples(snaps);
    if snaps != [] {
      var front, now := snaps[..|snaps| - 1], snaps[|snaps| - 1];
      AverageIsWeightedSum(front);
      WindowsPartitionSamples(front);
      var s, ws := Exec(FRESH, front), Windows(FRESH, front);
      var w := Diff(now, s.last);
      if OutcomeOf(w).Committed? {
        assert Windows(FRESH, snaps) == ws + [w];
        assert w in ws + [w];
        MeansAppend(ws, w);
        WindowAverage(w);
        WeightedSumAppend(Means(ws), Mean(w));
      } else {
        assert Windows(FRESH, snaps) == ws;
      }
    }
  }

  // ---------------------------------------------------------------------------
  // Rounding
  // ---------------------------------------------------------------------------

  /** The two agree on what is committed, and their averages differ by at most `e`. */
  ghost predicate Near(a: Inspector, b: Inspector, e: real) {
    a.last == b.last && a.poisoned == b.poisoned && -e <= a.ewma - b.ewma <= e
  }

  /** An update that gets a new average right up to an error of `e`. */
  ghost predicate RoundedUpdate(a: Inspector, now: Totals, b: Inspector, e: real) {
    if !a.poisoned && OutcomeOf(Diff(now, a.last)).Committed? then Near(b, Updated(a, now), e) else b == Updated(a, now)
  }

  ghost predicate RoundedRun(states: seq<Inspector>, snaps: seq<Totals>, e: real) {
    && |states| == |snaps| + 1 && states[0] == FRESH
    && forall i :: 0 <= i < |snaps| ==> RoundedUpdate(states[i], snaps[i], states[i + 1], e)
  }

  lemma RoundedUpdateStaysNear(a: Inspector, x: Inspector, now: Totals, b: Inspector, e: real)
    requires e >= 0.0 && RoundedUpdate(a, now, b, e) && Near(a, x, 10.0 * e / 3.0)
    ensures Near(b, Updated(x, now), 10.0 * e / 3.0)
  {
  }

  /** However an inspector rounds, floating point included: if each new average is off
      by at most `e`, every run of it stays within ten thirds of `e` of the exact one
      and commits the same windows. */
  lemma {:induction false} RoundingStaysBounded(states: seq<Inspector>, snaps: seq<Totals>, e: real)
    requires e >= 0.0 && RoundedRun(states, snaps, e)
    ensures Near(states[|snaps|], Exec(FRESH, snaps), 10.0 * e / 3.0)
    decreases |snaps|
  {
    if snaps != [] {
      var n := |snaps| - 1;
      assert RoundedRun(states[..n + 1], snaps[..n], e);
      RoundingStaysBounded(states[..n + 1], snaps[..n], e);
      assert RoundedUpdate(states[n], snaps[n], states[n + 1], e);
      RoundedUpdateStaysNear(states[n], Exec(FRESH, snaps[..n]), snaps[n], states[n + 1], e);
    }
  }

  /** The kept average is within 13/3 nanoseconds of the exact one. */
  ghost predicate Close(k: Kept, x: Inspector) {
    && k.last == x.last && k.poisoned == x.poisoned
    && -13.0 <= 3.0 * (k.ewma as real - x.ewma) <= 13.0
  }

  lemma ScaledIsClose(x: nat, w: real)
    requires w >= 0.0
    ensures -0.5 <= Scaled(x, w) as real - x as real * w <= 0.5
  {
  }

  lemma ScaledLess(a: real, b: real, n: real)
    requires n > 0.0
    ensures a * n < b * n <==> a < b
  {
  }

  /** Whole nanoseconds of a quotient. */
  lemma CutQuotient(t: nat, n: nat)
    requires n >= 1
    ensures (t / n) as real <= t as real / n as real < (t / n) as real + 1.0
  {
    var q, x := t / n, t as real / n as real;
    QuotientBounds(t, n);
    assert (q * n) as real == q as real * n as real;
    assert (q as real + 1.0) * n as real == (q * n + n) as real;
    ScaledLess(x, q as real, n as real);
    ScaledLess(x, q as real + 1.0, n as real);
    assert x * n as real == t as real;
  }

  lemma UpdateStaysClose(k: Kept, x: Inspector, now: Totals)
    requires Close(k, x)
    ensures Close(KeptUpdated(k, now), Updated(x, now))
  {
    var window := Diff(now, k.last);
    if OutcomeOf(window).Committed? && !k.poisoned {
      var n := window.count % TWO_32;
      CutQuotient(window.time, n);
      ScaledIsClose(window.time / n, WEIGHT);
      ScaledIsClose(k.ewma, KEEP);
    }
  }

  /** Cutting every quotient and rounding both products to nanoseconds never adds up:
      in every run the inspector commits the same windows as the exact average and
      stays within 13/3 nanoseconds of it. */
  lemma {:induction false} KeptRunsStayClose(snaps: seq<Totals>)
    ensures Close(KeptExec(NEW, snaps), Exec(FRESH, snaps))
    decreases |snaps|
  {
    if snaps != [] {
      var n := |snaps| - 1;
      KeptRunsStayClose(snaps[..n]);
      UpdateStaysClose(KeptExec(NEW, snaps[..n]), Exec(FRESH, snaps[..n]), snaps[n]);
    }
  }

  /** So what the inspector publishes is the weighted sum of the windows' means, to
      within 13/3 nanoseconds. */
  lemma KeptIsNearWeightedSum(snaps: seq<Totals>)
    requires Growing(snaps) && SmallWindows(snaps)
    ensures Windowed(Windows(FRESH, snaps))
    ensures -13.0 <= 3.0 * (KeptExec(NEW, snaps).ewma as real - WeightedSum(Means(Windows(FRESH, snaps)))) <= 13.0
  {
    KeptRunsStayClose(snaps);
    AverageIsWeightedSum(snaps);
  }

  /** Skipped updates leave no trace: replaying only the committed snapshots gives
      the same inspector. */
  lemma {:induction false} SkippedUpdatesAreInvisible(s: Inspector, snaps: seq<Totals>)
    requires !Exec(s, snaps).poisoned
    ensures Exec(s, CommittedAt(s, snaps)) == Exec(s, snaps)
    decreases |snaps|
  {
    if snaps != [] {
      var front, now := snaps[..|snaps| - 1], snaps[|snaps| - 1];
      SkippedUpdatesAreInvisible(s, front);
      var cs := CommittedAt(s, front);
      assert (cs + [now])[..|cs|] == cs;
      assert cs + [] == cs;
    }
  }

  /** The part of `x` that an average of `n` windows with mean `x` has reached. */
  ghost function Reached(n: nat, x: real): real {
    if n == 0 then 0.0 else Weigh(n - 1, x) + Reached(n - 1, x)
  }

  lemma {:induction false} ReachedIsShare(n: nat, x: real)
    ensures Reached(n, x) == (1.0 - Power(n)) * x
  {
    if n > 0 {
      ReachedIsShare(n - 1, x);
      WeighIsProduct(n - 1, x);
    }
  }

  lemma {:induction false} WeighMonotone(n: nat, a: real, b: real)
    requires a <= b
    ensures Weigh(n, a) <= Weigh(n, b)
  {
    if n > 0 { WeighMonotone(n - 1, a, b); }
  }

  lemma {:induction false} WeightedSumBounds(ms: seq<real>, lo: real, hi: real)
    requires forall i :: 0 <= i < |ms| ==> lo <= ms[i] <= hi
    ensures Reached(|ms|, lo) <= WeightedSum(ms) <= Reached(|ms|, hi)
  {
    if ms != [] {
      WeightedSumBounds(ms[1..], lo, hi);
      WeighMonotone(|ms| - 1, lo, ms[0]);
      WeighMonotone(|ms| - 1, ms[0], hi);
    }
  }

  lemma {:induction false} MeansBetween(ws: seq<Totals>, lo: real, hi: real)
    requires Windowed(ws) && forall w :: w in ws ==> lo <= Mean(w) <= hi
    ensures |Means(ws)| == |ws| && forall i :: 0 <= i < |ws| ==> lo <= Means(ws)[i] <= hi
  {
    if ws != [] { MeansBetween(ws[..|ws| - 1], lo, hi); }
  }

  /** After a run with `n` committed windows the average lies between `1 - 0.7^n`
      times the smallest and the largest of their means. */
  lemma AverageBounds(snaps: seq<Totals>, lo: real, hi: real)
    requires Growing(snaps) && SmallWindows(snaps)
    requires forall w :: w in Windows(FRESH, snaps) ==> w.count > 0 && lo <= Mean(w) <= hi
    ensures var n := |Windows(FRESH, snaps)|;
            Reached(n, lo) <= Exec(FRESH, snaps).ewma <= Reached(n, hi)
  {
    var ws := Windows(FRESH, snaps);
    AverageIsWeightedSum(snaps);
    MeansBetween(ws, lo, hi);
    WeightedSumBounds(Means(ws), lo, hi);
  }

  lemma QuotientsDiffer(t: real, a: real, b: real)
    requires t > 0.0 && 0.0 < a < b
    ensures t / b < t / a
  {
    assert t / a * a == t && t / b * b == t;
  }

  /** An update is skipped exactly if less than 100 ms or no samples were added since
      the last one that was not; then, and after a panic, it changes nothing. */
  lemma SkippedIff(s: Kept, now: Totals)
    ensures OutcomeOf(Diff(now, s.last)).Skipped? <==> now.time < s.last.time + 100_000_000 || now.count <= s.last.count
    ensures s.poisoned || OutcomeOf(Diff(now, s.last)).Skipped? ==> KeptUpdated(s, now) == s
    ensures !s.poisoned && OutcomeOf(Diff(now, s.last)).DivisionByZero? ==> KeptUpdated(s, now) == s.(poisoned := true)
  {
  }

  /** An update divides by the true number of samples exactly when the window
      holds fewer than 2^32 of them; at a multiple of 2^32 it panics. */
  lemma AverageCorrectIff(window: Totals)
    requires window.time >= 100_000_000 && window.count > 0
    ensures OutcomeOf(window).DivisionByZero? <==> window.count % 0x1_0000_0000 == 0
    ensures (OutcomeOf(window).Committed? && AverageOf(window) == Mean(window)) <==> window.count < 0x1_0000_0000
  {
    var n, m := window.count, window.count % TWO_32;
    if n >= TWO_32 && m != 0 {
      QuotientsDiffer(window.time as real, m as real, n as real);
    }
  }

  /** One sample more than 2^32, all of 2^32 + 1 nanoseconds together, passes for one
      sample of that length; exactly 2^32 samples panic. */
  lemma AverageCanBeWrong()
    ensures var w := Totals(TWO_32 + 1, TWO_32 + 1);
            && OutcomeOf(w).Committed? && Mean(w) == 1.0 && AverageOf(w) == (TWO_32 + 1) as real
    ensures OutcomeOf(Totals(TWO_32, TWO_32)).DivisionByZero?
  {
    assert (TWO_32 + 1) % TWO_32 == 1;
  }
}
