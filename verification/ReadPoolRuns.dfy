/** What every run of the read pool's size controller keeps, and where it goes
    when the readings stay the same. */
module ReadPoolRuns {

  import opened Arithmetic
  import opened ReadPoolScaling
  import opened Wrappers

  // ---------------------------------------------------------------------------
  // Invariants of runs
  // ---------------------------------------------------------------------------

  /** A runner as `ReadPoolConfigManager::new` starts it on a pool it was built for. */
  ghost predicate Started(s: Runner) {
    && 1 <= s.maxThreads == s.core == s.cur == s.poolSize == s.threadGauge == s.workers
    && s.announced == [] && !s.panicked
  }

  ghost predicate Consistent(s: Runner) {
    && !s.panicked
    && 1 <= s.core
    && 1 <= s.cur == s.poolSize == s.threadGauge == s.workers
    && (!s.autoAdjust ==> s.cur == s.core)
  }

  /** The size the notification channel last carried, or the initial one. */
  ghost function LastAnnounced(s: Runner): nat {
    if s.announced == [] then s.maxThreads else s.announced[|s.announced| - 1]
  }

  ghost predicate Admissible(e: Event) {
    && (e.Config? && e.task.PoolSize? ==> e.task.size >= 1)
    && (e.Timer? ==> NonNegative(e.reading))
  }

  ghost function Ceiling(s: Runner): nat { Max(s.core, s.maxThreads) }

  /** Every tick of the run measures at most one CPU per running thread. */
  ghost predicate CpuWithinThreads(s: Runner, es: seq<Event>) {
    forall i :: 0 <= i < |es| && es[i].Timer? ==> es[i].reading.poolCpu <= Exec(s, es[..i]).cur as real
  }

  lemma TargetNonNegative(s: Runner, r: Reading)
    requires NonNegative(r)
    ensures Target(s, r) >= 0.0
  {
  }

  lemma FloorBelow(x: real, n: nat)
    requires x < n as real
    ensures n > 0 ==> FloorToCount(x) < n
  {
  }

  lemma MulLess(a: real, b: real, c: real)
    requires a < b && c > 0.0
    ensures a * c < b * c
  {
  }

  lemma MulLeq(a: real, b: real, c: real)
    requires a <= b && c >= 0.0
    ensures a * c <= b * c
  {
  }

  lemma ShareShrinks(x: real, target: real, cpu: real, y: real)
    requires x >= 0.0 && cpu > 0.0 && 11.0 * target <= 10.0 * cpu && y * cpu == x * target
    ensures 11.0 * y <= 10.0 * x
  {
    MulLeq(11.0 * target, 10.0 * cpu, x);
    if 11.0 * y > 10.0 * x {
      MulLess(10.0 * x, 11.0 * y, cpu);
      assert false;
    }
  }

  lemma ShareBounds(x: real, target: real, cpu: real)
    requires x >= 0.0 && target >= 0.0 && cpu > 0.0 && 11.0 * target <= 10.0 * cpu
    ensures 0.0 <= Share(x, target, cpu) && 11.0 * Share(x, target, cpu) <= 10.0 * x
  {
    var product := x * target;
    MulLeq(0.0, x, target);
    var y := product / cpu;
    assert y * cpu == product;
    ShareShrinks(x, target, cpu, y);
  }

  lemma FloorOfShare(p: nat, c: nat, y: real)
    requires p == FloorToCount(y) && y >= 0.0 && 11.0 * y <= 10.0 * c as real && c >= 1
    ensures 11.0 * p as real <= 10.0 * c as real && p < c
  {
    assert (y.Floor) as real <= y;
  }

  /** Shrinking in proportion strictly shrinks, by at least one part in eleven. */
  lemma ProportionalShrinks(c: nat, target: real, cpu: real)
    requires target >= 0.0 && cpu > (LEEWAY + 1.0) * target && c >= 1
    ensures cpu > 0.0
    ensures 11.0 * Proportional(c, target, cpu) as real <= 10.0 * c as real
    ensures Proportional(c, target, cpu) < c
  {
    var x := c as real;
    ShareBounds(x, target, cpu);
    FloorOfShare(Proportional(c, target, cpu), c, Share(x, target, cpu));
  }

  lemma NextCountPositive(s: Runner, r: Reading)
    requires NonNegative(r) && s.cur >= 1
    ensures NextCount(s, r) >= 1
  {
    assert s.cur == 1 ==> (s.cur - 1) as real * LOW_THRESHOLD == 0.0;
  }

  /** A tick lifts the count over its ceiling exactly when the CPU rule fires
      with a target of more whole cores than the ceiling. */
  lemma TickBreaksCeilingIff(s: Runner, r: Reading)
    requires Consistent(s) && NonNegative(r) && s.cur <= Ceiling(s)
    ensures Tick(s, r).cur > Ceiling(s) <==>
            s.autoAdjust && r.processCpu.Some? && AboveBand(s, r) && FloorToCount(Target(s, r)) > Ceiling(s)
  {
    TargetNonNegative(s, r);
    NextCountPositive(s, r);
    if AboveBand(s, r) {
      ProportionalShrinks(s.cur, Target(s, r), r.poolCpu);
    }
  }

  lemma StepConsistent(s: Runner, e: Event)
    requires Consistent(s) && Admissible(e)
    ensures Consistent(Step(s, e))
    ensures Step(s, e).maxThreads == s.maxThreads && Step(s, e).minThreads == s.minThreads
    ensures (LastAnnounced(s) == s.cur || s.cur == s.core) ==>
              (LastAnnounced(Step(s, e)) == Step(s, e).cur || Step(s, e).cur == Step(s, e).core)
  {
    if e.Timer? {
      NextCountPositive(s, e.reading);
    }
  }

  lemma StepKeepsCeiling(s: Runner, e: Event)
    requires Consistent(s) && Admissible(e) && s.cur <= Ceiling(s)
    requires e.Timer? ==> e.reading.poolCpu <= s.cur as real
    ensures Step(s, e).cur <= Ceiling(Step(s, e))
  {
    StepConsistent(s, e);
    if e.Timer? {
      var r := e.reading;
      TickBreaksCeilingIff(s, r);
      TargetNonNegative(s, r);
      if AboveBand(s, r) {
        FloorBelow(Target(s, r), s.cur);
      }
    }
  }

  /** In every run of configuration tasks and ticks with sizes of at least one:
      the runner's count, the handle's pool size, the thread gauge and the worker
      count agree and are at least one, no division by zero happens, a disabled
      controller sits at the configured size, and the last announced size is the
      current one unless the count was reset to the configured size.  If no tick
      measures more CPU than the pool has threads, the count never passes the
      larger of the configured size and the growth limit. */
  lemma {:induction false} RunKeepsSizes(s: Runner, es: seq<Event>)
    requires Started(s)
    requires forall e :: e in es ==> Admissible(e)
    ensures Consistent(Exec(s, es))
    ensures Exec(s, es).maxThreads == s.maxThreads
    ensures LastAnnounced(Exec(s, es)) == Exec(s, es).cur || Exec(s, es).cur == Exec(s, es).core
    ensures CpuWithinThreads(s, es) ==> Exec(s, es).cur <= Ceiling(Exec(s, es))
    decreases |es|
  {
    if es == [] {
    } else {
      var front, e := es[..|es| - 1], es[|es| - 1];
      RunKeepsSizes(s, front);
      StepConsistent(Exec(s, front), e);
      if CpuWithinThreads(s, es) {
        forall i | 0 <= i < |front| && front[i].Timer?
          ensures front[i].reading.poolCpu <= Exec(s, front[..i]).cur as real
        {
          assert front[..i] == es[..i];
          assert es[i].Timer?;
        }
        StepKeepsCeiling(Exec(s, front), e);
      }
    }
  }

  /** Without the bound on the measured CPU the ceiling really is exceeded: one
      tick takes a two-thread pool to eight threads. */
  lemma CeilingCanBeExceeded()
    ensures var s := Runner(1, 2, 2, 2, true, 0.8, 4, 2, 2, 2, [], false);
            var r := Reading(9.0, 0.0, 0, Some(0.0), 10.0);
            Started(s) && NonNegative(r) && Exec(s, [Timer(r)]).cur == 8 && Ceiling(s) == 2
  {
    var s := Runner(1, 2, 2, 2, true, 0.8, 4, 2, 2, 2, [], false);
    var r := Reading(9.0, 0.0, 0, Some(0.0), 10.0);
    assert Target(s, r) == 8.0;
    assert Proportional(2, 8.0, 9.0) <= 2;
    assert [Timer(r)][..0] == [];
    assert Exec(s, [Timer(r)]) == Step(Exec(s, []), Timer(r));
  }

  ghost predicate AtZero(s: Runner) {
    s.panicked || (s.core == s.cur == s.poolSize == 0)
  }

  lemma StepAtZero(s: Runner, e: Event)
    requires AtZero(s) && (e.Timer? ==> NonNegative(e.reading))
    ensures AtZero(Step(s, e))
  {
  }

  /** A pool size of zero is a one-way door: a run ends panicked or stuck at size
      zero exactly when it was ever configured to zero. */
  lemma {:induction false} ZeroSizeIffConfigured(s: Runner, es: seq<Event>)
    requires Started(s)
    requires forall e :: e in es && e.Timer? ==> NonNegative(e.reading)
    ensures AtZero(Exec(s, es)) <==> Config(PoolSize(0)) in es
    ensures Config(PoolSize(0)) !in es ==> Consistent(Exec(s, es))
    decreases |es|
  {
    if es == [] {
    } else {
      var front, e := es[..|es| - 1], es[|es| - 1];
      assert es == front + [e];
      ZeroSizeIffConfigured(s, front);
      if Config(PoolSize(0)) in front {
        StepAtZero(Exec(s, front), e);
      } else if e != Config(PoolSize(0)) {
        StepConsistent(Exec(s, front), e);
      }
    }
  }

  // ---------------------------------------------------------------------------
  // The task limit depends only on the largest size left behind
  // ---------------------------------------------------------------------------

  /** The event sends a new size through `scale_pool_size`. */
  ghost predicate Resizes(s: Runner, e: Event) {
    match e
    case Config(PoolSize(n)) => n != s.core
    case Config(AutoAdjust(on)) => !on && s.cur != s.core
    case Config(_) => false
    case Timer(r) => s.autoAdjust && r.processCpu.Some? && NextCount(s, r) != s.cur
  }

  /** A run together with the last configured tasks-per-worker value and the
      largest size the pool has been resized away from since then (0 if none). */
  datatype Tracked = Tracked(s: Runner, perWorker: nat, peak: nat)

  ghost function TrackedStep(t: Tracked, e: Event): Tracked {
    if e.Config? && e.task.MaxTasksPerWorker? then
      Tracked(Step(t.s, e), e.task.perWorker, 0)
    else if Resizes(t.s, e) then
      Tracked(Step(t.s, e), t.perWorker, Max(t.peak, t.s.poolSize))
    else
      t.(s := Step(t.s, e))
  }

  ghost function Track(t: Tracked, es: seq<Event>): Tracked
    decreases |es|
  {
    if es == [] then t else TrackedStep(Track(t, es[..|es| - 1]), es[|es| - 1])
  }

  /** What remains of `perWorker` after leaving a size of `peak`. */
  function Effective(perWorker: nat, peak: nat): nat {
    if peak == 0 then perWorker else Min(perWorker, USIZE_MAX / peak)
  }

  /** Dividing a saturated product by one factor: the other factor, capped by
      what fits. */
  lemma CappedQuotient(k: nat, n: nat, cap: nat)
    requires n >= 1
    ensures Min(k * n, cap) / n == Min(k, cap / n)
  {
    var q := cap / n;
    QuotientBounds(cap, n);
    var p := k * n;
    if k <= q {
      MulMonotone(k, q, n);
      QuotientIs(p, n, k);
    } else {
      MulMonotone(q + 1, k, n);
      assert p >= q * n + n > cap;
    }
  }

  lemma QuotientShrinks(a: nat, b: nat, x: nat)
    requires 1 <= a <= b
    ensures x / b <= x / a
  {
    QuotientBounds(x, a);
    QuotientBounds(x, b);
    if x / a < x / b {
      MulMonotone(x / a + 1, x / b, a);
      MulMonotone(a, b, x / b);
      assert false;
    }
  }

  lemma EffectiveAfterLeaving(k: nat, peak: nat, size: nat)
    requires size >= 1
    ensures SaturatingMul(Effective(k, peak), size) / size == Effective(k, Max(peak, size))
  {
    CappedQuotient(Effective(k, peak), size, USIZE_MAX);
    if 1 <= peak <= size {
      QuotientShrinks(peak, size, USIZE_MAX);
    } else if peak > size {
      QuotientShrinks(size, peak, USIZE_MAX);
    }
  }

  /** The limit `scale_pool_size` computes when the size becomes `n`. */
  ghost predicate RescaledTo(s: Runner, s': Runner, n: nat)
    requires s.poolSize >= 1
  {
    s'.maxTasks == SaturatingMul(s.maxTasks / s.poolSize, n) && s'.poolSize == n
  }

  lemma StepLimit(s: Runner, e: Event)
    requires Consistent(s) && Admissible(e) && !(e.Config? && e.task.MaxTasksPerWorker?)
    ensures Resizes(s, e) ==> RescaledTo(s, Step(s, e), Step(s, e).poolSize)
    ensures !Resizes(s, e) ==> Step(s, e).maxTasks == s.maxTasks && Step(s, e).poolSize == s.poolSize
  {
  }

  ghost predicate LimitExact(t: Tracked) {
    t.s.maxTasks == SaturatingMul(Effective(t.perWorker, t.peak), t.s.poolSize)
  }

  /** In every run the task limit is a closed form of three numbers: the last
      configured tasks per worker, the current size, and the largest size the
      pool was resized away from since.  The rest of the path does not matter. */
  lemma {:induction false} TaskLimitClosedForm(t: Tracked, es: seq<Event>)
    requires Consistent(t.s) && LimitExact(t)
    requires forall e :: e in es ==> Admissible(e)
    ensures Track(t, es).s == Exec(t.s, es)
    ensures Consistent(Track(t, es).s) && LimitExact(Track(t, es))
    decreases |es|
  {
    if es == [] {
    } else {
      var front, e := es[..|es| - 1], es[|es| - 1];
      TaskLimitClosedForm(t, front);
      var u := Track(t, front);
      StepConsistent(u.s, e);
      if !(e.Config? && e.task.MaxTasksPerWorker?) {
        StepLimit(u.s, e);
        EffectiveAfterLeaving(u.perWorker, u.peak, u.s.poolSize);
      }
    }
  }

  /** The limit is the intended `perWorker * size`, saturated, exactly when the
      configured value survived the largest size, or both saturate anyway. */
  lemma TaskLimitIntendedIff(t: Tracked)
    requires LimitExact(t)
    ensures t.s.maxTasks <= SaturatingMul(t.perWorker, t.s.poolSize)
    ensures t.s.maxTasks == SaturatingMul(t.perWorker, t.s.poolSize) <==>
            || t.peak == 0
            || t.perWorker * t.peak <= USIZE_MAX
            || t.s.poolSize == 0
            || USIZE_MAX / t.peak * t.s.poolSize >= USIZE_MAX
  {
    var k, p, n := t.perWorker, t.peak, t.s.poolSize;
    var e := Effective(k, p);
    MulMonotone(e, k, n);
    if p >= 1 {
      QuotientBounds(USIZE_MAX, p);
      if k <= USIZE_MAX / p {
        MulMonotone(k, USIZE_MAX / p, p);
      } else {
        MulMonotone(USIZE_MAX / p + 1, k, p);
        if n >= 1 {
          MulMonotone(e + 1, k, n);
        }
      }
    }
  }

  /** Shrinking a pool whose limit had saturated loses what the cap took. */
  lemma TaskLimitCanFallShort()
    ensures var s := Runner(1, 4, 4, 4, false, 0.0, USIZE_MAX, 4, 4, 4, [], false);
            && Started(s) && s.maxTasks == SaturatingMul(USIZE_MAX, 4)
            && Exec(s, [Config(PoolSize(1))]).maxTasks < SaturatingMul(USIZE_MAX, 1)
  {
    var s := Runner(1, 4, 4, 4, false, 0.0, USIZE_MAX, 4, 4, 4, [], false);
    var run := [Config(PoolSize(1))];
    assert run[..0] == [];
    assert Exec(s, run) == Step(Exec(s, []), run[0]);
  }

  // ---------------------------------------------------------------------------
  // The decision in numbers
  // ---------------------------------------------------------------------------

  /** The target as the configuration gives it: a share of the quota, or all of it. */
  lemma TargetInNumbers(s: Runner, r: Reading)
    ensures s.cpuThreshold > 0.0 ==> Target(s, r) == s.cpuThreshold * r.quota
    ensures s.cpuThreshold <= 0.0 ==> Target(s, r) == r.quota
  {
  }

  /** The rule for a pool above 110% of its target fires. */
  ghost predicate CpuShrinks(s: Runner, r: Reading) {
    s.cpuThreshold > 0.0 && 10.0 * r.poolCpu > 11.0 * Target(s, r)
  }

  /** The rule for a pool below 90% of its target fires. */
  ghost predicate CpuGrows(s: Runner, r: Reading) {
    !CpuShrinks(s, r) && 10.0 * r.poolCpu < 9.0 * Target(s, r) && s.cur < s.core
  }

  lemma CountFloor(m: nat, y: real)
    requires y >= 0.0
    ensures m <= FloorToCount(y) <==> m as real <= y
  {
    var f := y.Floor;
    assert f as real <= y < f as real + 1.0;
  }

  lemma ShareAtLeast(m: nat, x: real, target: real, cpu: real)
    requires x >= 0.0 && target >= 0.0 && cpu > 0.0
    ensures 0.0 <= Share(x, target, cpu)
    ensures m as real <= Share(x, target, cpu) <==> m as real * cpu <= x * target
  {
    var product := x * target;
    MulLeq(0.0, x, target);
    var y := product / cpu;
    assert y * cpu == product;
    var a := m as real;
    if a <= y { MulLeq(a, y, cpu); } else { MulLess(y, a, cpu); }
    if y < 0.0 { MulLess(y, 0.0, cpu); }
  }

  /** Above the band: the largest count that is 1, or fits in the target, or is no
      more than the current count scaled by target over pool CPU. */
  lemma CpuShrinkInNumbers(s: Runner, r: Reading, m: nat)
    requires NonNegative(r) && CpuShrinks(s, r)
    ensures r.poolCpu > 0.0
    ensures m <= NextCount(s, r) <==>
            || m <= 1
            || m as real <= Target(s, r)
            || m as real * r.poolCpu <= s.cur as real * Target(s, r)
  {
    TargetNonNegative(s, r);
    CountFloor(m, Target(s, r));
    ShareAtLeast(m, s.cur as real, Target(s, r), r.poolCpu);
    CountFloor(m, Share(s.cur as real, Target(s, r), r.poolCpu));
  }

  lemma CpuGrowInNumbers(s: Runner, r: Reading)
    requires CpuGrows(s, r)
    ensures NextCount(s, r) == s.cur + 1
  {
  }

  lemma OneMoreInNumbers(cpu: real, count: nat, target: real)
    requires count >= 1
    ensures WithOneMore(cpu, count) < target <==> cpu * (count + 1) as real < target * count as real
  {
    var c := count as real;
    var product := cpu * (c + 1.0);
    var y := product / c;
    assert y * c == product;
    if y < target { MulLess(y, target, c); } else { MulLeq(target, y, c); }
  }

  /** With no CPU rule firing, the pool grows by one exactly if there is room, the
      process would stay below the target with one thread more, the threads are busy
      more than 80% of the time and have more than three tasks each. */
  lemma ThreadGrowsIff(s: Runner, r: Reading)
    requires s.cur >= 1 && r.processCpu.Some? && !CpuShrinks(s, r) && !CpuGrows(s, r)
    ensures NextCount(s, r) == s.cur + 1 <==>
            && s.cur < s.maxThreads
            && r.processCpu.value * (s.cur + 1) as real < Target(s, r) * s.cur as real
            && 10.0 * r.threadUsage > 8.0 * s.cur as real
            && r.runningTasks > 3 * s.cur
  {
    OneMoreInNumbers(r.processCpu.value, s.cur, Target(s, r));
  }

  /** It shrinks by one exactly if it is above its minimum, one thread less would be
      busy less than 70% of the time, and there are fewer than three tasks a thread. */
  lemma ThreadShrinksIff(s: Runner, r: Reading)
    requires s.cur >= 1 && r.processCpu.Some? && !CpuShrinks(s, r) && !CpuGrows(s, r)
    ensures NextCount(s, r) == s.cur - 1 <==>
            && s.cur > s.minThreads
            && 10.0 * r.threadUsage < 7.0 * (s.cur - 1) as real
            && r.runningTasks < 3 * s.cur
    ensures s.cur - 1 <= NextCount(s, r) <= s.cur + 1
  {
  }

  /** What a tick does with the decision: the whole new state. */
  lemma TickTakesEffect(s: Runner, r: Reading)
    requires Consistent(s)
    ensures var n := NextCount(s, r);
            Step(s, Timer(r)) ==
            if s.autoAdjust && r.processCpu.Some? && n != s.cur then
              s.(cur := n, poolSize := n, threadGauge := n, workers := n,
                 maxTasks := Min(s.maxTasks / s.poolSize * n, 0xFFFF_FFFF_FFFF_FFFF), announced := s.announced + [n])
            else s
  {
  }

  /** What each configuration task does: the whole new state. */
  lemma TaskTakesEffect(s: Runner, task: Task)
    requires Consistent(s)
    ensures var t := Step(s, Config(task));
            match task {
              case PoolSize(n) =>
                t == if n == s.core then s
                     else s.(core := n, cur := n, poolSize := n, threadGauge := n, workers := n,
                             maxTasks := Min(s.maxTasks / s.poolSize * n, 0xFFFF_FFFF_FFFF_FFFF),
                             announced := s.announced + [n])
              case AutoAdjust(on) =>
                t == if on || s.cur == s.core then s.(autoAdjust := on)
                     else s.(autoAdjust := false, cur := s.core, poolSize := s.core, threadGauge := s.core,
                             workers := s.core, maxTasks := Min(s.maxTasks / s.poolSize * s.core, 0xFFFF_FFFF_FFFF_FFFF))
              case MaxTasksPerWorker(k) => t == s.(maxTasks := Min(k * s.poolSize, 0xFFFF_FFFF_FFFF_FFFF))
              case CpuThreshold(x) => t == s.(cpuThreshold := x)
            }
  {
  }
}
