/** The unified read pool's size controller (src/read_pool.rs).

    Thread counts are naturals, `max_tasks` is a 64-bit saturating value, and the
    floating-point measurements are reals.  Everything the controller measures
    arrives as a `Reading`, one per timer tick. */
module ReadPoolScaling {

  import opened Arithmetic
  import opened Wrappers

  const USIZE_MAX: nat := 0xFFFF_FFFF_FFFF_FFFF

  // Average thread usage above / below which the pool may grow / shrink.
  const HIGH_THRESHOLD := 0.8
  const LOW_THRESHOLD := 0.7
  // Running tasks per thread that mark the pool as busy.
  const TASKS_PER_THREAD := 3
  const LEEWAY := 0.1

  function Min(a: nat, b: nat): nat { if a < b then a else b }

  function SaturatingMul(a: nat, b: nat): nat {
    Min(a * b, USIZE_MAX)
  }

  /** `f64::floor() as usize`, for the finite values that occur here. */
  function FloorToCount(x: real): nat {
    if x < 0.0 then 0 else x.Floor
  }

  /** One tick's measurements; `processCpu` is absent when reading it failed. */
  datatype Reading = Reading(
    poolCpu: real,
    threadUsage: real,
    runningTasks: int,
    processCpu: Option<real>,
    quota: real)

  ghost predicate NonNegative(r: Reading) {
    r.poolCpu >= 0.0 && r.threadUsage >= 0.0 && r.quota >= 0.0
  }

  datatype Task =
    | PoolSize(size: nat)
    | AutoAdjust(on: bool)
    | MaxTasksPerWorker(perWorker: nat)
    | CpuThreshold(threshold: real)

  datatype Event = Config(task: Task) | Timer(reading: Reading)

  /** The runner, its handle's two copied limits and the gauges they share.
      `announced` lists the sizes offered to the notification channel, and
      `panicked` records a division by a zero pool size. */
  datatype Runner = Runner(
    minThreads: nat,
    core: nat,
    maxThreads: nat,
    cur: nat,
    autoAdjust: bool,
    cpuThreshold: real,
    maxTasks: nat,
    poolSize: nat,
    threadGauge: nat,
    workers: nat,
    announced: seq<nat>,
    panicked: bool)

  function TargetCores(cpuThreshold: real, quota: real): real {
    if cpuThreshold > 0.0 then cpuThreshold * quota else quota
  }

  function Target(s: Runner, r: Reading): real {
    TargetCores(s.cpuThreshold, r.quota)
  }

  /** The process CPU expected if one thread were added to `count`. */
  function WithOneMore(processCpu: real, count: nat): real
    requires count > 0
  {
    processCpu * (count as real + 1.0) / (count as real)
  }

  function Share(x: real, target: real, poolCpu: real): real
    requires poolCpu != 0.0
  {
    x * target / poolCpu
  }

  /** The share of `count` threads that would bring the pool's CPU down to
      `target`; dividing by a floating zero gives a value that casts to 0. */
  function Proportional(count: nat, target: real, poolCpu: real): nat {
    if poolCpu == 0.0 then 0 else FloorToCount(Share(count as real, target, poolCpu))
  }

  /** With `cur == 0` the source divides by a floating zero; the comparison with
      the resulting infinity or NaN is false. */
  predicate BusyThreadScaleOut(s: Runner, r: Reading) {
    && s.cur < s.maxThreads
    && r.processCpu.Some?
    && s.cur > 0
    && WithOneMore(r.processCpu.value, s.cur) < Target(s, r)
    && r.threadUsage > s.cur as real * HIGH_THRESHOLD
    && r.runningTasks > s.cur * TASKS_PER_THREAD
  }

  predicate BusyThreadScaleIn(s: Runner, r: Reading) {
    && s.cur > s.minThreads
    && r.threadUsage < (s.cur - 1) as real * LOW_THRESHOLD
    && r.runningTasks < s.cur * TASKS_PER_THREAD
  }

  predicate AboveBand(s: Runner, r: Reading) {
    s.cpuThreshold > 0.0 && r.poolCpu > (LEEWAY + 1.0) * Target(s, r)
  }

  predicate BelowBand(s: Runner, r: Reading) {
    r.poolCpu < (1.0 - LEEWAY) * Target(s, r)
  }

  /** The size a successful tick decides on. */
  function NextCount(s: Runner, r: Reading): nat {
    if AboveBand(s, r) then
      Max(Max(FloorToCount(Target(s, r)), Proportional(s.cur, Target(s, r), r.poolCpu)), 1)
    else if BelowBand(s, r) && s.cur < s.core then s.cur + 1
    else if BusyThreadScaleIn(s, r) then s.cur - 1
    else if BusyThreadScaleOut(s, r) then s.cur + 1
    else s.cur
  }

  /** `ReadPoolHandle::scale_pool_size`: the workers are told first, then the
      task limit is divided by the old size. */
  function Resized(s: Runner, n: nat): Runner {
    if s.poolSize == 0 then
      s.(workers := n, panicked := true)
    else
      s.(workers := n,
         maxTasks := SaturatingMul(s.maxTasks / s.poolSize, n),
         threadGauge := n,
         poolSize := n)
  }

  function Announce(s: Runner, n: nat): Runner {
    if s.panicked then s else s.(announced := s.announced + [n])
  }

  function SetCounts(s: Runner, core: nat, cur: nat): Runner {
    if s.panicked then s else s.(core := core, cur := cur)
  }

  function RunTask(s: Runner, task: Task): Runner {
    match task
    case PoolSize(n) =>
      if n != s.core then Announce(SetCounts(Resized(s, n), n, n), n) else s
    case AutoAdjust(on) =>
      var t := s.(autoAdjust := on);
      if !on && s.cur != s.core then SetCounts(Resized(t, s.core), s.core, s.core) else t
    case MaxTasksPerWorker(k) =>
      s.(maxTasks := SaturatingMul(k, s.poolSize))
    case CpuThreshold(x) =>
      s.(cpuThreshold := x)
  }

  function Tick(s: Runner, r: Reading): Runner {
    if !s.autoAdjust || r.processCpu.None? then s
    else
      var n := NextCount(s, r);
      if n == s.cur then s
      else SetCounts(Announce(Resized(s, n), n), s.core, n)
  }

  function Step(s: Runner, e: Event): Runner {
    if s.panicked then s
    else match e
      case Config(task) => RunTask(s, task)
      case Timer(r) => Tick(s, r)
  }

  /** The state after a whole run of configuration tasks and ticks. */
  function Exec(s: Runner, es: seq<Event>): Runner
    decreases |es|
  {
    if es == [] then s else Step(Exec(s, es[..|es| - 1]), es[|es| - 1])
  }

  /** `n` ticks that all see the same reading. */
  function Ticks(s: Runner, r: Reading, n: nat): Runner {
    if n == 0 then s else Step(Ticks(s, r, n - 1), Timer(r))
  }

  // ---------------------------------------------------------------------------
  // The imperative controller
  // ---------------------------------------------------------------------------

  /** The gauges and the worker pool, shared by every clone of a handle; `workers` is
      the number last requested of the pool. */
  class SharedPool {
    var threadGauge: nat
    var workers: nat

    constructor (size: nat)
      ensures threadGauge == size && workers == size
    {
      threadGauge, workers := size, size;
    }
  }

  /** A handle: `maxTasks` and `poolSize` are its own copies. */
  class ReadPoolHandle {
    const pool: SharedPool
    var maxTasks: nat
    var poolSize: nat

    constructor (pool: SharedPool, perWorker: nat, size: nat)
      ensures this.pool == pool && poolSize == size
      ensures maxTasks == SaturatingMul(perWorker, size)
    {
      this.pool := pool;
      maxTasks := SaturatingMul(perWorker, size);
      poolSize := size;
    }

    method Clone() returns (h: ReadPoolHandle)
      ensures fresh(h) && h.pool == pool
      ensures h.maxTasks == maxTasks && h.poolSize == poolSize
    {
      h := new ReadPoolHandle(pool, 0, poolSize);
      h.maxTasks := maxTasks;
    }

    /** Every other clone keeps its limits: only this handle and the shared
        gauges are in the frame. */
    method ScalePoolSize(n: nat) returns (panicked: bool)
      modifies this, pool
      ensures pool.workers == n
      ensures panicked <==> old(poolSize) == 0
      ensures panicked ==> maxTasks == old(maxTasks) && poolSize == 0 && pool.threadGauge == old(pool.threadGauge)
      ensures !panicked ==>
                && maxTasks == SaturatingMul(old(maxTasks) / old(poolSize), n)
                && pool.threadGauge == n && poolSize == n
    {
      pool.workers := n;
      if poolSize == 0 {
        return true;
      }
      maxTasks := SaturatingMul(maxTasks / poolSize, n);
      pool.threadGauge := n;
      poolSize := n;
      panicked := false;
    }

    method SetMaxTasksPerWorker(k: nat)
      modifies this`maxTasks
      ensures maxTasks == SaturatingMul(k, poolSize)
    {
      maxTasks := SaturatingMul(k, poolSize);
    }
  }

  class ReadPoolConfigRunner {
    const handle: ReadPoolHandle
    const minThreads: nat
    const maxThreads: nat
    var core: nat
    var cur: nat
    var autoAdjust: bool
    var cpuThreshold: real
    var announced: seq<nat>
    var panicked: bool

    ghost function State(): Runner
      reads this, handle, handle.pool
    {
      Runner(minThreads, core, maxThreads, cur, autoAdjust, cpuThreshold,
             handle.maxTasks, handle.poolSize, handle.pool.threadGauge, handle.pool.workers,
             announced, panicked)
    }

    constructor (handle: ReadPoolHandle, minThreads: nat, maxThreads: nat, autoAdjust: bool, cpuThreshold: real)
      ensures this.handle == handle
      ensures State() == Runner(minThreads, maxThreads, maxThreads, maxThreads, autoAdjust, cpuThreshold,
                                handle.maxTasks, handle.poolSize, handle.pool.threadGauge, handle.pool.workers,
                                [], false)
    {
      this.handle := handle;
      this.minThreads := minThreads;
      this.maxThreads := maxThreads;
      this.core := maxThreads;
      this.cur := maxThreads;
      this.autoAdjust := autoAdjust;
      this.cpuThreshold := cpuThreshold;
      this.announced := [];
      this.panicked := false;
    }

    method NotifyPoolSizeChange(n: nat)
      modifies this`announced
      ensures announced == old(announced) + [n]
    {
      announced := announced + [n];
    }

    /** `Runnable::run`; a panicked worker handles no further task. */
    method Run(task: Task)
      modifies this, handle, handle.pool
      ensures State() == Step(old(State()), Config(task))
    {
      if panicked {
        return;
      }
      match task
      case PoolSize(n) =>
        if n != core {
          panicked := handle.ScalePoolSize(n);
          if panicked { return; }
          core := n;
          cur := n;
          NotifyPoolSizeChange(n);
        }
      case AutoAdjust(on) =>
        autoAdjust := on;
        if !on && cur != core {
          panicked := handle.ScalePoolSize(core);
          if panicked { return; }
          cur := core;
        }
      case MaxTasksPerWorker(k) =>
        handle.SetMaxTasksPerWorker(k);
      case CpuThreshold(x) =>
        cpuThreshold := x;
    }

    /** The size `adjust_pool_size` decides on, with the four conditions
        evaluated up front as the source does. */
    method DecideCount(r: Reading, processCpu: real) returns (n: nat)
      requires r.processCpu == Some(processCpu)
      ensures n == NextCount(State(), r)
    {
      ghost var s := State();
      var target := TargetCores(cpuThreshold, r.quota);
      assert target == Target(s, r);

      var busyThreadScaleOut :=
        cur < maxThreads
        && cur > 0 && WithOneMore(processCpu, cur) < target
        && r.threadUsage > cur as real * HIGH_THRESHOLD
        && r.runningTasks > cur * TASKS_PER_THREAD;
      var busyThreadScaleIn :=
        cur > minThreads
        && r.threadUsage < (cur - 1) as real * LOW_THRESHOLD
        && r.runningTasks < cur * TASKS_PER_THREAD;
      var busyCpuScaleIn := cpuThreshold > 0.0 && r.poolCpu > (LEEWAY + 1.0) * target;
      var busyCpuScaleOut := r.poolCpu < (1.0 - LEEWAY) * target && cur < core;
      assert busyThreadScaleOut == BusyThreadScaleOut(s, r);
      assert busyThreadScaleIn == BusyThreadScaleIn(s, r);
      assert busyCpuScaleIn == AboveBand(s, r);
      assert busyCpuScaleOut == (BelowBand(s, r) && cur < core);

      if busyCpuScaleIn {
        n := Max(Max(FloorToCount(target), Proportional(cur, target, r.poolCpu)), 1);
      } else if busyCpuScaleOut {
        n := cur + 1;
      } else if busyThreadScaleIn {
        n := cur - 1;
      } else if busyThreadScaleOut {
        n := cur + 1;
      } else {
        n := cur;
      }
    }

    /** `adjust_pool_size`. */
    method AdjustPoolSize(r: Reading)
      modifies this, handle, handle.pool
      ensures State() == Step(old(State()), Timer(r))
    {
      if panicked || !autoAdjust {
        return;
      }
      if r.processCpu.None? {
        return;
      }
      var n := DecideCount(r, r.processCpu.value);
      if n != cur {
        panicked := handle.ScalePoolSize(n);
        if panicked { return; }
        NotifyPoolSizeChange(n);
        cur := n;
      }
    }
  }
}
