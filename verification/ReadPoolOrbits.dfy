/** Where the read pool's thread count goes when every tick sees the same
    reading: the CPU rules, the hysteresis of the thread rules, and the exact
    condition for the count to settle. */
module ReadPoolOrbits {

  import opened Arithmetic
  import opened ReadPoolRuns
  import opened ReadPoolScaling

  /** The decision of a tick at count `c`. */
  function Next(s: Runner, r: Reading, c: nat): nat {
    NextCount(s.(cur := c), r)
  }

  /** The count after `n` further ticks from `c`. */
  function Orbit(s: Runner, r: Reading, c: nat, n: nat): nat
    decreases n
  {
    if n == 0 then c else Orbit(s, r, Next(s, r, c), n - 1)
  }

  lemma {:induction false} OrbitThen(s: Runner, r: Reading, c: nat, m: nat, n: nat)
    ensures Orbit(s, r, c, m + n) == Orbit(s, r, Orbit(s, r, c, m), n)
    decreases m
  {
    if m > 0 {
      OrbitThen(s, r, Next(s, r, c), m - 1, n);
    }
  }

  lemma {:induction false} OrbitNext(s: Runner, r: Reading, c: nat, n: nat)
    ensures Orbit(s, r, c, n + 1) == Next(s, r, Orbit(s, r, c, n))
    decreases n
  {
    if n > 0 { OrbitNext(s, r, Next(s, r, c), n - 1); }
  }

  ghost predicate SameConfig(s: Runner, t: Runner) {
    && s.minThreads == t.minThreads && s.core == t.core && s.maxThreads == t.maxThreads
    && s.autoAdjust == t.autoAdjust && s.cpuThreshold == t.cpuThreshold
  }

  /** A controller that adjusts itself and can read the process CPU. */
  ghost predicate Active(s: Runner, r: Reading) {
    Consistent(s) && s.autoAdjust && NonNegative(r) && r.processCpu.Some?
  }

  lemma NextDependsOnConfig(s: Runner, t: Runner, r: Reading)
    requires SameConfig(s, t)
    ensures NextCount(t, r) == Next(s, r, t.cur)
  {
  }

  lemma TickFollowsDecision(t: Runner, r: Reading)
    requires Active(t, r)
    ensures var u := Step(t, Timer(r));
            Consistent(u) && SameConfig(t, u) && u.cur == NextCount(t, r)
  {
    StepConsistent(t, Timer(r));
  }

  /** Ticks of the whole controller follow the orbit of the decision. */
  lemma {:induction false} TicksFollowOrbit(s: Runner, r: Reading, n: nat)
    requires Active(s, r)
    ensures Consistent(Ticks(s, r, n)) && SameConfig(s, Ticks(s, r, n))
    ensures Ticks(s, r, n).cur == Orbit(s, r, s.cur, n)
  {
    if n > 0 {
      TicksFollowOrbit(s, r, n - 1);
      var t := Ticks(s, r, n - 1);
      TickFollowsDecision(t, r);
      NextDependsOnConfig(s, t, r);
      OrbitNext(s, r, s.cur, n - 1);
    }
  }

  // ---------------------------------------------------------------------------
  // Above the band: the CPU rule
  // ---------------------------------------------------------------------------

  /** The count the CPU rule steers to. */
  function CpuGoal(s: Runner, r: Reading): nat {
    Max(FloorToCount(Target(s, r)), 1)
  }

  lemma AboveStep(s: Runner, r: Reading, c: nat)
    requires NonNegative(r) && AboveBand(s, r) && c >= 1
    ensures c <= CpuGoal(s, r) ==> Next(s, r, c) == CpuGoal(s, r)
    ensures c > CpuGoal(s, r) ==> CpuGoal(s, r) <= Next(s, r, c) < c
    ensures Next(s, r, c) == CpuGoal(s, r) || 11.0 * Next(s, r, c) as real <= 10.0 * c as real
  {
    TargetNonNegative(s, r);
    ProportionalShrinks(c, Target(s, r), r.poolCpu);
    var t := s.(cur := c);
    assert Target(t, r) == Target(s, r) && AboveBand(t, r);
  }

  /** `x` after losing one part in eleven `n` times. */
  function Decayed(x: real, n: nat): real
    decreases n
  {
    if n == 0 then x else Decayed(10.0 * x / 11.0, n - 1)
  }

  lemma {:induction false} DecayedMonotone(x: real, y: real, n: nat)
    requires x <= y
    ensures Decayed(x, n) <= Decayed(y, n)
    decreases n
  {
    if n > 0 { DecayedMonotone(10.0 * x / 11.0, 10.0 * y / 11.0, n - 1); }
  }

  /** Arrival, and the floor on the way. */
  lemma {:induction false} AboveOrbit(s: Runner, r: Reading, c: nat, n: nat)
    requires NonNegative(r) && AboveBand(s, r) && c >= 1 && n >= 1
    ensures Orbit(s, r, c, n) >= CpuGoal(s, r)
    ensures n + CpuGoal(s, r) >= c ==> Orbit(s, r, c, n) == CpuGoal(s, r)
    decreases n
  {
    AboveStep(s, r, c);
    var d := Next(s, r, c);
    if n == 1 {
      assert Orbit(s, r, c, 1) == Orbit(s, r, d, 0);
    } else {
      AboveOrbit(s, r, d, n - 1);
    }
  }

  lemma {:induction false} AboveGeometric(s: Runner, r: Reading, c: nat, n: nat)
    requires NonNegative(r) && AboveBand(s, r) && c >= 1
    ensures (n >= 1 && Orbit(s, r, c, n) == CpuGoal(s, r)) || Orbit(s, r, c, n) as real <= Decayed(c as real, n)
    decreases n
  {
    if n > 0 {
      AboveStep(s, r, c);
      var d := Next(s, r, c);
      if d == CpuGoal(s, r) {
        AboveStays(s, r, n - 1);
      } else {
        AboveGeometric(s, r, d, n - 1);
        DecayedMonotone(d as real, 10.0 * c as real / 11.0, n - 1);
      }
    }
  }

  lemma {:induction false} AboveStays(s: Runner, r: Reading, n: nat)
    requires NonNegative(r) && AboveBand(s, r)
    ensures Orbit(s, r, CpuGoal(s, r), n) == CpuGoal(s, r)
  {
    if n > 0 {
      AboveStep(s, r, CpuGoal(s, r));
      AboveStays(s, r, n - 1);
    }
  }

  /** Above the band the CPU rule steers every count to exactly
      max(floor(target), 1): while it is larger it falls on every tick, and it
      arrives within as many ticks as the count is too large. */
  lemma AboveBandReachesGoal(s: Runner, r: Reading, n: nat)
    requires Active(s, r) && AboveBand(s, r)
    ensures Ticks(s, r, n).cur > CpuGoal(s, r) ==> CpuGoal(s, r) <= Ticks(s, r, n + 1).cur < Ticks(s, r, n).cur
    ensures n >= 1 && n + CpuGoal(s, r) >= s.cur ==> Ticks(s, r, n).cur == CpuGoal(s, r)
  {
    TicksFollowOrbit(s, r, n);
    TicksFollowOrbit(s, r, n + 1);
    OrbitThen(s, r, s.cur, n, 1);
    assert Orbit(s, r, Orbit(s, r, s.cur, n), 1) == Next(s, r, Orbit(s, r, s.cur, n));
    AboveStep(s, r, Orbit(s, r, s.cur, n));
    if n >= 1 {
      AboveOrbit(s, r, s.cur, n);
    }
  }

  /** ... and until then it loses at least one part in eleven per tick. */
  lemma AboveBandFallsGeometrically(s: Runner, r: Reading, n: nat)
    requires Active(s, r) && AboveBand(s, r) && n >= 1
    ensures Ticks(s, r, n).cur == CpuGoal(s, r) || Ticks(s, r, n).cur as real <= Decayed(s.cur as real, n)
  {
    TicksFollowOrbit(s, r, n);
    AboveGeometric(s, r, s.cur, n);
  }

  // ---------------------------------------------------------------------------
  // The thread rules and their hysteresis
  // ---------------------------------------------------------------------------

  predicate ShrinksAt(s: Runner, r: Reading, c: nat) { BusyThreadScaleIn(s.(cur := c), r) }

  predicate GrowsAt(s: Runner, r: Reading, c: nat) { BusyThreadScaleOut(s.(cur := c), r) }

  /** The decision when neither CPU rule applies. */
  function ThreadNext(s: Runner, r: Reading, c: nat): nat {
    if ShrinksAt(s, r, c) then c - 1 else if GrowsAt(s, r, c) then c + 1 else c
  }

  lemma ScaledLeq(a: nat, b: nat, x: real)
    requires a <= b && x >= 0.0
    ensures a as real * x <= b as real * x
  {
    MulLeq(a as real, b as real, x);
  }

  lemma ShrinksAtLarger(s: Runner, r: Reading, c: nat, d: nat)
    requires ShrinksAt(s, r, c) && c <= d
    ensures ShrinksAt(s, r, d)
  {
    ScaledLeq(c - 1, d - 1, LOW_THRESHOLD);
  }

  /** The gap between 0.7 and 0.8 keeps one thread rule from undoing the other. */
  lemma NoReversal(s: Runner, r: Reading, c: nat)
    requires NonNegative(r)
    ensures ShrinksAt(s, r, c) ==> ThreadNext(s, r, c - 1) <= c - 1
    ensures !ShrinksAt(s, r, c) && GrowsAt(s, r, c) ==> ThreadNext(s, r, c + 1) >= c + 1
  {
    if ShrinksAt(s, r, c) {
      assert (c - 1) as real * LOW_THRESHOLD <= (c - 1) as real * HIGH_THRESHOLD;
    } else if GrowsAt(s, r, c) {
      assert c as real * LOW_THRESHOLD <= c as real * HIGH_THRESHOLD;
    }
  }

  /** From `lo` upwards the thread rules decide and cannot lead below `lo`. */
  ghost predicate ThreadRegion(s: Runner, r: Reading, lo: nat) {
    && (forall c :: c >= lo ==> Next(s, r, c) == ThreadNext(s, r, c))
    && (lo == 0 || !ShrinksAt(s, r, lo))
  }

  lemma StaysInRegion(s: Runner, r: Reading, lo: nat, c: nat)
    requires ThreadRegion(s, r, lo) && c >= lo
    ensures Next(s, r, c) >= lo
  {
  }

  lemma {:induction false} Stays(s: Runner, r: Reading, c: nat, n: nat)
    requires Next(s, r, c) == c
    ensures Orbit(s, r, c, n) == c
    decreases n
  {
    if n > 0 { Stays(s, r, c, n - 1); }
  }

  function Distance(a: nat, b: nat): nat { if a < b then b - a else 0 }

  lemma {:induction false} FallSettles(s: Runner, r: Reading, lo: nat, c: nat, n: nat)
    requires NonNegative(r) && ThreadRegion(s, r, lo) && c >= lo
    requires Next(s, r, c) <= c
    ensures Orbit(s, r, c, n + 1) <= Orbit(s, r, c, n)
    ensures n >= Distance(s.minThreads, c) ==> Orbit(s, r, c, n + 1) == Orbit(s, r, c, n)
    decreases n
  {
    StaysInRegion(s, r, lo, c);
    if Next(s, r, c) == c {
      Stays(s, r, c, n);
      Stays(s, r, c, n + 1);
    } else {
      NoReversal(s, r, c);
      if n > 0 {
        FallSettles(s, r, lo, c - 1, n - 1);
      } else {
        assert Orbit(s, r, c, 1) == Orbit(s, r, Next(s, r, c), 0);
      }
    }
  }

  lemma {:induction false} RiseSettles(s: Runner, r: Reading, lo: nat, c: nat, n: nat)
    requires NonNegative(r) && ThreadRegion(s, r, lo) && c >= lo
    requires Next(s, r, c) >= c
    ensures Orbit(s, r, c, n + 1) >= Orbit(s, r, c, n)
    ensures n >= Distance(c, s.maxThreads) ==> Orbit(s, r, c, n + 1) == Orbit(s, r, c, n)
    decreases n
  {
    StaysInRegion(s, r, lo, c);
    if Next(s, r, c) == c {
      Stays(s, r, c, n);
      Stays(s, r, c, n + 1);
    } else {
      NoReversal(s, r, c);
      if n > 0 {
        RiseSettles(s, r, lo, c + 1, n - 1);
      } else {
        assert Orbit(s, r, c, 1) == Orbit(s, r, Next(s, r, c), 0);
      }
    }
  }

  lemma BandDecides(s: Runner, r: Reading, c: nat)
    ensures !AboveBand(s, r) && (!BelowBand(s, r) || c >= s.core) ==> Next(s, r, c) == ThreadNext(s, r, c)
    ensures NonNegative(r) && BelowBand(s, r) && c < s.core ==> Next(s, r, c) == c + 1
    ensures NonNegative(r) && BelowBand(s, r) ==> !AboveBand(s, r)
  {
  }

  lemma InBandRegion(s: Runner, r: Reading)
    requires !AboveBand(s, r) && !BelowBand(s, r)
    ensures ThreadRegion(s, r, 0)
  {
  }

  /** The number of ticks after which a count in the band has settled. */
  function SettlingTime(s: Runner): nat {
    Max(Distance(s.cur, s.maxThreads), Distance(s.minThreads, s.cur))
  }

  /** Inside the band the count moves in one direction only, so no scale-out is
      undone by a scale-in or the reverse, and it stops within
      max(maxThreads - cur, cur - minThreads) ticks. */
  lemma InBandSettles(s: Runner, r: Reading, n: nat)
    requires Active(s, r) && !AboveBand(s, r) && !BelowBand(s, r)
    ensures Next(s, r, s.cur) <= s.cur ==> Ticks(s, r, n + 1).cur <= Ticks(s, r, n).cur
    ensures Next(s, r, s.cur) >= s.cur ==> Ticks(s, r, n + 1).cur >= Ticks(s, r, n).cur
    ensures n >= SettlingTime(s) ==> Ticks(s, r, n + 1).cur == Ticks(s, r, n).cur
  {
    InBandRegion(s, r);
    TicksFollowOrbit(s, r, n);
    TicksFollowOrbit(s, r, n + 1);
    if Next(s, r, s.cur) <= s.cur {
      FallSettles(s, r, 0, s.cur, n);
    }
    if Next(s, r, s.cur) >= s.cur {
      RiseSettles(s, r, 0, s.cur, n);
    }
  }

  // ---------------------------------------------------------------------------
  // Below the band: growth to the configured size, and when the count settles
  // ---------------------------------------------------------------------------

  /** A run of successful ticks, each below its own band. */
  ghost predicate AllBelowBand(s: Runner, rs: seq<Reading>) {
    forall i :: 0 <= i < |rs| ==> NonNegative(rs[i]) && rs[i].processCpu.Some? && BelowBand(s, rs[i])
  }

  function TicksOver(s: Runner, rs: seq<Reading>): Runner
    decreases |rs|
  {
    if rs == [] then s else Step(TicksOver(s, rs[..|rs| - 1]), Timer(rs[|rs| - 1]))
  }

  /** While the pool's CPU stays below the band the count rises by one per tick
      to the configured size and from then on is never more than one below it,
      whatever else the readings do. */
  lemma {:induction false} BelowBandHoldsCore(s: Runner, rs: seq<Reading>)
    requires Consistent(s) && s.autoAdjust && AllBelowBand(s, rs)
    ensures Consistent(TicksOver(s, rs)) && SameConfig(s, TicksOver(s, rs))
    ensures s.cur + |rs| <= s.core ==> TicksOver(s, rs).cur == s.cur + |rs|
    ensures s.cur + |rs| >= s.core ==> TicksOver(s, rs).cur + 1 >= s.core
    decreases |rs|
  {
    if rs == [] {
    } else {
      var front, r := rs[..|rs| - 1], rs[|rs| - 1];
      BelowBandHoldsCore(s, front);
      var t := TicksOver(s, front);
      StepConsistent(t, Timer(r));
      NextDependsOnConfig(s, t, r);
      BandDecides(s, r, t.cur);
    }
  }

  lemma {:induction false} ClimbsToCore(s: Runner, r: Reading, c: nat, n: nat)
    requires NonNegative(r) && BelowBand(s, r) && c + n <= s.core
    ensures Orbit(s, r, c, n) == c + n
    decreases n
  {
    if n > 0 {
      BandDecides(s, r, c);
      ClimbsToCore(s, r, c + 1, n - 1);
    }
  }

  ghost predicate ConstantFrom(s: Runner, r: Reading, start: nat) {
    forall n: nat :: n >= start ==> Ticks(s, r, n).cur == Ticks(s, r, start).cur
  }

  ghost predicate Settles(s: Runner, r: Reading) {
    exists start: nat :: ConstantFrom(s, r, start)
  }

  /** Once a tick leaves the count unchanged, every later one does. */
  lemma SettledIsConstant(s: Runner, r: Reading, start: nat)
    requires Active(s, r)
    requires Orbit(s, r, s.cur, start + 1) == Orbit(s, r, s.cur, start)
    ensures ConstantFrom(s, r, start)
  {
    OrbitNext(s, r, s.cur, start);
    TicksFollowOrbit(s, r, start);
    forall n: nat | n >= start ensures Ticks(s, r, n).cur == Ticks(s, r, start).cur {
      TicksFollowOrbit(s, r, n);
      OrbitStays(s, r, s.cur, start, n);
    }
  }

  lemma OrbitStays(s: Runner, r: Reading, c: nat, m: nat, n: nat)
    requires m <= n && Next(s, r, Orbit(s, r, c, m)) == Orbit(s, r, c, m)
    ensures Orbit(s, r, c, n) == Orbit(s, r, c, m)
  {
    OrbitThen(s, r, c, m, n - m);
    Stays(s, r, Orbit(s, r, c, m), n - m);
  }

  /** Both rules meet at the configured size: one adds the thread the other takes
      away. */
  ghost predicate RulesCollide(s: Runner, r: Reading) {
    BelowBand(s, r) && ShrinksAt(s, r, s.core)
  }

  lemma CollisionAlwaysMoves(s: Runner, r: Reading, c: nat)
    requires NonNegative(r) && RulesCollide(s, r)
    ensures Next(s, r, c) == if c < s.core then c + 1 else c - 1
  {
    BandDecides(s, r, c);
    if c >= s.core {
      ShrinksAtLarger(s, r, s.core, c);
    }
  }

  lemma BelowBandSettlesAt(s: Runner, r: Reading, c: nat) returns (n: nat)
    requires NonNegative(r) && BelowBand(s, r) && !ShrinksAt(s, r, s.core) && c >= s.core
    ensures Orbit(s, r, c, n + 1) == Orbit(s, r, c, n)
  {
    forall d: nat | d >= s.core ensures Next(s, r, d) == ThreadNext(s, r, d) {
      BandDecides(s, r, d);
    }
    assert ThreadRegion(s, r, s.core);
    if Next(s, r, c) <= c {
      n := Distance(s.minThreads, c);
      FallSettles(s, r, s.core, c, n);
    } else {
      n := Distance(c, s.maxThreads);
      RiseSettles(s, r, s.core, c, n);
    }
  }

  lemma SettlingStart(s: Runner, r: Reading) returns (start: nat)
    requires Active(s, r) && !RulesCollide(s, r)
    ensures Orbit(s, r, s.cur, start + 1) == Orbit(s, r, s.cur, start)
  {
    if AboveBand(s, r) {
      start := s.cur + 1;
      AboveOrbit(s, r, s.cur, start);
      AboveOrbit(s, r, s.cur, start + 1);
    } else if BelowBand(s, r) {
      var climb := Distance(s.cur, s.core);
      if s.cur <= s.core {
        ClimbsToCore(s, r, s.cur, climb);
      }
      var c := Orbit(s, r, s.cur, climb);
      var n := BelowBandSettlesAt(s, r, c);
      OrbitThen(s, r, s.cur, climb, n);
      OrbitThen(s, r, s.cur, climb, n + 1);
      start := climb + n;
    } else {
      start := SettlingTime(s);
      InBandSettles(s, r, start);
      TicksFollowOrbit(s, r, start);
      TicksFollowOrbit(s, r, start + 1);
    }
  }

  /** With constant readings the controller settles exactly when its rules do not
      collide, from every count and under every configuration. */
  lemma SettlesIff(s: Runner, r: Reading)
    requires Active(s, r)
    ensures Settles(s, r) <==> !RulesCollide(s, r)
  {
    if RulesCollide(s, r) {
      forall start: nat ensures !ConstantFrom(s, r, start) {
        TicksFollowOrbit(s, r, start);
        TicksFollowOrbit(s, r, start + 1);
        OrbitThen(s, r, s.cur, start, 1);
        var c := Orbit(s, r, s.cur, start);
        assert Orbit(s, r, c, 1) == Next(s, r, c);
        CollisionAlwaysMoves(s, r, c);
        assert Ticks(s, r, start + 1).cur != Ticks(s, r, start).cur;
      }
    } else {
      var start := SettlingStart(s, r);
      SettledIsConstant(s, r, start);
    }
  }

  lemma {:induction false} CollisionOrbit(s: Runner, r: Reading, n: nat)
    requires NonNegative(r) && RulesCollide(s, r) && s.core >= 1
    ensures Orbit(s, r, s.core, n) == if n % 2 == 0 then s.core else s.core - 1
  {
    if n > 0 {
      CollisionOrbit(s, r, n - 1);
      OrbitNext(s, r, s.core, n - 1);
      CollisionAlwaysMoves(s, r, Orbit(s, r, s.core, n - 1));
    }
  }

  /** Where the rules collide, a pool at its configured size alternates between
      it and one less for ever. */
  lemma CollisionAlternates(s: Runner, r: Reading, n: nat)
    requires Active(s, r) && RulesCollide(s, r) && s.cur == s.core
    ensures Ticks(s, r, n).cur == if n % 2 == 0 then s.core else s.core - 1
  {
    TicksFollowOrbit(s, r, n);
    CollisionOrbit(s, r, n);
  }
}
