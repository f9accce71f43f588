/** The unified read pool's admission gate (src/read_pool.rs, `spawn`): any number
    of threads check a priority's gauge against their handle's limit and only then
    increment it.  Each of the two is one atomic step, so threads interleave
    between them. */
module ReadPoolAdmission {

  datatype Priority = High | Medium | Low

  /** `TaskPriority::from`: an unset override counts as medium. */
  function PriorityOf(override: nat): Priority {
    if override == 0 then Medium
    else if override < 6 then Low
    else if override < 11 then Medium
    else High
  }

  /** One counter per priority. */
  datatype Counts = Counts(high: int, medium: int, low: int) {
    function Get(p: Priority): int {
      match p case High => high case Medium => medium case Low => low
    }

    function Add(p: Priority, d: int): (r: Counts)
      ensures forall q :: r.Get(q) == Get(q) + if q == p then d else 0
    {
      match p
      case High => this.(high := high + d)
      case Medium => this.(medium := medium + d)
      case Low => this.(low := low + d)
    }
  }

  /** A spawning thread is idle, or past the check and about to increment. */
  datatype Spawner = Idle | Passed(priority: Priority)

  datatype Pool = Pool(
    spawners: seq<Spawner>,
    limits: seq<nat>,          // max_tasks of the handle each thread uses
    running: Counts,           // the shared gauges
    accepted: Counts,
    completed: Counts,
    rejected: Counts)

  datatype Step =
    | Check(thread: nat, override: nat)
    | Increment(thread: nat, priority: Priority)
    | Complete(priority: Priority)
    | SetLimit(thread: nat, limit: nat)

  const ZERO := Counts(0, 0, 0)

  ghost predicate WellFormed(s: Pool) { |s.spawners| == |s.limits| }

  function Fresh(threads: nat, limit: nat): Pool {
    Pool(seq(threads, _ => Idle), seq(threads, _ => limit), ZERO, ZERO, ZERO, ZERO)
  }

  ghost predicate Enabled(s: Pool, e: Step)
    requires WellFormed(s)
  {
    match e
    case Check(t, _) => t < |s.spawners| && s.spawners[t] == Idle
    case Increment(t, p) => t < |s.spawners| && s.spawners[t] == Passed(p)
    case Complete(p) => s.accepted.Get(p) > s.completed.Get(p)
    case SetLimit(t, _) => t < |s.spawners|
  }

  function Apply(s: Pool, e: Step): (s': Pool)
    requires WellFormed(s) && Enabled(s, e)
    ensures WellFormed(s') && |s'.spawners| == |s.spawners|
  {
    match e
    case Check(t, override) =>
      var p := PriorityOf(override);
      if s.running.Get(p) >= s.limits[t] then s.(rejected := s.rejected.Add(p, 1))
      else s.(spawners := s.spawners[t := Passed(p)])
    case Increment(t, p) =>
      s.(spawners := s.spawners[t := Idle], running := s.running.Add(p, 1), accepted := s.accepted.Add(p, 1))
    case Complete(p) =>
      s.(running := s.running.Add(p, -1), completed := s.completed.Add(p, 1))
    case SetLimit(t, m) =>
      s.(limits := s.limits[t := m])
  }

  /** `run` is a sequence of enabled steps from `s` to `s'`. */
  ghost predicate Leads(s: Pool, run: seq<Step>, s': Pool)
    requires WellFormed(s)
    decreases |run|
  {
    if run == [] then s' == s
    else Enabled(s, run[0]) && Leads(Apply(s, run[0]), run[1..], s')
  }

  // ---------------------------------------------------------------------------
  // The limit is exceeded by at most the number of racing threads less one
  // ---------------------------------------------------------------------------

  ghost function Waiting(spawners: seq<Spawner>, p: Priority): nat {
    if spawners == [] then 0
    else (if spawners[0] == Passed(p) then 1 else 0) + Waiting(spawners[1..], p)
  }

  lemma {:induction false} WaitingUpdate(spawners: seq<Spawner>, t: nat, v: Spawner, p: Priority)
    requires t < |spawners|
    ensures Waiting(spawners[t := v], p) + (if spawners[t] == Passed(p) then 1 else 0)
            == Waiting(spawners, p) + (if v == Passed(p) then 1 else 0)
  {
    if t == 0 {
      assert spawners[t := v][1..] == spawners[1..];
    } else {
      assert spawners[t := v][1..] == spawners[1..][t - 1 := v];
      WaitingUpdate(spawners[1..], t - 1, v, p);
    }
  }

  lemma {:induction false} WaitingBound(spawners: seq<Spawner>, p: Priority)
    ensures Waiting(spawners, p) <= |spawners|
    ensures (exists t :: 0 <= t < |spawners| && spawners[t] != Passed(p)) ==> Waiting(spawners, p) < |spawners|
  {
    if spawners != [] {
      WaitingBound(spawners[1..], p);
      if t :| 0 <= t < |spawners| && spawners[t] != Passed(p) {
        if t > 0 {
          assert spawners[1..][t - 1] != Passed(p);
        }
      }
    }
  }

  /** Every gauge is accepted minus completed tasks and never negative, and with
      the threads still to increment it stays below `cap` plus the number of
      threads. */
  ghost predicate Bounded(s: Pool, cap: nat) {
    && WellFormed(s)
    && (forall t :: 0 <= t < |s.limits| ==> s.limits[t] <= cap)
    && (forall p :: s.running.Get(p) == s.accepted.Get(p) - s.completed.Get(p) >= 0)
    && (forall p :: s.running.Get(p) + Waiting(s.spawners, p) <= cap + |s.spawners| - 1)
  }

  lemma ApplyKeepsBound(s: Pool, e: Step, cap: nat)
    requires Bounded(s, cap) && Enabled(s, e)
    requires e.SetLimit? ==> e.limit <= cap
    ensures Bounded(Apply(s, e), cap)
  {
    var s' := Apply(s, e);
    forall p ensures s'.running.Get(p) + Waiting(s'.spawners, p) <= cap + |s'.spawners| - 1 {
      match e
      case Check(t, o) =>
        WaitingUpdate(s.spawners, t, Passed(PriorityOf(o)), p);
        WaitingBound(s'.spawners, p);
      case Increment(t, q) =>
        WaitingUpdate(s.spawners, t, Idle, p);
      case Complete(_) =>
      case SetLimit(_, _) =>
    }
  }

  /** In every interleaving of any number of threads, over every history of limits
      up to `cap`: each gauge counts exactly the accepted and uncompleted tasks,
      and together with the spawns that passed the check it never exceeds
      `cap + threads - 1`. */
  lemma {:induction false} RunsStayBounded(s: Pool, run: seq<Step>, s': Pool, cap: nat)
    requires Bounded(s, cap) && Leads(s, run, s')
    requires forall e :: e in run && e.SetLimit? ==> e.limit <= cap
    ensures Bounded(s', cap) && |s'.spawners| == |s.spawners|
    decreases |run|
  {
    if run != [] {
      ApplyKeepsBound(s, run[0], cap);
      RunsStayBounded(Apply(s, run[0]), run[1..], s', cap);
    }
  }

  lemma {:induction false} FreshWaiting(threads: nat, p: Priority)
    ensures Waiting(seq(threads, _ => Idle), p) == 0
  {
    if threads > 0 {
      assert seq(threads, _ => Idle)[1..] == seq(threads - 1, _ => Idle);
      FreshWaiting(threads - 1, p);
    }
  }

  lemma FreshBounded(threads: nat, cap: nat)
    requires threads >= 1
    ensures Bounded(Fresh(threads, cap), cap)
  {
    forall p ensures Waiting(Fresh(threads, cap).spawners, p) == 0 { FreshWaiting(threads, p); }
  }

  // ---------------------------------------------------------------------------
  // Who is turned away
  // ---------------------------------------------------------------------------

  /** The priority that a resource group's number stands for: 1 to 5 low, 6 to 10 and
      unset medium, 11 and above high. */
  ghost predicate Names(o: nat, p: Priority) {
    match p
    case Low => 1 <= o <= 5
    case Medium => o == 0 || 6 <= o <= 10
    case High => o >= 11
  }

  /** The limit that thread `t` last set, or the initial one. */
  ghost function LimitOf(run: seq<Step>, t: nat, limit: nat): nat
    decreases |run|
  {
    if run == [] then limit
    else
      var e := run[0];
      LimitOf(run[1..], t, if e.SetLimit? && e.thread == t then e.limit else limit)
  }

  lemma {:induction false} LimitsAreLastSet(s: Pool, run: seq<Step>, s': Pool, t: nat)
    requires WellFormed(s) && Leads(s, run, s') && t < |s.limits|
    ensures WellFormed(s') && |s'.limits| == |s.limits| && s'.limits[t] == LimitOf(run, t, s.limits[t])
    decreases |run|
  {
    if run != [] { LimitsAreLastSet(Apply(s, run[0]), run[1..], s', t); }
  }

  lemma {:induction false} GaugesAreExact(s: Pool, run: seq<Step>, s': Pool, p: Priority)
    requires WellFormed(s) && Leads(s, run, s') && s.running.Get(p) == s.accepted.Get(p) - s.completed.Get(p)
    ensures s'.running.Get(p) == s'.accepted.Get(p) - s'.completed.Get(p)
    decreases |run|
  {
    if run != [] { GaugesAreExact(Apply(s, run[0]), run[1..], s', p); }
  }

  /** In every run a spawn is turned away exactly when as many tasks of its priority
      as the thread's limit are accepted and not completed; whoever is not turned away
      is past the check with that priority, and nothing else changes. */
  lemma TurnedAwayIff(threads: nat, limit: nat, run: seq<Step>, s: Pool, t: nat, o: nat, p: Priority)
    requires Leads(Fresh(threads, limit), run, s) && WellFormed(s) && Enabled(s, Check(t, o)) && Names(o, p)
    ensures t < threads
    ensures Apply(s, Check(t, o)) ==
            if s.accepted.Get(p) - s.completed.Get(p) >= LimitOf(run, t, limit) then s.(rejected := s.rejected.Add(p, 1))
            else s.(spawners := s.spawners[t := Passed(p)])
  {
    GaugesAreExact(Fresh(threads, limit), run, s, p);
    SpawnersStay(Fresh(threads, limit), run, s);
    LimitsAreLastSet(Fresh(threads, limit), run, s, t);
  }

  lemma {:induction false} SpawnersStay(s: Pool, run: seq<Step>, s': Pool)
    requires WellFormed(s) && Leads(s, run, s')
    ensures |s'.spawners| == |s.spawners|
    decreases |run|
  {
    if run != [] { SpawnersStay(Apply(s, run[0]), run[1..], s'); }
  }

  /** What an acceptance and a completion do to the account of every priority. */
  lemma TasksAreAccounted(s: Pool, e: Step, q: Priority)
    requires WellFormed(s) && Enabled(s, e) && (e.Increment? || e.Complete?)
    ensures var s' := Apply(s, e);
            var mine := if q == e.priority then 1 else 0;
            && s'.accepted.Get(q) == s.accepted.Get(q) + (if e.Increment? then mine else 0)
            && s'.completed.Get(q) == s.completed.Get(q) + (if e.Complete? then mine else 0)
            && s'.running.Get(q) == s.running.Get(q) + (if e.Increment? then mine else -mine)
            && s'.rejected == s.rejected && s'.limits == s.limits
            && s'.spawners == if e.Increment? then s.spawners[e.thread := Idle] else s.spawners
  {
  }

  // ---------------------------------------------------------------------------
  // The bound is met
  // ---------------------------------------------------------------------------

  lemma {:induction false} LeadsThen(a: Pool, run1: seq<Step>, b: Pool, run2: seq<Step>, c: Pool)
    requires WellFormed(a) && WellFormed(b) && Leads(a, run1, b) && Leads(b, run2, c)
    ensures Leads(a, run1 + run2, c)
    decreases |run1|
  {
    if run1 == [] {
      assert run1 + run2 == run2;
    } else {
      LeadsThen(Apply(a, run1[0]), run1[1..], b, run2, c);
      assert (run1 + run2)[1..] == run1[1..] + run2;
    }
  }

  /** A pool of `threads` threads of which the first `past` are past the check. */
  ghost function Racing(p: Priority, threads: nat, limit: nat, past: nat, running: nat): Pool
    requires past <= threads
  {
    Pool(seq(threads, i => if i < past then Passed(p) else Idle), seq(threads, _ => limit),
         ZERO.Add(p, running), ZERO.Add(p, running), ZERO, ZERO)
  }

  /** `running` tasks spawned one after the other by the first thread. */
  lemma {:induction false} FillUp(o: nat, p: Priority, threads: nat, limit: nat, running: nat) returns (run: seq<Step>)
    requires Names(o, p) && threads >= 1 && running < limit
    ensures Leads(Fresh(threads, limit), run, Racing(p, threads, limit, 0, running))
  {
    if running == 0 {
      run := [];
      assert Fresh(threads, limit) == Racing(p, threads, limit, 0, 0);
    } else {
      run := FillUp(o, p, threads, limit, running - 1);
      var a := Racing(p, threads, limit, 0, running - 1);
      var b := Racing(p, threads, limit, 0, running);
      var two := [Check(0, o), Increment(0, p)];
      var m := Apply(a, two[0]);
      assert m.spawners[0] == Passed(p);
      assert Apply(m, two[1]).spawners == b.spawners;
      assert two[1..] == [two[1]];
      assert Leads(Apply(m, two[1]), [], b);
      assert Leads(m, two[1..], b);
      assert Leads(a, two, b);
      LeadsThen(Fresh(threads, limit), run, a, two, b);
      run := run + two;
    }
  }

  /** All threads pass the check while there is room for one task. */
  lemma {:induction false} AllPass(o: nat, p: Priority, threads: nat, limit: nat, past: nat) returns (run: seq<Step>)
    requires Names(o, p) && past <= threads && limit >= 1
    ensures Leads(Racing(p, threads, limit, 0, limit - 1), run, Racing(p, threads, limit, past, limit - 1))
  {
    if past == 0 {
      run := [];
    } else {
      run := AllPass(o, p, threads, limit, past - 1);
      var a, b := Racing(p, threads, limit, past - 1, limit - 1), Racing(p, threads, limit, past, limit - 1);
      var e := Check(past - 1, o);
      assert Apply(a, e).spawners == b.spawners;
      assert [e][1..] == [];
      assert Leads(a, [e], b);
      LeadsThen(Racing(p, threads, limit, 0, limit - 1), run, a, [e], b);
      run := run + [e];
    }
  }

  /** ... and then increment, last one first. */
  lemma {:induction false} AllIncrement(p: Priority, threads: nat, limit: nat, past: nat, running: nat) returns (run: seq<Step>)
    requires past <= threads
    ensures Leads(Racing(p, threads, limit, past, running), run, Racing(p, threads, limit, 0, running + past))
    decreases past
  {
    if past == 0 {
      run := [];
    } else {
      run := AllIncrement(p, threads, limit, past - 1, running + 1);
      var a, b := Racing(p, threads, limit, past, running), Racing(p, threads, limit, past - 1, running + 1);
      var e := Increment(past - 1, p);
      assert Apply(a, e).spawners == b.spawners;
      assert [e][1..] == [];
      assert Leads(a, [e], b);
      LeadsThen(a, [e], b, run, Racing(p, threads, limit, 0, running + past));
      run := [e] + run;
    }
  }

  /** The bound is tight: for every priority, positive limit and number of threads
      some interleaving really reaches `limit + threads - 1` running tasks. */
  lemma BoundIsReached(o: nat, p: Priority, threads: nat, limit: nat) returns (run: seq<Step>, s: Pool)
    requires Names(o, p) && threads >= 1 && limit >= 1
    ensures Leads(Fresh(threads, limit), run, s)
    ensures s.running.Get(p) == limit + threads - 1
  {
    var r1 := FillAndPass(o, p, threads, limit);
    var r2 := AllIncrement(p, threads, limit, threads, limit - 1);
    s := Racing(p, threads, limit, 0, limit - 1 + threads);
    LeadsThen(Fresh(threads, limit), r1, Racing(p, threads, limit, threads, limit - 1), r2, s);
    run := r1 + r2;
  }

  lemma FillAndPass(o: nat, p: Priority, threads: nat, limit: nat) returns (run: seq<Step>)
    requires Names(o, p) && threads >= 1 && limit >= 1
    ensures Leads(Fresh(threads, limit), run, Racing(p, threads, limit, threads, limit - 1))
  {
    var r1 := FillUp(o, p, threads, limit, limit - 1);
    var r2 := AllPass(o, p, threads, limit, threads);
    LeadsThen(Fresh(threads, limit), r1, Racing(p, threads, limit, 0, limit - 1), r2, Racing(p, threads, limit, threads, limit - 1));
    run := r1 + r2;
  }

  // ---------------------------------------------------------------------------
  // Priorities do not disturb each other
  // ---------------------------------------------------------------------------

  /** The step concerns priority `p` (a limit concerns them all). */
  predicate Concerns(e: Step, p: Priority) {
    match e
    case Check(_, o) => PriorityOf(o) == p
    case Increment(_, q) => q == p
    case Complete(q) => q == p
    case SetLimit(_, _) => true
  }

  function Project(run: seq<Step>, p: Priority): seq<Step>
    decreases |run|
  {
    if run == [] then []
    else if Concerns(run[0], p) then [run[0]] + Project(run[1..], p)
    else Project(run[1..], p)
  }

  /** `u` is what remains of `s` when all other priorities are taken away. */
  ghost predicate Alike(s: Pool, u: Pool, p: Priority) {
    && WellFormed(s) && WellFormed(u)
    && s.limits == u.limits
    && s.running.Get(p) == u.running.Get(p)
    && s.accepted.Get(p) == u.accepted.Get(p)
    && s.completed.Get(p) == u.completed.Get(p)
    && s.rejected.Get(p) == u.rejected.Get(p)
    && forall t :: 0 <= t < |s.spawners| ==>
         u.spawners[t] == if s.spawners[t] == Passed(p) then Passed(p) else Idle
  }

  lemma StepsAlike(s: Pool, u: Pool, e: Step, p: Priority)
    requires Alike(s, u, p) && Enabled(s, e)
    ensures Concerns(e, p) ==> Enabled(u, e) && Alike(Apply(s, e), Apply(u, e), p)
    ensures !Concerns(e, p) ==> Alike(Apply(s, e), u, p)
  {
  }

  /** Dropping every step of the other priorities leaves a valid run in which
      this priority has the same gauge, the same acceptances and the same
      rejections: a full priority never causes a rejection in another. */
  lemma {:induction false} PriorityIsolation(s: Pool, run: seq<Step>, s': Pool, u: Pool, p: Priority) returns (u': Pool)
    requires WellFormed(s) && Leads(s, run, s') && Alike(s, u, p)
    ensures Leads(u, Project(run, p), u') && Alike(s', u', p)
    decreases |run|
  {
    if run == [] {
      u' := u;
    } else {
      var e := run[0];
      StepsAlike(s, u, e, p);
      if Concerns(e, p) {
        u' := PriorityIsolation(Apply(s, e), run[1..], s', Apply(u, e), p);
        assert Project(run, p)[1..] == Project(run[1..], p);
      } else {
        u' := PriorityIsolation(Apply(s, e), run[1..], s', u, p);
      }
    }
  }
}
