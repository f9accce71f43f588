/** The limit on concurrent timestamp proxy streams (`forwardToTSOService`,
    pd/server/forward.go): a 32-bit atomic counter that is incremented only under
    a non-negative limit but decremented by every stream that leaves. */
module ProxyLimiter {

  const TWO_31: int := 0x8000_0000
  const TWO_32: int := 0x1_0000_0000

  /** Two's complement: the `int32` conversion and the counter's arithmetic. */
  function Wrap32(x: int): (r: int)
    ensures -TWO_31 <= r < TWO_31
    ensures -TWO_31 <= x < TWO_31 ==> r == x
  {
    (x + TWO_31) % TWO_32 - TWO_31
  }

  datatype Pc =
    | Outside
    | Deciding(limit: int)    // has read the limit
    | Counted                 // past the check, counted
    | Uncounted               // past the check, no limit applied
    | Rejected                // counted, on its way out

  datatype Limiter = Limiter(
    streams: seq<Pc>,
    counter: int,
    entered: nat,             // increments so far
    exited: nat)              // decrements so far

  datatype Step =
    | ReadLimit(t: nat, configured: int)
    | Decide(t: nat)
    | Leave(t: nat)

  function Initial(n: nat): Limiter { Limiter(seq(n, _ => Outside), 0, 0, 0) }

  predicate Enabled(s: Limiter, e: Step) {
    && e.t < |s.streams|
    && match e
       case ReadLimit(t, _) => s.streams[t].Outside?
       case Decide(t) => s.streams[t].Deciding?
       case Leave(t) => !s.streams[t].Outside? && !s.streams[t].Deciding?
  }

  function Apply(s: Limiter, e: Step): Limiter
    requires Enabled(s, e)
  {
    match e
    case ReadLimit(t, configured) => s.(streams := s.streams[t := Deciding(Wrap32(configured))])
    case Decide(t) =>
      var limit := s.streams[t].limit;
      if limit < 0 then s.(streams := s.streams[t := Uncounted])
      else
        var count := Wrap32(s.counter + 1);
        s.(counter := count, entered := s.entered + 1,
           streams := s.streams[t := if count > limit then Rejected else Counted])
    case Leave(t) =>
      s.(counter := Wrap32(s.counter - 1), exited := s.exited + 1, streams := s.streams[t := Outside])
  }

  /** `run` is a sequence of enabled steps from `s` to `s'`. */
  ghost predicate Leads(s: Limiter, run: seq<Step>, s': Limiter)
    decreases |run|
  {
    if run == [] then s' == s
    else Enabled(s, run[0]) && Leads(Apply(s, run[0]), run[1..], s')
  }

  // ---------------------------------------------------------------------------
  // The counter
  // ---------------------------------------------------------------------------

  lemma WrapAdd(x: int, d: int)
    ensures Wrap32(Wrap32(x) + d) == Wrap32(x + d)
  {
    var k := (x + TWO_31) / TWO_32;
    assert Wrap32(x) == x - k * TWO_32;
    WrapShift(x + d, -k);
  }

  lemma WrapShift(x: int, k: int)
    ensures Wrap32(x + k * TWO_32) == Wrap32(x)
  {
    var y := x + TWO_31;
    assert y + k * TWO_32 == (y / TWO_32 + k) * TWO_32 + y % TWO_32;
  }

  lemma ApplyCounter(s: Limiter, e: Step)
    requires Enabled(s, e) && s.counter == Wrap32(s.entered - s.exited)
    ensures Apply(s, e).counter == Wrap32(Apply(s, e).entered - Apply(s, e).exited)
  {
    var x := s.entered - s.exited;
    if e.Decide? && s.streams[e.t].limit >= 0 {
      WrapAdd(x, 1);
    } else if e.Leave? {
      WrapAdd(x, -1);
    }
  }

  /** In every interleaving and under every history of limits the counter is the
      number of streams that entered under a non-negative limit minus the number
      of all streams that left, modulo 2^32. */
  lemma {:induction false} CounterLaw(s: Limiter, run: seq<Step>, s': Limiter)
    requires s.counter == Wrap32(s.entered - s.exited) && Leads(s, run, s')
    ensures s'.counter == Wrap32(s'.entered - s'.exited)
    decreases |run|
  {
    if run != [] {
      ApplyCounter(s, run[0]);
      CounterLaw(Apply(s, run[0]), run[1..], s');
    }
  }

  // ---------------------------------------------------------------------------
  // The limit
  // ---------------------------------------------------------------------------

  ghost function Count(streams: seq<Pc>, pc: Pc): nat {
    if streams == [] then 0 else (if streams[0] == pc then 1 else 0) + Count(streams[1..], pc)
  }

  lemma {:induction false} CountUpdate(streams: seq<Pc>, t: nat, v: Pc, pc: Pc)
    requires t < |streams|
    ensures Count(streams[t := v], pc) + (if streams[t] == pc then 1 else 0) == Count(streams, pc) + (if v == pc then 1 else 0)
  {
    if t == 0 {
      assert streams[t := v][1..] == streams[1..];
    } else {
      assert streams[t := v][1..] == streams[1..][t - 1 := v];
      CountUpdate(streams[1..], t - 1, v, pc);
    }
  }

  lemma {:induction false} CountSum(streams: seq<Pc>)
    ensures Count(streams, Counted) + Count(streams, Rejected) + Count(streams, Uncounted) <= |streams|
  {
    if streams != [] { CountSum(streams[1..]); }
  }

  /** Streams past the check, counted or not. */
  ghost function Inside(s: Limiter): nat { Count(s.streams, Counted) + Count(s.streams, Uncounted) }

  /** Streams that left without ever having been counted. */
  ghost function Drift(s: Limiter): int {
    s.exited + Count(s.streams, Counted) + Count(s.streams, Rejected) - s.entered
  }

  /** No limit applies to the stream: it is, or is about to be, uncounted. */
  ghost predicate Unlimited(pc: Pc) { pc.Uncounted? || (pc.Deciding? && pc.limit < 0) }

  ghost function CountUnlimited(streams: seq<Pc>): nat {
    if streams == [] then 0 else (if Unlimited(streams[0]) then 1 else 0) + CountUnlimited(streams[1..])
  }

  lemma {:induction false} UnlimitedUpdate(streams: seq<Pc>, t: nat, v: Pc)
    requires t < |streams|
    ensures CountUnlimited(streams[t := v]) + (if Unlimited(streams[t]) then 1 else 0) ==
            CountUnlimited(streams) + (if Unlimited(v) then 1 else 0)
  {
    if t == 0 {
      assert streams[t := v][1..] == streams[1..];
    } else {
      assert streams[t := v][1..] == streams[1..][t - 1 := v];
      UnlimitedUpdate(streams[1..], t - 1, v);
    }
  }

  lemma {:induction false} UncountedAreUnlimited(streams: seq<Pc>)
    ensures Count(streams, Uncounted) <= CountUnlimited(streams)
  {
    if streams != [] { UncountedAreUnlimited(streams[1..]); }
  }

  /** What the counter will be short of once every present stream has left. */
  ghost function Debt(s: Limiter): int { Drift(s) + CountUnlimited(s.streams) }

  /** The limits read so far never exceed `limit`, and the counted streams exceed it
      by at most the drift. */
  ghost predicate Within(s: Limiter, limit: nat) {
    && (forall t :: 0 <= t < |s.streams| && s.streams[t].Deciding? ==> s.streams[t].limit <= limit)
    && 0 <= Drift(s)
    && s.counter == Wrap32(s.entered - s.exited)
    && Count(s.streams, Counted) <= limit + Drift(s)
  }

  lemma ApplyDrift(s: Limiter, e: Step)
    requires Enabled(s, e)
    ensures |Apply(s, e).streams| == |s.streams|
    ensures Drift(Apply(s, e)) == Drift(s) + if e.Leave? && s.streams[e.t].Uncounted? then 1 else 0
  {
    var v := Apply(s, e).streams[e.t];
    CountUpdate(s.streams, e.t, v, Counted);
    CountUpdate(s.streams, e.t, v, Rejected);
  }

  /** Only reading a negative limit adds to the debt; leaving moves it into the drift. */
  lemma ApplyDebt(s: Limiter, e: Step)
    requires Enabled(s, e)
    ensures Debt(Apply(s, e)) == Debt(s) + if e.ReadLimit? && Wrap32(e.configured) < 0 then 1 else 0
  {
    ApplyDrift(s, e);
    UnlimitedUpdate(s.streams, e.t, Apply(s, e).streams[e.t]);
  }

  lemma ApplyWithin(s: Limiter, e: Step, limit: nat)
    requires Within(s, limit) && Enabled(s, e) && limit < TWO_31
    requires e.ReadLimit? ==> Wrap32(e.configured) <= limit
    requires |s.streams| + Drift(s) < TWO_31
    ensures Within(Apply(s, e), limit)
  {
    ApplyDrift(s, e);
    ApplyCounter(s, e);
    CountUpdate(s.streams, e.t, Apply(s, e).streams[e.t], Counted);
    CountSum(s.streams);
    CountSum(Apply(s, e).streams);
  }

  /** Every limit read in the run is at most `limit`. */
  ghost predicate AtMost(run: seq<Step>, limit: nat) {
    forall e :: e in run && e.ReadLimit? ==> Wrap32(e.configured) <= limit
  }

  /** ... and none is negative. */
  ghost predicate Limited(run: seq<Step>, limit: nat) {
    forall e :: e in run && e.ReadLimit? ==> 0 <= Wrap32(e.configured) <= limit
  }

  lemma {:induction false} DriftOnlyGrows(s: Limiter, run: seq<Step>, s': Limiter)
    requires Leads(s, run, s')
    ensures |s'.streams| == |s.streams| && Drift(s) <= Drift(s')
    decreases |run|
  {
    if run != [] {
      ApplyDrift(s, run[0]);
      DriftOnlyGrows(Apply(s, run[0]), run[1..], s');
    }
  }

  /** Under limits of at most `limit` that may also be negative, the counted streams
      exceed it at most by the number of streams that left uncounted. */
  lemma {:induction false} ExcessIsAtMostDrift(s: Limiter, run: seq<Step>, s': Limiter, limit: nat)
    requires Within(s, limit) && Leads(s, run, s') && AtMost(run, limit)
    requires limit < TWO_31 && |s.streams| + Drift(s') < TWO_31
    ensures Within(s', limit) && Count(s'.streams, Counted) <= limit + Drift(s')
    decreases |run|
  {
    if run != [] {
      assert run[0] in run;
      DriftOnlyGrows(s, run, s');
      ApplyDrift(s, run[0]);
      ApplyWithin(s, run[0], limit);
      ExcessIsAtMostDrift(Apply(s, run[0]), run[1..], s', limit);
    }
  }

  lemma {:induction false} DebtStays(s: Limiter, run: seq<Step>, s': Limiter, limit: nat)
    requires Leads(s, run, s') && Limited(run, limit)
    ensures |s'.streams| == |s.streams| && Debt(s') == Debt(s)
    decreases |run|
  {
    if run != [] {
      assert run[0] in run;
      ApplyDebt(s, run[0]);
      DebtStays(Apply(s, run[0]), run[1..], s', limit);
    }
  }

  /** Under limits between 0 and `limit` the debt stays what it is, and at most that
      many streams more than `limit` are past the check. */
  lemma DebtBoundsExcess(s: Limiter, run: seq<Step>, s': Limiter, limit: nat)
    requires Within(s, limit) && Leads(s, run, s') && Limited(run, limit)
    requires limit < TWO_31 && |s.streams| + Debt(s) < TWO_31
    ensures |s'.streams| == |s.streams| && Within(s', limit) && Debt(s') == Debt(s)
    ensures Inside(s') <= limit + Debt(s)
  {
    DebtStays(s, run, s', limit);
    ExcessIsAtMostDrift(s, run, s', limit);
    UncountedAreUnlimited(s'.streams);
  }

  /** Without a debt, at most `limit` streams are past the check in every
      interleaving of fewer than 2^31 streams, all of them counted, and the counter
      shows exactly who is between the increment and the decrement. */
  lemma LimitHolds(s: Limiter, run: seq<Step>, s': Limiter, limit: nat)
    requires Within(s, limit) && Debt(s) == 0 && Leads(s, run, s') && Limited(run, limit)
    requires limit < TWO_31 && |s.streams| < TWO_31
    ensures Inside(s') <= limit && Count(s'.streams, Uncounted) == 0
    ensures s'.counter == Count(s'.streams, Counted) + Count(s'.streams, Rejected)
  {
    DebtBoundsExcess(s, run, s', limit);
    UncountedAreUnlimited(s'.streams);
    CountSum(s'.streams);
  }

  lemma {:induction false} NoneCounted(n: nat, pc: Pc)
    requires pc != Outside
    ensures Count(seq(n, _ => Outside), pc) == 0
  {
    if n > 0 {
      assert seq(n, _ => Outside)[1..] == seq(n - 1, _ => Outside);
      NoneCounted(n - 1, pc);
    }
  }

  lemma {:induction false} NoneUnlimited(streams: seq<Pc>)
    requires forall t :: 0 <= t < |streams| ==> !Unlimited(streams[t])
    ensures CountUnlimited(streams) == 0
  {
    if streams != [] { NoneUnlimited(streams[1..]); }
  }

  lemma InitialWithin(n: nat, limit: nat)
    ensures Within(Initial(n), limit) && Debt(Initial(n)) == 0
  {
    NoneCounted(n, Counted);
    NoneCounted(n, Rejected);
    NoneUnlimited(Initial(n).streams);
  }

  // ---------------------------------------------------------------------------
  // The configured limit, read once per stream and never changed
  // ---------------------------------------------------------------------------

  /** Every stream of the run reads the same configured value. */
  ghost predicate Fixed(run: seq<Step>, configured: int) {
    forall e :: e in run && e.ReadLimit? ==> e.configured == configured
  }

  lemma {:induction false} AllUnlimited(s: Limiter, run: seq<Step>, s': Limiter, configured: int)
    requires Wrap32(configured) < 0 && Fixed(run, configured) && Leads(s, run, s')
    requires forall t :: 0 <= t < |s.streams| ==> s.streams[t].Outside? || Unlimited(s.streams[t])
    ensures |s'.streams| == |s.streams|
    ensures forall t :: 0 <= t < |s'.streams| ==> s'.streams[t].Outside? || Unlimited(s'.streams[t])
    decreases |run|
  {
    if run != [] {
      assert run[0] in run;
      AllUnlimited(Apply(s, run[0]), run[1..], s', configured);
    }
  }

  /** One configured value, as a PD server has: what is enforced is its low 32 bits
      as a signed number.  If that is not negative, at most so many streams are past
      the check in every interleaving; otherwise no stream is ever counted or turned
      away. */
  lemma FixedLimit(n: nat, run: seq<Step>, s: Limiter, configured: int)
    requires n < TWO_31 && Leads(Initial(n), run, s) && Fixed(run, configured)
    ensures var limit := Wrap32(configured);
            if limit >= 0 then Inside(s) <= limit
            else Count(s.streams, Counted) == 0 && Count(s.streams, Rejected) == 0
  {
    var limit := Wrap32(configured);
    if limit >= 0 {
      InitialWithin(n, limit);
      assert Limited(run, limit);
      LimitHolds(Initial(n), run, s, limit);
    } else {
      AllUnlimited(Initial(n), run, s, configured);
      NoneOf(s.streams, Counted);
      NoneOf(s.streams, Rejected);
    }
  }

  /** The limit is used up to the last place: a stream is turned away exactly when as
      many streams as allowed are inside or on their way out. */
  lemma TurnedAwayIff(n: nat, run: seq<Step>, s: Limiter, configured: int, t: nat)
    requires n < TWO_31 && Leads(Initial(n), run, s) && Fixed(run, configured)
    requires Enabled(s, Decide(t))
    ensures Apply(s, Decide(t)).streams[t] == Rejected <==>
            0 <= Wrap32(configured) <= Count(s.streams, Counted) + Count(s.streams, Rejected)
  {
    var limit := Wrap32(configured);
    if limit >= 0 {
      InitialWithin(n, limit);
      assert Limited(run, limit);
      LimitHolds(Initial(n), run, s, limit);
      DebtStays(Initial(n), run, s, limit);
      DecidesUnder(Initial(n), run, s, configured);
      CountDeciding(s.streams, t);
    } else {
      AllUnlimited(Initial(n), run, s, configured);
    }
  }

  lemma {:induction false} DecidesUnder(s: Limiter, run: seq<Step>, s': Limiter, configured: int)
    requires Fixed(run, configured) && Leads(s, run, s')
    requires forall t :: 0 <= t < |s.streams| && s.streams[t].Deciding? ==> s.streams[t].limit == Wrap32(configured)
    ensures forall t :: 0 <= t < |s'.streams| && s'.streams[t].Deciding? ==> s'.streams[t].limit == Wrap32(configured)
    decreases |run|
  {
    if run != [] {
      assert run[0] in run;
      DecidesUnder(Apply(s, run[0]), run[1..], s', configured);
    }
  }

  /** A deciding stream is none of the counted ones. */
  lemma {:induction false} CountDeciding(streams: seq<Pc>, t: nat)
    requires t < |streams| && streams[t].Deciding?
    ensures Count(streams, Counted) + Count(streams, Rejected) < |streams|
  {
    if t > 0 {
      CountDeciding(streams[1..], t - 1);
    } else {
      CountSum(streams[1..]);
    }
  }

  // ---------------------------------------------------------------------------
  // If the limit could change: exactly when it would still hold
  // ---------------------------------------------------------------------------

  lemma {:induction false} LeadsOn(a: Limiter, run1: seq<Step>, b: Limiter, run2: seq<Step>, c: Limiter)
    requires Leads(a, run1, b) && Leads(b, run2, c)
    ensures Leads(a, run1 + run2, c)
    decreases |run1|
  {
    if run1 == [] {
      assert run1 + run2 == run2;
    } else {
      LeadsOn(Apply(a, run1[0]), run1[1..], b, run2, c);
      assert (run1 + run2)[1..] == run1[1..] + run2;
    }
  }

  lemma LeadsOne(a: Limiter, e: Step)
    requires Enabled(a, e)
    ensures Leads(a, [e], Apply(a, e))
  {
    assert [e][1..] == [];
    assert Leads(Apply(a, e), [], Apply(a, e));
  }

  /** No limit is read in the run. */
  ghost predicate NoReads(run: seq<Step>) { forall e :: e in run ==> !e.ReadLimit? }

  /** The stream finishes. */
  lemma DrainOne(s: Limiter, t: nat) returns (run: seq<Step>, s': Limiter)
    requires t < |s.streams|
    ensures Leads(s, run, s') && NoReads(run)
    ensures s'.streams == s.streams[t := Outside]
  {
    if s.streams[t].Outside? {
      run, s' := [], s;
    } else if s.streams[t].Deciding? {
      var s1 := Apply(s, Decide(t));
      LeadsOne(s, Decide(t));
      LeadsOne(s1, Leave(t));
      run, s' := [Decide(t)] + [Leave(t)], Apply(s1, Leave(t));
      LeadsOn(s, [Decide(t)], s1, [Leave(t)], s');
      assert s'.streams == s.streams[t := Outside];
    } else {
      LeadsOne(s, Leave(t));
      run, s' := [Leave(t)], Apply(s, Leave(t));
    }
  }

  /** All streams from the k-th on are outside. */
  ghost predicate OutsideFrom(s: Limiter, k: nat) {
    forall t :: k <= t < |s.streams| ==> s.streams[t].Outside?
  }

  lemma {:induction false} Drain(s: Limiter, k: nat) returns (run: seq<Step>, s': Limiter)
    requires k <= |s.streams| && OutsideFrom(s, k)
    ensures Leads(s, run, s') && NoReads(run)
    ensures |s'.streams| == |s.streams| && OutsideFrom(s', 0)
    decreases k
  {
    if k == 0 {
      run, s' := [], s;
    } else {
      var run1, s1 := DrainOne(s, k - 1);
      var run2;
      run2, s' := Drain(s1, k - 1);
      LeadsOn(s, run1, s1, run2, s');
      run := run1 + run2;
    }
  }

  /** `s`, whose streams are all outside, after the first `past` of them were let in. */
  ghost function Filled(s: Limiter, past: nat): Limiter {
    Limiter(seq(|s.streams|, i => if i < past then Counted else Outside), s.counter + past, s.entered + past, s.exited)
  }

  lemma FillsOne(s: Limiter, past: nat, limit: nat)
    requires past < |s.streams| && -TWO_31 <= s.counter && s.counter + past + 1 <= limit < TWO_31
    ensures Leads(Filled(s, past), [ReadLimit(past, limit)] + [Decide(past)], Filled(s, past + 1))
  {
    var a := Filled(s, past);
    var a1 := Apply(a, ReadLimit(past, limit));
    LeadsOne(a, ReadLimit(past, limit));
    LeadsOne(a1, Decide(past));
    var b := Apply(a1, Decide(past));
    assert b.streams == Filled(s, past + 1).streams;
    LeadsOn(a, [ReadLimit(past, limit)], a1, [Decide(past)], b);
  }

  lemma {:induction false} Admit(s: Limiter, past: nat, limit: nat) returns (run: seq<Step>)
    requires OutsideFrom(s, 0) && past <= |s.streams|
    requires -TWO_31 <= s.counter && s.counter + past <= limit < TWO_31
    ensures Leads(s, run, Filled(s, past))
    ensures forall e :: e in run && e.ReadLimit? ==> e.configured == limit
  {
    if past == 0 {
      run := [];
      assert s.streams == Filled(s, 0).streams;
    } else {
      run := Admit(s, past - 1, limit);
      var visit := [ReadLimit(past - 1, limit)] + [Decide(past - 1)];
      FillsOne(s, past - 1, limit);
      LeadsOn(s, run, Filled(s, past - 1), visit, Filled(s, past));
      run := run + visit;
    }
  }

  lemma {:induction false} CountFilled(streams: seq<Pc>, past: nat)
    requires past <= |streams| && forall i :: 0 <= i < past ==> streams[i] == Counted
    ensures Count(streams, Counted) >= past
  {
    if past > 0 { CountFilled(streams[1..], past - 1); }
  }

  /** Once all streams are outside, the counter is short by exactly the debt. */
  lemma DrainedCounter(s: Limiter)
    requires OutsideFrom(s, 0) && s.counter == Wrap32(s.entered - s.exited) && 0 <= Debt(s) < TWO_31
    ensures s.counter == -Debt(s)
  {
    NoneUnlimited(s.streams);
    NoneOf(s.streams, Counted);
    NoneOf(s.streams, Rejected);
  }

  lemma {:induction false} NoneOf(streams: seq<Pc>, pc: Pc)
    requires forall t :: 0 <= t < |streams| ==> streams[t] != pc
    ensures Count(streams, pc) == 0
  {
    if streams != [] { NoneOf(streams[1..], pc); }
  }

  /** From any state with a debt, draining all streams and admitting new ones under
      `limit` leads to one stream too many. */
  lemma DebtIsSpent(s: Limiter, limit: nat) returns (run: seq<Step>, s': Limiter)
    requires Within(s, limit) && 0 < Debt(s) && |s.streams| + Debt(s) < TWO_31
    requires limit < |s.streams|
    ensures Leads(s, run, s') && Limited(run, limit)
    ensures Inside(s') > limit
  {
    var run1, s1 := Drain(s, |s.streams|);
    DebtStays(s, run1, s1, limit);
    CounterLaw(s, run1, s1);
    DrainedCounter(s1);
    var run2 := Admit(s1, limit + 1, limit);
    s' := Filled(s1, limit + 1);
    LeadsOn(s, run1, s1, run2, s');
    run := run1 + run2;
    CountFilled(s'.streams, limit + 1);
  }

  /** Every continuation under limits between 0 and `limit` keeps at most `limit`
      streams past the check. */
  ghost predicate StaysWithin(s: Limiter, limit: nat) {
    forall run, s' :: Leads(s, run, s') && Limited(run, limit) ==> Inside(s') <= limit
  }

  /** Whatever limits of at most `limit` were in force before, negative ones
      included: from here on the limit holds if and only if no debt is left. */
  lemma LimitHoldsIff(s: Limiter, limit: nat)
    requires Within(s, limit) && |s.streams| + Debt(s) < TWO_31 && limit < |s.streams|
    ensures StaysWithin(s, limit) <==> Debt(s) == 0
  {
    if Debt(s) == 0 {
      forall run, s' | Leads(s, run, s') && Limited(run, limit)
        ensures Inside(s') <= limit
      {
        DebtBoundsExcess(s, run, s', limit);
      }
    } else {
      var run, s' := DebtIsSpent(s, limit);
      assert Inside(s') > limit;
    }
  }

  lemma {:induction false} Indebt(s: Limiter, debt: nat) returns (run: seq<Step>, s': Limiter)
    requires OutsideFrom(s, 0) && |s.streams| >= 1
    ensures Leads(s, run, s') && s'.streams == s.streams && Debt(s') == Debt(s) + debt
    ensures forall e :: e in run && e.ReadLimit? ==> e.configured == -1
    decreases debt
  {
    if debt == 0 {
      run, s' := [], s;
    } else {
      var run1, s1 := Indebt(s, debt - 1);
      var a := Apply(s1, ReadLimit(0, -1));
      var b := Apply(a, Decide(0));
      s' := Apply(b, Leave(0));
      LeadsOne(s1, ReadLimit(0, -1));
      LeadsOne(a, Decide(0));
      LeadsOne(b, Leave(0));
      LeadsOn(s1, [ReadLimit(0, -1)], a, [Decide(0)], b);
      LeadsOn(s1, [ReadLimit(0, -1)] + [Decide(0)], b, [Leave(0)], s');
      var visit := [ReadLimit(0, -1)] + [Decide(0)] + [Leave(0)];
      LeadsOn(s, run1, s1, visit, s');
      run := run1 + visit;
      ApplyDebt(s1, ReadLimit(0, -1));
      ApplyDebt(a, Decide(0));
      ApplyDebt(b, Leave(0));
      assert s'.streams == s1.streams;
    }
  }

  /** Every debt can arise: so many streams come and go while the limit is negative. */
  lemma NegativeLimitLeavesDebt(n: nat, debt: nat, limit: nat) returns (run: seq<Step>, s: Limiter)
    requires n >= 1 && n + debt < TWO_31 && limit < TWO_31
    ensures Leads(Initial(n), run, s) && AtMost(run, limit)
    ensures Within(s, limit) && Debt(s) == debt
  {
    InitialWithin(n, limit);
    run, s := Indebt(Initial(n), debt);
    NoneUnlimited(s.streams);
    ExcessIsAtMostDrift(Initial(n), run, s, limit);
  }
}
