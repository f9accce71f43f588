/** GC states on their way from the server to a client: `gcBarrierToProto` and
    `gcStateToProto` (pd/server/gc_service.go), `pbToGCBarrierInfo`, `pbToGCState`
    and the map of `GetAllKeyspacesGCStates` (pd/client/gc_client.go), and the
    client's local expiry test (pd/client/clients/gc/client.go).  Global barriers
    have the same fields and are converted alike.  Points in time are nanoseconds on
    one clock. */
module GcWire {

  import opened Arithmetic
  import opened FloatSeconds
  import opened GcDuration
  import opened GcState
  import opened Keyspaces
  import opened Wrappers

  datatype State = State(keyspace: nat, keyspaceLevel: bool, txnSafePoint: nat, gcSafePoint: nat, barriers: seq<Option<Barrier>>)

  datatype PbBarrier = PbBarrier(id: string, ts: nat, ttlSeconds: int)

  datatype PbState = PbState(scope: Option<nat>, keyspaceLevel: bool, txnSafePoint: nat, gcSafePoint: nat, barriers: seq<Option<PbBarrier>>)

  datatype BarrierInfo = BarrierInfo(id: string, ts: nat, ttl: int, requestStart: int)

  datatype ClientState = ClientState(keyspace: nat, txnSafePoint: nat, gcSafePoint: nat, barriers: seq<Option<BarrierInfo>>)

  // ---------------------------------------------------------------------------
  // The server's side
  // ---------------------------------------------------------------------------

  /** `Time.Sub` saturates at the ends of the duration range. */
  function Since(later: int, earlier: int): int {
    var d := later - earlier;
    if d > INT64_MAX then INT64_MAX else if d < INT64_MIN then INT64_MIN else d
  }

  function TtlSeconds(expiration: Option<int>, now: int): int {
    if expiration.None? then INT64_MAX
    else
      var left := Since(expiration.value, now);
      if left > 0 then FlooredSeconds(left) else 0
  }

  function BarrierToProto(b: Option<Barrier>, now: int): Option<PbBarrier> {
    if b.None? then None else Some(PbBarrier(b.value.id, b.value.ts, TtlSeconds(b.value.expiration, now)))
  }

  function StateToProto(s: State, now: int): PbState {
    PbState(Some(s.keyspace), s.keyspaceLevel, s.txnSafePoint, s.gcSafePoint,
            seq(|s.barriers|, i requires 0 <= i < |s.barriers| => BarrierToProto(s.barriers[i], now)))
  }

  method GcStateToProto(s: State, now: int) returns (pb: PbState)
    ensures pb == StateToProto(s, now)
  {
    var barriers := [];
    for i := 0 to |s.barriers|
      invariant |barriers| == i
      invariant forall j :: 0 <= j < i ==> barriers[j] == BarrierToProto(s.barriers[j], now)
    {
      barriers := barriers + [BarrierToProto(s.barriers[i], now)];
    }
    pb := PbState(Some(s.keyspace), s.keyspaceLevel, s.txnSafePoint, s.gcSafePoint, barriers);
  }

  // ---------------------------------------------------------------------------
  // The client's side
  // ---------------------------------------------------------------------------

  function ProtoToBarrier(pb: Option<PbBarrier>, start: int): Option<BarrierInfo> {
    if pb.None? then None
    else Some(BarrierInfo(pb.value.id, pb.value.ts, Saturating(pb.value.ttlSeconds), start))
  }

  function ScopeId(scope: Option<nat>): nat { if scope.None? then NULL_KEYSPACE else scope.value }

  function ProtoToState(pb: PbState, start: int): ClientState {
    ClientState(ScopeId(pb.scope), pb.txnSafePoint, pb.gcSafePoint,
                seq(|pb.barriers|, i requires 0 <= i < |pb.barriers| => ProtoToBarrier(pb.barriers[i], start)))
  }

  method PbToGCState(pb: PbState, start: int) returns (s: ClientState)
    ensures s == ProtoToState(pb, start)
  {
    var keyspace := NULL_KEYSPACE;
    if pb.scope.Some? {
      keyspace := pb.scope.value;
    }
    var barriers := [];
    for i := 0 to |pb.barriers|
      invariant |barriers| == i
      invariant forall j :: 0 <= j < i ==> barriers[j] == ProtoToBarrier(pb.barriers[j], start)
    {
      barriers := barriers + [ProtoToBarrier(pb.barriers[i], start)];
    }
    s := ClientState(keyspace, pb.txnSafePoint, pb.gcSafePoint, barriers);
  }

  predicate IsExpired(b: BarrierInfo, now: int) {
    b.ttl != INT64_MAX && Since(now, b.requestStart) > b.ttl
  }

  // ---------------------------------------------------------------------------
  // There and on to the client
  // ---------------------------------------------------------------------------

  ghost function Delivered(b: Barrier, now: int, start: int): BarrierInfo {
    ProtoToBarrier(BarrierToProto(Some(b), now), start).value
  }

  /** The whole seconds that fit in a 64-bit duration are delivered as they are. */
  lemma DeliveredSeconds(left: nat)
    requires left <= INT64_MAX
    ensures FlooredSeconds(left) <= 9_223_372_036
    ensures Saturating(FlooredSeconds(left)) == FlooredSeconds(left) * SECOND
  {
    SlackIsSmall(left);
    FlooredIs(left);
    SaturatingIsCappedProduct(FlooredSeconds(left));
  }

  /** No expiry, and only no expiry, arrives as "never"; an expiring barrier arrives
      with a whole number of seconds, within one second below the time it has left
      (or below the longest duration there is), which rounding may have lifted to the
      next whole second, and with none if it has expired. */
  lemma DeliveredTtl(b: Barrier, now: int, start: int)
    ensures b.expiration.None? <==> Delivered(b, now, start).ttl == INT64_MAX
    ensures b.expiration.Some? ==>
              var left := Since(b.expiration.value, now);
              var ttl := Delivered(b, now, start).ttl;
              && (left >= 0 ==> ttl <= left + RoundedBy(left) < ttl + SECOND)
              && (left >= 0 && RoundedBy(left) > 0 ==> ttl == left + RoundedBy(left))
              && (left < 0 ==> ttl == 0)
  {
    if b.expiration.Some? {
      var left := Since(b.expiration.value, now);
      if left >= 0 {
        DeliveredSeconds(left);
        FlooredIs(left);
        SlackIsSmall(left);
      }
    }
    SaturatingIsCappedProduct(TtlSeconds(b.expiration, now));
  }

  /** Server-to-client conversion keeps the keyspace, both safe points, and every
      barrier's place, id and timestamp, and delivers each time-to-live. */
  lemma StateArrivesIntact(s: State, now: int, start: int)
    ensures var pb := StateToProto(s, now);
            && pb.scope == Some(s.keyspace) && pb.keyspaceLevel == s.keyspaceLevel
            && pb.txnSafePoint == s.txnSafePoint && pb.gcSafePoint == s.gcSafePoint
    ensures var c := ProtoToState(StateToProto(s, now), start);
            && c.keyspace == s.keyspace && c.txnSafePoint == s.txnSafePoint && c.gcSafePoint == s.gcSafePoint
            && |c.barriers| == |s.barriers|
            && forall i :: 0 <= i < |s.barriers| ==>
                 if s.barriers[i].None? then c.barriers[i].None?
                 else
                   && c.barriers[i] == Some(Delivered(s.barriers[i].value, now, start))
                   && c.barriers[i].value.id == s.barriers[i].value.id
                   && c.barriers[i].value.ts == s.barriers[i].value.ts
                   && c.barriers[i].value.requestStart == start
  {
  }

  /** A message without a scope is about the null keyspace. */
  lemma MissingScopeIsNull(pb: PbState, start: int)
    requires pb.scope.None?
    ensures ProtoToState(pb, start).keyspace == 0xFFFF_FFFF
    ensures 0xFFFF_FFFF in ById([pb], start)
  {
    assert [pb][..0] == [];
  }

  /** From the answer on, the client takes the barrier for expired whenever it is. */
  ghost predicate NeverOutlives(b: Barrier, now: int, start: int) {
    b.expiration.Some? ==>
      forall t :: t >= now && t > b.expiration.value ==> IsExpired(Delivered(b, now, start), t)
  }

  /** On one clock, with the request sent at `start` and answered at `now`, the
      client's view of a barrier never outlives the server's, except in two cases
      that need an answer within less than a microsecond: the barrier had expired
      before a request that is answered in the very same instant, or the answer takes
      less time than rounding added to the time left. */
  lemma NeverOutlivesIff(b: Barrier, now: int, start: int)
    requires start <= now
    ensures NeverOutlives(b, now, start) <==>
            || b.expiration.None?
            || (if b.expiration.value < now then start < now
                else now - start >= RoundedBy(Since(b.expiration.value, now)))
  {
    DeliveredTtl(b, now, start);
    if b.expiration.Some? {
      var e, info := b.expiration.value, Delivered(b, now, start);
      var first := if e < now then now else e + 1;
      SlackIsSmall(if e < now then 0 else Since(e, now));
      assert NeverOutlives(b, now, start) <==> IsExpired(info, first) by {
        if IsExpired(info, first) {
          forall t | t >= now && t > e
            ensures IsExpired(info, t)
          {
            assert t >= first;
          }
        }
      }
    }
  }

  /** Sent and answered at 10, a barrier that expired at 5 looks alive at 10 and at no
      later moment. */
  lemma OutlivesInTheSameInstant()
    ensures var b := Barrier("backup", 0, Some(5));
            && !NeverOutlives(b, 10, 10)
            && forall t :: t >= 10 ==> (IsExpired(Delivered(b, 10, 10), t) <==> t > 10)
  {
    var b := Barrier("backup", 0, Some(5));
    DeliveredTtl(b, 10, 10);
    assert !IsExpired(Delivered(b, 10, 10), 10);
  }

  /** Sent and answered one nanosecond past a whole second, with a year left: rounding
      adds that nanosecond, and the client believes in the barrier one moment longer
      than the server. */
  lemma OutlivesByRounding()
    ensures var b := Barrier("backup", 0, Some(33_554_433 * SECOND));
            !NeverOutlives(b, 1, 1) && NeverOutlives(b, 1, 0)
  {
    var b := Barrier("backup", 0, Some(33_554_433 * SECOND));
    YearRoundsUp();
    NeverOutlivesIff(b, 1, 1);
    NeverOutlivesIff(b, 1, 0);
  }

  /** The client takes the barrier for expired less than a second plus the answer's
      delay before it is. */
  ghost predicate HardlyEarly(b: Barrier, now: int, start: int) {
    b.expiration.Some? ==>
      forall t :: IsExpired(Delivered(b, now, start), t) ==> b.expiration.value < t + SECOND + (now - start)
  }

  /** That holds exactly for the expirations that a 64-bit duration can tell, up to
      the next whole second: about 292 years ahead. */
  lemma ExpiresAtMostASecondEarly(b: Barrier, now: int, start: int)
    requires start <= now
    ensures HardlyEarly(b, now, start) <==>
            b.expiration.None? || b.expiration.value - now <= 9_223_372_037 * SECOND
  {
    DeliveredTtl(b, now, start);
    if b.expiration.Some? {
      var e, info := b.expiration.value, Delivered(b, now, start);
      if e - now > INT64_MAX {
        LongestDelivered();
        assert info.ttl == 9_223_372_036 * SECOND;
        if e - now > 9_223_372_037 * SECOND {
          assert IsExpired(info, start + info.ttl + 1);
        }
      }
    }
  }

  lemma LongestDelivered()
    ensures FlooredSeconds(INT64_MAX) == 9_223_372_036 && RoundedBy(INT64_MAX) == 0
    ensures Saturating(9_223_372_036) == 9_223_372_036 * SECOND
  {
    SlackIsSmall(INT64_MAX);
    FlooredIs(INT64_MAX);
    SaturatingIsCappedProduct(9_223_372_036);
  }

  lemma StoredTtl(seconds: int)
    requires Int64(seconds)
    ensures Saturating(seconds) == INT64_MAX || Saturating(seconds) <= 9_223_372_036 * SECOND
  {
    SaturatingIsCappedProduct(seconds);
  }

  /** It holds of every barrier that the manager stores, whose time-to-live always
      comes from whole seconds.  Only a record left by another writer can lie so far
      ahead that it fails. */
  lemma StoredBarriersAreHardlyEarly(id: string, ts: nat, seconds: int, stored: int, now: int, start: int)
    requires Int64(seconds) && stored <= now && start <= now
    ensures HardlyEarly(NewBarrier(id, ts, Saturating(seconds), stored), now, start)
  {
    var ttl := Saturating(seconds);
    StoredTtl(seconds);
    ExpiresAtMostASecondEarly(NewBarrier(id, ts, ttl, stored), now, start);
    RoundUpTimeNotEarlier(stored + ttl);
  }

  lemma FarExpirationLooksEarly()
    ensures !HardlyEarly(Barrier("backup", 0, Some(9_223_372_038 * SECOND)), 0, 0)
  {
    ExpiresAtMostASecondEarly(Barrier("backup", 0, Some(9_223_372_038 * SECOND)), 0, 0);
  }

  // ---------------------------------------------------------------------------
  // Setting a barrier
  // ---------------------------------------------------------------------------

  /** The barrier just set has its whole seconds left, and what is missing to the next
      whole second of the clock. */
  lemma TimeLeftAfterSetting(s: nat, now: int)
    ensures var left := RoundUpTime(now + s * SECOND) - now;
            && left >= 0
            && left / SECOND == s
            && (now % SECOND == 0 ==> left % SECOND == 0)
            && (now % SECOND > 0 ==> SECOND - left % SECOND == now % SECOND)
  {
    var q, r := now / SECOND, now % SECOND;
    assert now == q * SECOND + r;
    var n := now + s * SECOND + SECOND - 1;
    var whole := q + s + if r > 0 then 1 else 0;
    assert n == whole * SECOND + if r > 0 then r - 1 else SECOND - 1;
    assert n / SECOND == whole;
    var left := whole * SECOND - now;
    assert left == s * SECOND + if r > 0 then SECOND - r else 0;
  }

  /** Whether the seconds just set are the seconds told. */
  lemma ToldIff(s: nat, now: int)
    requires s <= 9_223_372_036
    ensures var left := Since(RoundUpTime(now + s * SECOND), now);
            && left >= 0
            && (FlooredSeconds(left) == s <==> !(s < 9_223_372_036 && 0 < now % SECOND <= Slack(s)))
  {
    TimeLeftAfterSetting(s, now);
    var left := RoundUpTime(now + s * SECOND) - now;
    if left > INT64_MAX {
      LongestDelivered();
    } else {
      SlackIsSmall(left);
      FlooredIs(left);
    }
  }

  lemma ToldTtlIff(id: string, ts: nat, s: nat, now: int, start: int)
    requires 0 < s <= 9_223_372_036
    ensures var b := NewBarrier(id, ts, s * SECOND, now);
            && b.expiration.Some? && b.expiration.value >= now + s * SECOND
            && (Delivered(b, now, start) == BarrierInfo(id, ts, s * SECOND, start) <==>
                !(s < 9_223_372_036 && 0 < now % SECOND <= Slack(s)))
  {
    var e := RoundUpTime(now + s * SECOND);
    RoundUpTimeNotEarlier(now + s * SECOND);
    ToldIff(s, now);
    DeliveredSeconds(Since(e, now));
  }

  lemma AcceptedSeconds(ttl: int)
    requires Int64(ttl) && Saturating(RoundUp(ttl)) > 0
    ensures var s := RoundUp(ttl);
            if Saturating(s) == INT64_MAX then s > 9_223_372_036
            else 0 < s <= 9_223_372_036 && Saturating(s) == s * SECOND && s * SECOND >= ttl
    ensures ttl == INT64_MAX ==> Saturating(RoundUp(ttl)) == INT64_MAX
  {
    ArrivesPositiveIff(ttl);
    SaturatingIsCappedProduct(RoundUp(ttl));
    if ttl > 0 { RoundTrip(ttl); }
  }

  /** Client to server and back: a barrier set with any time-to-live that the server
      accepts blocks for at least that long, and "never" stays "never".  The client is
      told exactly its time-to-live rounded up to whole seconds, unless the clock is
      so little past a whole second that rounding adds one. */
  lemma SetBarrierRoundTrip(id: string, ts: nat, ttl: int, now: int, start: int)
    requires Int64(ttl) && Saturating(RoundUp(ttl)) > 0
    ensures var s := RoundUp(ttl);
            var b := NewBarrier(id, ts, Saturating(s), now);
            && s > 0
            && (b.expiration.Some? ==> b.expiration.value >= now + ttl)
            && (ttl == INT64_MAX ==> b.expiration.None?)
            && (Delivered(b, now, start) == BarrierInfo(id, ts, Saturating(s), start) <==>
                !(s < 9_223_372_036 && 0 < now % SECOND <= Slack(s)))
  {
    var s := RoundUp(ttl);
    AcceptedSeconds(ttl);
    if Saturating(s) < INT64_MAX {
      ToldTtlIff(id, ts, s, now, start);
    } else {
      DeliveredTtl(NewBarrier(id, ts, Saturating(s), now), now, start);
    }
  }

  /** Set one nanosecond past a whole second for 2^25 seconds, it is told as one
      second more. */
  lemma ToldOneMore()
    ensures Delivered(NewBarrier("backup", 0, 33_554_432 * SECOND, 1), 1, 1).ttl == 33_554_433 * SECOND
  {
    TimeLeftAfterSetting(33_554_432, 1);
    YearRoundsUp();
    DeliveredSeconds(33_554_433 * SECOND - 1);
  }

  /** A time-to-live of -1 ns is accepted, as one second. */
  lemma NegativeTtlIsAccepted(d: Data, k: nat, ts: nat, now: int)
    requires Txn(d, k) <= ts
    ensures Saturating(RoundUp(-1)) == SECOND
    ensures Body(d, SetBarrierOp(k, "backup", ts, Saturating(RoundUp(-1)), now)).Ok?
  {
    ArrivesPositiveIff(-1);
  }

  // ---------------------------------------------------------------------------
  // All keyspaces
  // ---------------------------------------------------------------------------

  ghost function ById(pbs: seq<PbState>, start: int): map<nat, ClientState> {
    if pbs == [] then map[]
    else
      var last := pbs[|pbs| - 1];
      ById(pbs[..|pbs| - 1], start)[ScopeId(last.scope) := ProtoToState(last, start)]
  }

  /** The whole answer: the states by keyspace, and the global barriers in order. */
  method AllKeyspaces(pbs: seq<PbState>, pbGlobals: seq<Option<PbBarrier>>, start: int)
    returns (m: map<nat, ClientState>, globals: seq<Option<BarrierInfo>>)
    ensures m == ById(pbs, start)
    ensures |globals| == |pbGlobals|
    ensures forall i :: 0 <= i < |globals| ==> globals[i] == ProtoToBarrier(pbGlobals[i], start)
  {
    m := map[];
    for i := 0 to |pbs|
      invariant m == ById(pbs[..i], start)
    {
      var s := PbToGCState(pbs[i], start);
      var keyspace := if pbs[i].scope.None? then NULL_KEYSPACE else pbs[i].scope.value;
      m := m[keyspace := s];
      assert pbs[..i + 1][..i] == pbs[..i];
    }
    assert pbs[..|pbs|] == pbs;
    globals := [];
    for i := 0 to |pbGlobals|
      invariant |globals| == i
      invariant forall j :: 0 <= j < i ==> globals[j] == ProtoToBarrier(pbGlobals[j], start)
    {
      globals := globals + [ProtoToBarrier(pbGlobals[i], start)];
    }
  }

  function ToProtos(states: seq<State>, now: int): seq<PbState> {
    seq(|states|, i requires 0 <= i < |states| => StateToProto(states[i], now))
  }

  ghost predicate Mentions(states: seq<State>, k: nat) {
    exists i :: 0 <= i < |states| && states[i].keyspace == k
  }

  /** No later state has the same keyspace. */
  ghost predicate IsLast(states: seq<State>, i: nat)
    requires i < |states|
  {
    forall j :: i < j < |states| ==> states[j].keyspace != states[i].keyspace
  }

  lemma ByIdAppend(states: seq<State>, now: int, start: int)
    requires states != []
    ensures var n := |states| - 1;
            ById(ToProtos(states, now), start) ==
            ById(ToProtos(states[..n], now), start)[states[n].keyspace := ProtoToState(StateToProto(states[n], now), start)]
  {
    assert ToProtos(states, now)[..|states| - 1] == ToProtos(states[..|states| - 1], now);
  }

  /** The result has exactly the keyspaces that were sent ... */
  lemma {:induction false} KeyspacesAreThoseSent(states: seq<State>, now: int, start: int, k: nat)
    ensures k in ById(ToProtos(states, now), start) <==> Mentions(states, k)
    decreases |states|
  {
    if states != [] {
      var n := |states| - 1;
      KeyspacesAreThoseSent(states[..n], now, start, k);
      ByIdAppend(states, now, start);
      assert Mentions(states, k) <==> Mentions(states[..n], k) || states[n].keyspace == k by {
        if Mentions(states[..n], k) {
          var i :| 0 <= i < n && states[..n][i].keyspace == k;
          assert states[i].keyspace == k;
        }
        if i :| 0 <= i < |states| && states[i].keyspace == k && i < n {
          assert states[..n][i].keyspace == k;
        }
      }
    }
  }

  /** ... each with the last state sent for it; so the states of distinct keyspaces
      are all kept. */
  lemma {:induction false} LastStateIsKept(states: seq<State>, now: int, start: int, i: nat)
    requires i < |states| && IsLast(states, i)
    ensures var m := ById(ToProtos(states, now), start);
            states[i].keyspace in m && m[states[i].keyspace] == ProtoToState(StateToProto(states[i], now), start)
    decreases |states|
  {
    var n := |states| - 1;
    ByIdAppend(states, now, start);
    if i < n {
      assert IsLast(states[..n], i) by {
        assert forall j :: i < j < n ==> states[..n][j] == states[j];
      }
      LastStateIsKept(states[..n], now, start, i);
      assert states[n].keyspace != states[i].keyspace;
    }
  }
}
