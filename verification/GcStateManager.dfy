/** The GC state manager's operations as they run inside a transaction: loops over
    what was loaded, filling a write batch that is applied at the end
    (pd/pkg/gc/gc_state_manager.go, pd/pkg/storage/endpoint/gc_states.go). */
module GcStateManager {

  import opened Arithmetic
  import opened GcDuration
  import opened GcState
  import opened GcStateSafety
  import opened Keyspaces
  import opened Wrappers

  const VALID_KEYSPACE_MASK: nat := 0xFF_FFFF

  /** What the manager looks up about a keyspace. */
  datatype KeyspaceMeta = KeyspaceMeta(id: nat, name: string, enabled: bool, keyspaceLevelGc: bool)

  /** The keyspace whose GC state a call for keyspace `id` works on. */
  function RedirectKeyspace(metas: map<nat, KeyspaceMeta>, id: nat, userApi: bool): Result<nat> {
    if id > VALID_KEYSPACE_MASK then Ok(NULL_KEYSPACE)
    else if id !in metas then Err(KeyspaceNotFound)
    else if metas[id].keyspaceLevelGc then Ok(id)
    else if userApi then Ok(NULL_KEYSPACE)
    else Err(GCOnInvalidKeyspace)
  }

  /** Where a call goes, in numbers: an id above 2^24 - 1 is the null keyspace, an
      unknown keyspace is refused, and a keyspace without its own GC is sent to the
      null keyspace for users and refused internally. */
  lemma RedirectInNumbers(metas: map<nat, KeyspaceMeta>, id: nat, userApi: bool)
    ensures var to := RedirectKeyspace(metas, id, userApi);
            && (to == Ok(id) <==> id == 0xFFFF_FFFF || (id < 0x100_0000 && id in metas && metas[id].keyspaceLevelGc))
            && (to == Ok(0xFFFF_FFFF) <==>
                id >= 0x100_0000 || (userApi && id in metas && !metas[id].keyspaceLevelGc))
            && (to == Err(KeyspaceNotFound) <==> id < 0x100_0000 && id !in metas)
            && (to == Err(GCOnInvalidKeyspace) <==>
                id < 0x100_0000 && !userApi && id in metas && !metas[id].keyspaceLevelGc)
            && (to.Ok? || to.error == KeyspaceNotFound || to.error == GCOnInvalidKeyspace)
  {
  }

  /** The keyspace whose safe points decide over the data of keyspace `id`: its own
      under keyspace-level GC, otherwise the null keyspace's. */
  function GcTarget(metas: map<nat, KeyspaceMeta>, id: nat): nat {
    var to := RedirectKeyspace(metas, id, false);
    if to.Ok? then to.value else NULL_KEYSPACE
  }

  /** The barrier that `op` sets keeps the txn safe point of `k` at or below it: from
      every state in which it succeeds, whatever runs after it, as long as nobody
      names its id and its time-to-live has not passed. */
  ghost predicate Guards(op: Op, k: nat)
    requires op.SetBarrierOp?
  {
    forall d, ops :: Consistent(d) && Body(d, op).Ok? && LeavesAlone(ops, op.k, op.id, Until(op)) ==>
                       Txn(Exec(Run(d, op), ops), k) <= op.ts
  }

  /** Another keyspace is not held back at all. */
  lemma OtherKeyspacePasses(op: Op, k: nat)
    requires op.SetBarrierOp? && Body(EMPTY, op).Ok? && k != op.k
    ensures !Guards(op, k)
  {
    var d := Run(EMPTY, op);
    var b := NewBarrier(op.id, op.ts, op.ttl, op.now);
    SingleWrite(EMPTY, PutBarrier(op.k, b));
    assert Barriers(d, k) == [] && d.globals == [] && Txn(d, k) == 0;
    var advance := AdvanceTxnOp(k, op.ts + 1, op.now, []);
    var ops := [advance];
    AdvanceTxnEffect(d, k, op.ts + 1, op.now, []);
    assert ScanBarriers([], op.now, op.ts + 1).min == op.ts + 1;
    assert Txn(Run(d, advance), k) == op.ts + 1;
    assert ops[..0] == [];
    assert Exec(d, ops) == Run(Exec(d, []), advance);
    assert Consistent(EMPTY);
    assert LeavesAlone(ops, op.k, op.id, Until(op));
  }

  /** A barrier guards exactly the keyspace it is stored under. */
  lemma GuardsIff(op: Op, k: nat)
    requires op.SetBarrierOp? && Body(EMPTY, op).Ok?
    ensures Guards(op, k) <==> k == op.k
  {
    if k != op.k {
      OtherKeyspacePasses(op, k);
    } else {
      forall d, ops | Consistent(d) && Body(d, op).Ok? && LeavesAlone(ops, op.k, op.id, Until(op))
        ensures Txn(Exec(Run(d, op), ops), k) <= op.ts
      {
        BarrierHoldsForItsTtl(d, op, ops);
      }
    }
  }

  /** The GC management of keyspace `id` is of the same kind in both configurations. */
  predicate SameManagement(metas: map<nat, KeyspaceMeta>, later: map<nat, KeyspaceMeta>, id: nat) {
    id > VALID_KEYSPACE_MASK ||
    (id in metas && metas[id].keyspaceLevelGc <==> id in later && later[id].keyspaceLevelGc)
  }

  /** A user call of `SetGCBarrier` for keyspace `id` under one configuration guards
      the data of that keyspace under a later one if and only if the keyspace has not
      been switched between keyspace-level and unified GC in between. */
  lemma BarrierGuardsItsKeyspaceIff(metas: map<nat, KeyspaceMeta>, later: map<nat, KeyspaceMeta>, id: nat, op: Op)
    requires op.SetBarrierOp? && Body(EMPTY, op).Ok? && RedirectKeyspace(metas, id, true) == Ok(op.k)
    ensures Guards(op, GcTarget(later, id)) <==> SameManagement(metas, later, id)
  {
    GuardsIff(op, GcTarget(later, id));
  }

  /** While the management stays the same, both safe points stay at or below it. */
  lemma BarrierGuardsItsKeyspace(
      metas: map<nat, KeyspaceMeta>, later: map<nat, KeyspaceMeta>, id: nat, d: Data, op: Op, ops: seq<Op>)
    requires Consistent(d) && op.SetBarrierOp? && Body(d, op).Ok?
    requires RedirectKeyspace(metas, id, true) == Ok(op.k) && SameManagement(metas, later, id)
    requires LeavesAlone(ops, op.k, op.id, Until(op))
    ensures var e, k := Exec(Run(d, op), ops), GcTarget(later, id);
            Gc(e, k) <= Txn(e, k) <= op.ts
  {
    BarrierHoldsForItsTtl(d, op, ops);
  }

  /** Keyspace 7 sets a barrier at 100 under keyspace-level GC and is then switched to
      unified GC, as a configuration update may do: unified GC advances to 500 while
      the barrier is still stored and has not expired. */
  lemma SwitchToUnifiedUnguards()
    ensures var metas := map[7 := KeyspaceMeta(7, "seven", true, true)];
            var later := map[7 := KeyspaceMeta(7, "seven", true, false)];
            var op := SetBarrierOp(7, "backup", 100, SECOND, 0);
            var d := Run(EMPTY, op);
            var e := Run(d, AdvanceTxnOp(GcTarget(later, 7), 500, 0, []));
            && RedirectKeyspace(metas, 7, true) == Ok(7) && Body(EMPTY, op).Ok?
            && NewBarrier("backup", 100, SECOND, 0) in Barriers(e, 7)
            && Txn(e, GcTarget(later, 7)) == 500
  {
    var op := SetBarrierOp(7, "backup", 100, SECOND, 0);
    var b := NewBarrier("backup", 100, SECOND, 0);
    var d := Run(EMPTY, op);
    SingleWrite(EMPTY, PutBarrier(7, b));
    PutMembers([], b, b);
    assert Barriers(d, NULL_KEYSPACE) == [] && Txn(d, NULL_KEYSPACE) == 0;
    AdvanceTxnEffect(d, NULL_KEYSPACE, 500, 0, []);
    assert ScanBarriers([], 0, 500).min == 500;
  }

  datatype AdvanceTxnSafePointResult = AdvanceTxnSafePointResult(
    oldTxnSafePoint: nat,
    target: nat,
    newTxnSafePoint: nat,
    blocker: Blocker)

  function EnabledIds(metas: seq<KeyspaceMeta>): seq<nat> {
    if metas == [] then []
    else
      var m := metas[|metas| - 1];
      EnabledIds(metas[..|metas| - 1]) + if m.enabled then [m.id] else []
  }

  lemma EnabledIdsAppend(metas: seq<KeyspaceMeta>, i: nat)
    requires i < |metas|
    ensures var ids, more := EnabledIds(metas[..i]), EnabledIds(metas[..i + 1]);
            if metas[i].enabled then |more| == |ids| + 1 && more[..|ids|] == ids && more[|ids|] == metas[i].id
            else more == ids
  {
    assert metas[..i + 1][..i] == metas[..i];
  }

  lemma {:induction false} EnabledIdsMembers(metas: seq<KeyspaceMeta>)
    ensures forall m :: m in metas && m.enabled ==> m.id in EnabledIds(metas)
    ensures forall k :: k in EnabledIds(metas) ==> exists m :: m in metas && m.enabled && m.id == k
  {
    if metas != [] {
      var front := metas[..|metas| - 1];
      EnabledIdsMembers(front);
      assert forall m :: m in metas <==> m in front || m == metas[|metas| - 1];
    }
  }

  /** The safe points of the enabled keyspaces and of the null keyspace. */
  ghost predicate AllAtMost(d: Data, metas: seq<KeyspaceMeta>, ts: nat) {
    Txn(d, NULL_KEYSPACE) <= ts && forall m :: m in metas && m.enabled ==> Txn(d, m.id) <= ts
  }

  lemma AllAtMostIff(d: Data, metas: seq<KeyspaceMeta>, ts: nat)
    ensures AllAtMost(d, metas, ts) <==> Max(MaxTxn(d, EnabledIds(metas)), Txn(d, NULL_KEYSPACE)) <= ts
  {
    EnabledIdsMembers(metas);
    MaxTxnIsMax(d, EnabledIds(metas), ts);
  }

  function FindBarrier(bs: seq<Barrier>, id: string): (r: Option<Barrier>)
    ensures r.None? ==> forall b :: b in bs ==> b.id != id
    ensures r.Some? ==> r.value in bs && r.value.id == id
  {
    if bs == [] then None
    else if bs[0].id == id then Some(bs[0])
    else FindBarrier(bs[1..], id)
  }

  class GCStateManager {
    var data: Data

    constructor ()
      ensures data == EMPTY
    {
      data := EMPTY;
    }

    /** Loads the smallest start timestamp that old TiDB nodes report. */
    method CompatibleLoadTiDBMinStartTS(starts: seq<MinStart>) returns (least: MinStart)
      ensures starts == [] ==> least == MinStart("", 0)
      ensures starts != [] ==> least in starts && forall m :: m in starts ==> least.ts <= m.ts
      ensures least == LeastStart(starts)
    {
      least := MinStart("", 0);
      for i := 0 to |starts|
        invariant least == LeastStart(starts[..i])
      {
        assert starts[..i + 1][..i] == starts[..i];
        if i == 0 || starts[i].ts < least.ts {
          least := starts[i];
        }
      }
      assert starts[..|starts|] == starts;
      if starts != [] { LeastStartIsLeast(starts); }
    }

    method AdvanceGCSafePointImpl(k: nat, target: nat, compatible: bool) returns (r: Result<(nat, nat)>)
      modifies this
      ensures data == Run(old(data), AdvanceGcOp(k, target, compatible))
      ensures Body(old(data), AdvanceGcOp(k, target, compatible)).Ok? <==> r.Ok?
      ensures r.Err? ==> Body(old(data), AdvanceGcOp(k, target, compatible)) == Err(r.error)
      ensures r.Ok? <==> (target < Gc(old(data), k) && compatible) || Gc(old(data), k) <= target <= Txn(old(data), k)
      ensures r.Err? ==>
                r.error == if target < Gc(old(data), k) then DecreasingGCSafePoint else GCSafePointExceedsTxnSafePoint
      ensures r.Ok? ==> r.value == (Gc(old(data), k), Gc(data, k))
      ensures Gc(data, k) == if r.Ok? && target > Gc(old(data), k) then target else Gc(old(data), k)
      ensures forall j :: j != k ==> Gc(data, j) == Gc(old(data), j)
    {
      var oldGc := Gc(data, k);
      var newGc := target;
      if target < oldGc {
        if !compatible { return Err(DecreasingGCSafePoint); }
        newGc := oldGc;
      } else {
        if target > Txn(data, k) { return Err(GCSafePointExceedsTxnSafePoint); }
        SingleWrite(data, PutGc(k, target));
        data := ApplyWrites(data, [PutGc(k, target)]);
      }
      r := Ok((oldGc, newGc));
    }

    /** The loop over the keyspace's barriers, with the deletions it schedules. */
    static method VisitBarriers(k: nat, barriers: seq<Barrier>, now: int, target: nat)
      returns (s: Scan, wb: seq<Write>, downgradeCompatible: bool)
      ensures s == ScanBarriers(barriers, now, target)
      ensures wb == ExpiredDeletes(k, barriers, now)
      ensures downgradeCompatible == HasGcWorker(barriers)
    {
      s, wb, downgradeCompatible := Scan(target, None, None, None), [], false;
      for i := 0 to |barriers|
        invariant s == ScanBarriers(barriers[..i], now, target)
        invariant wb == ExpiredDeletes(k, barriers[..i], now)
        invariant downgradeCompatible == HasGcWorker(barriers[..i])
      {
        var b := barriers[i];
        assert barriers[..i + 1][..i] == barriers[..i];
        if b.id == GC_WORKER {
          downgradeCompatible := true;
        } else if Expired(b, now) {
          wb := wb + [DeleteBarrier(k, b.id)];
        } else if b.ts < s.min {
          s := s.(min := b.ts, barrier := Some(b));
        }
      }
      assert barriers[..|barriers|] == barriers;
    }

    /** The loop over the global barriers, which continues the scan and the batch. */
    static method VisitGlobals(s0: Scan, wb0: seq<Write>, globals: seq<Barrier>, now: int)
      returns (s: Scan, wb: seq<Write>)
      ensures s == ScanGlobals(s0, globals, now)
      ensures wb == wb0 + ExpiredGlobalDeletes(globals, now)
    {
      s, wb := s0, wb0;
      for i := 0 to |globals|
        invariant s == ScanGlobals(s0, globals[..i], now)
        invariant wb == wb0 + ExpiredGlobalDeletes(globals[..i], now)
      {
        var b := globals[i];
        assert globals[..i + 1][..i] == globals[..i];
        if Expired(b, now) {
          wb := wb + [DeleteGlobal(b.id)];
        } else if b.ts < s.min {
          s := s.(min := b.ts, global := Some(b));
        }
      }
      assert globals[..|globals|] == globals;
    }

    method AdvanceTxnSafePointImpl(k: nat, target: nat, now: int, starts: seq<MinStart>)
      returns (r: Result<AdvanceTxnSafePointResult>)
      modifies this
      ensures data == Run(old(data), AdvanceTxnOp(k, target, now, starts))
      ensures Body(old(data), AdvanceTxnOp(k, target, now, starts)).Ok? <==> r.Ok?
      ensures r.Err? ==> Body(old(data), AdvanceTxnOp(k, target, now, starts)) == Err(r.error)
      ensures r.Ok? <==> Txn(old(data), k) <= target
      ensures r.Err? ==> r.error == DecreasingTxnSafePoint
      ensures r.Ok? ==>
                && r.value.oldTxnSafePoint == Txn(old(data), k)
                && r.value.target == target
                && r.value.newTxnSafePoint == Txn(data, k)
                && r.value.blocker == Reported(ScanAll(old(data), k, target, now, starts))
    {
      var oldTxn := Txn(data, k);
      if target < oldTxn { return Err(DecreasingTxnSafePoint); }
      var s, wb, downgradeCompatible := VisitBarriers(k, Barriers(data, k), now, target);
      var least := CompatibleLoadTiDBMinStartTS(starts);
      if least.ts != 0 && |least.owner| != 0 && least.ts < s.min {
        s := s.(min := least.ts, barrier := None, minStartOwner := Some(least.owner));
      }
      s, wb := VisitGlobals(s, wb, data.globals, now);
      var newTxn := Max(oldTxn, s.min);
      if downgradeCompatible {
        wb := wb + [PutBarrier(k, Barrier(GC_WORKER, newTxn, None))];
      } else {
        assert wb + [] == wb;
      }
      wb := wb + [PutTxn(k, newTxn)];
      AdvanceTxnEffect(data, k, target, now, starts);
      data := ApplyWrites(data, wb);
      r := Ok(AdvanceTxnSafePointResult(oldTxn, target, newTxn, Reported(s)));
    }

    method AdvanceGCSafePoint(metas: map<nat, KeyspaceMeta>, keyspaceID: nat, target: nat) returns (r: Result<(nat, nat)>)
      modifies this
      ensures var to := RedirectKeyspace(metas, keyspaceID, false);
              if to.Err? then r == Err(to.error) && data == old(data)
              else
                && data == Run(old(data), AdvanceGcOp(to.value, target, false))
                && (r.Ok? <==> Gc(old(data), to.value) <= target <= Txn(old(data), to.value))
                && (r.Ok? ==> r.value == (Gc(old(data), to.value), target) && Gc(data, to.value) == target)
    {
      var to := RedirectKeyspace(metas, keyspaceID, false);
      if to.Err? { return Err(to.error); }
      r := AdvanceGCSafePointImpl(to.value, target, false);
    }

    method AdvanceTxnSafePoint(metas: map<nat, KeyspaceMeta>, keyspaceID: nat, target: nat, now: int, starts: seq<MinStart>)
      returns (r: Result<AdvanceTxnSafePointResult>)
      modifies this
      ensures var to := RedirectKeyspace(metas, keyspaceID, false);
              if to.Err? then r == Err(to.error) && data == old(data)
              else
                && data == Run(old(data), AdvanceTxnOp(to.value, target, now, starts))
                && (r.Ok? <==> Txn(old(data), to.value) <= target)
                && (r.Ok? ==> r.value.newTxnSafePoint == Txn(data, to.value))
    {
      var to := RedirectKeyspace(metas, keyspaceID, false);
      if to.Err? { return Err(to.error); }
      r := AdvanceTxnSafePointImpl(to.value, target, now, starts);
    }

    method SetGCBarrierImpl(k: nat, id: string, ts: nat, ttl: int, now: int) returns (r: Result<Barrier>)
      requires ttl > 0
      modifies this
      ensures data == Run(old(data), SetBarrierOp(k, id, ts, ttl, now))
      ensures Body(old(data), SetBarrierOp(k, id, ts, ttl, now)).Ok? <==> r.Ok?
      ensures r.Err? ==> Body(old(data), SetBarrierOp(k, id, ts, ttl, now)) == Err(r.error)
      ensures r.Ok? <==> id != "gc_worker" && id != "" && Txn(old(data), k) <= ts
      ensures r.Err? ==>
                r.error == if id == "gc_worker" then ReservedBarrierID
                           else if id == "" then InvalidArgument else BarrierBehindTxnSafePoint
      ensures r.Ok? ==> r.value.id == id && r.value.ts == ts
      ensures r.Ok? ==>
                forall b :: b in Barriers(data, k) <==> b == r.value || (b in Barriers(old(data), k) && b.id != id)
      ensures r.Ok? ==> forall later :: later <= now + ttl || ttl >= INT64_MAX ==> Lasts(r.value, later)
    {
      if id == GC_WORKER { return Err(ReservedBarrierID); }
      if |id| == 0 { return Err(InvalidArgument); }
      var expiration := None;
      if ttl < INT64_MAX {
        RoundUpTimeNotEarlier(now + ttl);
        expiration := Some(RoundUpTime(now + ttl));
      }
      var nb := Barrier(id, ts, expiration);
      if ts < Txn(data, k) { return Err(BarrierBehindTxnSafePoint); }
      SingleWrite(data, PutBarrier(k, nb));
      ghost var before := Barriers(data, k);
      data := ApplyWrites(data, [PutBarrier(k, nb)]);
      forall b { PutMembers(before, nb, b); }
      r := Ok(nb);
    }

    /** A user call: under unified GC it works on the null keyspace. */
    method SetGCBarrier(metas: map<nat, KeyspaceMeta>, keyspaceID: nat, id: string, ts: nat, ttl: int, now: int)
      returns (r: Result<Barrier>)
      modifies this
      ensures ttl <= 0 ==> r == Err(InvalidArgument) && data == old(data)
      ensures var to := RedirectKeyspace(metas, keyspaceID, true);
              ttl > 0 ==>
                if to.Err? then r == Err(to.error) && data == old(data)
                else
                  && data == Run(old(data), SetBarrierOp(to.value, id, ts, ttl, now))
                  && (r.Ok? <==> id != GC_WORKER && id != "" && Txn(old(data), to.value) <= ts)
                  && (r.Ok? ==> r.value in Barriers(data, to.value) && r.value.id == id && r.value.ts == ts)
                  && (r.Ok? ==> forall later :: later <= now + ttl || ttl >= INT64_MAX ==> Lasts(r.value, later))
    {
      if ttl <= 0 { return Err(InvalidArgument); }
      var to := RedirectKeyspace(metas, keyspaceID, true);
      if to.Err? { return Err(to.error); }
      r := SetGCBarrierImpl(to.value, id, ts, ttl, now);
    }

    method DeleteGCBarrierImpl(k: nat, id: string) returns (r: Result<Option<Barrier>>)
      modifies this
      ensures data == Run(old(data), DeleteBarrierOp(k, id))
      ensures Body(old(data), DeleteBarrierOp(k, id)).Ok? <==> r.Ok?
      ensures r.Err? ==> Body(old(data), DeleteBarrierOp(k, id)) == Err(r.error)
      ensures r.Ok? <==> id != "gc_worker" && id != ""
      ensures r.Err? ==> r.error == if id == "gc_worker" then ReservedBarrierID else InvalidArgument
      ensures r.Ok? ==> r.value == FindBarrier(Barriers(old(data), k), id)
      ensures r.Ok? ==> forall b :: b in Barriers(data, k) <==> b in Barriers(old(data), k) && b.id != id
    {
      if id == GC_WORKER { return Err(ReservedBarrierID); }
      if |id| == 0 { return Err(InvalidArgument); }
      var deleted := FindBarrier(Barriers(data, k), id);
      SingleWrite(data, DeleteBarrier(k, id));
      ghost var before := Barriers(data, k);
      data := ApplyWrites(data, [DeleteBarrier(k, id)]);
      forall b
        ensures b in Barriers(data, k) <==> b in before && b.id != id
      {
        WithoutMembers(before, {id}, b);
      }
      r := Ok(deleted);
    }

    method DeleteGCBarrier(metas: map<nat, KeyspaceMeta>, keyspaceID: nat, id: string) returns (r: Result<Option<Barrier>>)
      modifies this
      ensures var to := RedirectKeyspace(metas, keyspaceID, true);
              if to.Err? then r == Err(to.error) && data == old(data)
              else
                && data == Run(old(data), DeleteBarrierOp(to.value, id))
                && (r.Ok? <==> id != GC_WORKER && id != "")
                && (r.Ok? ==> r.value == FindBarrier(Barriers(old(data), to.value), id))
    {
      var to := RedirectKeyspace(metas, keyspaceID, true);
      if to.Err? { return Err(to.error); }
      r := DeleteGCBarrierImpl(to.value, id);
    }

    /** The largest txn safe point and the first keyspace that has it; "" and 0 stand
        for none, and "" also for the null keyspace. */
    method GetMaxTxnSafePointAmongAllKeyspaces(metas: seq<KeyspaceMeta>)
      returns (max: nat, keyspaceName: string, keyspaceID: nat)
      ensures AllAtMost(data, metas, max)
      ensures max == Max(MaxTxn(data, EnabledIds(metas)), Txn(data, NULL_KEYSPACE))
      ensures max == 0 ==> keyspaceName == "" && keyspaceID == 0
      ensures max > 0 ==> Txn(data, keyspaceID) == max
      ensures max > 0 ==>
                || (keyspaceID == NULL_KEYSPACE && keyspaceName == "")
                || exists m :: m in metas && m.enabled && m.id == keyspaceID && m.name == keyspaceName
    {
      max, keyspaceName, keyspaceID := 0, "", 0;
      ghost var found := None;
      for i := 0 to |metas|
        invariant max == MaxTxn(data, EnabledIds(metas[..i]))
        invariant if max == 0 then keyspaceName == "" && keyspaceID == 0 && found == None
                  else
                    && found.Some? && found.value in metas && found.value.enabled
                    && found.value.id == keyspaceID && found.value.name == keyspaceName && Txn(data, keyspaceID) == max
      {
        EnabledIdsAppend(metas, i);
        if metas[i].enabled {
          var t := Txn(data, metas[i].id);
          if t > max {
            max, keyspaceName, keyspaceID := t, metas[i].name, metas[i].id;
            found := Some(metas[i]);
          }
        }
      }
      assert metas[..|metas|] == metas;
      var t := Txn(data, NULL_KEYSPACE);
      if t > max {
        max, keyspaceName, keyspaceID := t, "", NULL_KEYSPACE;
      }
      AllAtMostIff(data, metas, max);
    }

    method SetGlobalGCBarrier(id: string, ts: nat, ttl: int, now: int, metas: seq<KeyspaceMeta>)
      returns (r: Result<Barrier>)
      modifies this
      ensures data == Run(old(data), SetGlobalOp(id, ts, ttl, now, EnabledIds(metas)))
      ensures Body(old(data), SetGlobalOp(id, ts, ttl, now, EnabledIds(metas))).Ok? <==> r.Ok?
      ensures r.Err? ==> Body(old(data), SetGlobalOp(id, ts, ttl, now, EnabledIds(metas))) == Err(r.error)
      ensures r.Ok? <==> ttl > 0 && id != "" && AllAtMost(old(data), metas, ts)
      ensures r.Err? ==> r.error == if ttl <= 0 || id == "" then InvalidArgument else GlobalBarrierBehindTxnSafePoint
      ensures r.Ok? ==> r.value.id == id && r.value.ts == ts
      ensures r.Ok? ==> forall b :: b in data.globals <==> b == r.value || (b in old(data.globals) && b.id != id)
      ensures r.Ok? ==> forall later :: later <= now + ttl || ttl >= INT64_MAX ==> Lasts(r.value, later)
    {
      if ttl <= 0 { return Err(InvalidArgument); }
      if |id| == 0 { return Err(InvalidArgument); }
      RoundUpTimeNotEarlier(now + ttl);
      var nb := NewBarrier(id, ts, ttl, now);
      var max, _, _ := GetMaxTxnSafePointAmongAllKeyspaces(metas);
      AllAtMostIff(data, metas, ts);
      if ts < max { return Err(GlobalBarrierBehindTxnSafePoint); }
      SingleWrite(data, PutGlobal(nb));
      ghost var before := data.globals;
      data := ApplyWrites(data, [PutGlobal(nb)]);
      forall b { PutMembers(before, nb, b); }
      r := Ok(nb);
    }

    method DeleteGlobalGCBarrier(id: string) returns (r: Result<Option<Barrier>>)
      modifies this
      ensures data == Run(old(data), DeleteGlobalOp(id))
      ensures Body(old(data), DeleteGlobalOp(id)).Ok? <==> r.Ok?
      ensures r.Err? ==> Body(old(data), DeleteGlobalOp(id)) == Err(r.error)
      ensures r.Ok? <==> id != ""
      ensures r.Err? ==> r.error == InvalidArgument
      ensures r.Ok? ==> r.value == FindBarrier(old(data.globals), id)
      ensures r.Ok? ==> forall b :: b in data.globals <==> b in old(data.globals) && b.id != id
    {
      if |id| == 0 { return Err(InvalidArgument); }
      var deleted := FindBarrier(data.globals, id);
      SingleWrite(data, DeleteGlobal(id));
      ghost var before := data.globals;
      data := ApplyWrites(data, [DeleteGlobal(id)]);
      forall b
        ensures b in data.globals <==> b in before && b.id != id
      {
        WithoutMembers(before, {id}, b);
      }
      r := Ok(deleted);
    }
  }
}
