/** What the GC state manager promises (pd/pkg/gc/gc_state_manager.go, lines 74-108):
    the constraints between safe points, barriers and reported start timestamps,
    over every sequence of its transactions. */
module GcStateSafety {

  import opened Arithmetic
  import opened GcDuration
  import opened GcState
  import opened Keyspaces
  import opened Wrappers

  // ---------------------------------------------------------------------------
  // The new txn safe point is the largest one that nothing in force forbids
  // ---------------------------------------------------------------------------

  /** The barrier has no expiration, or has not passed it. */
  ghost predicate Lasts(b: Barrier, now: int) { b.expiration.None? || now <= b.expiration.value }

  /** A barrier of the keyspace that holds the txn safe point back. */
  ghost predicate InForce(b: Barrier, now: int) { b.id != "gc_worker" && Lasts(b, now) }

  /** The reported start timestamps are taken into account at all. */
  ghost predicate Counted(starts: seq<MinStart>) { LeastStart(starts).ts > 0 && |LeastStart(starts).owner| > 0 }

  lemma {:induction false} BarrierScan(bs: seq<Barrier>, now: int, target: nat)
    ensures var s := ScanBarriers(bs, now, target);
            && s.min <= target
            && (forall b :: b in bs && InForce(b, now) ==> s.min <= b.ts)
            && s.minStartOwner == None && s.global == None
            && (s.barrier == None <==> s.min == target)
            && (s.barrier.Some? ==> s.barrier.value in bs && InForce(s.barrier.value, now) && s.barrier.value.ts == s.min)
  {
    if bs != [] {
      var front := bs[..|bs| - 1];
      BarrierScan(front, now, target);
      assert forall b :: b in bs <==> b in front || b == bs[|bs| - 1];
    }
  }

  /** Where the first of the smallest reports is. */
  lemma {:induction false} LeastStartIndex(starts: seq<MinStart>) returns (i: nat)
    requires starts != []
    ensures i < |starts| && starts[i] == LeastStart(starts)
    ensures forall j :: 0 <= j < i ==> starts[j].ts > starts[i].ts
    ensures forall j :: 0 <= j < |starts| ==> starts[i].ts <= starts[j].ts
  {
    var n := |starts| - 1;
    if n == 0 {
      i := 0;
    } else {
      i := LeastStartIndex(starts[..n]);
      assert forall j :: 0 <= j < n ==> starts[..n][j] == starts[j];
      if starts[n].ts < starts[i].ts { i := n; }
    }
  }

  lemma LeastStartIsLeast(starts: seq<MinStart>)
    requires starts != []
    ensures LeastStart(starts) in starts
    ensures forall m :: m in starts ==> LeastStart(starts).ts <= m.ts
  {
    var i := LeastStartIndex(starts);
  }

  lemma {:induction false} GlobalScan(s: Scan, bs: seq<Barrier>, now: int)
    requires s.global == None
    ensures var t := ScanGlobals(s, bs, now);
            && t.min <= s.min
            && (forall b :: b in bs && Lasts(b, now) ==> t.min <= b.ts)
            && t.barrier == s.barrier && t.minStartOwner == s.minStartOwner
            && (t.global == None <==> t.min == s.min)
            && (t.global.Some? ==> t.global.value in bs && Lasts(t.global.value, now) && t.global.value.ts == t.min)
  {
    if bs != [] {
      var front := bs[..|bs| - 1];
      GlobalScan(s, front, now);
      assert forall b :: b in bs <==> b in front || b == bs[|bs| - 1];
    }
  }

  /** `limit` bounds the target and everything in force. */
  ghost predicate Permits(d: Data, k: nat, target: nat, now: int, starts: seq<MinStart>, limit: nat) {
    && limit <= target
    && (forall b :: b in Barriers(d, k) && InForce(b, now) ==> limit <= b.ts)
    && (forall b :: b in d.globals && Lasts(b, now) ==> limit <= b.ts)
    && (Counted(starts) ==> forall m :: m in starts ==> limit <= m.ts)
  }

  lemma ScanBounds(d: Data, k: nat, target: nat, now: int, starts: seq<MinStart>)
    ensures Permits(d, k, target, now, starts, ScanAll(d, k, target, now, starts).min)
  {
    var s := ScanBarriers(Barriers(d, k), now, target);
    BarrierScan(Barriers(d, k), now, target);
    if starts != [] { LeastStartIsLeast(starts); }
    GlobalScan(ScanMinStart(s, starts), d.globals, now);
  }

  /** Who is reported for an advancement that stopped short. */
  datatype Blocker = Nobody | ByGlobal(b: Barrier) | ByMinStart(owner: string) | ByBarrier(b: Barrier)

  function Reported(s: Scan): Blocker {
    if s.global.Some? then ByGlobal(s.global.value)
    else if s.minStartOwner.Some? then ByMinStart(s.minStartOwner.value)
    else if s.barrier.Some? then ByBarrier(s.barrier.value)
    else Nobody
  }

  /** The reported blocker is in force and is the smallest of all: whoever advanced
      less than the target is told the true reason, and a shortfall always has one. */
  lemma ReportedBlockerIsTrue(d: Data, k: nat, target: nat, now: int, starts: seq<MinStart>)
    requires Txn(d, k) <= target
    ensures var s := ScanAll(d, k, target, now, starts);
            && (Reported(s) == Nobody <==> s.min == target)
            && (NewTxn(d, k, target, now, starts) != target ==> Reported(s) != Nobody)
            && match Reported(s) {
                 case Nobody => true
                 case ByGlobal(b) => b in d.globals && Lasts(b, now) && b.ts == s.min
                 case ByMinStart(owner) => MinStart(owner, s.min) in starts && owner != "" && s.min != 0
                 case ByBarrier(b) => b in Barriers(d, k) && InForce(b, now) && b.ts == s.min
               }
  {
    var s := ScanBarriers(Barriers(d, k), now, target);
    BarrierScan(Barriers(d, k), now, target);
    if starts != [] { LeastStartIsLeast(starts); }
    var t := ScanMinStart(s, starts);
    GlobalScan(t, d.globals, now);
  }

  /** A limit that everything permits is no larger than the scan's minimum, because
      that minimum is the target or the timestamp of somebody in force. */
  lemma ScanIsGreatest(d: Data, k: nat, target: nat, now: int, starts: seq<MinStart>, limit: nat)
    requires Permits(d, k, target, now, starts, limit)
    ensures limit <= ScanAll(d, k, target, now, starts).min
  {
    var s := ScanBarriers(Barriers(d, k), now, target);
    BarrierScan(Barriers(d, k), now, target);
    if starts != [] { LeastStartIsLeast(starts); }
    var t := ScanMinStart(s, starts);
    GlobalScan(t, d.globals, now);
    assert limit <= s.min;
    assert limit <= t.min;
  }

  /** The new txn safe point, without its computation: it never decreases, and above
      the old value it is exactly the largest permitted one. */
  lemma AdvanceIsGreatestPermitted(d: Data, k: nat, target: nat, now: int, starts: seq<MinStart>, t: nat)
    requires Txn(d, k) <= target
    ensures t == NewTxn(d, k, target, now, starts) <==>
            && Txn(d, k) <= t <= target
            && (t > Txn(d, k) ==> Permits(d, k, target, now, starts, t))
            && (forall u: nat :: Permits(d, k, target, now, starts, u) ==> u <= t)
  {
    var n := NewTxn(d, k, target, now, starts);
    var m := ScanAll(d, k, target, now, starts).min;
    ScanBounds(d, k, target, now, starts);
    forall u: nat | Permits(d, k, target, now, starts, u)
      ensures u <= m
    {
      ScanIsGreatest(d, k, target, now, starts, u);
    }
  }

  // ---------------------------------------------------------------------------
  // What one advancement leaves behind
  // ---------------------------------------------------------------------------

  lemma {:induction false} HasGcWorkerIff(bs: seq<Barrier>)
    ensures HasGcWorker(bs) <==> exists b :: b in bs && b.id == GC_WORKER
  {
    if bs != [] {
      var front := bs[..|bs| - 1];
      HasGcWorkerIff(front);
      assert forall b :: b in bs <==> b in front || b == bs[|bs| - 1];
    }
  }

  function GcWorkerBarrier(t: nat): Barrier { Barrier(GC_WORKER, t, None) }

  ghost function KeptBarriers(bs: seq<Barrier>, now: int, t: nat): seq<Barrier> {
    var kept := Without(bs, ExpiredIds(bs, now, Some(GC_WORKER)));
    if HasGcWorker(bs) then Put(kept, GcWorkerBarrier(t)) else kept
  }

  lemma FourParts(d: Data, a: seq<Write>, b: seq<Write>, c: seq<Write>, w: Write)
    ensures ApplyWrites(d, a + b + c + [w]) == ApplyWrite(ApplyWrites(ApplyWrites(ApplyWrites(d, a), b), c), w)
  {
    ApplyWritesAppend(d, a + b + c, w);
    ApplyWritesThen(d, a + b, c);
    ApplyWritesThen(d, a, b);
  }

  /** The state after the deletions. */
  lemma DeletionsEffect(d: Data, k: nat, now: int)
    ensures var bs := Barriers(d, k);
            var e := ApplyWrites(ApplyWrites(d, ExpiredDeletes(k, bs, now)), ExpiredGlobalDeletes(d.globals, now));
            && e.txn == d.txn && e.gc == d.gc
            && e.globals == Without(d.globals, ExpiredIds(d.globals, now, None))
            && Barriers(e, k) == Without(bs, ExpiredIds(bs, now, Some(GC_WORKER)))
            && forall j :: j != k ==> Barriers(e, j) == Barriers(d, j)
  {
    var bs := Barriers(d, k);
    var d1 := ApplyWrites(d, ExpiredDeletes(k, bs, now));
    ExpiredDeletesEffect(d, k, bs, now);
    ExpiredGlobalDeletesEffect(d1, d.globals, now);
  }

  lemma AdvanceTxnEffect(d: Data, k: nat, target: nat, now: int, starts: seq<MinStart>)
    requires Txn(d, k) <= target
    ensures var e, t := Run(d, AdvanceTxnOp(k, target, now, starts)), NewTxn(d, k, target, now, starts);
            && e.txn == d.txn[k := t] && e.gc == d.gc
            && e.globals == Without(d.globals, ExpiredIds(d.globals, now, None))
            && Barriers(e, k) == KeptBarriers(Barriers(d, k), now, t)
            && forall j :: j != k ==> Barriers(e, j) == Barriers(d, j)
  {
    var t := NewTxn(d, k, target, now, starts);
    var bs := Barriers(d, k);
    var expired, globals := ExpiredDeletes(k, bs, now), ExpiredGlobalDeletes(d.globals, now);
    var present := HasGcWorker(bs);
    var worker := if present then [PutBarrier(k, GcWorkerBarrier(t))] else [];
    FourParts(d, expired, globals, worker, PutTxn(k, t));
    DeletionsEffect(d, k, now);
    WorkerEffect(ApplyWrites(ApplyWrites(d, expired), globals), k, t, present);
  }

  lemma WorkerEffect(d: Data, k: nat, t: nat, present: bool)
    ensures ApplyWrites(d, if present then [PutBarrier(k, GcWorkerBarrier(t))] else []) ==
            if present then ApplyWrite(d, PutBarrier(k, GcWorkerBarrier(t))) else d
  {
  }

  /** At most one record under each id. */
  ghost predicate UniqueIds(bs: seq<Barrier>) {
    forall b, c :: b in bs && c in bs && b.id == c.id ==> b == c
  }

  lemma PutMembers(bs: seq<Barrier>, b: Barrier, c: Barrier)
    ensures c in Put(bs, b) <==> c == b || (c in bs && c.id != b.id)
  {
    WithoutMembers(bs, {b.id}, c);
  }

  lemma PutUnique(bs: seq<Barrier>, b: Barrier)
    requires UniqueIds(bs)
    ensures UniqueIds(Put(bs, b))
  {
    forall c { PutMembers(bs, b, c); }
  }

  lemma WithoutUnique(bs: seq<Barrier>, ids: set<string>)
    requires UniqueIds(bs)
    ensures UniqueIds(Without(bs, ids))
  {
    forall c { WithoutMembers(bs, ids, c); }
  }

  lemma KeptMembers(bs: seq<Barrier>, now: int, t: nat, b: Barrier)
    requires UniqueIds(bs)
    ensures b in KeptBarriers(bs, now, t) <==>
            (b in bs && InForce(b, now)) || (b == GcWorkerBarrier(t) && HasGcWorker(bs))
  {
    var ids := ExpiredIds(bs, now, Some(GC_WORKER));
    var kept := Without(bs, ids);
    WithoutMembers(bs, ids, b);
    PutMembers(kept, GcWorkerBarrier(t), b);
    HasGcWorkerIff(bs);
    if b in bs && InForce(b, now) {
      assert b.id !in ids;
    }
  }

  lemma KeptUnique(bs: seq<Barrier>, now: int, t: nat)
    requires UniqueIds(bs)
    ensures UniqueIds(KeptBarriers(bs, now, t))
  {
    var kept := Without(bs, ExpiredIds(bs, now, Some(GC_WORKER)));
    WithoutUnique(bs, ExpiredIds(bs, now, Some(GC_WORKER)));
    PutUnique(kept, GcWorkerBarrier(t));
  }

  lemma KeptGlobals(bs: seq<Barrier>, now: int, b: Barrier)
    requires UniqueIds(bs)
    ensures b in Without(bs, ExpiredIds(bs, now, None)) <==> b in bs && Lasts(b, now)
  {
    WithoutMembers(bs, ExpiredIds(bs, now, None), b);
  }

  // ---------------------------------------------------------------------------
  // When a transaction succeeds
  // ---------------------------------------------------------------------------

  /** Exactly which transactions are refused. */
  lemma SucceedsIff(d: Data, op: Op)
    ensures Body(d, op).Ok? <==>
            match op {
              case AdvanceGcOp(k, target, compatible) =>
                (target < Gc(d, k) && compatible) || Gc(d, k) <= target <= Txn(d, k)
              case AdvanceTxnOp(k, target, _, _) => Txn(d, k) <= target
              case SetBarrierOp(k, id, ts, ttl, _) => ttl > 0 && id != "gc_worker" && id != "" && Txn(d, k) <= ts
              case DeleteBarrierOp(_, id) => id != "gc_worker" && id != ""
              case SetGlobalOp(id, ts, ttl, _, enabled) =>
                ttl > 0 && id != "" && Txn(d, 0xFFFF_FFFF) <= ts && forall k :: k in enabled ==> Txn(d, k) <= ts
              case DeleteGlobalOp(id) => id != ""
            }
  {
    if op.SetGlobalOp? { MaxTxnIsMax(d, op.enabled, op.ts); }
  }

  // ---------------------------------------------------------------------------
  // Constraints 1 to 4, over every run
  // ---------------------------------------------------------------------------

  /** GC safe point <= txn safe point <= every barrier of the keyspace. */
  ghost predicate Ordered(d: Data, k: nat) {
    && Gc(d, k) <= Txn(d, k)
    && (forall b :: b in Barriers(d, k) ==> Txn(d, k) <= b.ts)
    && UniqueIds(Barriers(d, k))
  }

  ghost predicate Consistent(d: Data) {
    && (forall k :: Ordered(d, k))
    && UniqueIds(d.globals)
  }

  /** Neither safe point of the keyspace is lower in `e`. */
  ghost predicate NotLower(d: Data, e: Data, k: nat) {
    Txn(d, k) <= Txn(e, k) && Gc(d, k) <= Gc(e, k)
  }

  ghost predicate NotBelow(d: Data, e: Data) { forall k :: NotLower(d, e, k) }

  lemma SingleWrite(d: Data, w: Write)
    ensures ApplyWrites(d, [w]) == ApplyWrite(d, w)
  {
  }

  lemma AdvanceTxnOrdered(d: Data, op: Op, j: nat)
    requires Ordered(d, j) && op.AdvanceTxnOp?
    ensures Ordered(Run(d, op), j) && NotLower(d, Run(d, op), j)
  {
    var AdvanceTxnOp(k, target, now, starts) := op;
    if Txn(d, k) <= target {
      var e, t := Run(d, op), NewTxn(d, k, target, now, starts);
      AdvanceTxnEffect(d, k, target, now, starts);
      if j == k {
        ScanBounds(d, k, target, now, starts);
        KeptUnique(Barriers(d, k), now, t);
        forall b | b in Barriers(e, k)
          ensures t <= b.ts
        {
          KeptMembers(Barriers(d, k), now, t, b);
        }
      }
    }
  }

  lemma SetBarrierOrdered(d: Data, op: Op, j: nat)
    requires Ordered(d, j) && op.SetBarrierOp?
    ensures Ordered(Run(d, op), j) && NotLower(d, Run(d, op), j)
  {
    var nb := NewBarrier(op.id, op.ts, op.ttl, op.now);
    SingleWrite(d, PutBarrier(op.k, nb));
    if j == op.k {
      PutUnique(Barriers(d, j), nb);
      forall b { PutMembers(Barriers(d, j), nb, b); }
    }
  }

  lemma DeleteBarrierOrdered(d: Data, op: Op, j: nat)
    requires Ordered(d, j) && op.DeleteBarrierOp?
    ensures Ordered(Run(d, op), j) && NotLower(d, Run(d, op), j)
  {
    SingleWrite(d, DeleteBarrier(op.k, op.id));
    if j == op.k {
      WithoutUnique(Barriers(d, j), {op.id});
      forall b { WithoutMembers(Barriers(d, j), {op.id}, b); }
    }
  }

  lemma OtherOrdered(d: Data, op: Op, j: nat)
    requires Ordered(d, j) && (op.AdvanceGcOp? || op.SetGlobalOp? || op.DeleteGlobalOp?)
    ensures Ordered(Run(d, op), j) && NotLower(d, Run(d, op), j)
  {
    match op
    case AdvanceGcOp(k, target, _) => SingleWrite(d, PutGc(k, target));
    case SetGlobalOp(id, ts, ttl, now, _) => SingleWrite(d, PutGlobal(NewBarrier(id, ts, ttl, now)));
    case DeleteGlobalOp(id) => SingleWrite(d, DeleteGlobal(id));
  }

  lemma GlobalsUnique(d: Data, op: Op)
    requires UniqueIds(d.globals)
    ensures UniqueIds(Run(d, op).globals)
  {
    match op
    case AdvanceGcOp(k, target, _) => SingleWrite(d, PutGc(k, target));
    case AdvanceTxnOp(k, target, now, starts) =>
      if Txn(d, k) <= target {
        AdvanceTxnEffect(d, k, target, now, starts);
        WithoutUnique(d.globals, ExpiredIds(d.globals, now, None));
      }
    case SetBarrierOp(k, id, ts, ttl, now) => SingleWrite(d, PutBarrier(k, NewBarrier(id, ts, ttl, now)));
    case DeleteBarrierOp(k, id) => SingleWrite(d, DeleteBarrier(k, id));
    case SetGlobalOp(id, ts, ttl, now, _) =>
      SingleWrite(d, PutGlobal(NewBarrier(id, ts, ttl, now)));
      PutUnique(d.globals, NewBarrier(id, ts, ttl, now));
    case DeleteGlobalOp(id) =>
      SingleWrite(d, DeleteGlobal(id));
      WithoutUnique(d.globals, {id});
  }

  /** Constraints 1 to 4 are kept by every transaction, also by one that fails. */
  lemma TransactionKeepsConstraints(d: Data, op: Op)
    requires Consistent(d)
    ensures Consistent(Run(d, op)) && NotBelow(d, Run(d, op))
  {
    GlobalsUnique(d, op);
    forall j: nat
      ensures Ordered(Run(d, op), j) && NotLower(d, Run(d, op), j)
    {
      assert Ordered(d, j);
      if op.AdvanceTxnOp? {
        AdvanceTxnOrdered(d, op, j);
      } else if op.SetBarrierOp? {
        SetBarrierOrdered(d, op, j);
      } else if op.DeleteBarrierOp? {
        DeleteBarrierOrdered(d, op, j);
      } else {
        OtherOrdered(d, op, j);
      }
    }
  }

  lemma NotBelowTransitive(a: Data, b: Data, c: Data)
    requires NotBelow(a, b) && NotBelow(b, c)
    ensures NotBelow(a, c)
  {
    forall k: nat
      ensures NotLower(a, c, k)
    {
      assert NotLower(a, b, k) && NotLower(b, c, k);
    }
  }

  lemma {:induction false} ExecSplit(d: Data, a: seq<Op>, b: seq<Op>)
    ensures Exec(d, a + b) == Exec(Exec(d, a), b)
    decreases |b|
  {
    if b == [] {
      assert a + b == a;
    } else {
      var n := |b| - 1;
      ExecSplit(d, a, b[..n]);
      assert (a + b)[..|a + b| - 1] == a + b[..n];
    }
  }

  lemma ExecTail(d: Data, ops: seq<Op>, n: nat)
    requires n <= |ops|
    ensures Exec(d, ops) == Exec(Exec(d, ops[..n]), ops[n..])
  {
    ExecSplit(d, ops[..n], ops[n..]);
    assert ops[..n] + ops[n..] == ops;
  }

  lemma {:induction false} RunStaysConsistent(d: Data, ops: seq<Op>)
    requires Consistent(d)
    ensures Consistent(Exec(d, ops)) && NotBelow(d, Exec(d, ops))
    decreases |ops|
  {
    if ops != [] {
      var n := |ops| - 1;
      RunStaysConsistent(d, ops[..n]);
      TransactionKeepsConstraints(Exec(d, ops[..n]), ops[n]);
      NotBelowTransitive(d, Exec(d, ops[..n]), Exec(d, ops));
    }
  }

  /** In every run the safe points only grow from each moment to each later one, and
      at every moment GC safe point <= txn safe point <= every barrier. */
  lemma RunsKeepConstraints(d: Data, ops: seq<Op>, i: nat, j: nat)
    requires Consistent(d) && i <= j <= |ops|
    ensures Consistent(Exec(d, ops[..i]))
    ensures NotBelow(Exec(d, ops[..i]), Exec(d, ops[..j]))
  {
    RunStaysConsistent(d, ops[..i]);
    RunStaysConsistent(Exec(d, ops[..i]), ops[i..j]);
    ExecSplit(d, ops[..i], ops[i..j]);
    assert ops[..i] + ops[i..j] == ops[..j];
  }

  // ---------------------------------------------------------------------------
  // Constraint 5: start timestamps reported by old TiDB nodes
  // ---------------------------------------------------------------------------

  /** The advancement does not pass any reported start timestamp. */
  ghost predicate RespectsMinStarts(d: Data, k: nat, target: nat, now: int, starts: seq<MinStart>) {
    forall m :: m in starts ==> NewTxn(d, k, target, now, starts) <= Max(Txn(d, k), m.ts)
  }

  /** The target, a barrier or a global barrier in force keeps an advancement at or
      below `m` without any report. */
  ghost predicate HeldBack(d: Data, k: nat, target: nat, now: int, m: nat) {
    || target <= m
    || (exists b :: b in Barriers(d, k) && InForce(b, now) && b.ts <= m)
    || (exists b :: b in d.globals && Lasts(b, now) && b.ts <= m)
  }

  /** Without a counted report, an advancement stays at or below `m` exactly when
      something other than the reports holds it back. */
  lemma HeldBackIff(d: Data, k: nat, target: nat, now: int, starts: seq<MinStart>, m: nat)
    requires !Counted(starts)
    ensures ScanAll(d, k, target, now, starts).min <= m <==> HeldBack(d, k, target, now, m)
  {
    var s := ScanBarriers(Barriers(d, k), now, target);
    BarrierScan(Barriers(d, k), now, target);
    GlobalScan(s, d.globals, now);
  }

  /** Constraint 5 fails exactly when the smallest report is left out (it is 0, or its
      key has no owner part) and neither the target nor a barrier holds the safe
      point back to it. */
  lemma MinStartConstraintIff(d: Data, k: nat, target: nat, now: int, starts: seq<MinStart>)
    requires Txn(d, k) <= target
    ensures RespectsMinStarts(d, k, target, now, starts) <==>
            || starts == []
            || Counted(starts)
            || HeldBack(d, k, target, now, Max(Txn(d, k), LeastStart(starts).ts))
  {
    if starts != [] {
      var m := Max(Txn(d, k), LeastStart(starts).ts);
      LeastStartIsLeast(starts);
      ScanBounds(d, k, target, now, starts);
      assert RespectsMinStarts(d, k, target, now, starts) <==> NewTxn(d, k, target, now, starts) <= m;
      if !Counted(starts) {
        HeldBackIff(d, k, target, now, starts, m);
      }
    }
  }

  /** One node that reports 0 hides the running transaction of another. */
  lemma ZeroReportHidesOthers()
    ensures var starts := [MinStart("a", 100), MinStart("b", 0)];
            && NewTxn(EMPTY, NULL_KEYSPACE, 500, 0, [MinStart("a", 100)]) == 100
            && NewTxn(EMPTY, NULL_KEYSPACE, 500, 0, starts) == 500
            && !RespectsMinStarts(EMPTY, NULL_KEYSPACE, 500, 0, starts)
  {
    var a, b := MinStart("a", 100), MinStart("b", 0);
    assert [a, b][..1] == [a];
    assert LeastStart([a]) == a;
    assert LeastStart([a, b]) == b;
    assert a in [a, b];
  }

  /** A report whose key has no owner part is not counted. */
  lemma OwnerlessReportIsIgnored()
    ensures NewTxn(EMPTY, NULL_KEYSPACE, 500, 0, [MinStart("", 100)]) == 500
    ensures NewTxn(EMPTY, NULL_KEYSPACE, 500, 0, [MinStart("a", 100)]) == 100
  {
    assert LeastStart([MinStart("", 100)]) == MinStart("", 100);
    assert LeastStart([MinStart("a", 100)]) == MinStart("a", 100);
  }

  // ---------------------------------------------------------------------------
  // A barrier protects its timestamp until it expires or is deleted
  // ---------------------------------------------------------------------------

  /** The operation takes the barrier away: it deletes the id, overwrites it with
      another record, or finds it expired. */
  ghost predicate Removes(d: Data, op: Op, k: nat, b: Barrier) {
    match op
    case DeleteBarrierOp(j, id) => j == k && id == b.id && Body(d, op).Ok?
    case SetBarrierOp(j, id, ts, ttl, now) =>
      j == k && id == b.id && Body(d, op).Ok? && NewBarrier(id, ts, ttl, now) != b
    case AdvanceTxnOp(j, _, now, _) => j == k && Body(d, op).Ok? && !Lasts(b, now)
    case _ => false
  }

  lemma BarrierRemovedIff(d: Data, op: Op, k: nat, b: Barrier)
    requires Consistent(d) && b in Barriers(d, k) && b.id != GC_WORKER
    ensures b !in Barriers(Run(d, op), k) <==> Removes(d, op, k, b)
  {
    assert Ordered(d, k);
    match op
    case AdvanceGcOp(j, target, _) => SingleWrite(d, PutGc(j, target));
    case AdvanceTxnOp(j, target, now, starts) =>
      if Txn(d, j) <= target {
        AdvanceTxnEffect(d, j, target, now, starts);
        KeptMembers(Barriers(d, k), now, NewTxn(d, j, target, now, starts), b);
      }
    case SetBarrierOp(j, id, ts, ttl, now) =>
      SingleWrite(d, PutBarrier(j, NewBarrier(id, ts, ttl, now)));
      PutMembers(Barriers(d, k), NewBarrier(id, ts, ttl, now), b);
    case DeleteBarrierOp(j, id) =>
      SingleWrite(d, DeleteBarrier(j, id));
      WithoutMembers(Barriers(d, k), {id}, b);
    case SetGlobalOp(id, ts, ttl, now, _) => SingleWrite(d, PutGlobal(NewBarrier(id, ts, ttl, now)));
    case DeleteGlobalOp(id) => SingleWrite(d, DeleteGlobal(id));
  }

  /** No operation of the run takes the barrier away. */
  ghost predicate Spares(d: Data, ops: seq<Op>, k: nat, b: Barrier)
    decreases |ops|
  {
    ops == [] ||
    var n := |ops| - 1;
    Spares(d, ops[..n], k, b) && !Removes(Exec(d, ops[..n]), ops[n], k, b)
  }

  /** As long as no operation of the run takes it away, the barrier is stored and the
      data at its timestamp is neither collected nor refused to readers. */
  lemma {:induction false} BarrierProtects(d: Data, ops: seq<Op>, k: nat, b: Barrier)
    requires Consistent(d) && b in Barriers(d, k) && b.id != GC_WORKER
    requires Spares(d, ops, k, b)
    ensures var e := Exec(d, ops);
            b in Barriers(e, k) && Gc(e, k) <= Txn(e, k) <= b.ts
    decreases |ops|
  {
    RunStaysConsistent(d, ops);
    assert Ordered(Exec(d, ops), k);
    if ops != [] {
      var n := |ops| - 1;
      BarrierProtects(d, ops[..n], k, b);
      RunStaysConsistent(d, ops[..n]);
      BarrierRemovedIff(Exec(d, ops[..n]), ops[n], k, b);
    }
  }

  /** The operation names the barrier's id again. */
  predicate Renames(op: Op, k: nat, id: string) {
    (op.DeleteBarrierOp? || op.SetBarrierOp?) && op.k == k && op.id == id
  }

  /** No operation names the id again, and none advances the keyspace's txn safe
      point at a time later than `until`. */
  ghost predicate LeavesAlone(ops: seq<Op>, k: nat, id: string, until: Option<int>) {
    && (forall i :: 0 <= i < |ops| ==> !Renames(ops[i], k, id))
    && (until.Some? ==>
          forall i :: 0 <= i < |ops| && ops[i].AdvanceTxnOp? && ops[i].k == k ==> ops[i].now <= until.value)
  }

  lemma {:induction false} LeftAloneIsSpared(d: Data, ops: seq<Op>, k: nat, b: Barrier)
    requires LeavesAlone(ops, k, b.id, b.expiration)
    ensures Spares(d, ops, k, b)
    decreases |ops|
  {
    if ops != [] {
      var n := |ops| - 1;
      assert forall i :: 0 <= i < n ==> ops[..n][i] == ops[i];
      LeftAloneIsSpared(d, ops[..n], k, b);
    }
  }

  /** Until when a barrier set by `op` is meant to hold. */
  function Until(op: Op): Option<int>
    requires op.SetBarrierOp?
  {
    if op.ttl < INT64_MAX then Some(op.now + op.ttl) else None
  }

  /** A successful `SetGCBarrier` guards its timestamp for at least the whole
      time-to-live, whatever else runs, as long as nobody deletes or resets the id. */
  lemma BarrierHoldsForItsTtl(d: Data, op: Op, ops: seq<Op>)
    requires Consistent(d) && op.SetBarrierOp? && Body(d, op).Ok?
    requires LeavesAlone(ops, op.k, op.id, Until(op))
    ensures var e := Exec(Run(d, op), ops);
            Gc(e, op.k) <= Txn(e, op.k) <= op.ts
  {
    var b := NewBarrier(op.id, op.ts, op.ttl, op.now);
    RoundUpTimeNotEarlier(op.now + op.ttl);
    var d1 := Run(d, op);
    TransactionKeepsConstraints(d, op);
    SingleWrite(d, PutBarrier(op.k, b));
    PutMembers(Barriers(d, op.k), b, b);
    LeftAloneIsSpared(d1, ops, op.k, b);
    BarrierProtects(d1, ops, op.k, b);
  }

  // ---------------------------------------------------------------------------
  // ... and no longer
  // ---------------------------------------------------------------------------

  /** Two states that permit the same limits advance to the same txn safe point. */
  lemma SamePermitsSameAdvance(a: Data, b: Data, k: nat, target: nat, now: int, starts: seq<MinStart>)
    requires Txn(a, k) == Txn(b, k) <= target
    requires forall u: nat :: Permits(a, k, target, now, starts, u) <==> Permits(b, k, target, now, starts, u)
    ensures NewTxn(a, k, target, now, starts) == NewTxn(b, k, target, now, starts)
  {
    ScanBounds(a, k, target, now, starts);
    ScanBounds(b, k, target, now, starts);
    ScanIsGreatest(a, k, target, now, starts, ScanAll(b, k, target, now, starts).min);
    ScanIsGreatest(b, k, target, now, starts, ScanAll(a, k, target, now, starts).min);
  }

  /** An advancement a second after the time-to-live has passed finds the state as if
      the barrier had been deleted, and deletes it: whatever else is stored, the txn
      safe point moves as far as without it. */
  lemma BarrierEndsWithItsTtl(d: Data, op: Op, target: nat, later: int, starts: seq<MinStart>)
    requires Consistent(d) && op.SetBarrierOp? && Body(d, op).Ok? && op.ttl < INT64_MAX
    requires later >= op.now + op.ttl + SECOND && target >= Txn(d, op.k)
    ensures var with := Run(Run(d, op), AdvanceTxnOp(op.k, target, later, starts));
            var without := Run(Run(d, DeleteBarrierOp(op.k, op.id)), AdvanceTxnOp(op.k, target, later, starts));
            && Txn(with, op.k) == Txn(without, op.k)
            && (forall b :: b in Barriers(with, op.k) ==> b.id != op.id)
            && (forall b :: b in Barriers(with, op.k) <==> b in Barriers(without, op.k))
  {
    var k, nb := op.k, NewBarrier(op.id, op.ts, op.ttl, op.now);
    var a, c := Run(d, op), Run(d, DeleteBarrierOp(k, op.id));
    RoundUpTimeNotEarlier(op.now + op.ttl);
    assert !Lasts(nb, later);
    SingleWrite(d, PutBarrier(k, nb));
    SingleWrite(d, DeleteBarrier(k, op.id));
    forall b
      ensures b in Barriers(a, k) && InForce(b, later) <==> b in Barriers(c, k) && InForce(b, later)
      ensures b in Barriers(c, k) ==> b.id != op.id
    {
      PutMembers(Barriers(d, k), nb, b);
      WithoutMembers(Barriers(d, k), {op.id}, b);
    }
    forall u: nat
      ensures Permits(a, k, target, later, starts, u) <==> Permits(c, k, target, later, starts, u)
    {
    }
    SamePermitsSameAdvance(a, c, k, target, later, starts);
    TransactionKeepsConstraints(d, op);
    TransactionKeepsConstraints(d, DeleteBarrierOp(k, op.id));
    KeptAlike(a, c, k, target, later, starts);
  }

  /** Two states that agree on the barriers in force and on the downgrade marker keep
      the same barriers. */
  lemma KeptAlike(a: Data, c: Data, k: nat, target: nat, now: int, starts: seq<MinStart>)
    requires Consistent(a) && Consistent(c) && Txn(a, k) == Txn(c, k) <= target
    requires NewTxn(a, k, target, now, starts) == NewTxn(c, k, target, now, starts)
    requires forall b :: b in Barriers(a, k) && InForce(b, now) <==> b in Barriers(c, k) && InForce(b, now)
    requires forall b: Barrier :: b.id == GC_WORKER ==> (b in Barriers(a, k) <==> b in Barriers(c, k))
    ensures var op := AdvanceTxnOp(k, target, now, starts);
            && Txn(Run(a, op), k) == Txn(Run(c, op), k)
            && (forall b :: b in Barriers(Run(a, op), k) <==> b in Barriers(Run(c, op), k))
            && (forall b :: b in Barriers(Run(c, op), k) ==> b in Barriers(c, k) || b.id == GC_WORKER)
  {
    assert Ordered(a, k) && Ordered(c, k);
    AdvanceTxnEffect(a, k, target, now, starts);
    AdvanceTxnEffect(c, k, target, now, starts);
    HasGcWorkerIff(Barriers(a, k));
    HasGcWorkerIff(Barriers(c, k));
    var t := NewTxn(a, k, target, now, starts);
    forall b
      ensures b in KeptBarriers(Barriers(a, k), now, t) <==> b in KeptBarriers(Barriers(c, k), now, t)
      ensures b in KeptBarriers(Barriers(c, k), now, t) ==> b in Barriers(c, k) || b.id == GC_WORKER
    {
      KeptMembers(Barriers(a, k), now, t, b);
      KeptMembers(Barriers(c, k), now, t, b);
    }
  }

  /** So a barrier alone stops nothing any more: with no other barrier and no report
      in the way the target is reached. */
  lemma NothingElseBlocks(d: Data, op: Op, target: nat, later: int)
    requires Consistent(d) && op.SetBarrierOp? && Body(d, op).Ok? && op.ttl < INT64_MAX
    requires later >= op.now + op.ttl + SECOND && target >= Txn(d, op.k)
    requires forall b :: b in Barriers(d, op.k) && b.id != op.id && InForce(b, later) ==> target <= b.ts
    requires forall b :: b in d.globals && Lasts(b, later) ==> target <= b.ts
    ensures Txn(Run(Run(d, op), AdvanceTxnOp(op.k, target, later, [])), op.k) == target
  {
    var k, c := op.k, Run(d, DeleteBarrierOp(op.k, op.id));
    BarrierEndsWithItsTtl(d, op, target, later, []);
    SingleWrite(d, DeleteBarrier(k, op.id));
    forall b { WithoutMembers(Barriers(d, k), {op.id}, b); }
    UnblockedReaches(c, k, target, later);
  }

  lemma UnblockedReaches(d: Data, k: nat, target: nat, now: int)
    requires target >= Txn(d, k)
    requires forall b :: b in Barriers(d, k) && InForce(b, now) ==> target <= b.ts
    requires forall b :: b in d.globals && Lasts(b, now) ==> target <= b.ts
    ensures Txn(Run(d, AdvanceTxnOp(k, target, now, [])), k) == target
  {
    assert LeastStart([]) == MinStart("", 0);
    assert Permits(d, k, target, now, [], target);
    ScanIsGreatest(d, k, target, now, [], target);
    ScanBounds(d, k, target, now, []);
    AdvanceTxnEffect(d, k, target, now, []);
  }

  // ---------------------------------------------------------------------------
  // Global barriers
  // ---------------------------------------------------------------------------

  ghost predicate GlobalRemoves(d: Data, op: Op, b: Barrier) {
    match op
    case DeleteGlobalOp(id) => id == b.id && Body(d, op).Ok?
    case SetGlobalOp(id, ts, ttl, now, _) => id == b.id && Body(d, op).Ok? && NewBarrier(id, ts, ttl, now) != b
    case AdvanceTxnOp(_, _, now, _) => Body(d, op).Ok? && !Lasts(b, now)
    case _ => false
  }

  lemma GlobalRemovedIff(d: Data, op: Op, b: Barrier)
    requires Consistent(d) && b in d.globals
    ensures b !in Run(d, op).globals <==> GlobalRemoves(d, op, b)
  {
    match op
    case AdvanceGcOp(j, target, _) => SingleWrite(d, PutGc(j, target));
    case AdvanceTxnOp(j, target, now, starts) =>
      if Txn(d, j) <= target {
        AdvanceTxnEffect(d, j, target, now, starts);
        KeptGlobals(d.globals, now, b);
      }
    case SetBarrierOp(j, id, ts, ttl, now) => SingleWrite(d, PutBarrier(j, NewBarrier(id, ts, ttl, now)));
    case DeleteBarrierOp(j, id) => SingleWrite(d, DeleteBarrier(j, id));
    case SetGlobalOp(id, ts, ttl, now, _) =>
      SingleWrite(d, PutGlobal(NewBarrier(id, ts, ttl, now)));
      PutMembers(d.globals, NewBarrier(id, ts, ttl, now), b);
    case DeleteGlobalOp(id) =>
      SingleWrite(d, DeleteGlobal(id));
      WithoutMembers(d.globals, {id}, b);
  }

  /** Only an advancement of the keyspace moves its txn safe point, and it passes no
      global barrier that it leaves in place. */
  lemma TxnMovesBelowGlobals(d: Data, op: Op, k: nat, b: Barrier)
    requires Consistent(d) && b in d.globals && b in Run(d, op).globals
    ensures Txn(Run(d, op), k) <= Max(Txn(d, k), b.ts)
  {
    match op
    case AdvanceGcOp(j, target, _) => SingleWrite(d, PutGc(j, target));
    case AdvanceTxnOp(j, target, now, starts) =>
      if Txn(d, j) <= target {
        AdvanceTxnEffect(d, j, target, now, starts);
        KeptGlobals(d.globals, now, b);
        ScanBounds(d, j, target, now, starts);
      }
    case SetBarrierOp(j, id, ts, ttl, now) => SingleWrite(d, PutBarrier(j, NewBarrier(id, ts, ttl, now)));
    case DeleteBarrierOp(j, id) => SingleWrite(d, DeleteBarrier(j, id));
    case SetGlobalOp(id, ts, ttl, now, _) => SingleWrite(d, PutGlobal(NewBarrier(id, ts, ttl, now)));
    case DeleteGlobalOp(id) => SingleWrite(d, DeleteGlobal(id));
  }

  ghost predicate SparesGlobal(d: Data, ops: seq<Op>, b: Barrier)
    decreases |ops|
  {
    ops == [] ||
    var n := |ops| - 1;
    SparesGlobal(d, ops[..n], b) && !GlobalRemoves(Exec(d, ops[..n]), ops[n], b)
  }

  /** A global barrier protects its timestamp in exactly the keyspaces that have not
      passed it when it is set: there it holds until it is taken away, and in the
      others the safe point stays where it is. */
  lemma {:induction false} GlobalBarrierProtects(d: Data, ops: seq<Op>, k: nat, b: Barrier)
    requires Consistent(d) && b in d.globals
    requires SparesGlobal(d, ops, b)
    ensures var e := Exec(d, ops);
            && b in e.globals
            && Gc(e, k) <= Txn(e, k) <= Max(Txn(d, k), b.ts)
            && (Txn(e, k) <= b.ts <==> Txn(d, k) <= b.ts)
            && (Txn(d, k) > b.ts ==> Txn(e, k) == Txn(d, k))
    decreases |ops|
  {
    RunStaysConsistent(d, ops);
    assert Ordered(Exec(d, ops), k) && NotLower(d, Exec(d, ops), k);
    if ops != [] {
      var n := |ops| - 1;
      GlobalBarrierProtects(d, ops[..n], k, b);
      RunStaysConsistent(d, ops[..n]);
      GlobalRemovedIff(Exec(d, ops[..n]), ops[n], b);
      TxnMovesBelowGlobals(Exec(d, ops[..n]), ops[n], k, b);
    }
  }

  /** A global barrier, too, ends with its time-to-live: a second later an
      advancement of any keyspace moves as if it had been deleted, and deletes it. */
  lemma GlobalBarrierEndsWithItsTtl(d: Data, op: Op, k: nat, target: nat, later: int, starts: seq<MinStart>)
    requires Consistent(d) && op.SetGlobalOp? && Body(d, op).Ok? && op.ttl < INT64_MAX
    requires later >= op.now + op.ttl + SECOND && target >= Txn(d, k)
    ensures var with := Run(Run(d, op), AdvanceTxnOp(k, target, later, starts));
            var without := Run(Run(d, DeleteGlobalOp(op.id)), AdvanceTxnOp(k, target, later, starts));
            && Txn(with, k) == Txn(without, k)
            && (forall b :: b in with.globals ==> b.id != op.id)
            && (forall b :: b in with.globals <==> b in without.globals)
  {
    var nb := NewBarrier(op.id, op.ts, op.ttl, op.now);
    var a, c := Run(d, op), Run(d, DeleteGlobalOp(op.id));
    RoundUpTimeNotEarlier(op.now + op.ttl);
    assert !Lasts(nb, later);
    SingleWrite(d, PutGlobal(nb));
    SingleWrite(d, DeleteGlobal(op.id));
    TransactionKeepsConstraints(d, op);
    TransactionKeepsConstraints(d, DeleteGlobalOp(op.id));
    forall b
      ensures b in a.globals && Lasts(b, later) <==> b in c.globals && Lasts(b, later)
      ensures b in c.globals ==> b.id != op.id
    {
      PutMembers(d.globals, nb, b);
      WithoutMembers(d.globals, {op.id}, b);
    }
    assert Barriers(a, k) == Barriers(d, k) == Barriers(c, k);
    forall u: nat
      ensures Permits(a, k, target, later, starts, u) <==> Permits(c, k, target, later, starts, u)
    {
    }
    SamePermitsSameAdvance(a, c, k, target, later, starts);
    AdvanceTxnEffect(a, k, target, later, starts);
    AdvanceTxnEffect(c, k, target, later, starts);
    forall b
      ensures b in Without(a.globals, ExpiredIds(a.globals, later, None)) <==>
              b in Without(c.globals, ExpiredIds(c.globals, later, None))
      ensures b in Without(c.globals, ExpiredIds(c.globals, later, None)) ==> b in c.globals
    {
      KeptGlobals(a.globals, later, b);
      KeptGlobals(c.globals, later, b);
    }
  }

  lemma {:induction false} MaxTxnIsMax(d: Data, ks: seq<nat>, ts: nat)
    ensures MaxTxn(d, ks) <= ts <==> forall k :: k in ks ==> Txn(d, k) <= ts
  {
    if ks != [] {
      var n := |ks| - 1;
      MaxTxnIsMax(d, ks[..n], ts);
      assert forall k :: k in ks <==> k in ks[..n] || k == ks[n];
    }
  }

  /** No keyspace is past a global barrier. */
  ghost predicate GlobalsRespected(d: Data) {
    forall k, b :: b in d.globals ==> Txn(d, k) <= b.ts
  }

  /** `SetGlobalGCBarrier` compares with the enabled keyspaces only.  What it promises,
      a barrier that no keyspace has passed, comes true exactly when the keyspaces it
      did not look at have not passed it either. */
  lemma SetGlobalRespectedIff(d: Data, op: Op)
    requires Consistent(d) && GlobalsRespected(d)
    requires op.SetGlobalOp? && Body(d, op).Ok?
    ensures GlobalsRespected(Run(d, op)) <==>
            forall k :: k !in op.enabled && k != NULL_KEYSPACE ==> Txn(d, k) <= op.ts
  {
    var e, nb := Run(d, op), NewBarrier(op.id, op.ts, op.ttl, op.now);
    SingleWrite(d, PutGlobal(nb));
    assert e.txn == d.txn;
    MaxTxnIsMax(d, op.enabled, op.ts);
    PutMembers(d.globals, nb, nb);
    forall b { PutMembers(d.globals, nb, b); }
    if forall k :: k !in op.enabled && k != NULL_KEYSPACE ==> Txn(d, k) <= op.ts {
      forall k, b | b in e.globals
        ensures Txn(e, k) <= b.ts
      {
        assert Txn(e, k) == Txn(d, k);
      }
    }
    if GlobalsRespected(e) {
      forall k | k !in op.enabled && k != NULL_KEYSPACE
        ensures Txn(d, k) <= op.ts
      {
        assert Txn(e, k) <= nb.ts;
      }
    }
  }

  /** A disabled keyspace already past the new barrier goes unnoticed. */
  lemma DisabledKeyspaceGoesUnnoticed()
    ensures var d := Run(EMPTY, AdvanceTxnOp(7, 500, 0, []));
            var op := SetGlobalOp("backup", 100, SECOND, 0, []);
            && Consistent(d) && GlobalsRespected(d)
            && Body(d, op).Ok? && !GlobalsRespected(Run(d, op))
  {
    var d := Run(EMPTY, AdvanceTxnOp(7, 500, 0, []));
    assert Consistent(EMPTY);
    TransactionKeepsConstraints(EMPTY, AdvanceTxnOp(7, 500, 0, []));
    AdvanceTxnEffect(EMPTY, 7, 500, 0, []);
    assert ScanBarriers([], 0, 500).min == 500;
    assert Txn(d, 7) == 500 && d.globals == [];
    var op := SetGlobalOp("backup", 100, SECOND, 0, []);
    assert Txn(d, NULL_KEYSPACE) == 0;
    SetGlobalRespectedIff(d, op);
  }

  /** The operation, if it sets a global barrier, has looked at every keyspace whose
      txn safe point ever moved. */
  ghost predicate Thorough(d: Data, op: Op) {
    op.SetGlobalOp? ==> forall k :: k in d.txn && k != NULL_KEYSPACE ==> k in op.enabled
  }

  lemma StepRespectsGlobals(d: Data, op: Op)
    requires Consistent(d) && GlobalsRespected(d) && Thorough(d, op)
    ensures GlobalsRespected(Run(d, op))
  {
    if op.SetGlobalOp? {
      if Body(d, op).Ok? { SetGlobalRespectedIff(d, op); }
    } else {
      var e := Run(d, op);
      forall k, b | b in e.globals
        ensures Txn(e, k) <= b.ts
      {
        GlobalsOnlyShrink(d, op, b);
        TxnMovesBelowGlobals(d, op, k, b);
        assert Txn(d, k) <= b.ts;
      }
    }
  }

  lemma GlobalsOnlyShrink(d: Data, op: Op, b: Barrier)
    requires Consistent(d) && !op.SetGlobalOp? && b in Run(d, op).globals
    ensures b in d.globals
  {
    match op
    case AdvanceGcOp(j, target, _) => SingleWrite(d, PutGc(j, target));
    case AdvanceTxnOp(j, target, now, starts) =>
      if Txn(d, j) <= target {
        AdvanceTxnEffect(d, j, target, now, starts);
        KeptGlobals(d.globals, now, b);
      }
    case SetBarrierOp(j, id, ts, ttl, now) => SingleWrite(d, PutBarrier(j, NewBarrier(id, ts, ttl, now)));
    case DeleteBarrierOp(j, id) => SingleWrite(d, DeleteBarrier(j, id));
    case DeleteGlobalOp(id) =>
      SingleWrite(d, DeleteGlobal(id));
      WithoutMembers(d.globals, {id}, b);
  }

  ghost predicate AlwaysThorough(d: Data, ops: seq<Op>)
    decreases |ops|
  {
    ops == [] ||
    var n := |ops| - 1;
    AlwaysThorough(d, ops[..n]) && Thorough(Exec(d, ops[..n]), ops[n])
  }

  /** In a cluster whose keyspaces are never disabled, no safe point ever passes a
      global barrier. */
  lemma {:induction false} RunsRespectGlobals(d: Data, ops: seq<Op>)
    requires Consistent(d) && GlobalsRespected(d)
    requires AlwaysThorough(d, ops)
    ensures GlobalsRespected(Exec(d, ops))
    decreases |ops|
  {
    if ops != [] {
      var n := |ops| - 1;
      RunsRespectGlobals(d, ops[..n]);
      RunStaysConsistent(d, ops[..n]);
      StepRespectsGlobals(Exec(d, ops[..n]), ops[n]);
    }
  }
}
