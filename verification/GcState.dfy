/** The GC state manager's transactions (pd/pkg/gc/gc_state_manager.go): each one
    loads parts of the stored GC state, decides, and collects its writes in a
    batch.  Timestamps are naturals, points in time are nanoseconds, and what a
    transaction learns from outside the GC state (which keyspaces are enabled, the
    start timestamps that old TiDB nodes report) comes with the operation. */
module GcState {

  import opened Arithmetic
  import opened GcDuration
  import opened Keyspaces
  import opened Wrappers

  const GC_WORKER := "gc_worker"

  /** A stored barrier; no expiration means that it never expires. */
  datatype Barrier = Barrier(id: string, ts: nat, expiration: Option<int>)

  predicate Expired(b: Barrier, now: int) { b.expiration.Some? && now > b.expiration.value }

  /** A start timestamp that a TiDB node wrote, and what remains of its key. */
  datatype MinStart = MinStart(owner: string, ts: nat)

  /** The stored GC state; a missing safe point reads as 0. */
  datatype Data = Data(
    txn: map<nat, nat>,
    gc: map<nat, nat>,
    barriers: map<nat, seq<Barrier>>,
    globals: seq<Barrier>)

  const EMPTY := Data(map[], map[], map[], [])

  function Txn(d: Data, k: nat): nat { if k in d.txn then d.txn[k] else 0 }

  function Gc(d: Data, k: nat): nat { if k in d.gc then d.gc[k] else 0 }

  function Barriers(d: Data, k: nat): seq<Barrier> { if k in d.barriers then d.barriers[k] else [] }

  datatype Error =
    | DecreasingGCSafePoint
    | GCSafePointExceedsTxnSafePoint
    | DecreasingTxnSafePoint
    | ReservedBarrierID
    | InvalidArgument
    | BarrierBehindTxnSafePoint
    | GlobalBarrierBehindTxnSafePoint
    | KeyspaceNotFound
    | GCOnInvalidKeyspace

  datatype Result<+T> = Ok(value: T) | Err(error: Error)

  // ---------------------------------------------------------------------------
  // The write batch
  // ---------------------------------------------------------------------------

  datatype Write =
    | PutTxn(k: nat, ts: nat)
    | PutGc(k: nat, ts: nat)
    | PutBarrier(k: nat, b: Barrier)
    | DeleteBarrier(k: nat, id: string)
    | PutGlobal(b: Barrier)
    | DeleteGlobal(id: string)

  function Without(bs: seq<Barrier>, ids: set<string>): seq<Barrier> {
    if bs == [] then []
    else
      var rest := Without(bs[1..], ids);
      if bs[0].id in ids then rest else [bs[0]] + rest
  }

  /** One record per id. */
  function Put(bs: seq<Barrier>, b: Barrier): seq<Barrier> { Without(bs, {b.id}) + [b] }

  function ApplyWrite(d: Data, w: Write): Data {
    match w
    case PutTxn(k, ts) => d.(txn := d.txn[k := ts])
    case PutGc(k, ts) => d.(gc := d.gc[k := ts])
    case PutBarrier(k, b) => d.(barriers := d.barriers[k := Put(Barriers(d, k), b)])
    case DeleteBarrier(k, id) => d.(barriers := d.barriers[k := Without(Barriers(d, k), {id})])
    case PutGlobal(b) => d.(globals := Put(d.globals, b))
    case DeleteGlobal(id) => d.(globals := Without(d.globals, {id}))
  }

  function ApplyWrites(d: Data, ws: seq<Write>): Data
    decreases |ws|
  {
    if ws == [] then d else ApplyWrites(ApplyWrite(d, ws[0]), ws[1..])
  }

  // ---------------------------------------------------------------------------
  // Finding the blocker
  // ---------------------------------------------------------------------------

  /** The smallest blocking timestamp so far, and who set it last. */
  datatype Scan = Scan(
    min: nat,
    barrier: Option<Barrier>,
    minStartOwner: Option<string>,
    global: Option<Barrier>)

  function ScanBarriers(bs: seq<Barrier>, now: int, target: nat): Scan {
    if bs == [] then Scan(target, None, None, None)
    else
      var s := ScanBarriers(bs[..|bs| - 1], now, target);
      var b := bs[|bs| - 1];
      if b.id != GC_WORKER && !Expired(b, now) && b.ts < s.min then s.(min := b.ts, barrier := Some(b)) else s
  }

  /** The first of the smallest reported start timestamps; ("", 0) if there is none. */
  function LeastStart(starts: seq<MinStart>): MinStart {
    if starts == [] then MinStart("", 0)
    else
      var n := |starts| - 1;
      var m := LeastStart(starts[..n]);
      if n == 0 || starts[n].ts < m.ts then starts[n] else m
  }

  function ScanMinStart(s: Scan, starts: seq<MinStart>): Scan {
    var m := LeastStart(starts);
    if m.ts != 0 && m.owner != "" && m.ts < s.min
    then s.(min := m.ts, barrier := None, minStartOwner := Some(m.owner))
    else s
  }

  function ScanGlobals(s: Scan, bs: seq<Barrier>, now: int): Scan
    decreases |bs|
  {
    if bs == [] then s
    else
      var t := ScanGlobals(s, bs[..|bs| - 1], now);
      var b := bs[|bs| - 1];
      if !Expired(b, now) && b.ts < t.min then t.(min := b.ts, global := Some(b)) else t
  }

  function ScanAll(d: Data, k: nat, target: nat, now: int, starts: seq<MinStart>): Scan {
    ScanGlobals(ScanMinStart(ScanBarriers(Barriers(d, k), now, target), starts), d.globals, now)
  }

  predicate HasGcWorker(bs: seq<Barrier>) {
    bs != [] && (HasGcWorker(bs[..|bs| - 1]) || bs[|bs| - 1].id == GC_WORKER)
  }

  /** The lazy deletions of expired barriers. */
  function ExpiredDeletes(k: nat, bs: seq<Barrier>, now: int): seq<Write> {
    if bs == [] then []
    else
      var b := bs[|bs| - 1];
      ExpiredDeletes(k, bs[..|bs| - 1], now) +
      if b.id != GC_WORKER && Expired(b, now) then [DeleteBarrier(k, b.id)] else []
  }

  function ExpiredGlobalDeletes(bs: seq<Barrier>, now: int): seq<Write> {
    if bs == [] then []
    else
      var b := bs[|bs| - 1];
      ExpiredGlobalDeletes(bs[..|bs| - 1], now) + if Expired(b, now) then [DeleteGlobal(b.id)] else []
  }

  // ---------------------------------------------------------------------------
  // The transactions
  // ---------------------------------------------------------------------------

  datatype Op =
    | AdvanceGcOp(k: nat, target: nat, compatible: bool)
    | AdvanceTxnOp(k: nat, target: nat, now: int, starts: seq<MinStart>)
    | SetBarrierOp(k: nat, id: string, ts: nat, ttl: int, now: int)
    | DeleteBarrierOp(k: nat, id: string)
    | SetGlobalOp(id: string, ts: nat, ttl: int, now: int, enabled: seq<nat>)
    | DeleteGlobalOp(id: string)

  /** `NewGCBarrier` rounds the expiration up to a whole second. */
  function RoundUpTime(t: int): int { (t + SECOND - 1) / SECOND * SECOND }

  lemma RoundUpTimeNotEarlier(t: int)
    ensures t <= RoundUpTime(t) < t + SECOND && RoundUpTime(t) % SECOND == 0
  {
    var n := t + SECOND - 1;
    assert n == n / SECOND * SECOND + n % SECOND;
  }

  /** The barrier that a request with this time-to-live creates; the longest duration
      stands for no expiration. */
  function NewBarrier(id: string, ts: nat, ttl: int, now: int): Barrier {
    Barrier(id, ts, if ttl < INT64_MAX then Some(RoundUpTime(now + ttl)) else None)
  }

  function MaxTxn(d: Data, ks: seq<nat>): nat {
    if ks == [] then 0
    else
      var m := MaxTxn(d, ks[..|ks| - 1]);
      var t := Txn(d, ks[|ks| - 1]);
      if t > m then t else m
  }

  function NewTxn(d: Data, k: nat, target: nat, now: int, starts: seq<MinStart>): nat {
    Max(Txn(d, k), ScanAll(d, k, target, now, starts).min)
  }

  /** What a transaction writes, from the state it reads. */
  function Body(d: Data, op: Op): Result<seq<Write>> {
    match op
    case AdvanceGcOp(k, target, compatible) =>
      if target < Gc(d, k) then (if compatible then Ok([]) else Err(DecreasingGCSafePoint))
      else if target > Txn(d, k) then Err(GCSafePointExceedsTxnSafePoint)
      else Ok([PutGc(k, target)])
    case AdvanceTxnOp(k, target, now, starts) =>
      if target < Txn(d, k) then Err(DecreasingTxnSafePoint)
      else
        var t := NewTxn(d, k, target, now, starts);
        Ok(ExpiredDeletes(k, Barriers(d, k), now) + ExpiredGlobalDeletes(d.globals, now)
           + (if HasGcWorker(Barriers(d, k)) then [PutBarrier(k, Barrier(GC_WORKER, t, None))] else [])
           + [PutTxn(k, t)])
    case SetBarrierOp(k, id, ts, ttl, now) =>
      if ttl <= 0 then Err(InvalidArgument)
      else if id == GC_WORKER then Err(ReservedBarrierID)
      else if id == "" then Err(InvalidArgument)
      else if ts < Txn(d, k) then Err(BarrierBehindTxnSafePoint)
      else Ok([PutBarrier(k, NewBarrier(id, ts, ttl, now))])
    case DeleteBarrierOp(k, id) =>
      if id == GC_WORKER then Err(ReservedBarrierID)
      else if id == "" then Err(InvalidArgument)
      else Ok([DeleteBarrier(k, id)])
    case SetGlobalOp(id, ts, ttl, now, enabled) =>
      if ttl <= 0 || id == "" then Err(InvalidArgument)
      else if ts < Max(MaxTxn(d, enabled), Txn(d, NULL_KEYSPACE)) then Err(GlobalBarrierBehindTxnSafePoint)
      else Ok([PutGlobal(NewBarrier(id, ts, ttl, now))])
    case DeleteGlobalOp(id) =>
      if id == "" then Err(InvalidArgument) else Ok([DeleteGlobal(id)])
  }

  /** The transaction as one atomic step; an error leaves the state alone. */
  function Run(d: Data, op: Op): Data {
    match Body(d, op)
    case Ok(ws) => ApplyWrites(d, ws)
    case Err(_) => d
  }

  function Exec(d: Data, ops: seq<Op>): Data
    decreases |ops|
  {
    if ops == [] then d else Run(Exec(d, ops[..|ops| - 1]), ops[|ops| - 1])
  }

  // ---------------------------------------------------------------------------
  // What the batches do
  // ---------------------------------------------------------------------------

  lemma {:induction false} WithoutMembers(bs: seq<Barrier>, ids: set<string>, b: Barrier)
    ensures b in Without(bs, ids) <==> b in bs && b.id !in ids
  {
    if bs != [] {
      WithoutMembers(bs[1..], ids, b);
      assert b in bs <==> b == bs[0] || b in bs[1..];
    }
  }

  lemma {:induction false} WithoutTwice(bs: seq<Barrier>, a: set<string>, c: set<string>)
    ensures Without(Without(bs, a), c) == Without(bs, a + c)
  {
    if bs != [] {
      WithoutTwice(bs[1..], a, c);
      if bs[0].id !in a {
        assert Without(bs, a)[1..] == Without(bs[1..], a);
      }
    }
  }

  lemma {:induction false} WithoutNothing(bs: seq<Barrier>)
    ensures Without(bs, {}) == bs
  {
    if bs != [] { WithoutNothing(bs[1..]); }
  }

  lemma {:induction false} ApplyWritesThen(d: Data, a: seq<Write>, b: seq<Write>)
    ensures ApplyWrites(d, a + b) == ApplyWrites(ApplyWrites(d, a), b)
    decreases |a|
  {
    if a == [] {
      assert a + b == b;
    } else {
      assert (a + b)[1..] == a[1..] + b;
      ApplyWritesThen(ApplyWrite(d, a[0]), a[1..], b);
    }
  }

  lemma ApplyWritesAppend(d: Data, ws: seq<Write>, w: Write)
    ensures ApplyWrites(d, ws + [w]) == ApplyWrite(ApplyWrites(d, ws), w)
  {
    ApplyWritesThen(d, ws, [w]);
    var e := ApplyWrites(d, ws);
    assert ApplyWrites(e, [w]) == ApplyWrites(ApplyWrite(e, w), [w][1..]);
  }

  /** The ids of the expired among `bs`, except the reserved one. */
  ghost function ExpiredIds(bs: seq<Barrier>, now: int, reserved: Option<string>): set<string> {
    set b | b in bs && Some(b.id) != reserved && Expired(b, now) :: b.id
  }

  lemma ExpiredIdsAppend(bs: seq<Barrier>, b: Barrier, now: int, reserved: Option<string>)
    ensures ExpiredIds(bs + [b], now, reserved) ==
            ExpiredIds(bs, now, reserved) + if Some(b.id) != reserved && Expired(b, now) then {b.id} else {}
  {
  }

  /** The two states differ at most in the barriers of `k`. */
  ghost predicate SameButBarriers(d: Data, e: Data, k: nat) {
    && e.txn == d.txn && e.gc == d.gc && e.globals == d.globals
    && forall j :: j != k ==> Barriers(e, j) == Barriers(d, j)
  }

  lemma {:induction false} ExpiredDeletesEffect(d: Data, k: nat, bs: seq<Barrier>, now: int)
    ensures var e := ApplyWrites(d, ExpiredDeletes(k, bs, now));
            && SameButBarriers(d, e, k)
            && Barriers(e, k) == Without(Barriers(d, k), ExpiredIds(bs, now, Some(GC_WORKER)))
  {
    if bs == [] {
      WithoutNothing(Barriers(d, k));
      assert ExpiredIds([], now, Some(GC_WORKER)) == {};
    } else {
      var front, b := bs[..|bs| - 1], bs[|bs| - 1];
      ExpiredDeletesEffect(d, k, front, now);
      assert bs == front + [b];
      ExpiredIdsAppend(front, b, now, Some(GC_WORKER));
      var ws := ExpiredDeletes(k, front, now);
      var ids := ExpiredIds(front, now, Some(GC_WORKER));
      if b.id != GC_WORKER && Expired(b, now) {
        ApplyWritesAppend(d, ws, DeleteBarrier(k, b.id));
        WithoutTwice(Barriers(d, k), ids, {b.id});
      } else {
        assert ws + [] == ws;
        assert ids + {} == ids;
      }
    }
  }

  lemma {:induction false} ExpiredGlobalDeletesEffect(d: Data, bs: seq<Barrier>, now: int)
    ensures ApplyWrites(d, ExpiredGlobalDeletes(bs, now)) ==
            d.(globals := Without(d.globals, ExpiredIds(bs, now, None)))
  {
    if bs == [] {
      WithoutNothing(d.globals);
      assert ExpiredIds([], now, None) == {};
    } else {
      var front, b := bs[..|bs| - 1], bs[|bs| - 1];
      ExpiredGlobalDeletesEffect(d, front, now);
      assert bs == front + [b];
      ExpiredIdsAppend(front, b, now, None);
      var ws := ExpiredGlobalDeletes(front, now);
      var ids := ExpiredIds(front, now, None);
      if Expired(b, now) {
        ApplyWritesAppend(d, ws, DeleteGlobal(b.id));
        WithoutTwice(d.globals, ids, {b.id});
      } else {
        assert ws + [] == ws;
        assert ids + {} == ids;
      }
    }
  }
}
