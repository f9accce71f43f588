/** Optimistic transactions over the GC state (`RunInGCStateTransaction`,
    pd/pkg/storage/endpoint/gc_states.go): several PD servers, each believing to be the
    leader, load the revision, load what they need one item at a time, and commit
    their write batch only if the revision is still the same. */
module GcTransactions {

  import opened Arithmetic
  import opened GcDuration
  import opened GcState
  import opened GcStateSafety
  import opened Keyspaces
  import opened Wrappers

  /** What one load returns. */
  datatype Item = TxnItem(k: nat) | GcItem(k: nat) | BarriersItem(k: nat) | GlobalsItem

  /** `view` after loading an item from `d`. */
  function Load(view: Data, d: Data, item: Item): Data {
    match item
    case TxnItem(k) => view.(txn := view.txn[k := Txn(d, k)])
    case GcItem(k) => view.(gc := view.gc[k := Gc(d, k)])
    case BarriersItem(k) => view.(barriers := view.barriers[k := Barriers(d, k)])
    case GlobalsItem => view.(globals := d.globals)
  }

  predicate SameItem(a: Data, b: Data, item: Item) {
    match item
    case TxnItem(k) => Txn(a, k) == Txn(b, k)
    case GcItem(k) => Gc(a, k) == Gc(b, k)
    case BarriersItem(k) => Barriers(a, k) == Barriers(b, k)
    case GlobalsItem => a.globals == b.globals
  }

  /** What a transaction loads before it decides what to write. */
  function Footprint(op: Op): set<Item> {
    match op
    case AdvanceGcOp(k, _, _) => {GcItem(k), TxnItem(k)}
    case AdvanceTxnOp(k, _, _, _) => {TxnItem(k), BarriersItem(k), GlobalsItem}
    case SetBarrierOp(k, _, _, _, _) => {TxnItem(k)}
    case DeleteBarrierOp(k, _) => {BarriersItem(k)}
    case SetGlobalOp(_, _, _, _, enabled) => {TxnItem(NULL_KEYSPACE)} + set k | k in enabled :: TxnItem(k)
    case DeleteGlobalOp(_) => {GlobalsItem}
  }

  /** A server's transaction: one that may write, one that only reads, and a read
      that has committed. */
  datatype Session =
    | Idle
    | Running(op: Op, revision: nat, view: Data, loaded: set<Item>)
    | Reading(revision: nat, view: Data, loaded: set<Item>)
    | Answered(revision: nat, view: Data, loaded: set<Item>)

  /** The stored state with its revision key (0 if absent), the servers, and the
      transactions that wrote, in commit order. */
  datatype System = System(data: Data, revision: nat, sessions: map<nat, Session>, committed: seq<Op>)

  datatype Step =
    | Begin(p: nat, op: Op)
    | BeginRead(p: nat)
    | LoadStep(p: nat, item: Item)
    | Finish(p: nat)
    | Stop(p: nat)

  function Of(s: System, p: nat): Session { if p in s.sessions then s.sessions[p] else Idle }

  function With(s: System, p: nat, x: Session): System { s.(sessions := s.sessions[p := x]) }

  /** The comparison and the writes are one etcd transaction. */
  function Commit(s: System, p: nat, x: Session): System
    requires x.Running?
  {
    var t := With(s, p, Idle);
    match Body(x.view, x.op)
    case Err(_) => t
    case Ok(ws) =>
      if x.revision != s.revision || ws == [] then t
      else t.(data := ApplyWrites(s.data, ws), revision := s.revision + 1, committed := s.committed + [x.op])
  }

  /** A read commits an empty batch under the same comparison; it changes nothing. */
  function CommitRead(s: System, p: nat, x: Session): System
    requires x.Reading?
  {
    With(s, p, if x.revision == s.revision then Answered(x.revision, x.view, x.loaded) else Idle)
  }

  function Loaded(s: System, x: Session, item: Item): Session {
    match x
    case Running(op, revision, view, loaded) => Running(op, revision, Load(view, s.data, item), loaded + {item})
    case Reading(revision, view, loaded) => Reading(revision, Load(view, s.data, item), loaded + {item})
    case _ => x
  }

  /** Loads happen in any order and at any time; a step that does not apply changes nothing. */
  function Apply(s: System, e: Step): System {
    var x := Of(s, e.p);
    match e
    case Begin(p, op) => if x.Idle? then With(s, p, Running(op, s.revision, EMPTY, {})) else s
    case BeginRead(p) => if x.Idle? then With(s, p, Reading(s.revision, EMPTY, {})) else s
    case LoadStep(p, item) => With(s, p, Loaded(s, x, item))
    case Finish(p) =>
      if x.Running? && Footprint(x.op) <= x.loaded then Commit(s, p, x)
      else if x.Reading? then CommitRead(s, p, x)
      else s
    case Stop(p) => With(s, p, Idle)
  }

  function Steps(s: System, run: seq<Step>): System
    decreases |run|
  {
    if run == [] then s else Apply(Steps(s, run[..|run| - 1]), run[|run| - 1])
  }

  function Start(d: Data): System { System(d, 0, map[], []) }

  // ---------------------------------------------------------------------------
  // A decision depends on the loaded items only
  // ---------------------------------------------------------------------------

  lemma {:induction false} MaxTxnSame(a: Data, b: Data, ks: seq<nat>)
    requires forall k :: k in ks ==> Txn(a, k) == Txn(b, k)
    ensures MaxTxn(a, ks) == MaxTxn(b, ks)
  {
    if ks != [] { MaxTxnSame(a, b, ks[..|ks| - 1]); }
  }

  lemma BodyDependsOnFootprint(a: Data, b: Data, op: Op)
    requires forall item :: item in Footprint(op) ==> SameItem(a, b, item)
    ensures Body(a, op) == Body(b, op)
  {
    match op
    case AdvanceGcOp(k, _, _) =>
      assert SameItem(a, b, GcItem(k)) && SameItem(a, b, TxnItem(k));
    case AdvanceTxnOp(k, _, _, _) =>
      assert SameItem(a, b, TxnItem(k)) && SameItem(a, b, BarriersItem(k)) && SameItem(a, b, GlobalsItem);
    case SetBarrierOp(k, _, _, _, _) =>
      assert SameItem(a, b, TxnItem(k));
    case DeleteBarrierOp(_, _) =>
    case SetGlobalOp(_, _, _, _, enabled) =>
      assert SameItem(a, b, TxnItem(NULL_KEYSPACE));
      forall k | k in enabled
        ensures Txn(a, k) == Txn(b, k)
      {
        assert TxnItem(k) in Footprint(op);
        assert SameItem(a, b, TxnItem(k));
      }
      MaxTxnSame(a, b, enabled);
    case DeleteGlobalOp(_) =>
  }

  // ---------------------------------------------------------------------------
  // Serializability
  // ---------------------------------------------------------------------------

  /** All loaded items are as stored in `d`. */
  ghost predicate Shows(x: Session, d: Data)
    requires !x.Idle?
  {
    forall item :: item in x.loaded ==> SameItem(x.view, d, item)
  }

  /** As long as the revision a session started from is the current one, everything
      the session has loaded is what is stored now. */
  ghost predicate Fresh(s: System, x: Session) {
    x.Running? || x.Reading? ==> x.revision <= s.revision && (x.revision == s.revision ==> Shows(x, s.data))
  }

  /** A committed read shows the state after as many commits as its revision. */
  ghost predicate Truthful(d: Data, s: System, x: Session) {
    x.Answered? ==> x.revision <= |s.committed| && Shows(x, Exec(d, s.committed[..x.revision]))
  }

  /** Every transaction of the list succeeds when its turn comes. */
  ghost predicate AllSucceed(d: Data, ops: seq<Op>) {
    forall i :: 0 <= i < |ops| ==> Body(Exec(d, ops[..i]), ops[i]).Ok?
  }

  ghost predicate Sound(d: Data, s: System) {
    && (forall p :: p in s.sessions ==> Fresh(s, s.sessions[p]) && Truthful(d, s, s.sessions[p]))
    && s.data == Exec(d, s.committed)
    && s.revision == |s.committed|
    && AllSucceed(d, s.committed)
  }

  lemma LoadKeepsFresh(s: System, x: Session, item: Item)
    requires Fresh(s, x)
    ensures Fresh(s, Loaded(s, x, item))
  {
    var y := Loaded(s, x, item);
    if (x.Running? || x.Reading?) && x.revision == s.revision {
      forall other | other in y.loaded
        ensures SameItem(y.view, s.data, other)
      {
        assert other != item ==> SameItem(x.view, s.data, other);
      }
    }
  }

  /** The heart of the protocol: what commits is exactly what the transaction would
      have written had it run alone, at once, on the state it commits to. */
  lemma CommitIsAtomic(s: System, p: nat, x: Session)
    requires x.Running? && Fresh(s, x) && Footprint(x.op) <= x.loaded
    ensures var t := Commit(s, p, x);
            && (t.committed != s.committed ==> t.committed == s.committed + [x.op] && Body(s.data, x.op).Ok?)
            && (x.revision == s.revision ==> t.data == Run(s.data, x.op))
            && (x.revision != s.revision ==> t.data == s.data && t.committed == s.committed)
  {
    if x.revision == s.revision {
      BodyDependsOnFootprint(x.view, s.data, x.op);
    }
  }

  /** What one more commit does to the history. */
  lemma HistoryGrows(d: Data, ops: seq<Op>, op: Op)
    requires AllSucceed(d, ops) && Body(Exec(d, ops), op).Ok?
    ensures AllSucceed(d, ops + [op]) && Exec(d, ops + [op]) == Run(Exec(d, ops), op)
  {
    var more := ops + [op];
    assert more[..|ops|] == ops;
    forall i | 0 <= i < |more|
      ensures Body(Exec(d, more[..i]), more[i]).Ok?
    {
      assert i < |ops| ==> more[..i] == ops[..i];
    }
  }

  lemma SessionsSurvive(d: Data, s: System, t: System, x: Session)
    requires Fresh(s, x) && Truthful(d, s, x) && s.revision == |s.committed|
    requires s.committed <= t.committed && s.revision <= t.revision
    requires t.revision == s.revision ==> t.data == s.data
    ensures Fresh(t, x) && Truthful(d, t, x)
  {
    if x.Answered? {
      assert t.committed[..x.revision] == s.committed[..x.revision];
    }
  }

  lemma CommitKeepsSound(d: Data, s: System, p: nat, x: Session)
    requires Sound(d, s) && x.Running? && Fresh(s, x) && Footprint(x.op) <= x.loaded
    ensures Sound(d, Commit(s, p, x))
  {
    var t := Commit(s, p, x);
    CommitIsAtomic(s, p, x);
    if t.committed != s.committed {
      HistoryGrows(d, s.committed, x.op);
    }
    forall q | q in t.sessions
      ensures Fresh(t, t.sessions[q]) && Truthful(d, t, t.sessions[q])
    {
      if q != p { SessionsSurvive(d, s, t, s.sessions[q]); }
    }
  }

  /** A step that only replaces one session. */
  lemma ReplacementKeepsSound(d: Data, s: System, p: nat, y: Session)
    requires Sound(d, s) && Fresh(s, y) && Truthful(d, s, y)
    ensures Sound(d, With(s, p, y))
  {
    var t := With(s, p, y);
    forall q | q in t.sessions
      ensures Fresh(t, t.sessions[q]) && Truthful(d, t, t.sessions[q])
    {
      if q != p { assert Fresh(s, s.sessions[q]) && Truthful(d, s, s.sessions[q]); }
    }
  }

  lemma ApplyKeepsSound(d: Data, s: System, e: Step)
    requires Sound(d, s)
    ensures Sound(d, Apply(s, e))
  {
    var x := Of(s, e.p);
    assert Fresh(s, x) && Truthful(d, s, x);
    match e
    case Begin(p, op) => ReplacementKeepsSound(d, s, p, Running(op, s.revision, EMPTY, {}));
    case BeginRead(p) => ReplacementKeepsSound(d, s, p, Reading(s.revision, EMPTY, {}));
    case LoadStep(p, item) =>
      LoadKeepsFresh(s, x, item);
      ReplacementKeepsSound(d, s, p, Loaded(s, x, item));
    case Finish(p) =>
      if x.Running? && Footprint(x.op) <= x.loaded {
        CommitKeepsSound(d, s, p, x);
      } else if x.Reading? {
        ReadKeepsSound(d, s, p, x);
      }
    case Stop(p) => ReplacementKeepsSound(d, s, p, Idle);
  }

  lemma ReadKeepsSound(d: Data, s: System, p: nat, x: Session)
    requires Sound(d, s) && x.Reading? && Fresh(s, x)
    ensures Sound(d, CommitRead(s, p, x))
  {
    var y := if x.revision == s.revision then Answered(x.revision, x.view, x.loaded) else Idle;
    assert s.committed[..s.revision] == s.committed;
    ReplacementKeepsSound(d, s, p, y);
  }

  /** Every interleaving of any number of servers leaves the state that the committed
      transactions produce when run one after another in commit order, each of them
      successfully. */
  lemma {:induction false} RunsAreSerial(d: Data, run: seq<Step>)
    ensures Sound(d, Steps(Start(d), run))
    ensures Steps(Start(d), run).data == Exec(d, Steps(Start(d), run).committed)
    ensures AllSucceed(d, Steps(Start(d), run).committed)
    decreases |run|
  {
    if run != [] {
      var n := |run| - 1;
      RunsAreSerial(d, run[..n]);
      ApplyKeepsSound(d, Steps(Start(d), run[..n]), run[n]);
    }
  }

  // ---------------------------------------------------------------------------
  // Every serial run happens
  // ---------------------------------------------------------------------------

  lemma {:induction false} StepsSplit(s: System, a: seq<Step>, b: seq<Step>)
    ensures Steps(s, a + b) == Steps(Steps(s, a), b)
    decreases |b|
  {
    if b == [] {
      assert a + b == a;
    } else {
      var n := |b| - 1;
      StepsSplit(s, a, b[..n]);
      assert (a + b)[..|a + b| - 1] == a + b[..n];
    }
  }

  lemma OneStep(s: System, e: Step)
    ensures Steps(s, [e]) == Apply(s, e)
  {
    assert [e][..0] == [];
  }

  /** The two differ only in the session of `p`. */
  ghost predicate SameStore(s: System, t: System) {
    t.data == s.data && t.revision == s.revision && t.committed == s.committed
  }

  lemma {:induction false} LoadsEach(s: System, p: nat, items: set<Item>) returns (run: seq<Step>, t: System)
    requires (Of(s, p).Running? || Of(s, p).Reading?) && Fresh(s, Of(s, p))
    ensures t == Steps(s, run) && SameStore(s, t) && Fresh(t, Of(t, p))
    ensures var x, y := Of(s, p), Of(t, p);
            && (x.Running? <==> y.Running?) && (x.Reading? <==> y.Reading?) && (x.Running? ==> y.op == x.op)
            && y.revision == x.revision && items <= y.loaded && x.loaded <= y.loaded
    decreases |items|
  {
    if items == {} {
      run, t := [], s;
    } else {
      var item :| item in items;
      var e := LoadStep(p, item);
      OneStep(s, e);
      LoadKeepsFresh(s, Of(s, p), item);
      var rest;
      rest, t := LoadsEach(Apply(s, e), p, items - {item});
      StepsSplit(s, [e], rest);
      run := [e] + rest;
    }
  }

  /** A server that is left alone runs its transaction at once: it begins, loads what it
      needs and commits. */
  lemma TransactionRuns(s: System, p: nat, op: Op) returns (run: seq<Step>, t: System)
    requires Of(s, p).Idle?
    ensures t == Steps(s, run) && t.data == Run(s.data, op) && Of(t, p).Idle?
    ensures t.committed == s.committed + if Body(s.data, op).Ok? && Body(s.data, op).value != [] then [op] else []
  {
    var s1 := Apply(s, Begin(p, op));
    OneStep(s, Begin(p, op));
    var loads, s2 := LoadsEach(s1, p, Footprint(op));
    OneStep(s2, Finish(p));
    t := Apply(s2, Finish(p));
    CommitIsAtomic(s2, p, Of(s2, p));
    BodyDependsOnFootprint(Of(s2, p).view, s2.data, op);
    StepsSplit(s, [Begin(p, op)], loads);
    StepsSplit(s, [Begin(p, op)] + loads, [Finish(p)]);
    run := [Begin(p, op)] + loads + [Finish(p)];
  }

  /** A server that is left alone reads any items, all of them as they are stored. */
  lemma ReadRuns(s: System, p: nat, items: set<Item>) returns (run: seq<Step>, t: System)
    requires Of(s, p).Idle?
    ensures t == Steps(s, run) && SameStore(s, t)
    ensures Of(t, p).Answered? && items <= Of(t, p).loaded && Shows(Of(t, p), s.data)
  {
    var s1 := Apply(s, BeginRead(p));
    OneStep(s, BeginRead(p));
    var loads, s2 := LoadsEach(s1, p, items);
    OneStep(s2, Finish(p));
    t := Apply(s2, Finish(p));
    StepsSplit(s, [BeginRead(p)], loads);
    StepsSplit(s, [BeginRead(p)] + loads, [Finish(p)]);
    run := [BeginRead(p)] + loads + [Finish(p)];
  }

  /** So every sequence of transactions is the outcome of some interleaving: the
      interleavings reach exactly the serial states. */
  lemma {:induction false} EverySerialRunHappens(d: Data, p: nat, ops: seq<Op>) returns (run: seq<Step>)
    ensures Steps(Start(d), run).data == Exec(d, ops) && Of(Steps(Start(d), run), p).Idle?
    decreases |ops|
  {
    if ops == [] {
      run := [];
    } else {
      var n := |ops| - 1;
      run := EverySerialRunHappens(d, p, ops[..n]);
      var more, t := TransactionRuns(Steps(Start(d), run), p, ops[n]);
      StepsSplit(Start(d), run, more);
      run := run + more;
    }
  }

  /** A server that stops leaves the store alone and forgets its transaction. */
  lemma StopForgets(s: System, p: nat)
    ensures SameStore(s, Apply(s, Stop(p))) && Of(Apply(s, Stop(p)), p).Idle?
    ensures forall q :: q != p ==> Of(Apply(s, Stop(p)), q) == Of(s, q)
  {
  }

  /** A read is answered with what it loaded exactly if nothing was committed since it
      began. */
  lemma ReadCommitsIff(s: System, p: nat)
    requires Of(s, p).Reading?
    ensures var x, y := Of(s, p), Of(Apply(s, Finish(p)), p);
            && (y.Answered? <==> x.revision == s.revision)
            && (y.Answered? ==> y.view == x.view && y.loaded == x.loaded && y.revision == x.revision)
            && Apply(s, Finish(p)).data == s.data && Apply(s, Finish(p)).committed == s.committed
  {
  }

  /** A read that commits returns items that were all stored at one moment, however
      its loads were spread over time: the state after some number of commits. */
  lemma CommittedReadIsSnapshot(d: Data, run: seq<Step>, p: nat)
    requires Of(Steps(Start(d), run), p).Answered?
    ensures var s := Steps(Start(d), run);
            var x := Of(s, p);
            x.revision <= |s.committed| && Shows(x, Exec(d, s.committed[..x.revision]))
  {
    RunsAreSerial(d, run);
    var s := Steps(Start(d), run);
    assert Truthful(d, s, s.sessions[p]);
  }

  lemma {:induction false} CommittedGrows(d: Data, run: seq<Step>, n: nat)
    requires n <= |run|
    ensures Steps(Start(d), run[..n]).committed <= Steps(Start(d), run).committed
    decreases |run|
  {
    if n == |run| {
      assert run[..n] == run;
    } else {
      var m := |run| - 1;
      CommittedGrows(d, run[..m], n);
      assert run[..m][..n] == run[..n];
    }
  }

  /** The constraints hold at every moment of every interleaving, and no safe point
      ever goes back, whichever servers take part. */
  lemma ConcurrentRunsKeepConstraints(d: Data, run: seq<Step>, i: nat)
    requires Consistent(d) && i <= |run|
    ensures var early, late := Steps(Start(d), run[..i]).data, Steps(Start(d), run).data;
            Consistent(early) && Consistent(late) && NotBelow(early, late)
  {
    RunsAreSerial(d, run[..i]);
    RunsAreSerial(d, run);
    var a, b := Steps(Start(d), run[..i]).committed, Steps(Start(d), run).committed;
    CommittedGrows(d, run, i);
    RunsKeepConstraints(d, b, |a|, |b|);
    RunStaysConsistent(d, b);
    assert b[..|a|] == a && b[..|b|] == b;
  }

  /** The transactions committed after the first `n`. */
  ghost function CommittedSince(d: Data, run: seq<Step>, n: nat): seq<Op>
    requires n <= |Steps(Start(d), run).committed|
  {
    Steps(Start(d), run).committed[n..]
  }

  lemma SerialSuffix(d: Data, run: seq<Step>, n: nat)
    requires n <= |Steps(Start(d), run).committed|
    ensures var all := Steps(Start(d), run).committed;
            Steps(Start(d), run).data == Exec(Exec(d, all[..n]), CommittedSince(d, run, n))
  {
    RunsAreSerial(d, run);
    ExecTail(d, Steps(Start(d), run).committed, n);
  }

  /** Whichever servers take part: a committed `SetGCBarrier`, the n-th commit, guards
      its timestamp for its whole time-to-live, as long as no later commit names its
      id.  Transactions that were under way when it committed are covered too. */
  lemma ConcurrentBarrierHolds(d: Data, run: seq<Step>, n: nat)
    requires Consistent(d) && n < |Steps(Start(d), run).committed|
    requires var op := Steps(Start(d), run).committed[n];
             && op.SetBarrierOp?
             && LeavesAlone(CommittedSince(d, run, n + 1), op.k, op.id, Until(op))
    ensures var s := Steps(Start(d), run);
            var op := s.committed[n];
            Gc(s.data, op.k) <= Txn(s.data, op.k) <= op.ts
  {
    RunsAreSerial(d, run);
    SerialSuffix(d, run, n + 1);
    var all := Steps(Start(d), run).committed;
    RunStaysConsistent(d, all[..n]);
    assert all[..n + 1][..n] == all[..n];
    BarrierHoldsForItsTtl(Exec(d, all[..n]), all[n], all[n + 1..]);
  }

  /** The same for a global barrier that is stored after `n` commits: as long as no
      later commit takes it away, it holds in every keyspace that had not passed it
      and stops the others. */
  lemma ConcurrentGlobalBarrierHolds(d: Data, run: seq<Step>, n: nat, k: nat, b: Barrier)
    requires Consistent(d) && n <= |Steps(Start(d), run).committed|
    requires var early := Exec(d, Steps(Start(d), run).committed[..n]);
             b in early.globals && SparesGlobal(early, CommittedSince(d, run, n), b)
    ensures var early := Exec(d, Steps(Start(d), run).committed[..n]);
            var late := Steps(Start(d), run).data;
            && b in late.globals
            && Gc(late, k) <= Txn(late, k) <= Max(Txn(early, k), b.ts)
            && (Txn(late, k) <= b.ts <==> Txn(early, k) <= b.ts)
  {
    SerialSuffix(d, run, n);
    var all := Steps(Start(d), run).committed;
    RunStaysConsistent(d, all[..n]);
    GlobalBarrierProtects(Exec(d, all[..n]), all[n..], k, b);
  }

  /** Why the revision is compared: a barrier decided on an old txn safe point and
      written regardless ends up behind the current one. */
  lemma UncheckedCommitBreaks()
    ensures var late := SetBarrierOp(NULL_KEYSPACE, "backup", 100, SECOND, 0);
            var moved := Run(EMPTY, AdvanceTxnOp(NULL_KEYSPACE, 500, 0, []));
            && Body(EMPTY, late).Ok?
            && !Consistent(ApplyWrites(moved, Body(EMPTY, late).value))
            && Body(moved, late) == Err(BarrierBehindTxnSafePoint)
  {
    var moved := Run(EMPTY, AdvanceTxnOp(NULL_KEYSPACE, 500, 0, []));
    AdvanceTxnEffect(EMPTY, NULL_KEYSPACE, 500, 0, []);
    assert ScanBarriers([], 0, 500).min == 500;
    assert Txn(moved, NULL_KEYSPACE) == 500;
    var b := NewBarrier("backup", 100, SECOND, 0);
    SingleWrite(moved, PutBarrier(NULL_KEYSPACE, b));
    PutMembers(Barriers(moved, NULL_KEYSPACE), b, b);
    assert !Ordered(ApplyWrite(moved, PutBarrier(NULL_KEYSPACE, b)), NULL_KEYSPACE);
  }
}
