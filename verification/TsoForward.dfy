/** `getGlobalTSO` and `getTSOForwardStream` (pd/server/forward.go): any number of
    goroutines share pooled timestamp streams, one per host, behind a
    readers-writer lock for the pool and a mutex for every stream. */
module TsoForward {

  import opened Wrappers

  const MAX_TSO_RETRY_TIMES: nat := 6

  /** A request: the goroutine that sent it and how many tries it had left. */
  datatype Call = Call(thread: nat, left: nat)

  datatype Reply = Reply(call: Call, timestamp: nat)

  /** A pooled stream.  The server answers in order; an error is final. */
  datatype Stream = Stream(
    host: string,
    lock: Option<nat>,
    sent: seq<Call>,
    replies: seq<Reply>,
    received: nat,
    broken: bool)

  /** How the caller classifies a stream error. */
  datatype ErrorKind = LeaderChanged | NeedRebuild | Other

  datatype Pc =
    | Start
    | Lookup(host: string)
    | WantPool(host: string)
    | Creating(host: string)
    | HaveStream(host: string, stream: nat)
    | Locked(host: string, stream: nat)
    | Awaiting(host: string, stream: nat)
    | DropLocked(host: string, stream: nat)   // to remove the host, stream still locked
    | Drop(host: string, stream: nat)         // to remove the host, stream unlocked
    | Succeeded(reply: Reply)
    | Failed

  datatype Thread = Thread(pc: Pc, left: nat)

  datatype Server = Server(
    threads: seq<Thread>,
    pool: map<string, nat>,
    writer: Option<nat>,        // holder of the pool's write lock
    streams: seq<Stream>)

  datatype Step =
    | PickHost(t: nat, host: string)
    | NoHost(t: nat)
    | Find(t: nat)
    | LockPool(t: nat)
    | Created(t: nat)
    | CreateFailed(t: nat)
    | LockStream(t: nat)
    | SendOk(t: nat)
    | SendFailed(t: nat, kind: ErrorKind, delivered: bool)
    | RecvOk(t: nat)
    | RecvFailed(t: nat, kind: ErrorKind)
    | Delete(t: nat)
    | ServerReply(stream: nat, timestamp: nat)
    | Break(stream: nat)

  function Initial(n: nat): Server {
    Server(seq(n, _ => Thread(Start, MAX_TSO_RETRY_TIMES)), map[], None, [])
  }

  predicate Enabled(s: Server, e: Step) {
    match e
    case ServerReply(i, _) => i < |s.streams| && |s.streams[i].replies| < |s.streams[i].sent|
    case Break(i) => i < |s.streams|
    case _ => e.t < |s.threads| && ThreadEnabled(s, e, s.threads[e.t].pc)
  }

  predicate ThreadEnabled(s: Server, e: Step, pc: Pc)
    requires !e.ServerReply? && !e.Break? && e.t < |s.threads|
  {
    match e
    case PickHost(t, h) => pc.Start? && h != "" && s.threads[t].left > 0
    case NoHost(t) => pc.Start?
    case Find(_) => pc.Lookup? && s.writer.None?
    case LockPool(_) => pc.WantPool? && s.writer.None?
    case Created(_) => pc.Creating?
    case CreateFailed(_) => pc.Creating?
    case LockStream(_) => pc.HaveStream? && pc.stream < |s.streams| && s.streams[pc.stream].lock.None?
    case SendOk(_) => pc.Locked? && pc.stream < |s.streams| && !s.streams[pc.stream].broken
    case SendFailed(_, _, _) => pc.Locked? && pc.stream < |s.streams|
    case RecvOk(_) =>
      pc.Awaiting? && pc.stream < |s.streams| && !s.streams[pc.stream].broken &&
      s.streams[pc.stream].received < |s.streams[pc.stream].replies|
    case RecvFailed(_, _) => pc.Awaiting? && pc.stream < |s.streams|
    case Delete(_) => (pc.Drop? || (pc.DropLocked? && pc.stream < |s.streams|)) && s.writer.None?
  }

  function At(s: Server, t: nat, pc: Pc): (r: Server)
    requires t < |s.threads|
    ensures |r.threads| == |s.threads|
  {
    s.(threads := s.threads[t := s.threads[t].(pc := pc)])
  }

  /** `continue`: back to the loop head with one try less. */
  function Retry(s: Server, t: nat): (r: Server)
    requires t < |s.threads|
    ensures |r.threads| == |s.threads|
  {
    var left := s.threads[t].left;
    s.(threads := s.threads[t := Thread(Start, if left > 0 then left - 1 else 0)])
  }

  function With(s: Server, i: nat, x: Stream): Server
    requires i < |s.streams|
  {
    s.(streams := s.streams[i := x])
  }

  function CallOf(s: Server, t: nat): Call
    requires t < |s.threads|
  {
    Call(t, s.threads[t].left)
  }

  /** `handleStreamError` and what follows it, with the stream already unlocked. */
  function AfterError(s: Server, t: nat, kind: ErrorKind, drop: Pc): Server
    requires t < |s.threads|
  {
    match kind
    case LeaderChanged => Retry(s, t)
    case NeedRebuild => At(s, t, drop)
    case Other => At(s, t, Failed)
  }

  function Apply(s: Server, e: Step): Server
    requires Enabled(s, e)
  {
    match e
    case ServerReply(i, ts) =>
      var x := s.streams[i];
      With(s, i, x.(replies := x.replies + [Reply(x.sent[|x.replies|], ts)]))
    case Break(i) => With(s, i, s.streams[i].(broken := true))
    case _ => ThreadStep(s, e, e.t, s.threads[e.t].pc)
  }

  function ThreadStep(s: Server, e: Step, t: nat, pc: Pc): Server
    requires !e.ServerReply? && !e.Break? && t == e.t && t < |s.threads| && pc == s.threads[t].pc
    requires ThreadEnabled(s, e, pc)
  {
    match e
    case PickHost(_, h) => At(s, t, Lookup(h))
    case NoHost(_) => At(s, t, Failed)
    case Find(_) =>
      At(s, t, if pc.host in s.pool then HaveStream(pc.host, s.pool[pc.host]) else WantPool(pc.host))
    case LockPool(_) =>
      // Another goroutine may have pooled a stream since the lookup.
      if pc.host in s.pool then At(s, t, HaveStream(pc.host, s.pool[pc.host]))
      else At(s, t, Creating(pc.host)).(writer := Some(t))
    case Created(_) =>
      var i := |s.streams|;
      At(s, t, HaveStream(pc.host, i)).(
        streams := s.streams + [Stream(pc.host, None, [], [], 0, false)],
        pool := s.pool[pc.host := i],
        writer := None)
    case CreateFailed(_) => At(s, t, Failed).(writer := None)
    case LockStream(_) =>
      At(With(s, pc.stream, s.streams[pc.stream].(lock := Some(t))), t, Locked(pc.host, pc.stream))
    case SendOk(_) =>
      var x := s.streams[pc.stream];
      At(With(s, pc.stream, x.(sent := x.sent + [CallOf(s, t)])), t, Awaiting(pc.host, pc.stream))
    case SendFailed(_, kind, delivered) =>
      var x := s.streams[pc.stream].(broken := true);
      var y := if delivered then x.(sent := x.sent + [CallOf(s, t)]) else x;
      // A rebuild removes the pool entry while the stream is still locked.
      var z := if kind.NeedRebuild? then y else y.(lock := None);
      AfterError(With(s, pc.stream, z), t, kind, DropLocked(pc.host, pc.stream))
    case RecvOk(_) =>
      var x := s.streams[pc.stream];
      At(With(s, pc.stream, x.(received := x.received + 1, lock := None)), t, Succeeded(x.replies[x.received]))
    case RecvFailed(_, kind) =>
      var x := s.streams[pc.stream].(broken := true, lock := None);
      AfterError(With(s, pc.stream, x), t, kind, Drop(pc.host, pc.stream))
    case Delete(_) =>
      var u := s.(pool := s.pool - {pc.host});
      Retry(if pc.DropLocked? then With(u, pc.stream, s.streams[pc.stream].(lock := None)) else u, t)
  }

  function Exec(s: Server, run: seq<Step>): Option<Server>
    decreases |run|
  {
    if run == [] then Some(s)
    else
      var u := Exec(s, run[..|run| - 1]);
      if u.Some? && Enabled(u.value, run[|run| - 1]) then Some(Apply(u.value, run[|run| - 1])) else None
  }

  // ---------------------------------------------------------------------------
  // Invariants
  // ---------------------------------------------------------------------------

  ghost predicate Fifo(x: Stream) {
    && x.received <= |x.replies| <= |x.sent|
    && forall k :: 0 <= k < |x.replies| ==> x.replies[k].call == x.sent[k]
  }

  ghost predicate HoldsStream(pc: Pc, i: nat) {
    (pc.Locked? || pc.Awaiting? || pc.DropLocked?) && pc.stream == i
  }

  /** An unlocked stream is broken or has had every reply read; in the hands of a
      goroutine that is waiting, exactly its own reply is outstanding. */
  ghost predicate StreamSound(s: Server, i: nat)
    requires i < |s.streams|
  {
    var x := s.streams[i];
    && Fifo(x)
    && match x.lock
       case None => x.broken || |x.sent| == x.received
       case Some(t) =>
         && t < |s.threads| && HoldsStream(s.threads[t].pc, i)
         && match s.threads[t].pc
            case Locked(_, _) => x.broken || |x.sent| == x.received
            case Awaiting(_, _) => x.broken || (|x.sent| == x.received + 1 && x.sent[x.received] == CallOf(s, t))
            case _ => x.broken
  }

  ghost predicate ThreadSound(s: Server, t: nat)
    requires t < |s.threads|
  {
    var pc := s.threads[t].pc;
    && (forall i: nat :: HoldsStream(pc, i) ==> i < |s.streams| && s.streams[i].lock == Some(t))
    && (pc.HaveStream? ==> pc.stream < |s.streams|)
    && (pc.Drop? ==> pc.stream < |s.streams| && s.streams[pc.stream].broken)
    && (pc.Creating? <==> s.writer == Some(t))
    && (pc.Creating? ==> pc.host !in s.pool)
    && (pc.Succeeded? ==> pc.reply.call == CallOf(s, t))
  }

  /** A pooled stream is stored under its own host. */
  ghost predicate PoolSound(s: Server) {
    && (s.writer.Some? ==> s.writer.value < |s.threads|)
    && (forall h :: h in s.pool ==> s.pool[h] < |s.streams| && s.streams[s.pool[h]].host == h)
  }

  ghost predicate Sound(s: Server) {
    && (forall i :: 0 <= i < |s.streams| ==> StreamSound(s, i))
    && (forall t :: 0 <= t < |s.threads| ==> ThreadSound(s, t))
    && PoolSound(s)
  }

  lemma EnvironmentKeepsSound(s: Server, e: Step)
    requires Sound(s) && Enabled(s, e) && (e.ServerReply? || e.Break?)
    ensures Sound(Apply(s, e))
  {
    var s' := Apply(s, e);
    forall i | 0 <= i < |s'.streams| ensures StreamSound(s', i) {
      assert StreamSound(s, i);
    }
    forall t | 0 <= t < |s'.threads| ensures ThreadSound(s', t) {
      assert ThreadSound(s, t);
    }
  }

  /** Steps that look up, fill or give up the pool without touching a stream. */
  ghost predicate PoolStep(e: Step) {
    e.PickHost? || e.NoHost? || e.Find? || e.LockPool? || e.Created? || e.CreateFailed?
  }

  /** Steps of a goroutine that takes, uses or loses a stream. */
  ghost predicate StreamStep(e: Step) {
    e.LockStream? || e.SendOk? || e.SendFailed? || e.RecvOk? || e.RecvFailed? || e.Delete?
  }

  lemma PoolStepKeepsStream(s: Server, e: Step, i: nat)
    requires Sound(s) && Enabled(s, e) && PoolStep(e) && i < |Apply(s, e).streams|
    ensures StreamSound(Apply(s, e), i)
  {
    assert ThreadSound(s, e.t);
    if i < |s.streams| { assert StreamSound(s, i); }
  }

  lemma OtherStreamUntouched(s: Server, e: Step, i: nat)
    requires Enabled(s, e) && StreamStep(e) && i < |s.streams| && s.threads[e.t].pc.stream != i
    ensures |Apply(s, e).streams| == |s.streams| && Apply(s, e).streams[i] == s.streams[i]
    ensures |Apply(s, e).threads| == |s.threads|
    ensures forall t :: 0 <= t < |s.threads| && t != e.t ==> Apply(s, e).threads[t] == s.threads[t]
  {
  }

  lemma OtherStreamKept(s: Server, e: Step, i: nat)
    requires Sound(s) && Enabled(s, e) && StreamStep(e) && i < |s.streams| && s.threads[e.t].pc.stream != i
    ensures i < |Apply(s, e).streams| && StreamSound(Apply(s, e), i)
  {
    OtherStreamUntouched(s, e, i);
    assert StreamSound(s, i);
  }

  lemma UseKeepsOwnStream(s: Server, e: Step)
    requires Sound(s) && Enabled(s, e) && (e.LockStream? || e.SendOk? || e.RecvOk?)
    ensures StreamSound(Apply(s, e), s.threads[e.t].pc.stream)
  {
    var i := s.threads[e.t].pc.stream;
    assert ThreadSound(s, e.t);
    assert StreamSound(s, i);
    assert e.LockStream? || HoldsStream(s.threads[e.t].pc, i);
  }

  lemma LossKeepsOwnStream(s: Server, e: Step)
    requires Sound(s) && Enabled(s, e) && (e.SendFailed? || e.RecvFailed?)
    ensures StreamSound(Apply(s, e), s.threads[e.t].pc.stream)
  {
    var i := s.threads[e.t].pc.stream;
    assert ThreadSound(s, e.t);
    assert StreamSound(s, i);
    assert HoldsStream(s.threads[e.t].pc, i);
  }

  lemma DeleteKeepsOwnStream(s: Server, e: Step)
    requires Sound(s) && Enabled(s, e) && e.Delete?
    ensures s.threads[e.t].pc.stream < |Apply(s, e).streams|
    ensures StreamSound(Apply(s, e), s.threads[e.t].pc.stream)
  {
    var i := s.threads[e.t].pc.stream;
    assert ThreadSound(s, e.t);
    assert StreamSound(s, i);
    assert s.threads[e.t].pc.Drop? || HoldsStream(s.threads[e.t].pc, i);
  }

  lemma StreamStepKeepsStream(s: Server, e: Step, i: nat)
    requires Sound(s) && Enabled(s, e) && StreamStep(e) && i < |s.streams|
    ensures i < |Apply(s, e).streams| && StreamSound(Apply(s, e), i)
  {
    if s.threads[e.t].pc.stream != i {
      OtherStreamKept(s, e, i);
    } else if e.Delete? {
      DeleteKeepsOwnStream(s, e);
    } else if e.SendFailed? || e.RecvFailed? {
      LossKeepsOwnStream(s, e);
    } else {
      UseKeepsOwnStream(s, e);
    }
  }

  lemma PoolStepKeepsThread(s: Server, e: Step, t: nat)
    requires Sound(s) && Enabled(s, e) && PoolStep(e) && t < |Apply(s, e).threads|
    ensures ThreadSound(Apply(s, e), t)
  {
    assert ThreadSound(s, e.t);
    assert ThreadSound(s, t);
  }

  lemma UseKeepsOther(s: Server, e: Step, t: nat)
    requires Sound(s) && Enabled(s, e) && (e.LockStream? || e.SendOk? || e.RecvOk? || e.Delete?)
    requires t < |s.threads| && t != e.t
    ensures t < |Apply(s, e).threads| && ThreadSound(Apply(s, e), t)
  {
    assert ThreadSound(s, e.t);
    assert ThreadSound(s, t);
  }

  lemma LossKeepsOther(s: Server, e: Step, t: nat)
    requires Sound(s) && Enabled(s, e) && (e.SendFailed? || e.RecvFailed?)
    requires t < |s.threads| && t != e.t
    ensures t < |Apply(s, e).threads| && ThreadSound(Apply(s, e), t)
  {
    assert ThreadSound(s, e.t);
    assert ThreadSound(s, t);
  }

  lemma UseKeepsSelf(s: Server, e: Step)
    requires Sound(s) && Enabled(s, e) && (e.LockStream? || e.SendOk? || e.RecvOk? || e.Delete?)
    ensures ThreadSound(Apply(s, e), e.t)
  {
    assert ThreadSound(s, e.t);
    if e.RecvOk? {
      assert StreamSound(s, s.threads[e.t].pc.stream);
    }
  }

  lemma LossKeepsSelf(s: Server, e: Step)
    requires Sound(s) && Enabled(s, e) && (e.SendFailed? || e.RecvFailed?)
    ensures ThreadSound(Apply(s, e), e.t)
  {
    assert ThreadSound(s, e.t);
  }

  lemma StreamStepKeepsThread(s: Server, e: Step, t: nat)
    requires Sound(s) && Enabled(s, e) && StreamStep(e) && t < |s.threads|
    ensures t < |Apply(s, e).threads| && ThreadSound(Apply(s, e), t)
  {
    if e.SendFailed? || e.RecvFailed? {
      if t != e.t { LossKeepsOther(s, e, t); } else { LossKeepsSelf(s, e); }
    } else {
      if t != e.t { UseKeepsOther(s, e, t); } else { UseKeepsSelf(s, e); }
    }
  }

  lemma StepSizes(s: Server, e: Step)
    requires Enabled(s, e)
    ensures |Apply(s, e).threads| == |s.threads|
    ensures |s.streams| <= |Apply(s, e).streams|
    ensures !e.Created? ==> |Apply(s, e).streams| == |s.streams|
  {
  }

  lemma PoolStepKeepsPool(s: Server, e: Step)
    requires Sound(s) && Enabled(s, e) && PoolStep(e)
    ensures PoolSound(Apply(s, e))
  {
    assert ThreadSound(s, e.t);
  }

  lemma StreamStepKeepsPool(s: Server, e: Step)
    requires Sound(s) && Enabled(s, e) && StreamStep(e)
    ensures PoolSound(Apply(s, e))
  {
    var s' := Apply(s, e);
    StepSizes(s, e);
    HostsStay(s, e);
    assert s'.writer == s.writer;
    assert forall h :: h in s'.pool ==> h in s.pool && s'.pool[h] == s.pool[h];
  }

  lemma HostsStay(s: Server, e: Step)
    requires Enabled(s, e) && StreamStep(e)
    ensures |Apply(s, e).streams| == |s.streams|
    ensures forall i :: 0 <= i < |s.streams| ==> Apply(s, e).streams[i].host == s.streams[i].host
  {
  }

  lemma ApplyKeepsSound(s: Server, e: Step)
    requires Sound(s) && Enabled(s, e)
    ensures Sound(Apply(s, e))
  {
    if e.ServerReply? || e.Break? {
      EnvironmentKeepsSound(s, e);
    } else if PoolStep(e) {
      PoolStepKeepsPool(s, e);
      forall i | 0 <= i < |Apply(s, e).streams| { PoolStepKeepsStream(s, e, i); }
      forall t | 0 <= t < |Apply(s, e).threads| { PoolStepKeepsThread(s, e, t); }
    } else {
      StepSizes(s, e);
      StreamStepKeepsPool(s, e);
      forall i | 0 <= i < |s.streams| { StreamStepKeepsStream(s, e, i); }
      forall t | 0 <= t < |s.threads| { StreamStepKeepsThread(s, e, t); }
    }
  }

  lemma {:induction false} RunsAreSound(n: nat, run: seq<Step>)
    requires Exec(Initial(n), run).Some?
    ensures Sound(Exec(Initial(n), run).value)
    decreases |run|
  {
    if run != [] {
      RunsAreSound(n, run[..|run| - 1]);
      ApplyKeepsSound(Exec(Initial(n), run[..|run| - 1]).value, run[|run| - 1]);
    }
  }

  // ---------------------------------------------------------------------------
  // Every interleaving of any number of goroutines
  // ---------------------------------------------------------------------------

  /** A timestamp that `getGlobalTSO` returns is the server's reply to the very
      request this call sent in its last try; in particular no two calls ever
      return the same reply. */
  lemma TimestampAnswersOwnRequest(n: nat, run: seq<Step>, t: nat)
    requires Exec(Initial(n), run).Some? && t < |Exec(Initial(n), run).value.threads|
    ensures var s := Exec(Initial(n), run).value;
            s.threads[t].pc.Succeeded? ==> s.threads[t].pc.reply.call == Call(t, s.threads[t].left)
  {
    RunsAreSound(n, run);
    assert ThreadSound(Exec(Initial(n), run).value, t);
  }

  /** A host's pooled stream stays the same for as long as the host is pooled, and
      a stream enters the pool only under its own host. */
  lemma PooledStreamIsNotOverwritten(n: nat, run: seq<Step>, e: Step, h: string)
    requires Exec(Initial(n), run).Some? && Enabled(Exec(Initial(n), run).value, e)
    ensures var s := Exec(Initial(n), run).value;
            var s' := Apply(s, e);
            && (h in s.pool && h in s'.pool ==> s'.pool[h] == s.pool[h])
            && (h in s'.pool && h !in s.pool ==> s'.pool[h] == |s.streams| && s'.streams[s'.pool[h]].host == h)
            && (h in s.pool && h !in s'.pool ==> e.Delete? && s.threads[e.t].pc.host == h)
  {
    RunsAreSound(n, run);
    var s := Exec(Initial(n), run).value;
    if !e.ServerReply? && !e.Break? {
      assert ThreadSound(s, e.t);
    }
  }

  /** The lock that goroutine `t` waits for is held by `holder`. */
  ghost predicate WaitsFor(s: Server, t: nat, holder: nat)
    requires t < |s.threads|
  {
    match s.threads[t].pc
    case Lookup(_) => s.writer == Some(holder)
    case WantPool(_) => s.writer == Some(holder)
    case Drop(_, _) => s.writer == Some(holder)
    case DropLocked(_, _) => s.writer == Some(holder)
    case HaveStream(_, i) => i < |s.streams| && s.streams[i].lock == Some(holder)
    case _ => false
  }

  ghost predicate Blocked(s: Server, t: nat)
    requires t < |s.threads|
  {
    exists holder :: WaitsFor(s, t, holder)
  }

  /** Step `e` of goroutine `t` is possible now. */
  ghost predicate CanMove(s: Server, t: nat, e: Step) {
    !e.ServerReply? && !e.Break? && e.t == t && Enabled(s, e)
  }

  lemma WriterCanMove(s: Server)
    requires Sound(s) && s.writer.Some?
    ensures CanMove(s, s.writer.value, CreateFailed(s.writer.value))
  {
    assert ThreadSound(s, s.writer.value);
  }

  /** Whoever holds a stream's lock can move, or waits for the pool's writer. */
  lemma HolderCanMove(s: Server, i: nat) returns (e: Step)
    requires Sound(s) && i < |s.streams| && s.streams[i].lock.Some?
    ensures var h := s.streams[i].lock.value;
            && h < |s.threads|
            && (CanMove(s, h, e) || (s.writer.Some? && WaitsFor(s, h, s.writer.value)))
  {
    assert StreamSound(s, i);
    var h := s.streams[i].lock.value;
    match s.threads[h].pc
    case Locked(_, _) => e := SendFailed(h, Other, false);
    case Awaiting(_, _) => e := RecvFailed(h, Other);
    case _ => e := Delete(h);
  }

  /** The two kinds of lock cannot deadlock: whoever waits for a lock waits for a
      goroutine that can move, directly or through one other goroutine. */
  lemma NoDeadlock(n: nat, run: seq<Step>, t: nat) returns (between: nat, holder: nat, e: Step)
    requires Exec(Initial(n), run).Some?
    requires t < |Exec(Initial(n), run).value.threads| && Blocked(Exec(Initial(n), run).value, t)
    ensures var s := Exec(Initial(n), run).value;
            && between < |s.threads| && holder < |s.threads|
            && WaitsFor(s, t, between)
            && (between == holder || WaitsFor(s, between, holder))
            && CanMove(s, holder, e)
  {
    RunsAreSound(n, run);
    var s := Exec(Initial(n), run).value;
    if s.threads[t].pc.HaveStream? {
      var i := s.threads[t].pc.stream;
      between := s.streams[i].lock.value;
      e := HolderCanMove(s, i);
      if CanMove(s, between, e) {
        holder := between;
      } else {
        holder := s.writer.value;
        e := CreateFailed(holder);
        WriterCanMove(s);
      }
    } else {
      between, holder := s.writer.value, s.writer.value;
      e := CreateFailed(holder);
      WriterCanMove(s);
    }
  }

  /** The stream that a deletion takes out of the pool. */
  ghost predicate Removes(s: Server, t: nat, i: nat)
    requires Enabled(s, Delete(t))
  {
    s.threads[t].pc.host in s.pool && s.pool[s.threads[t].pc.host] == i
  }

  ghost predicate HasStream(pc: Pc) {
    pc.HaveStream? || pc.Locked? || pc.Awaiting? || pc.DropLocked? || pc.Drop?
  }

  /** What is pooled for the host is the goroutine's stream or was pooled after it. */
  ghost predicate NotOlder(s: Server, t: nat)
    requires t < |s.threads|
  {
    var pc := s.threads[t].pc;
    HasStream(pc) && pc.host in s.pool ==> pc.stream <= s.pool[pc.host]
  }

  lemma PoolStepNotOlder(s: Server, e: Step, t: nat)
    requires Sound(s) && Enabled(s, e) && PoolStep(e) && t < |s.threads| && NotOlder(s, t)
    ensures t < |Apply(s, e).threads| && NotOlder(Apply(s, e), t)
  {
    assert ThreadSound(s, t);
    assert HoldsStream(s.threads[t].pc, if HasStream(s.threads[t].pc) then s.threads[t].pc.stream else 0) ==>
        s.threads[t].pc.stream < |s.streams|;
  }

  lemma StreamStepNotOlder(s: Server, e: Step, t: nat)
    requires Enabled(s, e) && StreamStep(e) && t < |s.threads| && NotOlder(s, t)
    ensures t < |Apply(s, e).threads| && NotOlder(Apply(s, e), t)
  {
    StepSizes(s, e);
    PoolOnlyShrinks(s, e);
    assert HasStream(Apply(s, e).threads[t].pc) ==>
        HasStream(s.threads[t].pc) && Apply(s, e).threads[t].pc.stream == s.threads[t].pc.stream &&
        Apply(s, e).threads[t].pc.host == s.threads[t].pc.host;
  }

  lemma PoolOnlyShrinks(s: Server, e: Step)
    requires Enabled(s, e) && StreamStep(e)
    ensures forall h :: h in Apply(s, e).pool ==> h in s.pool && Apply(s, e).pool[h] == s.pool[h]
  {
  }

  lemma {:induction false} RunsAreNotOlder(n: nat, run: seq<Step>, t: nat)
    requires Exec(Initial(n), run).Some? && t < |Exec(Initial(n), run).value.threads|
    ensures NotOlder(Exec(Initial(n), run).value, t)
    decreases |run|
  {
    if run != [] {
      var front, e := run[..|run| - 1], run[|run| - 1];
      var s := Exec(Initial(n), front).value;
      StepSizes(s, e);
      RunsAreNotOlder(n, front, t);
      RunsAreSound(n, front);
      if PoolStep(e) {
        PoolStepNotOlder(s, e, t);
      } else if StreamStep(e) {
        StreamStepNotOlder(s, e, t);
      }
    }
  }

  /** A goroutine whose stream failed removes its host, and with it whatever stream
      is pooled by then: its own, which is broken, or one pooled after its own.  A
      working stream is lost only if it replaced the goroutine's own ... */
  lemma RemovedIsBrokenOrNewer(n: nat, run: seq<Step>, t: nat, i: nat)
    requires Exec(Initial(n), run).Some? && Enabled(Exec(Initial(n), run).value, Delete(t))
    requires Removes(Exec(Initial(n), run).value, t, i)
    ensures var s := Exec(Initial(n), run).value;
            var own := s.threads[t].pc.stream;
            && own <= i < |s.streams|
            && s.streams[own].broken
            && (i <= own ==> s.streams[i].broken)
  {
    RunsAreSound(n, run);
    RunsAreNotOlder(n, run, t);
    var s := Exec(Initial(n), run).value;
    assert ThreadSound(s, t);
    if s.threads[t].pc.DropLocked? {
      assert HoldsStream(s.threads[t].pc, s.threads[t].pc.stream);
      assert StreamSound(s, s.threads[t].pc.stream);
    }
  }

  /** A server with two goroutines, for the run below. */
  function Two(a: Pc, la: nat, b: Pc, pool: map<string, nat>, writer: Option<nat>, streams: seq<Stream>): Server {
    Server([Thread(a, la), Thread(b, 6)], pool, writer, streams)
  }

  function Idle(broken: bool): Stream { Stream("h", None, [], [], 0, broken) }

  lemma Then(run: seq<Step>, s: Server, e: Step, s': Server)
    requires Exec(Initial(2), run) == Some(s) && Enabled(s, e) && Apply(s, e) == s'
    ensures Exec(Initial(2), run + [e]) == Some(s')
  {
    assert (run + [e])[..|run|] == run;
  }

  /** The first goroutine pools a stream ... */
  lemma FirstPools() returns (run: seq<Step>)
    ensures Exec(Initial(2), run) == Some(Two(HaveStream("h", 0), 6, Start, map["h" := 0], None, [Idle(false)]))
  {
    var s0 := Two(Start, 6, Start, map[], None, []);
    var s1 := Two(Lookup("h"), 6, Start, map[], None, []);
    var s2 := Two(WantPool("h"), 6, Start, map[], None, []);
    var s3 := Two(Creating("h"), 6, Start, map[], Some(0), []);
    var s4 := Two(HaveStream("h", 0), 6, Start, map["h" := 0], None, [Idle(false)]);
    assert Initial(2).threads == s0.threads;
    assert Exec(Initial(2), []) == Some(s0);
    Then([], s0, PickHost(0, "h"), s1);
    Then([] + [PickHost(0, "h")], s1, Find(0), s2);
    Then([] + [PickHost(0, "h")] + [Find(0)], s2, LockPool(0), s3);
    Then([] + [PickHost(0, "h")] + [Find(0)] + [LockPool(0)], s3, Created(0), s4);
    run := [] + [PickHost(0, "h")] + [Find(0)] + [LockPool(0)] + [Created(0)];
  }

  /** ... the second takes it too, and the first finds it failing ... */
  lemma SecondShares() returns (run: seq<Step>)
    ensures Exec(Initial(2), run) ==
            Some(Two(DropLocked("h", 0), 6, HaveStream("h", 0), map["h" := 0], None, [Idle(true).(lock := Some(0))]))
  {
    var r := FirstPools();
    var s4 := Two(HaveStream("h", 0), 6, Start, map["h" := 0], None, [Idle(false)]);
    var s5 := Two(HaveStream("h", 0), 6, Lookup("h"), map["h" := 0], None, [Idle(false)]);
    var s6 := Two(HaveStream("h", 0), 6, HaveStream("h", 0), map["h" := 0], None, [Idle(false)]);
    var s7 := Two(Locked("h", 0), 6, HaveStream("h", 0), map["h" := 0], None, [Idle(false).(lock := Some(0))]);
    var s8 := Two(DropLocked("h", 0), 6, HaveStream("h", 0), map["h" := 0], None, [Idle(true).(lock := Some(0))]);
    Then(r, s4, PickHost(1, "h"), s5);
    Then(r + [PickHost(1, "h")], s5, Find(1), s6);
    Then(r + [PickHost(1, "h")] + [Find(1)], s6, LockStream(0), s7);
    var fail := SendFailed(0, NeedRebuild, false);
    Then(r + [PickHost(1, "h")] + [Find(1)] + [LockStream(0)], s7, fail, s8);
    run := r + [PickHost(1, "h")] + [Find(1)] + [LockStream(0)] + [fail];
  }

  /** ... drops it and pools a new one ... */
  lemma FirstReplaces() returns (run: seq<Step>)
    ensures Exec(Initial(2), run) ==
            Some(Two(HaveStream("h", 1), 5, HaveStream("h", 0), map["h" := 1], None, [Idle(true), Idle(false)]))
  {
    var r := SecondShares();
    var b := HaveStream("h", 0);
    var s8 := Two(DropLocked("h", 0), 6, b, map["h" := 0], None, [Idle(true).(lock := Some(0))]);
    var s9 := Two(Start, 5, b, map[], None, [Idle(true)]);
    var s10 := Two(Lookup("h"), 5, b, map[], None, [Idle(true)]);
    var s11 := Two(WantPool("h"), 5, b, map[], None, [Idle(true)]);
    var s12 := Two(Creating("h"), 5, b, map[], Some(0), [Idle(true)]);
    var s13 := Two(HaveStream("h", 1), 5, b, map["h" := 1], None, [Idle(true), Idle(false)]);
    Then(r, s8, Delete(0), s9);
    Then(r + [Delete(0)], s9, PickHost(0, "h"), s10);
    Then(r + [Delete(0)] + [PickHost(0, "h")], s10, Find(0), s11);
    Then(r + [Delete(0)] + [PickHost(0, "h")] + [Find(0)], s11, LockPool(0), s12);
    Then(r + [Delete(0)] + [PickHost(0, "h")] + [Find(0)] + [LockPool(0)], s12, Created(0), s13);
    run := r + [Delete(0)] + [PickHost(0, "h")] + [Find(0)] + [LockPool(0)] + [Created(0)];
  }

  /** ... and the second, failing on the old stream, is about to remove the new and
      working one. */
  lemma WorkingStreamCanBeRemoved() returns (run: seq<Step>, s: Server)
    ensures Exec(Initial(2), run) == Some(s)
    ensures Enabled(s, Delete(1)) && Removes(s, 1, 1) && |s.streams| == 2 && !s.streams[1].broken
  {
    var r := FirstReplaces();
    var a, m := HaveStream("h", 1), map["h" := 1];
    var s13 := Two(a, 5, HaveStream("h", 0), m, None, [Idle(true), Idle(false)]);
    var s14 := Two(a, 5, Locked("h", 0), m, None, [Idle(true).(lock := Some(1)), Idle(false)]);
    s := Two(a, 5, DropLocked("h", 0), m, None, [Idle(true).(lock := Some(1)), Idle(false)]);
    Then(r, s13, LockStream(1), s14);
    var fail := SendFailed(1, NeedRebuild, false);
    Then(r + [LockStream(1)], s14, fail, s);
    run := r + [LockStream(1)] + [fail];
  }
}
