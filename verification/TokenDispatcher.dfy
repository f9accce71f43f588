/** The token-bucket dispatcher (pd/client/resource_manager_client.go): one
    goroutine takes requests off a one-slot channel and answers each over a
    bidirectional stream that it may have to replace.  Callers, the server, leader
    changes and shutdown interleave with it at every step. */
module TokenDispatcher {

  import opened Wrappers

  const MAX_RETRY_TIMES: nat := 6
  const CHANNEL_CAPACITY: nat := 1

  /** The server's answer; `request` is ghostly knowledge of what it answers. */
  datatype Reply = Reply(request: nat, error: bool, buckets: nat)

  /** A cancellable context and the stream opened under it, if any.  The server
      answers the requests of one stream in order. */
  datatype Context = Context(cancelled: bool, sent: seq<nat>, replies: seq<Reply>, received: nat)

  datatype Message = Nil | Failure

  datatype WaitResult = Waiting | Buckets(reply: Reply) | Failed

  /** A `tokenRequest`: everything ever sent on its `done` channel, its
      `TokenBuckets` field and what its `wait` returned.  `lost` records the two
      places where the dispatcher drops a request without completing it. */
  datatype Request = Request(done: seq<Message>, buckets: Option<Reply>, result: WaitResult, lost: Option<Loss>)

  datatype Loss = StreamCancelled | ErrorReply(reply: Reply)

  datatype Connection = Connection(stream: Option<nat>, ctx: Option<nat>, cancel: Option<nat>)

  datatype Pc =
    | Connecting(left: nat, request: Option<nat>)
    | Dialing(context: nat, left: nat, request: Option<nat>)
    | Head
    | Fetched(r: nat)
    | Reconnected(r: nat)
    | Checking(r: nat)
    | Sending(r: nat)
    | Receiving(r: nat)
    | Exited

  datatype Dispatcher = Dispatcher(
    pc: Pc,
    connection: Connection,
    stream: Option<nat>,        // the loop's local copies
    streamCtx: Option<nat>,
    contexts: seq<Context>,
    queue: seq<nat>,            // tokenRequestCh
    requests: seq<Request>,
    updateSignal: bool,         // updateTokenConnectionCh
    closing: bool)              // the client's context is cancelled

  datatype Step =
    // callers
    | Acquire
    | WaitDone(r: nat)
    | WaitCancelled(r: nat)
    | WaitClosing(r: nat)
    // the server, the leader watcher, shutdown
    | ServerReply(context: nat, error: bool, buckets: nat)
    | Signal
    | Close
    | Revoke
    // tryResourceManagerConnect
    | NoClient
    | Dial
    | DialOk
    | DialFailed(giveUp: bool)
    | OutOfRetries
    // the dispatcher loop
    | Exit
    | Fetch
    | Poll
    | Reload
    | Check
    | SendOk
    | SendFailed(delivered: bool)
    | RecvOk
    | RecvFailed

  const INITIAL := Dispatcher(Connecting(MAX_RETRY_TIMES, None), Connection(None, None, None), None, None,
                              [], [], [], false, false)

  predicate ContextDone(s: Dispatcher, i: nat) {
    s.closing || (i < |s.contexts| && s.contexts[i].cancelled)
  }

  predicate Enabled(s: Dispatcher, e: Step) {
    match e
    case Acquire => |s.queue| < CHANNEL_CAPACITY
    case WaitDone(r) => r < |s.requests| && s.requests[r].result.Waiting? && s.requests[r].done != []
    case WaitCancelled(r) => r < |s.requests| && s.requests[r].result.Waiting?
    case WaitClosing(r) => r < |s.requests| && s.requests[r].result.Waiting? && s.closing
    case ServerReply(i, _, _) => i < |s.contexts| && |s.contexts[i].replies| < |s.contexts[i].sent|
    case Signal => true
    case Close => true
    case Revoke => s.pc.Exited? && s.queue != []
    case NoClient => s.pc.Connecting? && s.pc.left > 0
    case Dial => s.pc.Connecting? && s.pc.left > 0
    case DialOk => s.pc.Dialing?
    case DialFailed(giveUp) => s.pc.Dialing? && (giveUp ==> s.closing)
    case OutOfRetries => s.pc.Connecting? && s.pc.left == 0
    case Exit => s.pc.Head? && s.closing
    case Fetch => s.pc.Head? && s.queue != []
    case Poll => s.pc.Fetched?
    case Reload => s.pc.Reconnected?
    case Check => s.pc.Checking?
    case SendOk => s.pc.Sending?
    case SendFailed(_) => s.pc.Sending?
    case RecvOk =>
      s.pc.Receiving? && s.stream.Some? && s.stream.value < |s.contexts| &&
      s.contexts[s.stream.value].received < |s.contexts[s.stream.value].replies|
    case RecvFailed => s.pc.Receiving?
  }

  function Cancelled(contexts: seq<Context>, i: Option<nat>): (cs: seq<Context>)
    ensures |cs| == |contexts|
  {
    if i.Some? && i.value < |contexts| then contexts[i.value := contexts[i.value].(cancelled := true)] else contexts
  }

  /** `reset`: forget the stream and cancel its context; `ctx` and `cancel` stay. */
  function Reset(s: Dispatcher): Dispatcher {
    s.(connection := s.connection.(stream := None), contexts := Cancelled(s.contexts, s.connection.cancel))
  }

  /** `req.done <- m`. */
  function Complete(s: Dispatcher, r: nat, m: Message): Dispatcher {
    if r < |s.requests| then s.(requests := s.requests[r := s.requests[r].(done := s.requests[r].done + [m])]) else s
  }

  function Lose(s: Dispatcher, r: nat, loss: Loss): Dispatcher {
    if r < |s.requests| then s.(requests := s.requests[r := s.requests[r].(lost := Some(loss))]) else s
  }

  function Returned(s: Dispatcher, r: nat, result: WaitResult): Dispatcher {
    if r < |s.requests| then s.(requests := s.requests[r := s.requests[r].(result := result)]) else s
  }

  /** Where control goes when `tryResourceManagerConnect` returns. */
  function AfterConnect(request: Option<nat>): Pc {
    if request.Some? then Reconnected(request.value) else Head
  }

  function WithSent(s: Dispatcher, i: Option<nat>, r: nat): Dispatcher {
    if i.Some? && i.value < |s.contexts| then
      s.(contexts := s.contexts[i.value := s.contexts[i.value].(sent := s.contexts[i.value].sent + [r])])
    else s
  }

  function WithBuckets(s: Dispatcher, r: nat, reply: Reply): Dispatcher {
    if r < |s.requests| then s.(requests := s.requests[r := s.requests[r].(buckets := Some(reply))]) else s
  }

  /** The rest of `processTokenRequests` once a reply has arrived. */
  function Received(s: Dispatcher, r: nat, reply: Reply): Dispatcher {
    if reply.error then
      Reset(Lose(s, r, ErrorReply(reply))).(pc := Head)
    else
      Complete(WithBuckets(s, r, reply), r, Nil).(pc := Head)
  }

  function Apply(s: Dispatcher, e: Step): Dispatcher
    requires Enabled(s, e)
  {
    match e
    case Acquire =>
      s.(requests := s.requests + [Request([], None, Waiting, None)], queue := s.queue + [|s.requests|])
    case WaitDone(r) =>
      if s.requests[r].done[0].Nil? && s.requests[r].buckets.Some?
      then Returned(s, r, Buckets(s.requests[r].buckets.value))
      else Returned(s, r, Failed)
    case WaitCancelled(r) => Returned(s, r, Failed)
    case WaitClosing(r) => Returned(s, r, Failed)
    case ServerReply(i, error, buckets) =>
      var c := s.contexts[i];
      s.(contexts := s.contexts[i := c.(replies := c.replies + [Reply(c.sent[|c.replies|], error, buckets)])])
    case Signal => s.(updateSignal := true)
    case Close => s.(closing := true)
    case Revoke => Complete(s.(queue := s.queue[1..]), s.queue[0], Failure)
    case NoClient => s.(pc := Connecting(s.pc.left - 1, s.pc.request))
    case Dial =>
      s.(contexts := s.contexts + [Context(false, [], [], 0)], pc := Dialing(|s.contexts|, s.pc.left - 1, s.pc.request))
    case DialOk =>
      var i := Some(s.pc.context);
      s.(connection := Connection(i, i, i), pc := AfterConnect(s.pc.request))
    case DialFailed(giveUp) =>
      s.(contexts := Cancelled(s.contexts, Some(s.pc.context)),
         pc := if giveUp then AfterConnect(s.pc.request) else Connecting(s.pc.left, s.pc.request))
    case OutOfRetries => s.(pc := AfterConnect(s.pc.request))
    case Exit => s.(pc := Exited)
    case Fetch => s.(queue := s.queue[1..], pc := Fetched(s.queue[0]))
    case Poll =>
      var t := s.(stream := s.connection.stream, streamCtx := s.connection.ctx, updateSignal := false);
      if s.updateSignal || t.stream.None?
      then Reset(t).(pc := Connecting(MAX_RETRY_TIMES, Some(s.pc.r)))
      else t.(pc := Checking(s.pc.r))
    case Reload =>
      s.(stream := s.connection.stream, streamCtx := s.connection.ctx, pc := Checking(s.pc.r))
    case Check =>
      if s.stream.None? then Reset(Complete(s, s.pc.r, Failure)).(pc := Head)
      else if s.streamCtx.Some? && ContextDone(s, s.streamCtx.value)
      then Reset(Lose(s, s.pc.r, StreamCancelled)).(pc := Head)
      else s.(pc := Sending(s.pc.r))
    case SendOk => WithSent(s, s.stream, s.pc.r).(pc := Receiving(s.pc.r))
    case SendFailed(delivered) =>
      var t := if delivered then WithSent(s, s.stream, s.pc.r) else s;
      Reset(Complete(t, s.pc.r, Failure)).(pc := Head)
    case RecvOk =>
      var i := s.stream.value;
      var c := s.contexts[i];
      Received(s.(contexts := s.contexts[i := c.(received := c.received + 1)]), s.pc.r, c.replies[c.received])
    case RecvFailed => Reset(Complete(s, s.pc.r, Failure)).(pc := Head)
  }

  function Exec(s: Dispatcher, run: seq<Step>): (r: Option<Dispatcher>)
    decreases |run|
  {
    if run == [] then Some(s)
    else
      var t := Exec(s, run[..|run| - 1]);
      if t.Some? && Enabled(t.value, run[|run| - 1]) then Some(Apply(t.value, run[|run| - 1])) else None
  }

  // ---------------------------------------------------------------------------
  // The streams
  // ---------------------------------------------------------------------------

  /** The server answers in order and the client reads in order. */
  ghost predicate Fifo(c: Context) {
    && c.received <= |c.replies| <= |c.sent|
    && forall k :: 0 <= k < |c.replies| ==> c.replies[k].request == c.sent[k]
  }

  ghost predicate UsesStream(pc: Pc) { pc.Checking? || pc.Sending? || pc.Receiving? }

  /** The context the dispatcher is still responsible for. */
  ghost predicate Owned(s: Dispatcher, i: nat) {
    s.connection.stream == Some(i) || (s.pc.Dialing? && s.pc.context == i)
  }

  /** A held stream is open, and at the loop head as many replies have been read
      from it as requests were sent on it. */
  ghost predicate Balanced(s: Dispatcher) {
    s.connection.stream.Some? ==>
      var i := s.connection.stream.value;
      && i < |s.contexts| && !s.contexts[i].cancelled
      && s.connection.ctx == s.connection.cancel == Some(i)
      && (if s.pc.Receiving? then
            |s.contexts[i].sent| == s.contexts[i].received + 1 && s.contexts[i].sent[s.contexts[i].received] == s.pc.r
          else
            |s.contexts[i].sent| == s.contexts[i].received)
  }

  ghost predicate StreamsSound(s: Dispatcher) {
    && (forall i :: 0 <= i < |s.contexts| ==> Fifo(s.contexts[i]))
    && (forall i :: 0 <= i < |s.contexts| && !s.contexts[i].cancelled ==> Owned(s, i))
    && Balanced(s)
    && (s.pc.Connecting? || s.pc.Dialing? ==> s.connection.stream.None?)
    && (s.pc.Dialing? ==> s.pc.context < |s.contexts| && s.contexts[s.pc.context] == Context(false, [], [], 0))
    && (UsesStream(s.pc) ==> s.stream == s.connection.stream && s.streamCtx == s.connection.ctx)
    && (s.pc.Sending? || s.pc.Receiving? ==> s.stream.Some?)
  }

  lemma ResetSound(s: Dispatcher)
    requires forall i :: 0 <= i < |s.contexts| ==> Fifo(s.contexts[i])
    requires forall i :: 0 <= i < |s.contexts| && !s.contexts[i].cancelled ==> s.connection.stream == Some(i)
    requires s.connection.stream.Some? ==> s.connection.cancel == s.connection.stream
    ensures var t := Reset(s).(pc := Head);
            StreamsSound(t) && forall i :: 0 <= i < |t.contexts| ==> t.contexts[i].cancelled
  {
  }

  /** Steps that leave the connection, the contexts and the locals alone. */
  ghost predicate Aside(e: Step) {
    e.Acquire? || e.WaitDone? || e.WaitCancelled? || e.WaitClosing? || e.Signal? || e.Close? || e.Revoke? ||
    e.NoClient? || e.OutOfRetries? || e.Exit? || e.Fetch?
  }

  lemma AsideKeepsStreams(s: Dispatcher, e: Step)
    requires StreamsSound(s) && Enabled(s, e) && Aside(e)
    ensures StreamsSound(Apply(s, e))
  {
    var t := Apply(s, e);
    assert t.connection == s.connection && t.contexts == s.contexts && t.stream == s.stream && t.streamCtx == s.streamCtx;
    assert t.pc.Dialing? <==> s.pc.Dialing?;
    assert t.pc.Dialing? ==> t.pc == s.pc;
    assert t.pc.Receiving? <==> s.pc.Receiving?;
    assert t.pc.Receiving? ==> t.pc == s.pc;
    forall i | 0 <= i < |t.contexts| && !t.contexts[i].cancelled ensures Owned(t, i) {
      assert Owned(s, i);
    }
  }

  lemma ServerKeepsStreams(s: Dispatcher, e: Step)
    requires StreamsSound(s) && Enabled(s, e) && e.ServerReply?
    ensures StreamsSound(Apply(s, e))
  {
    var t := Apply(s, e);
    forall i | 0 <= i < |t.contexts| && !t.contexts[i].cancelled ensures Owned(t, i) {
      assert Owned(s, i);
    }
  }

  lemma ConnectKeepsStreams(s: Dispatcher, e: Step)
    requires StreamsSound(s) && Enabled(s, e) && (e.Dial? || e.DialOk? || e.DialFailed?)
    ensures StreamsSound(Apply(s, e))
  {
    var t := Apply(s, e);
    forall i | 0 <= i < |t.contexts| && !t.contexts[i].cancelled ensures Owned(t, i) {
      if i < |s.contexts| && !s.contexts[i].cancelled {
        assert Owned(s, i);
      }
    }
  }

  lemma OnlyHeldIsOpen(s: Dispatcher, i: nat)
    requires StreamsSound(s) && !s.pc.Dialing? && i < |s.contexts| && !s.contexts[i].cancelled
    ensures s.connection.stream == Some(i)
  {
    assert Owned(s, i);
  }

  lemma ReloadKeepsStreams(s: Dispatcher)
    requires StreamsSound(s) && s.pc.Reconnected?
    ensures StreamsSound(Apply(s, Reload))
  {
    var t := Apply(s, Reload);
    forall i | 0 <= i < |t.contexts| && !t.contexts[i].cancelled ensures Owned(t, i) {
      OnlyHeldIsOpen(s, i);
    }
  }

  lemma PollKeepsStreams(s: Dispatcher)
    requires StreamsSound(s) && s.pc.Fetched?
    ensures StreamsSound(Apply(s, Poll))
  {
    var t := s.(stream := s.connection.stream, streamCtx := s.connection.ctx, updateSignal := false);
    forall i | 0 <= i < |s.contexts| && !s.contexts[i].cancelled ensures s.connection.stream == Some(i) {
      OnlyHeldIsOpen(s, i);
    }
    if s.updateSignal || t.stream.None? {
      ResetSound(t);
    }
  }

  /** Giving up a stream after using it. */
  lemma UseFails(s: Dispatcher, t: Dispatcher)
    requires StreamsSound(s) && UsesStream(s.pc)
    requires t.connection == s.connection && |t.contexts| == |s.contexts|
    requires forall i :: 0 <= i < |s.contexts| ==> t.contexts[i].cancelled == s.contexts[i].cancelled
    requires forall i :: 0 <= i < |s.contexts| ==> Fifo(t.contexts[i])
    ensures StreamsSound(Reset(t).(pc := Head))
  {
    forall i | 0 <= i < |t.contexts| && !t.contexts[i].cancelled ensures t.connection.stream == Some(i) {
      assert Owned(s, i);
    }
    ResetSound(t);
  }

  lemma CheckKeepsStreams(s: Dispatcher)
    requires StreamsSound(s) && s.pc.Checking?
    ensures StreamsSound(Apply(s, Check))
  {
    UseFails(s, Complete(s, s.pc.r, Failure));
    UseFails(s, Lose(s, s.pc.r, StreamCancelled));
    var t := s.(pc := Sending(s.pc.r));
    forall i | 0 <= i < |t.contexts| && !t.contexts[i].cancelled ensures Owned(t, i) {
      assert Owned(s, i);
    }
  }

  lemma SendKeepsStreams(s: Dispatcher, e: Step)
    requires StreamsSound(s) && s.pc.Sending? && (e.SendOk? || e.SendFailed?)
    ensures StreamsSound(Apply(s, e))
  {
    var i := s.stream.value;
    var u := WithSent(s, s.stream, s.pc.r);
    assert Fifo(u.contexts[i]);
    if e.SendOk? {
      var t := Apply(s, e);
      forall i | 0 <= i < |t.contexts| && !t.contexts[i].cancelled ensures Owned(t, i) {
        assert Owned(s, i);
      }
    } else {
      UseFails(s, Complete(if e.delivered then u else s, s.pc.r, Failure));
    }
  }

  lemma RecvKeepsStreams(s: Dispatcher)
    requires StreamsSound(s) && Enabled(s, RecvOk)
    ensures StreamsSound(Apply(s, RecvOk))
  {
    var i := s.stream.value;
    var c := s.contexts[i];
    var reply := c.replies[c.received];
    var u := s.(contexts := s.contexts[i := c.(received := c.received + 1)]);
    if reply.error {
      ErrorKeepsStreams(s, u, Lose(u, s.pc.r, ErrorReply(reply)));
    } else {
      ReadKeepsStreams(s, u, Complete(WithBuckets(u, s.pc.r, reply), s.pc.r, Nil).(pc := Head));
    }
  }

  lemma ErrorKeepsStreams(s: Dispatcher, u: Dispatcher, t: Dispatcher)
    requires StreamsSound(s) && Enabled(s, RecvOk)
    requires var i := s.stream.value;
             u == s.(contexts := s.contexts[i := s.contexts[i].(received := s.contexts[i].received + 1)])
    requires t.connection == s.connection && t.contexts == u.contexts
    ensures StreamsSound(Reset(t).(pc := Head))
  {
    assert Fifo(u.contexts[s.stream.value]);
    UseFails(s, t);
  }

  /** The awaited reply has been read from the held stream. */
  lemma ReadKeepsStreams(s: Dispatcher, u: Dispatcher, t: Dispatcher)
    requires StreamsSound(s) && Enabled(s, RecvOk)
    requires var i := s.stream.value;
             u == s.(contexts := s.contexts[i := s.contexts[i].(received := s.contexts[i].received + 1)])
    requires t.connection == s.connection && t.contexts == u.contexts && t.pc.Head?
    ensures StreamsSound(t)
  {
    assert Fifo(u.contexts[s.stream.value]);
    forall i | 0 <= i < |t.contexts| && !t.contexts[i].cancelled ensures Owned(t, i) {
      OnlyHeldIsOpen(s, i);
    }
  }

  lemma ApplyKeepsStreams(s: Dispatcher, e: Step)
    requires StreamsSound(s) && Enabled(s, e)
    ensures StreamsSound(Apply(s, e))
  {
    if Aside(e) {
      AsideKeepsStreams(s, e);
    } else if e.ServerReply? {
      ServerKeepsStreams(s, e);
    } else if e.Dial? || e.DialOk? || e.DialFailed? {
      ConnectKeepsStreams(s, e);
    } else if e.Poll? {
      PollKeepsStreams(s);
    } else if e.Reload? {
      ReloadKeepsStreams(s);
    } else if e.Check? {
      CheckKeepsStreams(s);
    } else if e.SendOk? || e.SendFailed? {
      SendKeepsStreams(s, e);
    } else if e.RecvOk? {
      RecvKeepsStreams(s);
    } else {
      UseFails(s, Complete(s, s.pc.r, Failure));
    }
  }

  // ---------------------------------------------------------------------------
  // The requests
  // ---------------------------------------------------------------------------

  /** The request the dispatcher has taken off the channel and not finished. */
  ghost function Held(pc: Pc): Option<nat> {
    match pc
    case Connecting(_, r) => r
    case Dialing(_, _, r) => r
    case Fetched(r) => Some(r)
    case Reconnected(r) => Some(r)
    case Checking(r) => Some(r)
    case Sending(r) => Some(r)
    case Receiving(r) => Some(r)
    case Head => None
    case Exited => None
  }

  ghost predicate Pending(s: Dispatcher, r: nat) { r in s.queue || Held(s.pc) == Some(r) }

  ghost predicate Granted(q: Request) { |q.done| == 1 && q.done[0].Nil? }

  ghost predicate RequestSound(s: Dispatcher, r: nat)
    requires r < |s.requests|
  {
    var q := s.requests[r];
    && (Pending(s, r) ==> q.done == [] && q.lost.None?)
    && (!Pending(s, r) ==> if q.lost.Some? then q.done == [] else |q.done| == 1)
    && (Granted(q) ==> q.buckets.Some?)
    && (q.buckets.Some? ==> q.buckets.value.request == r && !q.buckets.value.error)
    && (q.result.Buckets? ==> q.buckets == Some(q.result.reply) && Granted(q))
    && (q.lost == Some(StreamCancelled) ==> s.closing)
    && (q.lost.Some? && q.lost.value.ErrorReply? ==> q.lost.value.reply.request == r && q.lost.value.reply.error)
  }

  ghost predicate RequestsSound(s: Dispatcher) {
    && (forall i :: 0 <= i < |s.queue| ==> s.queue[i] < |s.requests|)
    && (forall i, j :: 0 <= i < j < |s.queue| ==> s.queue[i] != s.queue[j])
    && (Held(s.pc).Some? ==> Held(s.pc).value < |s.requests| && Held(s.pc).value !in s.queue)
    && (forall r :: 0 <= r < |s.requests| ==> RequestSound(s, r))
  }

  lemma SameRequests(s: Dispatcher, t: Dispatcher)
    requires RequestsSound(s)
    requires t.requests == s.requests && t.queue == s.queue && Held(t.pc) == Held(s.pc) && (s.closing ==> t.closing)
    ensures RequestsSound(t)
  {
    forall r | 0 <= r < |t.requests| ensures RequestSound(t, r) {
      assert RequestSound(s, r);
    }
  }

  /** The held request `r` is finished as `q`. */
  lemma Finishes(s: Dispatcher, t: Dispatcher, r: nat, q: Request)
    requires RequestsSound(s) && Held(s.pc) == Some(r)
    requires t.requests == s.requests[r := q] && t.queue == s.queue && Held(t.pc).None? && t.closing == s.closing
    requires RequestSound(t, r)
    ensures RequestsSound(t)
  {
    forall k | 0 <= k < |t.requests| ensures RequestSound(t, k) {
      assert RequestSound(s, k);
    }
  }

  lemma WaitsKeepRequests(s: Dispatcher, r: nat, result: WaitResult)
    requires RequestsSound(s) && r < |s.requests|
    requires result.Buckets? ==> s.requests[r].buckets == Some(result.reply) && Granted(s.requests[r])
    ensures RequestsSound(Returned(s, r, result))
  {
    var t := Returned(s, r, result);
    forall k | 0 <= k < |t.requests| ensures RequestSound(t, k) {
      assert RequestSound(s, k);
    }
  }

  lemma AcquireKeepsRequests(s: Dispatcher)
    requires RequestsSound(s) && Enabled(s, Acquire)
    ensures RequestsSound(Apply(s, Acquire))
  {
    var t := Apply(s, Acquire);
    assert s.queue == [];
    assert t.queue == [|s.requests|];
    forall k | 0 <= k < |t.requests| ensures RequestSound(t, k) {
      if k < |s.requests| {
        assert RequestSound(s, k);
      }
    }
  }

  /** Taking the request at the head of the channel into hand. */
  lemma FetchKeepsRequests(s: Dispatcher)
    requires RequestsSound(s) && Enabled(s, Fetch)
    ensures RequestsSound(Apply(s, Fetch))
  {
    var t := Apply(s, Fetch);
    HeadIsUnique(s);
    forall k | 0 <= k < |t.requests| ensures RequestSound(t, k) {
      assert RequestSound(s, k);
    }
  }

  lemma RevokeKeepsRequests(s: Dispatcher)
    requires RequestsSound(s) && Enabled(s, Revoke)
    ensures RequestsSound(Apply(s, Revoke))
  {
    HeadIsUnique(s);
    var u := s.(queue := s.queue[1..], pc := Fetched(s.queue[0]));
    forall k | 0 <= k < |u.requests| ensures RequestSound(u, k) {
      assert RequestSound(s, k);
    }
    var t := Apply(s, Revoke);
    assert RequestSound(s, s.queue[0]);
    assert RequestSound(u, s.queue[0]);
    Finishes(u, t, s.queue[0], t.requests[s.queue[0]]);
  }

  lemma HeadIsUnique(s: Dispatcher)
    requires RequestsSound(s) && s.queue != []
    ensures s.queue[0] !in s.queue[1..]
    ensures forall r :: r in s.queue <==> r == s.queue[0] || r in s.queue[1..]
  {
    assert s.queue == [s.queue[0]] + s.queue[1..];
  }

  /** A failure is sent on the `done` channel of the held request. */
  lemma FailureKeepsRequests(s: Dispatcher, t: Dispatcher, r: nat)
    requires RequestsSound(s) && Held(s.pc) == Some(r)
    requires t.requests == Complete(s, r, Failure).requests && t.queue == s.queue
    requires Held(t.pc).None? && t.closing == s.closing
    ensures RequestsSound(t)
  {
    assert RequestSound(s, r);
    Finishes(s, t, r, t.requests[r]);
  }

  lemma CheckKeepsRequests(s: Dispatcher)
    requires StreamsSound(s) && RequestsSound(s) && s.pc.Checking?
    ensures RequestsSound(Apply(s, Check))
  {
    var t, r := Apply(s, Check), s.pc.r;
    if s.stream.None? {
      FailureKeepsRequests(s, t, r);
    } else if s.streamCtx.Some? && ContextDone(s, s.streamCtx.value) {
      assert RequestSound(s, r);
      Finishes(s, t, r, t.requests[r]);
    } else {
      SameRequests(s, t);
    }
  }

  lemma RecvKeepsRequests(s: Dispatcher)
    requires StreamsSound(s) && RequestsSound(s) && Enabled(s, RecvOk)
    ensures RequestsSound(Apply(s, RecvOk))
  {
    var t, r := Apply(s, RecvOk), s.pc.r;
    assert RequestSound(s, r);
    assert Fifo(s.contexts[s.stream.value]);
    Finishes(s, t, r, t.requests[r]);
  }

  /** Steps that leave the requests and the channel alone. */
  ghost predicate Silent(e: Step) {
    e.ServerReply? || e.Signal? || e.Close? || e.NoClient? || e.Dial? || e.DialOk? || e.DialFailed? ||
    e.OutOfRetries? || e.Exit? || e.Poll? || e.Reload? || e.SendOk?
  }

  lemma SilentKeepsRequests(s: Dispatcher, e: Step)
    requires RequestsSound(s) && Enabled(s, e) && Silent(e)
    ensures RequestsSound(Apply(s, e))
  {
    SameRequests(s, Apply(s, e));
  }

  lemma ApplyKeepsRequests(s: Dispatcher, e: Step)
    requires StreamsSound(s) && RequestsSound(s) && Enabled(s, e)
    ensures RequestsSound(Apply(s, e))
  {
    match e
    case Acquire => AcquireKeepsRequests(s);
    case Fetch => FetchKeepsRequests(s);
    case Revoke => RevokeKeepsRequests(s);
    case WaitDone(r) => WaitDoneKeepsRequests(s, r);
    case WaitCancelled(r) => WaitsKeepRequests(s, r, Failed);
    case WaitClosing(r) => WaitsKeepRequests(s, r, Failed);
    case Check => CheckKeepsRequests(s);
    case SendFailed(_) => FailureKeepsRequests(s, Apply(s, e), s.pc.r);
    case RecvOk => RecvKeepsRequests(s);
    case RecvFailed => FailureKeepsRequests(s, Apply(s, e), s.pc.r);
    case _ => SilentKeepsRequests(s, e);
  }

  lemma WaitDoneKeepsRequests(s: Dispatcher, r: nat)
    requires RequestsSound(s) && Enabled(s, WaitDone(r))
    ensures RequestsSound(Apply(s, WaitDone(r)))
  {
    assert RequestSound(s, r);
    if s.requests[r].done[0].Nil? && s.requests[r].buckets.Some? {
      WaitsKeepRequests(s, r, Buckets(s.requests[r].buckets.value));
    } else {
      WaitsKeepRequests(s, r, Failed);
    }
  }

  // ---------------------------------------------------------------------------
  // Every run
  // ---------------------------------------------------------------------------

  lemma {:induction false} RunsAreSound(run: seq<Step>)
    requires Exec(INITIAL, run).Some?
    ensures StreamsSound(Exec(INITIAL, run).value) && RequestsSound(Exec(INITIAL, run).value)
    decreases |run|
  {
    if run != [] {
      var front := run[..|run| - 1];
      RunsAreSound(front);
      var s := Exec(INITIAL, front).value;
      ApplyKeepsStreams(s, run[|run| - 1]);
      ApplyKeepsRequests(s, run[|run| - 1]);
    }
  }

  /** Whenever a caller's `wait` returns token buckets, they are the server's
      error-free reply to that very request. */
  lemma BucketsAnswerTheirRequest(run: seq<Step>, r: nat)
    requires Exec(INITIAL, run).Some? && r < |Exec(INITIAL, run).value.requests|
    ensures var q := Exec(INITIAL, run).value.requests[r];
            q.result.Buckets? ==> q.result.reply.request == r && !q.result.reply.error
  {
    RunsAreSound(run);
    assert RequestSound(Exec(INITIAL, run).value, r);
  }

  /** The step sends on the `done` channel of request `r`. */
  ghost predicate Completes(s: Dispatcher, e: Step, r: nat)
    requires Enabled(s, e)
  {
    r < |s.requests| && r < |Apply(s, e).requests| && Apply(s, e).requests[r].done != s.requests[r].done
  }

  lemma CompleteGrows(s: Dispatcher, p: nat, m: Message, r: nat)
    requires r < |s.requests|
    ensures r < |Complete(s, p, m).requests| && s.requests[r].done <= Complete(s, p, m).requests[r].done
  {
  }

  lemma LoseKeepsDone(s: Dispatcher, p: nat, loss: Loss, r: nat)
    requires r < |s.requests|
    ensures r < |Lose(s, p, loss).requests| && Lose(s, p, loss).requests[r].done == s.requests[r].done
  {
  }

  lemma CheckDoneGrows(s: Dispatcher, r: nat)
    requires Enabled(s, Check) && r < |s.requests|
    ensures r < |Apply(s, Check).requests| && s.requests[r].done <= Apply(s, Check).requests[r].done
  {
    CompleteGrows(s, s.pc.r, Failure, r);
    LoseKeepsDone(s, s.pc.r, StreamCancelled, r);
  }

  lemma ReceivedDoneGrows(s: Dispatcher, p: nat, reply: Reply, r: nat)
    requires r < |s.requests|
    ensures r < |Received(s, p, reply).requests| && s.requests[r].done <= Received(s, p, reply).requests[r].done
  {
    LoseKeepsDone(s, p, ErrorReply(reply), r);
    var t := WithBuckets(s, p, reply);
    assert t.requests[r].done == s.requests[r].done;
    CompleteGrows(t, p, Nil, r);
  }

  lemma FailureDoneGrows(s: Dispatcher, e: Step, r: nat)
    requires Enabled(s, e) && r < |s.requests| && (e.SendFailed? || e.RecvFailed?)
    ensures r < |Apply(s, e).requests| && s.requests[r].done <= Apply(s, e).requests[r].done
  {
    CompleteGrows(s, s.pc.r, Failure, r);
    assert Apply(s, e).requests == Complete(s, s.pc.r, Failure).requests;
  }

  lemma RecvDoneGrows(s: Dispatcher, r: nat)
    requires Enabled(s, RecvOk) && r < |s.requests|
    ensures r < |Apply(s, RecvOk).requests| && s.requests[r].done <= Apply(s, RecvOk).requests[r].done
  {
    var i := s.stream.value;
    var c := s.contexts[i];
    var u := s.(contexts := s.contexts[i := c.(received := c.received + 1)]);
    ReceivedDoneGrows(u, s.pc.r, c.replies[c.received], r);
  }

  lemma SilentDoneStays(s: Dispatcher, e: Step)
    requires Enabled(s, e) && (Silent(e) || e.Fetch?)
    ensures Apply(s, e).requests == s.requests
  {
  }

  lemma CallerDoneGrows(s: Dispatcher, e: Step, r: nat)
    requires Enabled(s, e) && r < |s.requests|
    requires e.Acquire? || e.WaitDone? || e.WaitCancelled? || e.WaitClosing?
    ensures r < |Apply(s, e).requests| && s.requests[r].done == Apply(s, e).requests[r].done
  {
  }

  lemma DoneOnlyGrows(s: Dispatcher, e: Step, r: nat)
    requires Enabled(s, e) && r < |s.requests|
    ensures r < |Apply(s, e).requests| && s.requests[r].done <= Apply(s, e).requests[r].done
  {
    match e
    case Check => CheckDoneGrows(s, r);
    case RecvOk => RecvDoneGrows(s, r);
    case SendFailed(_) => FailureDoneGrows(s, e, r);
    case RecvFailed => FailureDoneGrows(s, e, r);
    case Revoke => CompleteGrows(s, s.queue[0], Failure, r);
    case Acquire => CallerDoneGrows(s, e, r);
    case WaitDone(_) => CallerDoneGrows(s, e, r);
    case WaitCancelled(_) => CallerDoneGrows(s, e, r);
    case WaitClosing(_) => CallerDoneGrows(s, e, r);
    case _ => SilentDoneStays(s, e);
  }

  lemma AtMostOnce(s: Dispatcher, r: nat)
    requires RequestsSound(s) && r < |s.requests|
    ensures |s.requests[r].done| <= 1
  {
    assert RequestSound(s, r);
  }

  /** In every run each request is completed at most once, by the dispatcher or by
      the revocation after shutdown, so the one-slot channel is empty whenever
      something is sent on it and never blocks the sender. */
  lemma DoneNeverBlocks(run: seq<Step>, e: Step, r: nat)
    requires Exec(INITIAL, run).Some? && Enabled(Exec(INITIAL, run).value, e)
    requires Completes(Exec(INITIAL, run).value, e, r)
    ensures Exec(INITIAL, run).value.requests[r].done == []
    ensures |Apply(Exec(INITIAL, run).value, e).requests[r].done| == 1
  {
    RunsAreSound(run);
    var s := Exec(INITIAL, run).value;
    ApplyKeepsRequests(s, e);
    DoneOnlyGrows(s, e, r);
    AtMostOnce(s, r);
    AtMostOnce(Apply(s, e), r);
  }

  /** A request that has left the dispatcher was answered, or lost to an error
      reply of its own, or lost to shutdown. */
  lemma LostOnlyToErrorReplyOrShutdown(run: seq<Step>, r: nat)
    requires Exec(INITIAL, run).Some? && r < |Exec(INITIAL, run).value.requests|
    requires !Pending(Exec(INITIAL, run).value, r)
    ensures var s := Exec(INITIAL, run).value;
            var q := s.requests[r];
            || (|q.done| == 1 && q.lost.None?)
            || (q.done == [] && q.lost == Some(StreamCancelled) && s.closing)
            || (q.done == [] && q.lost.Some? && q.lost.value.ErrorReply? &&
                q.lost.value.reply.request == r && q.lost.value.reply.error)
  {
    RunsAreSound(run);
    assert RequestSound(Exec(INITIAL, run).value, r);
  }

  /** At every moment of every run at most one context is uncancelled, and a
      request is only ever sent on, or awaited from, an open stream from which
      every earlier reply has been read. */
  lemma OneOpenContext(run: seq<Step>)
    requires Exec(INITIAL, run).Some?
    ensures var s := Exec(INITIAL, run).value;
            && (forall i, j | 0 <= i < |s.contexts| && 0 <= j < |s.contexts| ::
                  !s.contexts[i].cancelled && !s.contexts[j].cancelled ==> i == j)
            && (s.pc.Sending? || s.pc.Receiving? ==>
                  && s.stream.Some? && s.stream.value < |s.contexts|
                  && !s.contexts[s.stream.value].cancelled
                  && |s.contexts[s.stream.value].sent| ==
                     s.contexts[s.stream.value].received + if s.pc.Receiving? then 1 else 0)
  {
    RunsAreSound(run);
    var s := Exec(INITIAL, run).value;
    forall i, j | 0 <= i < |s.contexts| && 0 <= j < |s.contexts| && !s.contexts[i].cancelled && !s.contexts[j].cancelled
      ensures i == j
    {
      assert Owned(s, i) && Owned(s, j);
    }
  }
}
