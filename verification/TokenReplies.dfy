/** What the dispatcher hands to its callers (pd/client/resource_manager_client.go):
    the buckets of the server's own replies, each to the request it answers, and the
    outcome of every step that can end or delay a request. */
module TokenReplies {

  import opened TokenDispatcher
  import opened Wrappers

  // ---------------------------------------------------------------------------
  // What is on a stream stays there
  // ---------------------------------------------------------------------------

  ghost predicate Extends(a: Context, b: Context) {
    a.sent <= b.sent && a.replies <= b.replies && a.received <= b.received
  }

  /** Steps of the dispatcher that touch a context. */
  ghost predicate TouchesContexts(e: Step) {
    e.ServerReply? || e.Dial? || e.DialFailed? || e.Poll? || e.Check? || e.SendOk? || e.SendFailed? || e.RecvOk? ||
    e.RecvFailed?
  }

  lemma OthersLeaveContexts(s: Dispatcher, e: Step)
    requires Enabled(s, e) && !TouchesContexts(e)
    ensures Apply(s, e).contexts == s.contexts
  {
  }

  /** At most more was sent, or the context was cancelled. */
  ghost predicate SameReplies(a: Context, b: Context) {
    a.replies == b.replies && a.received == b.received && a.sent <= b.sent
  }

  lemma CancelledSame(contexts: seq<Context>, c: Option<nat>, i: nat)
    requires i < |contexts|
    ensures SameReplies(contexts[i], Cancelled(contexts, c)[i])
  {
  }

  lemma SentSame(s: Dispatcher, c: Option<nat>, r: nat, i: nat)
    requires i < |s.contexts|
    ensures |WithSent(s, c, r).contexts| == |s.contexts| && SameReplies(s.contexts[i], WithSent(s, c, r).contexts[i])
  {
  }

  lemma SendSame(s: Dispatcher, e: Step, i: nat)
    requires Enabled(s, e) && i < |s.contexts| && (e.SendOk? || e.SendFailed?)
    ensures |Apply(s, e).contexts| == |s.contexts| && SameReplies(s.contexts[i], Apply(s, e).contexts[i])
  {
    SentSame(s, s.stream, s.pc.r, i);
    if e.SendFailed? {
      var t := if e.delivered then WithSent(s, s.stream, s.pc.r) else s;
      assert Apply(s, e).contexts == Cancelled(t.contexts, s.connection.cancel);
      CancelledSame(t.contexts, s.connection.cancel, i);
    }
  }

  lemma CheckSame(s: Dispatcher, i: nat)
    requires s.pc.Checking? && i < |s.contexts|
    ensures |Apply(s, Check).contexts| == |s.contexts| && SameReplies(s.contexts[i], Apply(s, Check).contexts[i])
  {
    CancelledSame(s.contexts, s.connection.cancel, i);
    assert Apply(s, Check).contexts == s.contexts || Apply(s, Check).contexts == Cancelled(s.contexts, s.connection.cancel);
  }

  lemma ConnectSame(s: Dispatcher, e: Step, i: nat)
    requires Enabled(s, e) && i < |s.contexts| && (e.Dial? || e.DialFailed? || e.Poll? || e.RecvFailed?)
    ensures i < |Apply(s, e).contexts| && SameReplies(s.contexts[i], Apply(s, e).contexts[i])
    ensures forall j :: |s.contexts| <= j < |Apply(s, e).contexts| ==> Apply(s, e).contexts[j] == Context(false, [], [], 0)
  {
    CancelledSame(s.contexts, s.connection.cancel, i);
    if e.DialFailed? { CancelledSame(s.contexts, Some(s.pc.context), i); }
  }

  /** Only the server adds replies, and only `RecvOk` reads them. */
  lemma OthersLeaveReplies(s: Dispatcher, e: Step, i: nat)
    requires Enabled(s, e) && !e.ServerReply? && !e.RecvOk? && i < |s.contexts|
    ensures i < |Apply(s, e).contexts| && SameReplies(s.contexts[i], Apply(s, e).contexts[i])
  {
    if !TouchesContexts(e) {
      OthersLeaveContexts(s, e);
    } else if e.SendOk? || e.SendFailed? {
      SendSame(s, e, i);
    } else if e.Check? {
      CheckSame(s, i);
    } else {
      ConnectSame(s, e, i);
    }
  }

  lemma ReceivedContexts(u: Dispatcher, r: nat, reply: Reply, i: nat)
    requires i < |u.contexts|
    ensures |Received(u, r, reply).contexts| == |u.contexts|
    ensures Received(u, r, reply).contexts[i].(cancelled := false) == u.contexts[i].(cancelled := false)
  {
  }

  lemma ReadKeepsContext(s: Dispatcher, i: nat)
    requires Enabled(s, RecvOk) && i < |s.contexts|
    ensures |Apply(s, RecvOk).contexts| == |s.contexts|
    ensures Apply(s, RecvOk).contexts[i].replies == s.contexts[i].replies
    ensures Apply(s, RecvOk).contexts[i].sent == s.contexts[i].sent
    ensures Apply(s, RecvOk).contexts[i].received == s.contexts[i].received + if i == s.stream.value then 1 else 0
  {
    var j := s.stream.value;
    var c := s.contexts[j];
    var u := s.(contexts := s.contexts[j := c.(received := c.received + 1)]);
    ReceivedContexts(u, s.pc.r, c.replies[c.received], i);
    assert Apply(s, RecvOk) == Received(u, s.pc.r, c.replies[c.received]);
  }

  lemma NewContextsAreEmpty(s: Dispatcher, e: Step, i: nat)
    requires Enabled(s, e) && |s.contexts| <= i < |Apply(s, e).contexts|
    ensures Apply(s, e).contexts[i] == Context(false, [], [], 0)
  {
    if !TouchesContexts(e) { OthersLeaveContexts(s, e); }
  }

  lemma ContextsExtend(s: Dispatcher, e: Step, i: nat)
    requires Enabled(s, e) && i < |s.contexts|
    ensures i < |Apply(s, e).contexts| && Extends(s.contexts[i], Apply(s, e).contexts[i])
  {
    if e.RecvOk? {
      ReadKeepsContext(s, i);
    } else if !e.ServerReply? {
      OthersLeaveReplies(s, e, i);
    }
  }

  // ---------------------------------------------------------------------------
  // Buckets are replies that were read
  // ---------------------------------------------------------------------------

  /** `reply` is the k-th reply of context `i`, has been read, and answers the k-th
      request sent there, which is `r`. */
  ghost predicate WasRead(s: Dispatcher, r: nat, reply: Reply, i: nat, k: nat) {
    && i < |s.contexts| && k < s.contexts[i].received <= |s.contexts[i].replies| <= |s.contexts[i].sent|
    && s.contexts[i].replies[k] == reply && s.contexts[i].sent[k] == r
  }

  ghost predicate Backed(s: Dispatcher, r: nat)
    requires r < |s.requests|
  {
    s.requests[r].buckets.Some? ==> exists i, k :: WasRead(s, r, s.requests[r].buckets.value, i, k)
  }

  lemma StaysRead(s: Dispatcher, e: Step, r: nat, reply: Reply, i: nat, k: nat)
    requires Enabled(s, e) && StreamsSound(Apply(s, e)) && WasRead(s, r, reply, i, k)
    ensures WasRead(Apply(s, e), r, reply, i, k)
  {
    ContextsExtend(s, e, i);
    assert Fifo(Apply(s, e).contexts[i]);
  }

  lemma OthersLeaveBuckets(s: Dispatcher, e: Step, r: nat)
    requires Enabled(s, e) && !e.RecvOk? && r < |Apply(s, e).requests|
    ensures r < |s.requests| ==> Apply(s, e).requests[r].buckets == s.requests[r].buckets
    ensures r >= |s.requests| ==> Apply(s, e).requests[r].buckets.None?
  {
    if Silent(e) || e.Fetch? {
      SilentDoneStays(s, e);
    } else if e.Check? {
      CheckLeavesBuckets(s, r);
    }
  }

  lemma CheckLeavesBuckets(s: Dispatcher, r: nat)
    requires s.pc.Checking? && r < |Apply(s, Check).requests|
    ensures r < |s.requests| && Apply(s, Check).requests[r].buckets == s.requests[r].buckets
  {
  }

  /** The reply that `RecvOk` reads next. */
  ghost function NextReply(s: Dispatcher): Reply
    requires Enabled(s, RecvOk)
  {
    var c := s.contexts[s.stream.value];
    c.replies[c.received]
  }

  /** Reading a reply: it belongs to the request in hand, and only that request
      changes, to completed with these buckets or to lost by this error. */
  lemma RecvOutcome(s: Dispatcher)
    requires StreamsSound(s) && RequestsSound(s) && Enabled(s, RecvOk)
    ensures var t, reply, r := Apply(s, RecvOk), NextReply(s), s.pc.r;
            var i := s.stream.value;
            && r < |s.requests| && t.pc.Head?
            && WasRead(t, r, reply, i, s.contexts[i].received)
            && |t.contexts| == |s.contexts|
            && t.contexts[i].received == s.contexts[i].received + 1
            && t.contexts[i].replies == s.contexts[i].replies && t.contexts[i].sent == s.contexts[i].sent
            && t.requests == s.requests[r :=
                 if reply.error then s.requests[r].(lost := Some(ErrorReply(reply)))
                 else s.requests[r].(buckets := Some(reply), done := s.requests[r].done + [Nil])]
  {
    assert Fifo(s.contexts[s.stream.value]);
  }

  lemma ApplyKeepsBacked(s: Dispatcher, e: Step, r: nat)
    requires StreamsSound(s) && RequestsSound(s) && Enabled(s, e)
    requires r < |s.requests| ==> Backed(s, r)
    requires r < |Apply(s, e).requests|
    ensures Backed(Apply(s, e), r)
  {
    var t := Apply(s, e);
    ApplyKeepsStreams(s, e);
    if e.RecvOk? { RecvOutcome(s); } else { OthersLeaveBuckets(s, e, r); }
    if r < |s.requests| && t.requests[r].buckets == s.requests[r].buckets && s.requests[r].buckets.Some? {
      var reply := s.requests[r].buckets.value;
      var i, k :| WasRead(s, r, reply, i, k);
      StaysRead(s, e, r, reply, i, k);
    }
  }

  lemma {:induction false} RunsAreBacked(run: seq<Step>, r: nat)
    requires Exec(INITIAL, run).Some? && r < |Exec(INITIAL, run).value.requests|
    ensures Backed(Exec(INITIAL, run).value, r)
    decreases |run|
  {
    if run != [] {
      var front := run[..|run| - 1];
      RunsAreSound(front);
      var s := Exec(INITIAL, front).value;
      if r < |s.requests| { RunsAreBacked(front, r); }
      ApplyKeepsBacked(s, run[|run| - 1], r);
    }
  }

  /** Whenever a caller's `wait` returns token buckets, they are, word for word, a
      reply that the dispatcher read from a stream on which it had sent this very
      request at the same position. */
  lemma BucketsAreTheServersReply(run: seq<Step>, r: nat)
    requires Exec(INITIAL, run).Some? && r < |Exec(INITIAL, run).value.requests|
    ensures var s := Exec(INITIAL, run).value;
            s.requests[r].result.Buckets? ==> exists i, k :: WasRead(s, r, s.requests[r].result.reply, i, k)
  {
    RunsAreSound(run);
    RunsAreBacked(run, r);
    assert RequestSound(Exec(INITIAL, run).value, r);
  }

  /** Every reply on a stream was sent by the server in this run, with this content. */
  lemma {:induction false} RepliesComeFromServer(run: seq<Step>, i: nat, k: nat)
    requires Exec(INITIAL, run).Some? && i < |Exec(INITIAL, run).value.contexts|
    requires k < |Exec(INITIAL, run).value.contexts[i].replies|
    ensures var reply := Exec(INITIAL, run).value.contexts[i].replies[k];
            ServerReply(i, reply.error, reply.buckets) in run
    decreases |run|
  {
    var front, e := run[..|run| - 1], run[|run| - 1];
    var s := Exec(INITIAL, front).value;
    if i >= |s.contexts| {
      NewContextsAreEmpty(s, e, i);
    } else {
      ContextsExtend(s, e, i);
      if k < |s.contexts[i].replies| {
        RepliesComeFromServer(front, i, k);
      } else {
        OnlyServerAdds(s, e, i);
        assert e in run;
      }
    }
  }

  lemma OnlyServerAdds(s: Dispatcher, e: Step, i: nat)
    requires Enabled(s, e) && i < |s.contexts| && i < |Apply(s, e).contexts|
    requires |s.contexts[i].replies| < |Apply(s, e).contexts[i].replies|
    ensures e.ServerReply? && e.context == i
    ensures var replies := Apply(s, e).contexts[i].replies;
            |replies| == |s.contexts[i].replies| + 1 &&
            replies[|replies| - 1].error == e.error && replies[|replies| - 1].buckets == e.buckets
  {
    if e.RecvOk? {
      ReadKeepsContext(s, i);
    } else if !e.ServerReply? {
      OthersLeaveReplies(s, e, i);
    }
  }

  // ---------------------------------------------------------------------------
  // Every reply that was read reached its request
  // ---------------------------------------------------------------------------

  /** An error loses its request; any other reply is its request's buckets, and the
      request has been told so. */
  ghost predicate Reached(s: Dispatcher, i: nat, k: nat) {
    && i < |s.contexts| && k < |s.contexts[i].replies| && k < |s.contexts[i].sent|
    && var reply, r := s.contexts[i].replies[k], s.contexts[i].sent[k];
    && r < |s.requests|
    && if reply.error then s.requests[r].lost == Some(ErrorReply(reply)) && s.requests[r].done == []
       else s.requests[r].buckets == Some(reply) && s.requests[r].done == [Nil] && s.requests[r].lost.None?
  }

  /** The part of a request that the dispatcher decides. */
  ghost predicate SameFate(a: Request, b: Request) {
    a.done == b.done && a.buckets == b.buckets && a.lost == b.lost
  }

  lemma CallersLeaveFate(s: Dispatcher, e: Step, r: nat)
    requires Enabled(s, e) && r < |s.requests|
    requires e.Acquire? || e.WaitDone? || e.WaitCancelled? || e.WaitClosing? || Silent(e) || e.Fetch?
    ensures r < |Apply(s, e).requests| && SameFate(Apply(s, e).requests[r], s.requests[r])
  {
    if Silent(e) || e.Fetch? { SilentDoneStays(s, e); }
  }

  lemma FinishersLeaveOthers(s: Dispatcher, e: Step, r: nat)
    requires Enabled(s, e) && r < |s.requests| && !Pending(s, r)
    requires e.Check? || e.SendFailed? || e.RecvFailed? || e.Revoke?
    ensures r < |Apply(s, e).requests| && Apply(s, e).requests[r] == s.requests[r]
  {
    if e.Revoke? { assert s.queue[0] in s.queue; }
  }

  lemma FinishedStays(s: Dispatcher, e: Step, r: nat)
    requires StreamsSound(s) && RequestsSound(s) && Enabled(s, e) && r < |s.requests| && !Pending(s, r)
    ensures r < |Apply(s, e).requests| && SameFate(Apply(s, e).requests[r], s.requests[r])
  {
    if e.RecvOk? {
      RecvOutcome(s);
    } else if e.Check? || e.SendFailed? || e.RecvFailed? || e.Revoke? {
      FinishersLeaveOthers(s, e, r);
    } else {
      CallersLeaveFate(s, e, r);
    }
  }

  lemma StaysReached(s: Dispatcher, e: Step, i: nat, k: nat)
    requires StreamsSound(s) && RequestsSound(s) && Enabled(s, e) && Reached(s, i, k)
    ensures Reached(Apply(s, e), i, k)
  {
    var r := s.contexts[i].sent[k];
    ContextsExtend(s, e, i);
    assert RequestSound(s, r);
    FinishedStays(s, e, r);
  }

  lemma StepDelivers(s: Dispatcher, e: Step, i: nat, k: nat)
    requires StreamsSound(s) && RequestsSound(s) && Enabled(s, e)
    requires i < |s.contexts| && k < s.contexts[i].received ==> Reached(s, i, k)
    requires i < |Apply(s, e).contexts| && k < Apply(s, e).contexts[i].received
    ensures Reached(Apply(s, e), i, k)
  {
    if i >= |s.contexts| {
      NewContextsAreEmpty(s, e, i);
    } else if k < s.contexts[i].received {
      StaysReached(s, e, i, k);
    } else {
      OnlyRecvReads(s, e, i);
      ReadReaches(s);
    }
  }

  /** In every run, every reply that was read has reached the request it answers. */
  lemma {:induction false} EveryReadReplyIsDelivered(run: seq<Step>, i: nat, k: nat)
    requires Exec(INITIAL, run).Some? && i < |Exec(INITIAL, run).value.contexts|
    requires k < Exec(INITIAL, run).value.contexts[i].received
    ensures Reached(Exec(INITIAL, run).value, i, k)
    decreases |run|
  {
    if run != [] {
      var front := run[..|run| - 1];
      RunsAreSound(front);
      var s := Exec(INITIAL, front).value;
      if i < |s.contexts| && k < s.contexts[i].received { EveryReadReplyIsDelivered(front, i, k); }
      StepDelivers(s, run[|run| - 1], i, k);
    }
  }

  lemma OnlyRecvReads(s: Dispatcher, e: Step, i: nat)
    requires Enabled(s, e) && i < |s.contexts| && i < |Apply(s, e).contexts|
    requires s.contexts[i].received < Apply(s, e).contexts[i].received
    ensures e.RecvOk? && s.stream == Some(i) && Apply(s, e).contexts[i].received == s.contexts[i].received + 1
  {
    if e.RecvOk? {
      ReadKeepsContext(s, i);
    } else if !e.ServerReply? {
      OthersLeaveReplies(s, e, i);
    }
  }

  lemma ReadReaches(s: Dispatcher)
    requires StreamsSound(s) && RequestsSound(s) && Enabled(s, RecvOk)
    ensures Reached(Apply(s, RecvOk), s.stream.value, s.contexts[s.stream.value].received)
  {
    RecvOutcome(s);
    assert RequestSound(s, s.pc.r);
  }

  // ---------------------------------------------------------------------------
  // The outcome of the steps that end or delay a request
  // ---------------------------------------------------------------------------

  /** `wait` on a completed request returns its buckets exactly when the message on
      `done` is nil, and an error otherwise. */
  lemma WaitReturnsIff(run: seq<Step>, r: nat)
    requires Exec(INITIAL, run).Some? && Enabled(Exec(INITIAL, run).value, WaitDone(r))
    ensures var s := Exec(INITIAL, run).value;
            var q := s.requests[r];
            && |q.done| == 1
            && (q.done[0].Nil? ==> q.buckets.Some?)
            && Apply(s, WaitDone(r)).requests[r] ==
               q.(result := if q.done[0].Nil? && q.buckets.Some? then Buckets(q.buckets.value) else Failed)
  {
    RunsAreSound(run);
    assert RequestSound(Exec(INITIAL, run).value, r);
  }

  /** A wait that is cancelled or meets shutdown returns an error. */
  lemma CutWaitsFail(s: Dispatcher, e: Step)
    requires Enabled(s, e) && (e.WaitCancelled? || e.WaitClosing?)
    ensures Apply(s, e) == s.(requests := s.requests[e.r := s.requests[e.r].(result := Failed)])
  {
  }

  /** Requests are taken and revoked in the order they came. */
  lemma OldestFirst(s: Dispatcher)
    ensures Enabled(s, Fetch) ==> Apply(s, Fetch) == s.(queue := s.queue[1..], pc := Fetched(s.queue[0]))
    ensures Enabled(s, Acquire) ==>
              && Apply(s, Acquire).queue == s.queue + [|s.requests|]
              && |Apply(s, Acquire).requests| == |s.requests| + 1
  {
  }

  /** A leader change, or the lack of a stream, and nothing else, makes the dispatcher
      give its stream up and connect anew, with six tries, before it goes on. */
  lemma ReconnectsIff(s: Dispatcher)
    requires StreamsSound(s) && s.pc.Fetched?
    ensures var t := Apply(s, Poll);
            && !t.updateSignal
            && t.requests == s.requests && t.queue == s.queue
            && if s.updateSignal || s.connection.stream.None? then
                 && t.pc == Connecting(6, Some(s.pc.r)) && t.connection.stream.None?
                 && forall i :: 0 <= i < |t.contexts| ==> t.contexts[i].cancelled
               else
                 t.pc == Checking(s.pc.r) && t.contexts == s.contexts && t.connection == s.connection
  {
    forall i | 0 <= i < |s.contexts| && !s.contexts[i].cancelled
      ensures s.connection.stream == Some(i)
    {
      OnlyHeldIsOpen(s, i);
    }
  }

  /** A leader change is remembered, shutdown is for good, and only after it the
      dispatcher leaves its loop and gives up connecting before the sixth try. */
  lemma SignalsTakeEffect(s: Dispatcher)
    ensures Apply(s, Signal) == s.(updateSignal := true)
    ensures Apply(s, Close) == s.(closing := true)
    ensures Enabled(s, Exit) <==> s.pc.Head? && s.closing
    ensures Enabled(s, Exit) ==> Apply(s, Exit) == s.(pc := Exited)
    ensures Enabled(s, DialFailed(true)) <==> s.pc.Dialing? && s.closing
  {
  }

  lemma HeldIsUntouched(s: Dispatcher, r: nat)
    requires RequestsSound(s) && Pending(s, r)
    ensures r < |s.requests| && s.requests[r].done == []
  {
    assert RequestSound(s, r);
  }

  lemma FailedWith(s: Dispatcher, r: nat)
    requires r < |s.requests| && s.requests[r].done == []
    ensures Complete(s, r, Failure).requests == s.requests[r := s.requests[r].(done := [Failure])]
  {
    assert [] + [Failure] == [Failure];
  }

  /** Before it sends: without a stream the request fails, after shutdown it is
      dropped, and otherwise it is sent. */
  lemma CheckOutcome(s: Dispatcher)
    requires StreamsSound(s) && RequestsSound(s) && s.pc.Checking?
    ensures var t, r := Apply(s, Check), s.pc.r;
            && r < |s.requests|
            && if s.connection.stream.None? then
                 t.pc.Head? && t.requests == s.requests[r := s.requests[r].(done := [Failure])]
               else if s.closing then
                 t.pc.Head? && t.requests == s.requests[r := s.requests[r].(lost := Some(StreamCancelled))]
               else
                 t.pc == Sending(r) && t.requests == s.requests
  {
    HeldIsUntouched(s, s.pc.r);
    FailedWith(s, s.pc.r);
  }

  /** A failed send or receive fails the request and gives the stream up. */
  lemma StreamFailureOutcome(s: Dispatcher, e: Step)
    requires StreamsSound(s) && RequestsSound(s) && Enabled(s, e) && (e.SendFailed? || e.RecvFailed?)
    ensures var t, r := Apply(s, e), s.pc.r;
            && r < |s.requests| && t.pc.Head? && t.connection.stream.None?
            && t.requests == s.requests[r := s.requests[r].(done := [Failure])]
  {
    HeldIsUntouched(s, s.pc.r);
    FailedWith(s, s.pc.r);
    assert Apply(s, e).requests == Complete(s, s.pc.r, Failure).requests;
  }

  /** After the dispatcher has gone, what is still queued is failed. */
  lemma RevokeOutcome(s: Dispatcher)
    requires RequestsSound(s) && Enabled(s, Revoke)
    ensures var r := s.queue[0];
            && r < |s.requests|
            && Apply(s, Revoke) == s.(queue := s.queue[1..], requests := s.requests[r := s.requests[r].(done := [Failure])])
  {
    var r := s.queue[0];
    assert r in s.queue;
    HeldIsUntouched(s, r);
    FailedWith(s.(queue := s.queue[1..]), r);
  }
}
