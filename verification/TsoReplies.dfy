/** What `getGlobalTSO` returns (pd/server/forward.go): the server's own timestamp for
    the caller's own request, with at most six requests per call and none sent twice,
    and the outcome of every error. */
module TsoReplies {

  import opened TsoForward
  import opened Wrappers

  // ---------------------------------------------------------------------------
  // What is on a stream stays there
  // ---------------------------------------------------------------------------

  ghost predicate Extends(a: Stream, b: Stream) {
    a.host == b.host && a.sent <= b.sent && a.replies <= b.replies && a.received <= b.received
  }

  lemma StreamsExtend(s: Server, e: Step, i: nat)
    requires Enabled(s, e) && i < |s.streams|
    ensures i < |Apply(s, e).streams| && Extends(s.streams[i], Apply(s, e).streams[i])
  {
    StepSizes(s, e);
    if StreamStep(e) {
      if s.threads[e.t].pc.stream != i { OtherStreamUntouched(s, e, i); } else { OwnStreamExtends(s, e); }
    }
  }

  lemma OwnStreamExtends(s: Server, e: Step)
    requires Enabled(s, e) && StreamStep(e) && s.threads[e.t].pc.stream < |s.streams|
    ensures var i := s.threads[e.t].pc.stream;
            i < |Apply(s, e).streams| && Extends(s.streams[i], Apply(s, e).streams[i])
  {
  }

  // ---------------------------------------------------------------------------
  // The timestamp is the server's
  // ---------------------------------------------------------------------------

  /** `reply` is the k-th reply of stream `i`, has been read, and answers the k-th
      request sent there, which is `call`. */
  ghost predicate WasRead(s: Server, call: Call, reply: Reply, i: nat, k: nat) {
    && i < |s.streams| && k < s.streams[i].received <= |s.streams[i].replies| <= |s.streams[i].sent|
    && s.streams[i].replies[k] == reply && s.streams[i].sent[k] == call
  }

  ghost predicate Backed(s: Server, t: nat)
    requires t < |s.threads|
  {
    s.threads[t].pc.Succeeded? ==> exists i, k :: WasRead(s, CallOf(s, t), s.threads[t].pc.reply, i, k)
  }

  lemma StaysRead(s: Server, e: Step, call: Call, reply: Reply, i: nat, k: nat)
    requires Enabled(s, e) && Sound(Apply(s, e)) && WasRead(s, call, reply, i, k)
    ensures WasRead(Apply(s, e), call, reply, i, k)
  {
    StreamsExtend(s, e, i);
    assert StreamSound(Apply(s, e), i);
  }

  lemma OthersStay(s: Server, e: Step, t: nat)
    requires Enabled(s, e) && t < |s.threads| && (e.ServerReply? || e.Break? || e.t != t)
    ensures t < |Apply(s, e).threads| && Apply(s, e).threads[t] == s.threads[t]
  {
  }

  /** Reading a reply: the whole outcome for the goroutine and its stream. */
  lemma RecvOutcome(s: Server, t: nat)
    requires Sound(s) && Enabled(s, RecvOk(t))
    ensures var i := s.threads[t].pc.stream;
            var x, u := s.streams[i], Apply(s, RecvOk(t));
            && u == s.(threads := s.threads[t := s.threads[t].(pc := Succeeded(x.replies[x.received]))],
                       streams := s.streams[i := x.(received := x.received + 1, lock := None)])
            && WasRead(u, CallOf(s, t), x.replies[x.received], i, x.received)
  {
    assert ThreadSound(s, t);
    assert StreamSound(s, s.threads[t].pc.stream);
    assert HoldsStream(s.threads[t].pc, s.threads[t].pc.stream);
  }

  lemma OnlyRecvSucceeds(s: Server, e: Step, t: nat)
    requires Enabled(s, e) && t < |s.threads| && !e.ServerReply? && !e.Break? && e.t == t && !e.RecvOk?
    ensures t < |Apply(s, e).threads| && !Apply(s, e).threads[t].pc.Succeeded?
  {
  }

  lemma ApplyKeepsBacked(s: Server, e: Step, t: nat)
    requires Sound(s) && Enabled(s, e) && t < |s.threads| && Backed(s, t)
    ensures t < |Apply(s, e).threads| && Backed(Apply(s, e), t)
  {
    ApplyKeepsSound(s, e);
    if e.ServerReply? || e.Break? || e.t != t {
      OthersStay(s, e, t);
      if s.threads[t].pc.Succeeded? {
        var reply := s.threads[t].pc.reply;
        var i, k :| WasRead(s, CallOf(s, t), reply, i, k);
        StaysRead(s, e, CallOf(s, t), reply, i, k);
        assert WasRead(Apply(s, e), CallOf(Apply(s, e), t), reply, i, k);
      }
    } else if e.RecvOk? {
      RecvOutcome(s, t);
      var i, u := s.threads[t].pc.stream, Apply(s, e);
      assert WasRead(u, CallOf(u, t), u.threads[t].pc.reply, i, s.streams[i].received);
    } else {
      OnlyRecvSucceeds(s, e, t);
    }
  }

  lemma {:induction false} RunsAreBacked(n: nat, run: seq<Step>, t: nat)
    requires Exec(Initial(n), run).Some? && t < |Exec(Initial(n), run).value.threads|
    ensures Backed(Exec(Initial(n), run).value, t)
    decreases |run|
  {
    if run != [] {
      var front, e := run[..|run| - 1], run[|run| - 1];
      var s := Exec(Initial(n), front).value;
      StepSizes(s, e);
      RunsAreSound(n, front);
      RunsAreBacked(n, front, t);
      ApplyKeepsBacked(s, e, t);
    }
  }

  /** A returned timestamp is, digit for digit, a reply that was read from a stream on
      which this caller had sent, at the same position, the request of its last try. */
  lemma TimestampIsTheServersReply(n: nat, run: seq<Step>, t: nat)
    requires Exec(Initial(n), run).Some? && t < |Exec(Initial(n), run).value.threads|
    ensures var s := Exec(Initial(n), run).value;
            s.threads[t].pc.Succeeded? ==>
              exists i, k :: WasRead(s, Call(t, s.threads[t].left), s.threads[t].pc.reply, i, k)
  {
    RunsAreBacked(n, run, t);
  }

  /** No two callers return the same reply of a stream. */
  lemma NoReplyIsShared(n: nat, run: seq<Step>, t: nat, u: nat, i: nat, k: nat)
    requires Exec(Initial(n), run).Some?
    requires var s := Exec(Initial(n), run).value;
             && t < |s.threads| && u < |s.threads| && s.threads[t].pc.Succeeded? && s.threads[u].pc.Succeeded?
             && WasRead(s, CallOf(s, t), s.threads[t].pc.reply, i, k)
             && WasRead(s, CallOf(s, u), s.threads[u].pc.reply, i, k)
    ensures t == u
  {
  }

  lemma OnlyServerAdds(s: Server, e: Step, i: nat)
    requires Enabled(s, e) && i < |s.streams| && !e.ServerReply?
    ensures i < |Apply(s, e).streams| && Apply(s, e).streams[i].replies == s.streams[i].replies
  {
    StepSizes(s, e);
    if StreamStep(e) {
      if s.threads[e.t].pc.stream != i { OtherStreamUntouched(s, e, i); } else { OwnRepliesStay(s, e); }
    }
  }

  lemma OwnRepliesStay(s: Server, e: Step)
    requires Enabled(s, e) && StreamStep(e) && s.threads[e.t].pc.stream < |s.streams|
    ensures var i := s.threads[e.t].pc.stream;
            i < |Apply(s, e).streams| && Apply(s, e).streams[i].replies == s.streams[i].replies
  {
  }

  lemma NewStreamsAreEmpty(s: Server, e: Step, i: nat)
    requires Enabled(s, e) && |s.streams| <= i < |Apply(s, e).streams|
    ensures Apply(s, e).streams[i].replies == [] && Apply(s, e).streams[i].sent == []
  {
    StepSizes(s, e);
  }

  /** Every reply on a stream was sent by the server in this run, with this timestamp. */
  lemma {:induction false} RepliesComeFromServer(n: nat, run: seq<Step>, i: nat, k: nat)
    requires Exec(Initial(n), run).Some? && i < |Exec(Initial(n), run).value.streams|
    requires k < |Exec(Initial(n), run).value.streams[i].replies|
    ensures ServerReply(i, Exec(Initial(n), run).value.streams[i].replies[k].timestamp) in run
    decreases |run|
  {
    if run != [] {
      var front, e := run[..|run| - 1], run[|run| - 1];
      var s := Exec(Initial(n), front).value;
      assert e in run;
      if i >= |s.streams| {
        NewStreamsAreEmpty(s, e, i);
      } else {
        if !e.ServerReply? { OnlyServerAdds(s, e, i); }
        if k < |s.streams[i].replies| { RepliesComeFromServer(n, front, i, k); }
      }
    }
  }

  // ---------------------------------------------------------------------------
  // At most six requests, none twice
  // ---------------------------------------------------------------------------

  /** The goroutine may already have sent the request of its current try. */
  ghost predicate MaySent(pc: Pc) {
    pc.Awaiting? || pc.DropLocked? || pc.Drop? || pc.Succeeded? || pc.Failed?
  }

  /** The call at position `k` of stream `i` belongs to a try that is over, or to the
      current one if that has got so far; tries are numbered 6 down to 1. */
  ghost predicate Tried(s: Server, i: nat, k: nat)
    requires i < |s.streams| && k < |s.streams[i].sent|
  {
    var c := s.streams[i].sent[k];
    && c.thread < |s.threads| && 1 <= c.left <= 6
    && s.threads[c.thread].left <= c.left
    && (s.threads[c.thread].left == c.left ==> MaySent(s.threads[c.thread].pc))
  }

  /** A goroutine that is trying has tries left. */
  ghost predicate Counting(s: Server, t: nat)
    requires t < |s.threads|
  {
    var pc := s.threads[t].pc;
    s.threads[t].left <= 6 && (!pc.Start? && !pc.Failed? ==> s.threads[t].left >= 1)
  }

  ghost predicate Numbered(s: Server) {
    && (forall t :: 0 <= t < |s.threads| ==> Counting(s, t))
    && (forall i, k :: 0 <= i < |s.streams| && 0 <= k < |s.streams[i].sent| ==> Tried(s, i, k))
    && (forall i, k, j, l
          | 0 <= i < |s.streams| && 0 <= k < |s.streams[i].sent| && 0 <= j < |s.streams| && 0 <= l < |s.streams[j].sent|
          :: s.streams[i].sent[k] == s.streams[j].sent[l] ==> i == j && k == l)
  }

  /** The step sends the request of the current try. */
  ghost predicate Sends(e: Step) { e.SendOk? || (e.SendFailed? && e.delivered) }

  lemma QuietKeepsSent(s: Server, e: Step, i: nat)
    requires Enabled(s, e) && !Sends(e) && i < |s.streams|
    ensures i < |Apply(s, e).streams| && Apply(s, e).streams[i].sent == s.streams[i].sent
  {
    StepSizes(s, e);
    if StreamStep(e) {
      if s.threads[e.t].pc.stream != i { OtherStreamUntouched(s, e, i); } else { QuietKeepsOwnSent(s, e); }
    }
  }

  lemma QuietKeepsOwnSent(s: Server, e: Step)
    requires Enabled(s, e) && !Sends(e) && StreamStep(e) && s.threads[e.t].pc.stream < |s.streams|
    ensures var i := s.threads[e.t].pc.stream;
            i < |Apply(s, e).streams| && Apply(s, e).streams[i].sent == s.streams[i].sent
  {
  }

  lemma SendAppends(s: Server, e: Step)
    requires Enabled(s, e) && Sends(e)
    ensures var i := s.threads[e.t].pc.stream;
            var u := Apply(s, e);
            && |u.streams| == |s.streams| && u.streams[i].sent == s.streams[i].sent + [CallOf(s, e.t)]
            && forall j :: 0 <= j < |s.streams| && j != i ==> u.streams[j] == s.streams[j]
  {
  }

  /** How a step moves a goroutine through its tries. */
  lemma TriesMove(s: Server, e: Step, t: nat)
    requires Enabled(s, e) && t < |s.threads| && Counting(s, t)
    ensures var u := Apply(s, e);
            && t < |u.threads| && Counting(u, t)
            && u.threads[t].left <= s.threads[t].left
            && (u.threads[t].left == s.threads[t].left && MaySent(s.threads[t].pc) ==> MaySent(u.threads[t].pc))
            && (Sends(e) && e.t == t ==>
                  s.threads[t].pc.Locked? && s.threads[t].left >= 1 &&
                  (u.threads[t].left == s.threads[t].left ==> MaySent(u.threads[t].pc)))
  {
    if e.ServerReply? || e.Break? || e.t != t { OthersStay(s, e, t); } else { OwnTriesMove(s, e); }
  }

  lemma OwnTriesMove(s: Server, e: Step)
    requires Enabled(s, e) && !e.ServerReply? && !e.Break? && Counting(s, e.t)
    ensures var u, t := Apply(s, e), e.t;
            && t < |u.threads| && Counting(u, t)
            && u.threads[t].left <= s.threads[t].left
            && (u.threads[t].left == s.threads[t].left && MaySent(s.threads[t].pc) ==> MaySent(u.threads[t].pc))
            && (Sends(e) ==>
                  s.threads[t].pc.Locked? && s.threads[t].left >= 1 &&
                  (u.threads[t].left == s.threads[t].left ==> MaySent(u.threads[t].pc)))
  {
  }

  lemma OldCallStaysTried(s: Server, e: Step, i: nat, k: nat)
    requires Numbered(s) && Enabled(s, e) && i < |s.streams| && k < |s.streams[i].sent|
    ensures i < |Apply(s, e).streams| && k < |Apply(s, e).streams[i].sent|
    ensures Apply(s, e).streams[i].sent[k] == s.streams[i].sent[k] && Tried(Apply(s, e), i, k)
  {
    StreamsExtend(s, e, i);
    assert Tried(s, i, k);
    TriesMove(s, e, s.streams[i].sent[k].thread);
  }

  lemma QuietKeepsNumbered(s: Server, e: Step)
    requires Numbered(s) && Enabled(s, e) && !Sends(e)
    ensures Numbered(Apply(s, e))
  {
    var u := Apply(s, e);
    StepSizes(s, e);
    forall t | 0 <= t < |u.threads| ensures Counting(u, t) { TriesMove(s, e, t); }
    forall i | 0 <= i < |u.streams|
      ensures if i < |s.streams| then u.streams[i].sent == s.streams[i].sent else u.streams[i].sent == []
    {
      if i < |s.streams| { QuietKeepsSent(s, e, i); } else { NewStreamsAreEmpty(s, e, i); }
    }
    forall i, k | 0 <= i < |u.streams| && 0 <= k < |u.streams[i].sent| ensures Tried(u, i, k) {
      OldCallStaysTried(s, e, i, k);
    }
  }

  /** The call that is sent has not been sent before. */
  lemma CallIsNew(s: Server, e: Step, i: nat, k: nat)
    requires Numbered(s) && Enabled(s, e) && Sends(e) && i < |s.streams| && k < |s.streams[i].sent|
    ensures s.streams[i].sent[k] != CallOf(s, e.t)
  {
    assert Tried(s, i, k);
    assert Counting(s, e.t);
    TriesMove(s, e, e.t);
  }

  lemma SentStaysUnique(s: Server, e: Step, i: nat, k: nat, j: nat, l: nat)
    requires Numbered(s) && Enabled(s, e) && Sends(e)
    requires var u := Apply(s, e);
             && i < |u.streams| && k < |u.streams[i].sent| && j < |u.streams| && l < |u.streams[j].sent|
             && u.streams[i].sent[k] == u.streams[j].sent[l]
    ensures i == j && k == l
  {
    SendAppends(s, e);
    if k < |s.streams[i].sent| { OldCallStaysTried(s, e, i, k); CallIsNew(s, e, i, k); }
    if l < |s.streams[j].sent| { OldCallStaysTried(s, e, j, l); CallIsNew(s, e, j, l); }
  }

  lemma SentStaysTried(s: Server, e: Step, i: nat, k: nat)
    requires Numbered(s) && Enabled(s, e) && Sends(e)
    requires i < |Apply(s, e).streams| && k < |Apply(s, e).streams[i].sent|
    ensures Tried(Apply(s, e), i, k)
  {
    SendAppends(s, e);
    assert Counting(s, e.t);
    TriesMove(s, e, e.t);
    if k < |s.streams[i].sent| { OldCallStaysTried(s, e, i, k); }
  }

  lemma SendKeepsNumbered(s: Server, e: Step)
    requires Numbered(s) && Enabled(s, e) && Sends(e)
    ensures Numbered(Apply(s, e))
  {
    var u := Apply(s, e);
    StepSizes(s, e);
    forall t | 0 <= t < |u.threads| ensures Counting(u, t) { TriesMove(s, e, t); }
    forall i, k | 0 <= i < |u.streams| && 0 <= k < |u.streams[i].sent| ensures Tried(u, i, k) {
      SentStaysTried(s, e, i, k);
    }
    forall i, k, j, l |
      0 <= i < |u.streams| && 0 <= k < |u.streams[i].sent| && 0 <= j < |u.streams| && 0 <= l < |u.streams[j].sent| &&
      u.streams[i].sent[k] == u.streams[j].sent[l]
      ensures i == j && k == l
    {
      SentStaysUnique(s, e, i, k, j, l);
    }
  }

  /** In every interleaving no request is sent twice, on whatever stream, and every
      request is one of the six tries of its goroutine. */
  lemma {:induction false} SixTriesEachSentOnce(n: nat, run: seq<Step>)
    requires Exec(Initial(n), run).Some?
    ensures Numbered(Exec(Initial(n), run).value)
    decreases |run|
  {
    if run != [] {
      var front, e := run[..|run| - 1], run[|run| - 1];
      SixTriesEachSentOnce(n, front);
      var s := Exec(Initial(n), front).value;
      if Sends(e) { SendKeepsNumbered(s, e); } else { QuietKeepsNumbered(s, e); }
    }
  }

  // ---------------------------------------------------------------------------
  // The outcome of errors
  // ---------------------------------------------------------------------------

  /** A changed leader costs a try, a connection to rebuild removes the host and costs
      a try, and any other error ends the call. */
  lemma ErrorOutcome(s: Server, e: Step)
    requires Enabled(s, e) && (e.SendFailed? || e.RecvFailed?) && s.threads[e.t].left >= 1
    ensures var u, th := Apply(s, e), s.threads[e.t];
            && u.pool == s.pool && u.writer == s.writer
            && |u.streams| == |s.streams| && u.streams[th.pc.stream].broken
            && (u.streams[th.pc.stream].lock.None? <==> !(e.SendFailed? && e.kind.NeedRebuild?) || s.streams[th.pc.stream].lock.None?)
            && match e.kind {
                 case LeaderChanged => u.threads[e.t] == Thread(Start, th.left - 1)
                 case NeedRebuild =>
                   u.threads[e.t] ==
                   th.(pc := if e.SendFailed? then DropLocked(th.pc.host, th.pc.stream) else Drop(th.pc.host, th.pc.stream))
                 case Other => u.threads[e.t] == th.(pc := Failed)
               }
  {
  }

  lemma RebuildOutcome(s: Server, t: nat)
    requires Enabled(s, Delete(t)) && s.threads[t].left >= 1
    ensures var u, th := Apply(s, Delete(t)), s.threads[t];
            && u.pool == s.pool - {th.pc.host}
            && u.threads == s.threads[t := Thread(Start, th.left - 1)]
            && (th.pc.DropLocked? ==> u.streams == s.streams[th.pc.stream := s.streams[th.pc.stream].(lock := None)])
            && (th.pc.Drop? ==> u.streams == s.streams)
  {
  }

  /** A call ends without a timestamp only for want of a host or a stream, or by an
      error of no other kind. */
  lemma FailsOnly(s: Server, e: Step, t: nat)
    requires Enabled(s, e) && t < |s.threads| && !s.threads[t].pc.Failed?
    requires t < |Apply(s, e).threads| && Apply(s, e).threads[t].pc.Failed?
    ensures e == NoHost(t) || e == CreateFailed(t) || e == RecvFailed(t, Other) ||
            e == SendFailed(t, Other, true) || e == SendFailed(t, Other, false)
  {
    if e.ServerReply? || e.Break? || e.t != t { OthersStay(s, e, t); }
  }
}
