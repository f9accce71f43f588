/** The loop of `tryResourceManagerConnect` and `reset`
    (pd/client/resource_manager_client.go) as code that updates a connection in
    place, shown to be a run of the dispatcher's atomic steps. */
module TokenConnection {

  import opened TokenDispatcher
  import opened Wrappers

  /** What one trial of the connect loop meets. */
  datatype Attempt = Unavailable | Refused(givesUp: bool) | Opened

  /** The loop stops early after such a trial. */
  ghost predicate Ends(a: Attempt) { a.Opened? || (a.Refused? && a.givesUp) }

  /** The first trial from `i` on that ends the loop, or the number of trials. */
  ghost function FirstEnd(attempts: seq<Attempt>, i: nat): (k: nat)
    requires i <= |attempts|
    ensures i <= k <= |attempts|
    ensures k < |attempts| ==> Ends(attempts[k])
    ensures forall j :: i <= j < k ==> !Ends(attempts[j])
    decreases |attempts| - i
  {
    if i == |attempts| || Ends(attempts[i]) then i else FirstEnd(attempts, i + 1)
  }

  /** The connection and all contexts after a single trial. */
  function Tried(c: Connection, contexts: seq<Context>, a: Attempt): (Connection, seq<Context>) {
    var i := Some(|contexts|);
    match a
    case Unavailable => (c, contexts)
    case Refused(_) => (c, contexts + [Context(true, [], [], 0)])
    case Opened => (Connection(i, i, i), contexts + [Context(false, [], [], 0)])
  }

  /** ... and after the trials from `i` on. */
  function TriedAll(c: Connection, contexts: seq<Context>, attempts: seq<Attempt>, i: nat): (Connection, seq<Context>)
    requires i <= |attempts|
    decreases |attempts| - i
  {
    if i == |attempts| then (c, contexts)
    else
      var r := Tried(c, contexts, attempts[i]);
      if attempts[i].Opened? || (attempts[i].Refused? && attempts[i].givesUp) then r
      else TriedAll(r.0, r.1, attempts, i + 1)
  }

  class ConnectionContext {
    var stream: Option<nat>
    var ctx: Option<nat>
    var cancel: Option<nat>
    var contexts: seq<Context>   // every context created so far

    ghost function State(): (Connection, seq<Context>)
      reads this
    {
      (Connection(stream, ctx, cancel), contexts)
    }

    method Reset()
      modifies this
      ensures stream == None && ctx == old(ctx) && cancel == old(cancel)
      ensures contexts == Cancelled(old(contexts), old(cancel))
    {
      stream := None;
      if cancel.Some? && cancel.value < |contexts| {
        contexts := contexts[cancel.value := contexts[cancel.value].(cancelled := true)];
      }
    }

    /** Up to six trials.  An error is reported exactly when a trial gives up:
        after six plain failures the shadowed `err` makes it return nil although
        there is no stream. */
    method TryConnect(attempts: seq<Attempt>) returns (failed: bool)
      requires |attempts| == MAX_RETRY_TIMES
      modifies this
      ensures State() == TriedAll(old(State()).0, old(State()).1, attempts, 0)
      ensures failed <==> FirstEnd(attempts, 0) < |attempts| && attempts[FirstEnd(attempts, 0)].Refused?
    {
      var i := 0;
      while i < MAX_RETRY_TIMES
        invariant 0 <= i <= MAX_RETRY_TIMES
        invariant TriedAll(State().0, State().1, attempts, i) == TriedAll(old(State()).0, old(State()).1, attempts, 0)
        invariant FirstEnd(attempts, 0) == FirstEnd(attempts, i)
      {
        if attempts[i].Unavailable? {
          i := i + 1;
          continue;
        }
        ghost var before := contexts;
        var c := |contexts|;
        contexts := contexts + [Context(false, [], [], 0)];
        if attempts[i].Opened? {
          stream, ctx, cancel := Some(c), Some(c), Some(c);
          return false;
        }
        contexts := contexts[c := contexts[c].(cancelled := true)];
        assert contexts == before + [Context(true, [], [], 0)];
        if attempts[i].givesUp {
          return true;
        }
        i := i + 1;
      }
      failed := false;
    }
  }

  /** The loop keeps every older context, connects exactly when some trial opens a
      stream before one gives up, and leaves every other context it created
      cancelled. */
  lemma {:induction false} ConnectLeavesOneOpen(c: Connection, contexts: seq<Context>, attempts: seq<Attempt>, i: nat)
    requires i <= |attempts|
    ensures var (c', cs) := TriedAll(c, contexts, attempts, i);
            var k := FirstEnd(attempts, i);
            && contexts <= cs
            && (if k < |attempts| && attempts[k].Opened? then
                  |cs| > |contexts| && c'.stream == c'.ctx == c'.cancel == Some(|cs| - 1) && !cs[|cs| - 1].cancelled &&
                  forall j :: |contexts| <= j < |cs| - 1 ==> cs[j].cancelled
                else
                  c' == c && forall j :: |contexts| <= j < |cs| ==> cs[j].cancelled)
    decreases |attempts| - i
  {
    if i < |attempts| && !Ends(attempts[i]) {
      var r := Tried(c, contexts, attempts[i]);
      ConnectLeavesOneOpen(r.0, r.1, attempts, i + 1);
    }
  }

  lemma ExecAppend(s: Dispatcher, run: seq<Step>, t: Dispatcher, e: Step)
    requires Exec(s, run) == Some(t) && Enabled(t, e)
    ensures Exec(s, run + [e]) == Some(Apply(t, e))
  {
    assert (run + [e])[..|run|] == run;
  }

  /** Dialling and what came of it, as two steps. */
  lemma DialIsTwoSteps(t: Dispatcher, a: Attempt)
    requires t.pc.Connecting? && t.pc.left > 0 && !a.Unavailable?
    requires a == Refused(true) ==> t.closing
    ensures var u := Apply(t, Step.Dial);
            var e := if a.Opened? then Step.DialOk else Step.DialFailed(a.givesUp);
            var r := Tried(t.connection, t.contexts, a);
            var pc := if Ends(a) then AfterConnect(t.pc.request) else Connecting(t.pc.left - 1, t.pc.request);
            Enabled(u, e) && Apply(u, e) == t.(connection := r.0, contexts := r.1, pc := pc)
  {
    var u := Apply(t, Step.Dial);
    var e := if a.Opened? then Step.DialOk else Step.DialFailed(a.givesUp);
    assert Apply(u, e).contexts == Tried(t.connection, t.contexts, a).1;
  }

  lemma TrialIsRun(start: Dispatcher, run: seq<Step>, t: Dispatcher, a: Attempt) returns (run': seq<Step>)
    requires Exec(start, run) == Some(t) && t.pc.Connecting? && t.pc.left > 0
    requires a == Refused(true) ==> t.closing
    ensures var r := Tried(t.connection, t.contexts, a);
            var pc := if Ends(a) then AfterConnect(t.pc.request) else Connecting(t.pc.left - 1, t.pc.request);
            Exec(start, run') == Some(t.(connection := r.0, contexts := r.1, pc := pc))
  {
    if a.Unavailable? {
      run' := run + [Step.NoClient];
      ExecAppend(start, run, t, Step.NoClient);
    } else {
      var e := if a.Opened? then Step.DialOk else Step.DialFailed(a.givesUp);
      DialIsTwoSteps(t, a);
      ExecAppend(start, run, t, Step.Dial);
      ExecAppend(start, run + [Step.Dial], Apply(t, Step.Dial), e);
      run' := run + [Step.Dial] + [e];
    }
  }

  /** The loop is a run of the dispatcher's steps, so everything proved of all
      runs holds at every point inside it. */
  lemma {:induction false} ConnectIsRun(start: Dispatcher, run: seq<Step>, t: Dispatcher, attempts: seq<Attempt>, i: nat)
    returns (run': seq<Step>)
    requires i <= |attempts| && Exec(start, run) == Some(t)
    requires t.pc.Connecting? && t.pc.left == |attempts| - i
    requires forall a :: a in attempts && a == Refused(true) ==> t.closing
    ensures var r := TriedAll(t.connection, t.contexts, attempts, i);
            Exec(start, run') == Some(t.(connection := r.0, contexts := r.1, pc := AfterConnect(t.pc.request)))
    decreases |attempts| - i
  {
    if i == |attempts| {
      run' := EndIsRun(start, run, t);
    } else {
      var a := attempts[i];
      assert a in attempts;
      run' := TrialIsRun(start, run, t, a);
      if !Ends(a) {
        var r := Tried(t.connection, t.contexts, a);
        var u := t.(connection := r.0, contexts := r.1, pc := Connecting(t.pc.left - 1, t.pc.request));
        run' := ConnectIsRun(start, run', u, attempts, i + 1);
      }
    }
  }

  lemma EndIsRun(start: Dispatcher, run: seq<Step>, t: Dispatcher) returns (run': seq<Step>)
    requires Exec(start, run) == Some(t) && t.pc.Connecting? && t.pc.left == 0
    ensures Exec(start, run') == Some(t.(pc := AfterConnect(t.pc.request)))
  {
    run' := run + [Step.OutOfRetries];
    ExecAppend(start, run, t, Step.OutOfRetries);
  }
}
