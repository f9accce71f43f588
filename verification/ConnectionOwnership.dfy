/** Who owns a connection.  `getDelegateClient` and `closeDelegateClient`
    (pd/server/forward.go) and `enableRouterClient` and `disableRouterClient`
    (pd/client/inner_client.go) follow one pattern: look for a stored connection,
    make a new one outside any lock, then store it atomically or, having lost the
    race, close it; and take a stored one out atomically before closing it.  Keys
    are hosts for delegates; the router client has a single slot, `()`. */
module ConnectionOwnership {

  import opened Wrappers

  datatype Pc<K> =
    | Idle(result: Option<nat>)
    | Looking(key: K)
    | Dialing(key: K)
    | Holding(key: K, conn: nat)                    // dialled, not yet offered to the map
    | ClosingOwn(conn: nat, loaded: nat)            // lost the race
    | Taking(key: K)
    | ClosingTaken(conn: nat)

  /** `closes[c]` counts the calls of `Close` on connection `c`. */
  datatype Store<K(==)> = Store(threads: seq<Pc<K>>, stored: map<K, nat>, closes: seq<nat>)

  datatype Step<K> =
    | BeginGet(t: nat, key: K)
    | Load(t: nat)
    | DialOk(t: nat)
    | DialFailed(t: nat)
    | LoadOrStore(t: nat)
    | CloseOwn(t: nat)
    | BeginClose(t: nat, key: K)
    | LoadAndDelete(t: nat)
    | CloseTaken(t: nat)

  function Initial<K>(n: nat): Store<K> {
    Store(seq(n, _ => Idle(None)), map[], [])
  }

  predicate Enabled<K>(s: Store<K>, e: Step<K>) {
    && e.t < |s.threads|
    && var pc := s.threads[e.t];
       match e
       case BeginGet(_, _) => pc.Idle?
       case Load(_) => pc.Looking?
       case DialOk(_) => pc.Dialing?
       case DialFailed(_) => pc.Dialing?
       case LoadOrStore(_) => pc.Holding?
       case CloseOwn(_) => pc.ClosingOwn? && pc.conn < |s.closes|
       case BeginClose(_, _) => pc.Idle?
       case LoadAndDelete(_) => pc.Taking?
       case CloseTaken(_) => pc.ClosingTaken? && pc.conn < |s.closes|
  }

  function At<K>(s: Store<K>, t: nat, pc: Pc<K>): Store<K>
    requires t < |s.threads|
  {
    s.(threads := s.threads[t := pc])
  }

  function Closed<K>(s: Store<K>, c: nat): Store<K>
    requires c < |s.closes|
  {
    s.(closes := s.closes[c := s.closes[c] + 1])
  }

  function Apply<K>(s: Store<K>, e: Step<K>): Store<K>
    requires Enabled(s, e)
  {
    var t, pc := e.t, s.threads[e.t];
    match e
    case BeginGet(_, k) => At(s, t, Looking(k))
    case Load(_) =>
      At(s, t, if pc.key in s.stored then Idle(Some(s.stored[pc.key])) else Dialing(pc.key))
    case DialOk(_) =>
      At(s, t, Holding(pc.key, |s.closes|)).(closes := s.closes + [0])
    case DialFailed(_) => At(s, t, Idle(None))
    case LoadOrStore(_) =>
      if pc.key in s.stored then At(s, t, ClosingOwn(pc.conn, s.stored[pc.key]))
      else At(s, t, Idle(Some(pc.conn))).(stored := s.stored[pc.key := pc.conn])
    case CloseOwn(_) => Closed(At(s, t, Idle(Some(pc.loaded))), pc.conn)
    case BeginClose(_, k) => At(s, t, Taking(k))
    case LoadAndDelete(_) =>
      if pc.key in s.stored then At(s, t, ClosingTaken(s.stored[pc.key])).(stored := s.stored - {pc.key})
      else At(s, t, Idle(None))
    case CloseTaken(_) => Closed(At(s, t, Idle(None)), pc.conn)
  }

  function Exec<K>(s: Store<K>, run: seq<Step<K>>): Option<Store<K>>
    decreases |run|
  {
    if run == [] then Some(s)
    else
      var u := Exec(s, run[..|run| - 1]);
      if u.Some? && Enabled(u.value, run[|run| - 1]) then Some(Apply(u.value, run[|run| - 1])) else None
  }

  // ---------------------------------------------------------------------------
  // The four places a connection can be
  // ---------------------------------------------------------------------------

  datatype Place<K> = InFlight(thread: nat) | Stored(key: K) | BeingClosed(thread: nat) | Gone

  ghost predicate Carries<K>(pc: Pc<K>, c: nat) { pc.Holding? && pc.conn == c }

  ghost predicate Closes<K>(pc: Pc<K>, c: nat) { (pc.ClosingOwn? || pc.ClosingTaken?) && pc.conn == c }

  /** Goroutine `t` has connection `c` in hand exactly if `places` says so. */
  ghost predicate Agrees<K(!new)>(pc: Pc<K>, places: seq<Place<K>>, t: nat, c: nat) {
    && (Carries(pc, c) <==> c < |places| && places[c] == InFlight(t))
    && (Closes(pc, c) <==> c < |places| && places[c] == BeingClosed(t))
  }

  /** `places` says where every connection is, and the program state agrees: it is
      with exactly that goroutine, stored under exactly that key, or closed once. */
  ghost predicate Accounts<K(!new)>(s: Store<K>, places: seq<Place<K>>) {
    && |places| == |s.closes|
    && (forall t: nat, c: nat :: t < |s.threads| ==> Agrees(s.threads[t], places, t, c))
    && (forall k :: k in s.stored ==> s.stored[k] < |places| && places[s.stored[k]] == Stored(k))
    && (forall c :: 0 <= c < |places| && places[c].Stored? ==> places[c].key in s.stored && s.stored[places[c].key] == c)
    && (forall c :: 0 <= c < |places| && (places[c].InFlight? || places[c].BeingClosed?) ==> places[c].thread < |s.threads|)
    && (forall c :: 0 <= c < |places| ==> s.closes[c] == if places[c].Gone? then 1 else 0)
  }

  /** How a step moves connections. */
  ghost function Moved<K>(s: Store<K>, e: Step<K>, places: seq<Place<K>>): seq<Place<K>>
    requires Enabled(s, e)
  {
    var t, pc := e.t, s.threads[e.t];
    match e
    case DialOk(_) => places + [InFlight(t)]
    case LoadOrStore(_) =>
      if pc.conn >= |places| then places
      else places[pc.conn := if pc.key in s.stored then BeingClosed(t) else Stored(pc.key)]
    case LoadAndDelete(_) =>
      if pc.key in s.stored && s.stored[pc.key] < |places| then places[s.stored[pc.key] := BeingClosed(t)] else places
    case CloseOwn(_) => if pc.conn < |places| then places[pc.conn := Gone] else places
    case CloseTaken(_) => if pc.conn < |places| then places[pc.conn := Gone] else places
    case _ => places
  }

  /** A connection in the hands of a goroutine is where `places` says. */
  lemma InHand<K(!new)>(s: Store<K>, places: seq<Place<K>>, t: nat)
    requires Accounts(s, places) && t < |s.threads|
    ensures var pc := s.threads[t];
            && (pc.Holding? ==> pc.conn < |places| && places[pc.conn] == InFlight(t))
            && (pc.ClosingOwn? || pc.ClosingTaken? ==> pc.conn < |places| && places[pc.conn] == BeingClosed(t))
  {
    var pc := s.threads[t];
    if pc.Holding? || pc.ClosingOwn? || pc.ClosingTaken? {
      assert Agrees(pc, places, t, pc.conn);
    }
  }

  lemma MovesWithThread<K(!new)>(s: Store<K>, e: Step<K>, places: seq<Place<K>>, t: nat, c: nat)
    requires Accounts(s, places) && Enabled(s, e) && t < |Apply(s, e).threads|
    ensures Agrees(Apply(s, e).threads[t], Moved(s, e, places), t, c)
  {
    InHand(s, places, e.t);
    assert Agrees(s.threads[t], places, t, c);
  }

  lemma MovesWithCloses<K(!new)>(s: Store<K>, e: Step<K>, places: seq<Place<K>>)
    requires Accounts(s, places) && Enabled(s, e)
    ensures var s', p := Apply(s, e), Moved(s, e, places);
            && |p| == |s'.closes|
            && (forall c :: 0 <= c < |p| && (p[c].InFlight? || p[c].BeingClosed?) ==> p[c].thread < |s'.threads|)
            && (forall c :: 0 <= c < |p| ==> s'.closes[c] == if p[c].Gone? then 1 else 0)
  {
    InHand(s, places, e.t);
  }

  lemma MovesWithStore<K(!new)>(s: Store<K>, e: Step<K>, places: seq<Place<K>>)
    requires Accounts(s, places) && Enabled(s, e)
    ensures var s', p := Apply(s, e), Moved(s, e, places);
            && (forall k :: k in s'.stored ==> s'.stored[k] < |p| && p[s'.stored[k]] == Stored(k))
            && (forall c :: 0 <= c < |p| && p[c].Stored? ==> p[c].key in s'.stored && s'.stored[p[c].key] == c)
  {
    InHand(s, places, e.t);
    var s', p := Apply(s, e), Moved(s, e, places);
    forall k | k in s'.stored
      ensures s'.stored[k] < |p| && p[s'.stored[k]] == Stored(k)
    {
      if k in s.stored {
        assert places[s.stored[k]] == Stored(k);
      } else {
        assert e.LoadOrStore?;
      }
    }
    forall c | 0 <= c < |p| && p[c].Stored?
      ensures p[c].key in s'.stored && s'.stored[p[c].key] == c
    {
      if c < |places| && places[c].Stored? {
        assert s.stored[places[c].key] == c;
      } else {
        assert e.LoadOrStore?;
      }
    }
  }

  lemma InitialAccounts<K(!new)>(n: nat)
    ensures Accounts(Initial<K>(n), [])
  {
  }

  lemma ApplyAccounts<K(!new)>(s: Store<K>, e: Step<K>, places: seq<Place<K>>)
    requires Accounts(s, places) && Enabled(s, e)
    ensures Accounts(Apply(s, e), Moved(s, e, places))
  {
    forall t: nat, c: nat | t < |Apply(s, e).threads| { MovesWithThread(s, e, places, t, c); }
    MovesWithCloses(s, e, places);
    MovesWithStore(s, e, places);
  }

  /** In every interleaving every connection ever dialled is in exactly one place:
      in flight with one goroutine, stored under one key, being closed by one
      goroutine, or closed.  So none is closed twice and none is closed while it
      is stored. */
  lemma {:induction false} EveryConnectionHasOneOwner<K(!new)>(n: nat, run: seq<Step<K>>) returns (places: seq<Place<K>>)
    requires Exec(Initial<K>(n), run).Some?
    ensures Accounts(Exec(Initial<K>(n), run).value, places)
    decreases |run|
  {
    if run == [] {
      places := [];
      InitialAccounts<K>(n);
    } else {
      var front := EveryConnectionHasOneOwner(n, run[..|run| - 1]);
      var s := Exec(Initial<K>(n), run[..|run| - 1]).value;
      ApplyAccounts(s, run[|run| - 1], front);
      places := Moved(s, run[|run| - 1], front);
    }
  }

  /** The account is unique: a connection cannot be in two places at once. */
  lemma PlacesAreUnique<K(!new)>(s: Store<K>, a: seq<Place<K>>, b: seq<Place<K>>)
    requires Accounts(s, a) && Accounts(s, b)
    ensures a == b
  {
    forall c | 0 <= c < |a| ensures a[c] == b[c] {
      match a[c]
      case InFlight(t) => assert Agrees(s.threads[t], a, t, c) && Agrees(s.threads[t], b, t, c);
      case BeingClosed(t) => assert Agrees(s.threads[t], a, t, c) && Agrees(s.threads[t], b, t, c);
      case Stored(k) => assert s.stored[k] == c;
      case Gone =>
    }
  }

  /** No leak: when no call is under way, the connections that were not closed are
      exactly the stored ones, one per key. */
  lemma QuietMeansStoredOrClosed<K(!new)>(n: nat, run: seq<Step<K>>, c: nat)
    requires Exec(Initial<K>(n), run).Some?
    requires forall t :: 0 <= t < |Exec(Initial<K>(n), run).value.threads| ==> Exec(Initial<K>(n), run).value.threads[t].Idle?
    requires c < |Exec(Initial<K>(n), run).value.closes|
    ensures var s := Exec(Initial<K>(n), run).value;
            && s.closes[c] <= 1
            && (s.closes[c] == 0 <==> exists k :: k in s.stored && s.stored[k] == c)
            && (forall j, k :: j in s.stored && k in s.stored && s.stored[j] == c && s.stored[k] == c ==> j == k)
  {
    var s := Exec(Initial<K>(n), run).value;
    var places := EveryConnectionHasOneOwner(n, run);
    assert places[c].InFlight? || places[c].BeingClosed? ==>
        Agrees(s.threads[places[c].thread], places, places[c].thread, c);
    if places[c].Stored? {
      assert places[c].key in s.stored && s.stored[places[c].key] == c;
    }
  }

  /** A connection that a lookup or a store is about to return is the one stored
      under the requested key, and still open. */
  lemma ResultIsStoredAndOpen<K(!new)>(n: nat, run: seq<Step<K>>, e: Step<K>)
    requires Exec(Initial<K>(n), run).Some? && Enabled(Exec(Initial<K>(n), run).value, e)
    requires e.LoadOrStore? || (e.Load? && Exec(Initial<K>(n), run).value.threads[e.t].key in Exec(Initial<K>(n), run).value.stored)
    ensures var s := Exec(Initial<K>(n), run).value;
            var s' := Apply(s, e);
            var k := s.threads[e.t].key;
            && k in s'.stored && s'.stored[k] < |s'.closes| && s'.closes[s'.stored[k]] == 0
            && match s'.threads[e.t]
               case Idle(r) => r == Some(s'.stored[k])
               case ClosingOwn(own, loaded) => loaded == s'.stored[k] && own != loaded
               case _ => false
  {
    var places := EveryConnectionHasOneOwner(n, run);
    ApplyAccounts(Exec(Initial<K>(n), run).value, e, places);
  }

  lemma {:induction false} OwnIsNotLoaded<K(!new)>(n: nat, run: seq<Step<K>>, t: nat)
    requires Exec(Initial<K>(n), run).Some? && t < |Exec(Initial<K>(n), run).value.threads|
    ensures var pc := Exec(Initial<K>(n), run).value.threads[t];
            pc.ClosingOwn? ==> pc.conn != pc.loaded
    decreases |run|
  {
    if run != [] {
      var front, e := run[..|run| - 1], run[|run| - 1];
      var s := Exec(Initial<K>(n), front).value;
      OwnIsNotLoaded(n, front, t);
      var places := EveryConnectionHasOneOwner(n, front);
      InHand(s, places, e.t);
    }
  }

  /** Whoever lost the race closes its own connection, once, and returns the one it
      found stored, which is another. */
  lemma LoserReturnsLoaded<K(!new)>(n: nat, run: seq<Step<K>>, t: nat)
    requires Exec(Initial<K>(n), run).Some? && Enabled(Exec(Initial<K>(n), run).value, CloseOwn(t))
    ensures var s := Exec(Initial<K>(n), run).value;
            var pc := s.threads[t];
            && pc.conn != pc.loaded && pc.conn < |s.closes| && s.closes[pc.conn] == 0
            && Apply(s, CloseOwn(t)) ==
               s.(threads := s.threads[t := Idle(Some(pc.loaded))], closes := s.closes[pc.conn := 1])
  {
    var s := Exec(Initial<K>(n), run).value;
    OwnIsNotLoaded(n, run, t);
    var places := EveryConnectionHasOneOwner(n, run);
    InHand(s, places, t);
  }

  /** A call begins with its lookup, and dials only if nothing is stored. */
  lemma BeginningOutcomes<K>(s: Store<K>, e: Step<K>)
    requires Enabled(s, e) && (e.BeginGet? || e.BeginClose? || e.Load? || e.DialOk?)
    ensures var pc, u := s.threads[e.t], Apply(s, e);
            && u.stored == s.stored
            && u.closes == (if e.DialOk? then s.closes + [0] else s.closes)
            && u.threads == s.threads[e.t :=
                 if e.BeginGet? then Looking(e.key)
                 else if e.BeginClose? then Taking(e.key)
                 else if e.DialOk? then Holding(pc.key, |s.closes|)
                 else if pc.key in s.stored then Idle(Some(s.stored[pc.key])) else Dialing(pc.key)]
  {
  }

  /** A failed dial, and a close that finds nothing, return nothing; a close that finds
      a connection takes it out and closes it once. */
  lemma EmptyHandedOutcomes<K(!new)>(n: nat, run: seq<Step<K>>, e: Step<K>)
    requires Exec(Initial<K>(n), run).Some? && Enabled(Exec(Initial<K>(n), run).value, e)
    requires e.DialFailed? || e.LoadAndDelete? || e.CloseTaken?
    ensures var s := Exec(Initial<K>(n), run).value;
            var pc, u := s.threads[e.t], Apply(s, e);
            && (e.DialFailed? ==> u == s.(threads := s.threads[e.t := Idle(None)]))
            && (e.LoadAndDelete? && pc.key !in s.stored ==> u == s.(threads := s.threads[e.t := Idle(None)]))
            && (e.LoadAndDelete? && pc.key in s.stored ==>
                  u == s.(threads := s.threads[e.t := ClosingTaken(s.stored[pc.key])], stored := s.stored - {pc.key}))
            && (e.CloseTaken? ==>
                  pc.conn < |s.closes| && s.closes[pc.conn] == 0 &&
                  u == s.(threads := s.threads[e.t := Idle(None)], closes := s.closes[pc.conn := 1]))
  {
    var s := Exec(Initial<K>(n), run).value;
    var places := EveryConnectionHasOneOwner(n, run);
    InHand(s, places, e.t);
  }

  /** The router client's single slot: between enables and disables from any number
      of goroutines, at most one client is installed, and every client that was
      created is in flight, installed, being closed, or closed once. */
  lemma RouterClientOwnership(n: nat, run: seq<Step<()>>) returns (places: seq<Place<()>>)
    requires Exec(Initial<()>(n), run).Some?
    ensures var s := Exec(Initial<()>(n), run).value;
            && Accounts(s, places)
            && (forall c, d | 0 <= c < |places| && 0 <= d < |places| :: places[c].Stored? && places[d].Stored? ==> c == d)
  {
    places := EveryConnectionHasOneOwner(n, run);
    var s := Exec(Initial<()>(n), run).value;
    forall c, d | 0 <= c < |places| && 0 <= d < |places| && places[c].Stored? && places[d].Stored? ensures c == d {
      assert places[c].key == places[d].key;
    }
  }
}
