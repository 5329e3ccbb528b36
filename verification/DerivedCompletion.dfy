/** The protocol of the derived connections never gets stuck: from every reachable state all callers can
    return, all loads can deliver and `Close` can finish, and then every connection is closed. */
module DerivedCompletion {
  import opened Sorting
  import opened DerivedConnections

  /** A run goes on without new callers and without cancellations. */
  predicate GoesOn(run: seq<Action>, more: seq<Action>) {
    && |run| <= |more| && more[..|run|] == run
    && forall i :: |run| <= i < |more| ==> !more[i].Arrive? && !more[i].Cancel?
  }

  lemma GoesOnBy(run: seq<Action>, a: Action, more: seq<Action>)
    requires GoesOn(run + [a], more) && !a.Arrive? && !a.Cancel?
    ensures GoesOn(run, more)
  {
    assert more[..|run|] == more[..|run| + 1][..|run|];
    assert more[|run|] == more[..|run| + 1][|run|] == a;
  }

  lemma GoesOnThrough(run: seq<Action>, middle: seq<Action>, more: seq<Action>)
    requires GoesOn(run, middle) && GoesOn(middle, more)
    ensures GoesOn(run, more)
  {
    assert more[..|run|] == more[..|middle|][..|run|];
    assert forall i :: |run| <= i < |middle| ==> more[i] == more[..|middle|][i];
  }

  lemma {:induction false} Above(ids: set<nat>) returns (n: nat)
    ensures forall x :: x in ids ==> x < n
  {
    if ids == {} {
      n := 0;
    } else {
      var x :| x in ids;
      var rest := ids - {x};
      var m := Above(rest);
      n := m + x + 1;
      assert forall y :: y in ids ==> y == x || y in rest;
    }
  }

  // ----- a load delivers -----

  /** What a load does next when connecting succeeds. */
  ghost function NextOf(s: State, f: LoadId, c: Conn): (a: Action)
    requires f in s.loads && f in s.loadKey && !s.loads[f].Delivered? && c !in s.made
    requires s.loads[f].Rejecting? ==> s.loads[f].conn in s.closes
    ensures Enabled(s, a) && LoadAction(a) && a.f == f
  {
    match s.loads[f]
    case Looking => Look(f)
    case Connecting => Connect(f, c)
    case CountingFailure => CountFailure(f)
    case Registering(_) => Register(f)
    case Rejecting(_) => Reject(f)
    case Finishing(_) => Finish(f)
  }

  lemma LoadsKnown(s: State, f: LoadId)
    requires Invariant(s) && f in s.loads
    ensures f in s.loadKey && (s.loads[f].Rejecting? ==> s.loads[f].conn in s.closes)
  {
    hide ClosedSound, CountsSound, OutcomesSound, ReturnsSound, StringValue, CachedSound, PendingSound, OpeningSound, CallersSound;
    if s.loads[f].Rejecting? { assert HoldsConn(s.loads[f]); }
  }

  /** Whether the load will deliver a connection, if `Connect` succeeds. */
  predicate Hopeful(s: State, f: LoadId)
    requires f in s.loads
  {
    var pc := s.loads[f];
    if pc.Finishing? || pc.Delivered? then pc.outcome.Loaded?
    else !s.closed && (pc.Looking? || pc.Connecting? || pc.Registering?)
  }

  lemma HopeStays(s: State, f: LoadId, c: Conn)
    requires f in s.loads && f in s.loadKey && !s.loads[f].Delivered? && c !in s.made
    requires s.loads[f].Rejecting? ==> s.loads[f].conn in s.closes
    requires Hopeful(s, f)
    ensures var s' := Do(s, NextOf(s, f, c)); f in s'.loads && Hopeful(s', f)
  {
    hide StringValue, InOrder, TakeCached, DoCaller;
    var s' := Do(s, NextOf(s, f, c));
    match s.loads[f]
    case Looking => if s.loadKey[f] in s.connections { assert Hopeful(s', f); } else { assert Hopeful(s', f); }
    case Connecting => assert Hopeful(s', f);
    case Registering(_) => assert Hopeful(s', f);
    case Finishing(_) => assert Hopeful(s', f);
  }

  /** What a load's step leaves. */
  ghost predicate OneLoad(s: State, f: LoadId, s': State) {
    && s'.callers == s.callers && s'.phase == s.phase && s'.closed == s.closed
    && f in s.loads && f in s'.loads && s'.loads == s.loads[f := s'.loads[f]]
  }

  predicate HasDelivered(s: State, f: LoadId) { f in s.loads && s.loads[f].Delivered? }

  lemma OneLoadTwice(s: State, f: LoadId, m: State, s': State)
    requires OneLoad(s, f, m) && OneLoad(m, f, s')
    ensures OneLoad(s, f, s')
  {
    assert s.loads[f := m.loads[f]][f := s'.loads[f]] == s.loads[f := s'.loads[f]];
  }

  lemma NextMovesLoad(s: State, run: seq<Action>, f: LoadId, c: Conn) returns (m: State, run': seq<Action>)
    requires Reachable(s, run) && f in s.loads && !s.loads[f].Delivered? && f in s.loadKey && c !in s.made
    requires s.loads[f].Rejecting? ==> s.loads[f].conn in s.closes
    ensures Reachable(m, run') && OneLoad(s, f, m) && f in m.loads && LoadRank(m.loads[f]) < LoadRank(s.loads[f])
    ensures Hopeful(s, f) ==> Hopeful(m, f)
    ensures forall more :: GoesOn(run', more) ==> GoesOn(run, more)
  {
    var a := NextOf(s, f, c);
    assert !a.Arrive? && !a.Cancel?;
    hide *;
    Extend(s, run, a);
    m, run' := Do(s, a), run + [a];
    LoadMoved(s, f, m);
    if Hopeful(s, f) { HopeStays(s, f, c); }
    forall more | GoesOn(run', more)
      ensures GoesOn(run, more)
    {
      GoesOnBy(run, a, more);
    }
  }

  lemma LoadMoved(s: State, f: LoadId, r: State)
    requires MovesLoad(s, f, r)
    ensures OneLoad(s, f, r) && f in s.loads && f in r.loads && LoadRank(r.loads[f]) < LoadRank(s.loads[f])
  {
  }

  /** A load can be brought to its end. */
  lemma {:induction false} LoadDelivers(s: State, run: seq<Action>, f: LoadId) returns (s': State, run': seq<Action>)
    requires Reachable(s, run) && f in s.loads
    ensures Reachable(s', run') && GoesOn(run, run') && OneLoad(s, f, s') && HasDelivered(s', f)
    ensures Hopeful(s, f) ==> f in s'.loads && Hopeful(s', f)
    decreases LoadRank(s.loads[f])
  {
    hide *;
    if s.loads[f].Delivered? {
      s', run' := s, run;
      NoLoadMoved(s, run, f);
    } else {
      ReachableInvariant(s, run);
      LoadsKnown(s, f);
      var c := Above(s.made.Keys);
      var m, middle := NextMovesLoad(s, run, f, c);
      s', run' := LoadDelivers(m, middle, f);
      OneLoadTwice(s, f, m, s');
    }
  }

  lemma NoLoadMoved(s: State, run: seq<Action>, f: LoadId)
    requires f in s.loads && s.loads[f].Delivered?
    ensures GoesOn(run, run) && OneLoad(s, f, s) && HasDelivered(s, f)
  {
  }

  // ----- a caller returns -----

  predicate HasReturned(pc: CallerPc) { pc.Returned? || pc.Failed? }

  /** What a caller does next; one that waits does so when its load has delivered. */
  ghost function NextFor(s: State, t: CallerId, f: LoadId): (a: Action)
    requires t in s.callers && !HasReturned(s.callers[t].pc) && f !in s.loads
    requires s.callers[t].pc.Waiting? ==> s.callers[t].pc.load in s.loads && s.loads[s.callers[t].pc.load].Delivered?
    ensures CallerAction(a) && !a.Arrive? && !a.Cancel? && a.t == t && CallerEnabled(s, a) && (a.Join? ==> a.newLoad == f)
  {
    match s.callers[t].pc
    case Start => RequireOpen(t)
    case Checking => CheckCache(t)
    case Joining => Join(t, f)
    case Waiting(_) => Receive(t)
    case CountingHit(_) => CountHit(t)
  }

  lemma WaitedLoadExists(s: State, t: CallerId)
    requires Invariant(s) && t in s.callers && s.callers[t].pc.Waiting?
    ensures s.callers[t].pc.load in s.loads
  {
    hide PlacesSound, ClosedSound, CountsSound, OutcomesSound, ReturnsSound, StringValue, OpeningSound;
  }

  /** What a caller's step leaves. */
  ghost predicate OneCaller(s: State, t: CallerId, s': State) {
    && s'.phase == s.phase && s'.closed == s.closed && s.loads.Keys <= s'.loads.Keys
    && t in s.callers && t in s'.callers && s'.callers.Keys == s.callers.Keys
    && forall u :: u in s.callers && u != t ==> s'.callers[u] == s.callers[u]
  }

  lemma CallerMoved(s: State, a: Action)
    requires CallerAction(a) && !a.Arrive? && CallerEnabled(s, a)
    ensures Enabled(s, a) && OneCaller(s, a.t, Do(s, a)) && CallerRank(Do(s, a).callers[a.t].pc) < CallerRank(s.callers[a.t].pc)
  {
    hide DoCaller, StringValue, InOrder, TakeCached;
  }

  lemma OneCallerTwice(s: State, t: CallerId, m: State, s': State)
    requires OneCaller(s, t, m) && OneCaller(m, t, s')
    ensures OneCaller(s, t, s')
  {
  }

  lemma SameCallersAreOne(s: State, t: CallerId, f: LoadId, s': State)
    requires t in s.callers && OneLoad(s, f, s') && HasDelivered(s', f)
    ensures OneCaller(s, t, s') && s'.callers == s.callers && f in s'.loads && s'.loads[f].Delivered?
  {
  }

  /** A caller can be brought to its return. */
  lemma {:induction false} CallerReturns(s: State, run: seq<Action>, t: CallerId) returns (s': State, run': seq<Action>)
    requires Reachable(s, run) && t in s.callers
    ensures Reachable(s', run') && GoesOn(run, run') && OneCaller(s, t, s') && HasReturned(s'.callers[t].pc)
    decreases CallerRank(s.callers[t].pc)
  {
    if HasReturned(s.callers[t].pc) {
      s', run' := s, run;
    } else {
      hide *;
      var m, middle := s, run;
      NothingMore(s, run, t);
      if s.callers[t].pc.Waiting? {
        ReachableInvariant(s, run);
        WaitedLoadExists(s, t);
        m, middle := LoadDelivers(s, run, s.callers[t].pc.load);
        SameCallersAreOne(s, t, s.callers[t].pc.load, m);
      }
      var f := Above(m.loads.Keys);
      var a := NextFor(m, t, f);
      CallerMoved(m, a);
      Extend(m, middle, a);
      OneCallerTwice(s, t, m, Do(m, a));
      NowStillThere(s, t, Do(m, a));
      s', run' := CallerReturns(Do(m, a), middle + [a], t);
      GoesOnBy(middle, a, run');
      GoesOnThrough(run, middle, run');
      OneCallerTwice(s, t, Do(m, a), s');
    }
  }

  lemma NothingMore(s: State, run: seq<Action>, t: CallerId)
    requires t in s.callers
    ensures GoesOn(run, run) && OneCaller(s, t, s)
  {
  }

  lemma NowStillThere(s: State, t: CallerId, s': State)
    requires OneCaller(s, t, s')
    ensures t in s'.callers
  {
  }

  /** A caller that waits for a load that has not failed, in an open session, returns a connection if
      connecting succeeds. */
  lemma WaiterGetsAConnection(s: State, run: seq<Action>, t: CallerId) returns (s': State, run': seq<Action>)
    requires Reachable(s, run) && t in s.callers && s.callers[t].pc.Waiting?
    requires s.callers[t].pc.load in s.loads ==> Hopeful(s, s.callers[t].pc.load)
    ensures Reachable(s', run') && GoesOn(run, run') && t in s'.callers && s'.callers[t].pc.Returned?
  {
    hide *;
    ReachableInvariant(s, run);
    WaitedLoadExists(s, t);
    var f := s.callers[t].pc.load;
    var m, middle := LoadDelivers(s, run, f);
    SameCallersAreOne(s, t, f, m);
    HopeFulfilled(m, f);
    s', run' := Received(m, middle, t);
    GoesOnThrough(run, middle, run');
  }

  lemma HopeFulfilled(s: State, f: LoadId)
    requires f in s.loads && s.loads[f].Delivered? && Hopeful(s, f)
    ensures s.loads[f].outcome.Loaded?
  {
  }

  lemma Received(s: State, run: seq<Action>, t: CallerId) returns (s': State, run': seq<Action>)
    requires Reachable(s, run) && t in s.callers && s.callers[t].pc.Waiting? && s.callers[t].pc.load in s.loads
    requires s.loads[s.callers[t].pc.load].Delivered? && s.loads[s.callers[t].pc.load].outcome.Loaded?
    ensures Reachable(s', run') && GoesOn(run, run') && t in s'.callers && s'.callers[t].pc.Returned?
    ensures s'.phase == s.phase && s'.closed == s.closed
  {
    hide *;
    ReceiveBrings(s, t);
    s', run' := OneStep(s, run, Receive(t));
    if s'.callers[t].pc.CountingHit? {
      CountHitBrings(s', t);
      var m, middle := s', run';
      s', run' := OneStep(m, middle, CountHit(t));
      GoesOnThrough(run, middle, run');
    }
  }

  /** A single step. */
  lemma OneStep(s: State, run: seq<Action>, a: Action) returns (s': State, run': seq<Action>)
    requires Reachable(s, run) && Enabled(s, a) && !a.Arrive? && !a.Cancel?
    ensures s' == Do(s, a) && Reachable(s', run') && GoesOn(run, run')
  {
    hide Reachable, Enabled, Do;
    Extend(s, run, a);
    s', run' := Do(s, a), run + [a];
  }

  lemma ReceiveBrings(s: State, t: CallerId)
    requires t in s.callers && s.callers[t].pc.Waiting? && s.callers[t].pc.load in s.loads
    requires s.loads[s.callers[t].pc.load].Delivered? && s.loads[s.callers[t].pc.load].outcome.Loaded?
    ensures Enabled(s, Receive(t))
    ensures var m := Do(s, Receive(t)); t in m.callers && (m.callers[t].pc.Returned? || m.callers[t].pc.CountingHit?)
    ensures Do(s, Receive(t)).phase == s.phase && Do(s, Receive(t)).closed == s.closed
  {
    var m := Do(s, Receive(t));
    var f := s.callers[t].pc.load;
    if s.loads[f].outcome.opening && f !in s.delivered {
      assert m == Return(s, t, s.loads[f].outcome.conn, s.hits, s.delivered + {f});
    } else {
      assert m == SetCaller(s, t, CountingHit(s.loads[f].outcome.conn));
    }
  }

  lemma CountHitBrings(s: State, t: CallerId)
    requires t in s.callers && s.callers[t].pc.CountingHit?
    ensures Enabled(s, CountHit(t))
    ensures var m := Do(s, CountHit(t)); t in m.callers && m.callers[t].pc.Returned?
    ensures Do(s, CountHit(t)).phase == s.phase && Do(s, CountHit(t)).closed == s.closed
  {
  }

  // ----- everybody returns, everything delivers, Close finishes -----

  ghost predicate AllReturned(s: State) { forall t :: t in s.callers ==> HasReturned(s.callers[t].pc) }

  ghost predicate AllDelivered(s: State) { forall f :: f in s.loads ==> s.loads[f].Delivered? }

  ghost function Unreturned(s: State): set<CallerId> { set t | t in s.callers && !HasReturned(s.callers[t].pc) }

  ghost function Undelivered(s: State): set<LoadId> { set f | f in s.loads && !s.loads[f].Delivered? }

  lemma FewerUnreturned(s: State, t: CallerId, s': State)
    requires t in Unreturned(s) && OneCaller(s, t, s') && HasReturned(s'.callers[t].pc)
    ensures Unreturned(s') == Unreturned(s) - {t} && s'.phase == s.phase
  {
    hide HasReturned;
  }

  lemma FewerUndelivered(s: State, f: LoadId, s': State)
    requires f in Undelivered(s) && OneLoad(s, f, s') && HasDelivered(s', f) && AllReturned(s)
    ensures Undelivered(s') == Undelivered(s) - {f} && s'.phase == s.phase && AllReturned(s')
  {
    hide HasReturned;
  }

  lemma {:induction false} AllCallersReturn(s: State, run: seq<Action>) returns (s': State, run': seq<Action>)
    requires Reachable(s, run)
    ensures Reachable(s', run') && GoesOn(run, run') && s'.phase == s.phase && AllReturned(s')
    decreases |Unreturned(s)|
  {
    if t :| t in Unreturned(s) {
      hide *;
      assert t in s.callers by { UnreturnedIsCaller(s, t); }
      var m, middle := CallerReturns(s, run, t);
      FewerUnreturned(s, t, m);
      s', run' := AllCallersReturn(m, middle);
      GoesOnThrough(run, middle, run');
    } else {
      s', run' := s, run;
      forall t | t in s.callers
        ensures HasReturned(s.callers[t].pc)
      {
        assert t !in Unreturned(s);
      }
    }
  }

  lemma UnreturnedIsCaller(s: State, t: CallerId)
    requires t in Unreturned(s)
    ensures t in s.callers
  {
  }

  lemma UndeliveredIsLoad(s: State, f: LoadId)
    requires f in Undelivered(s)
    ensures f in s.loads
  {
  }

  lemma {:induction false} AllLoadsDeliver(s: State, run: seq<Action>) returns (s': State, run': seq<Action>)
    requires Reachable(s, run) && AllReturned(s)
    ensures Reachable(s', run') && GoesOn(run, run') && s'.phase == s.phase && AllReturned(s') && AllDelivered(s')
    decreases |Undelivered(s)|
  {
    if f :| f in Undelivered(s) {
      hide *;
      UndeliveredIsLoad(s, f);
      var m, middle := LoadDelivers(s, run, f);
      FewerUndelivered(s, f, m);
      s', run' := AllLoadsDeliver(m, middle);
      GoesOnThrough(run, middle, run');
    } else {
      s', run' := s, run;
      forall f | f in s.loads
        ensures s.loads[f].Delivered?
      {
        assert f !in Undelivered(s);
      }
    }
  }

  /** The keys of the cache in some order. */
  lemma {:induction false} Listed(keys: set<Key>) returns (order: seq<Key>)
    ensures multiset(order) == multiset(keys)
  {
    if keys == {} {
      order := [];
    } else {
      var k :| k in keys;
      var rest := Listed(keys - {k});
      order := [k] + rest;
      assert multiset(keys) == multiset{k} + multiset(keys - {k});
    }
  }

  lemma CloseBegins(s: State) returns (a: Action)
    requires s.phase.Open?
    ensures a.BeginClose? && Enabled(s, a) && Do(s, a).phase.Closing?
    ensures Do(s, a).callers == s.callers && Do(s, a).loads == s.loads
  {
    hide StringValue, InOrder, TakeCached;
    var order := Listed(s.connections.Keys);
    a := BeginClose(SortBy(order, StringValue));
  }

  lemma CloseGoesOn(s: State, a: Action)
    requires Invariant(s) && s.phase.Closing? && a == (if s.phase.pending == [] then EndClose else CloseNext)
    ensures Enabled(s, a) && Do(s, a).callers == s.callers && Do(s, a).loads == s.loads
    ensures if s.phase.pending == [] then Do(s, a).phase.Closed? else Do(s, a).phase == Closing(s.phase.pending[1..])
  {
    hide HeldSound, CachedSound, ClosedSound, GroupSound, OpeningSound, CountsSound, OutcomesSound, CallersSound, ReturnsSound, StringValue;
  }

  lemma {:induction false} CloseEnds(s: State, run: seq<Action>) returns (s': State, run': seq<Action>)
    requires Reachable(s, run)
    ensures Reachable(s', run') && GoesOn(run, run') && s'.phase.Closed? && s'.callers == s.callers && s'.loads == s.loads
    decreases if s.phase.Open? then 2 else if s.phase.Closing? then 1 else 0, if s.phase.Closing? then |s.phase.pending| else 0
  {
    hide *;
    if s.phase.Closed? {
      s', run' := s, run;
      NothingGoesOn(run);
    } else {
      var a;
      if s.phase.Open? {
        a := CloseBegins(s);
      } else {
        a := if s.phase.pending == [] then EndClose else CloseNext;
        ReachableInvariant(s, run);
        CloseGoesOn(s, a);
      }
      var m, middle := OneStep(s, run, a);
      s', run' := CloseEnds(m, middle);
      GoesOnThrough(run, middle, run');
    }
  }

  lemma NothingGoesOn(run: seq<Action>)
    ensures GoesOn(run, run)
  {
  }

  lemma SameReturned(s: State, s': State)
    requires AllReturned(s) && AllDelivered(s) && s'.callers == s.callers && s'.loads == s.loads
    ensures AllReturned(s') && AllDelivered(s')
  {
  }

  /** From every reachable state, without new callers and without cancellations, the protocol can run to
      its end: everybody has returned, every load has delivered, `Close` is done, and every connection
      that was ever made has been closed exactly once. */
  lemma EverythingCompletes(s: State, run: seq<Action>) returns (s': State, run': seq<Action>)
    requires Reachable(s, run)
    ensures Reachable(s', run') && GoesOn(run, run')
    ensures AllReturned(s') && AllDelivered(s') && s'.phase.Closed?
    ensures forall c :: c in s'.made ==> c in s'.closes && s'.closes[c] == 1
  {
    hide *;
    var s1, run1 := AllCallersReturn(s, run);
    var s2, run2 := AllLoadsDeliver(s1, run1);
    s', run' := CloseEnds(s2, run2);
    SameReturned(s2, s');
    GoesOnThrough(run, run1, run2);
    GoesOnThrough(run, run2, run');
    forall c | c in s'.made
      ensures c in s'.closes && s'.closes[c] == 1
    {
      ClosedInTheEnd(s', run', c);
    }
  }

  lemma ClosedInTheEnd(s: State, run: seq<Action>, c: Conn)
    requires Reachable(s, run) && AllDelivered(s) && s.phase.Closed? && c in s.made
    ensures c in s.closes && s.closes[c] == 1
  {
    hide Reachable;
    ClosedExactlyOnce(s, run, c);
  }
}
