/** Whether the connection that a caller returns with is still open. `Close` does not wait for callers, so
    it may be closed already: exactly when `Close` has begun and has got to it. */
module DerivedReturns {
  import opened DerivedConnections
  import opened DerivedCompletion

  /** The connection is no longer with the load that made it. */
  ghost predicate HandedOver(place: map<Conn, Place>, c: Conn) { c in place && !place[c].Held? }

  ghost predicate LoadsHandOver(loads: map<LoadId, LoadPc>, place: map<Conn, Place>) {
    forall f :: f in loads && Ended(loads[f]) && loads[f].outcome.Loaded? ==> HandedOver(place, loads[f].outcome.conn)
  }

  ghost predicate CallersHold(callers: map<CallerId, Caller>, place: map<Conn, Place>) {
    forall t :: t in callers && HasConn(callers[t].pc) ==> HandedOver(place, callers[t].pc.conn)
  }

  /** A connection is closed only in a closed session: by `Close`, or by a load that came too late. */
  ghost predicate ClosedByClose(closed: bool, loads: map<LoadId, LoadPc>, place: map<Conn, Place>) {
    && (forall c :: c in place && place[c].Gone? ==> closed)
    && (forall f :: f in loads && loads[f].Rejecting? ==> closed)
  }

  ghost predicate Handing(s: State) {
    && LoadsHandOver(s.loads, s.place)
    && CallersHold(s.callers, s.place)
    && ClosedByClose(s.closed, s.loads, s.place)
  }

  // ----- every step keeps it -----

  ghost predicate StaysHandedOver(s: State, r: State) {
    forall c :: HandedOver(s.place, c) ==> HandedOver(r.place, c)
  }

  lemma PlacesMoveOn(s: State, a: Action)
    requires Invariant(s) && Enabled(s, a)
    ensures StaysHandedOver(s, Do(s, a))
  {
    hide DoCaller, InOrder, StringValue, CallersSound, GroupSound, OpeningSound, OutcomesSound, CountsSound, ReturnsSound, CachedSound,
         PendingSound, HeldSound;
  }

  /** The outcome of a load is a cached connection or the one it has just registered. */
  lemma OutcomeIsHandedOver(s: State, a: Action)
    requires Invariant(s) && Enabled(s, a) && LoadAction(a) && LoadsHandOver(s.loads, s.place)
    ensures var pc := Do(s, a).loads[a.f]; Ended(pc) && pc.outcome.Loaded? ==> HandedOver(Do(s, a).place, pc.outcome.conn)
  {
    hide DoCaller, InOrder, TakeCached, StringValue, CallersSound, GroupSound, OpeningSound, OutcomesSound, CountsSound, ReturnsSound,
         PendingSound, LedgerSound, HeldSound;
  }

  lemma LoadClosesLate(s: State, a: Action)
    requires Invariant(s) && Enabled(s, a) && LoadAction(a) && ClosedByClose(s.closed, s.loads, s.place)
    ensures ClosedByClose(Do(s, a).closed, Do(s, a).loads, Do(s, a).place)
  {
    hide DoCaller, InOrder, TakeCached, StringValue, CallersSound, GroupSound, OpeningSound, OutcomesSound, CountsSound, ReturnsSound,
         PlacesSound, ClosedSound;
  }

  lemma LoadStep(s: State, a: Action)
    requires Invariant(s) && Enabled(s, a) && LoadAction(a) && Handing(s)
    ensures Handing(Do(s, a))
  {
    PlacesMoveOn(s, a);
    OutcomeIsHandedOver(s, a);
    LoadClosesLate(s, a);
    LoadMovesOnly(s, a);
    hide Do, Invariant, Enabled, HandedOver, ClosedByClose, MovesLoad;
    OneMoreOutcome(s, a.f, Do(s, a));
    CallersStillHold(s, Do(s, a));
  }

  lemma LoadMovesOnly(s: State, a: Action)
    requires Enabled(s, a) && LoadAction(a)
    ensures var r := Do(s, a); r.callers == s.callers && a.f in r.loads && r.loads == s.loads[a.f := r.loads[a.f]]
  {
    hide Do, Enabled, LoadRank;
  }

  lemma OneMoreOutcome(s: State, f: LoadId, r: State)
    requires LoadsHandOver(s.loads, s.place) && StaysHandedOver(s, r)
    requires f in r.loads && r.loads == s.loads[f := r.loads[f]]
    requires Ended(r.loads[f]) && r.loads[f].outcome.Loaded? ==> HandedOver(r.place, r.loads[f].outcome.conn)
    ensures LoadsHandOver(r.loads, r.place)
  {
    hide HandedOver;
  }

  lemma CallersStillHold(s: State, r: State)
    requires CallersHold(s.callers, s.place) && StaysHandedOver(s, r) && r.callers == s.callers
    ensures CallersHold(r.callers, r.place)
  {
    hide HandedOver;
  }

  lemma CloseStep(s: State, a: Action)
    requires Invariant(s) && Enabled(s, a) && (a.BeginClose? || a.CloseNext? || a.EndClose?) && Handing(s)
    ensures Handing(Do(s, a))
  {
    PlacesMoveOn(s, a);
    ClosingLeaves(s, a);
    hide Do, Enabled, Invariant, HandedOver, ClosedByClose;
    CallersStillHold(s, Do(s, a));
  }

  lemma ClosingLeaves(s: State, a: Action)
    requires Invariant(s) && Enabled(s, a) && (a.BeginClose? || a.CloseNext? || a.EndClose?)
    ensures Do(s, a).callers == s.callers && Do(s, a).loads == s.loads
    ensures ClosedByClose(s.closed, s.loads, s.place) ==> ClosedByClose(Do(s, a).closed, s.loads, Do(s, a).place)
  {
    hide DoCaller, InOrder, StringValue, CallersSound, GroupSound, OpeningSound, OutcomesSound, CountsSound, ReturnsSound, PlacesSound;
  }

  lemma GivenIsHandedOver(s: State, a: Action)
    requires Invariant(s) && CallerAction(a) && CallerEnabled(s, a) && !a.Arrive? && Handing(s)
    ensures HasConn(DoCaller(s, a).callers[a.t].pc) ==> HandedOver(s.place, DoCaller(s, a).callers[a.t].pc.conn)
  {
    hide DoCaller, Invariant, MovesCaller, ClosedByClose, HandedOver, StringValue;
    CachedAreHandedOver(s);
    if a.Receive? { assert Ended(s.loads[s.callers[a.t].pc.load]); }
  }

  lemma CachedAreHandedOver(s: State)
    requires Invariant(s)
    ensures forall k :: k in s.connections ==> HandedOver(s.place, s.connections[k])
  {
    assert CachedSound(s.connections, s.made, s.place);
    hide Invariant;
  }

  lemma OneMoreHolds(s: State, t: CallerId, x: Caller)
    requires CallersHold(s.callers, s.place) && (HasConn(x.pc) ==> HandedOver(s.place, x.pc.conn))
    ensures CallersHold(s.callers[t := x], s.place)
  {
    hide HandedOver;
  }

  lemma NewLoadHolds(s: State, f: LoadId)
    requires Handing(s)
    ensures LoadsHandOver(s.loads[f := Looking], s.place) && ClosedByClose(s.closed, s.loads[f := Looking], s.place)
  {
    hide HandedOver, CallersHold;
  }

  lemma CallerStep(s: State, a: Action)
    requires Invariant(s) && CallerAction(a) && CallerEnabled(s, a) && Handing(s)
    ensures Handing(DoCaller(s, a))
  {
    if a.Arrive? {
      OneMoreHolds(s, a.t, Caller(a.key, Start));
    } else {
      GivenIsHandedOver(s, a);
      OneMoreHolds(s, a.t, Caller(s.callers[a.t].key, DoCaller(s, a).callers[a.t].pc));
    }
    if a.Join? { NewLoadHolds(s, a.newLoad); }
    hide DoCaller, Invariant, HandedOver, CallerRank, CallersHold, LoadsHandOver, ClosedByClose, CallerEnabled;
  }

  lemma {:induction false} ReachableHanding(s: State, run: seq<Action>)
    requires Reachable(s, run)
    ensures Handing(s)
    decreases |run|
  {
    if run != [] {
      var last, front := run[|run| - 1], run[..|run| - 1];
      var before :| Reachable(before, front) && Step(before, last, s);
      hide Invariant, Do, Enabled, Handing, Reachable;
      ReachableInvariant(before, front);
      ReachableHanding(before, front);
      if CallerAction(last) {
        CallerDoes(before, last);
        CallerStep(before, last);
      } else if LoadAction(last) {
        LoadStep(before, last);
      } else {
        CloseStep(before, last);
      }
    }
  }

  // ----- open or closed -----

  /** `Close` has begun, and of what it took this is not among the rest. */
  predicate CloseGotTo(s: State, c: Conn) { s.closed && c !in Pending(s.phase) }

  lemma HandedOverIsClosed(s: State, c: Conn)
    requires Invariant(s) && Handing(s) && HandedOver(s.place, c)
    ensures c in s.closes && s.closes[c] == if CloseGotTo(s, c) then 1 else 0
  {
    PlaceIsReal(s, c);
    hide HeldSound, PendingSound, StringValue, CallersSound, GroupSound, OpeningSound, OutcomesSound, CountsSound, ReturnsSound;
  }

  /** A connection that a caller has been given, by the cache or by a load, is closed once if `Close` has
      got to it and not at all otherwise. */
  lemma GivenClosedExactly(s: State, run: seq<Action>, t: CallerId)
    requires Reachable(s, run) && t in s.callers && HasConn(s.callers[t].pc)
    ensures var c := s.callers[t].pc.conn; c in s.closes && s.closes[c] == if CloseGotTo(s, c) then 1 else 0
  {
    ReachableInvariant(s, run);
    ReachableHanding(s, run);
    hide Reachable, Invariant, HandedOver, ClosedByClose;
    HandedOverIsClosed(s, s.callers[t].pc.conn);
  }

  lemma CallerDoes(s: State, a: Action)
    requires CallerAction(a)
    ensures Enabled(s, a) <==> CallerEnabled(s, a)
    ensures Enabled(s, a) ==> Do(s, a) == DoCaller(s, a)
  {
    hide DoCaller, CallerEnabled;
  }

  /** At the step with which a caller returns: what comes from the cache is open, and what comes from a load
      is closed if and only if `Close` has got to it by then. */
  lemma ReturnsClosedExactly(s: State, run: seq<Action>, a: Action)
    requires Reachable(s, run) && CallerAction(a) && CallerEnabled(s, a) && !a.Arrive?
    requires DoCaller(s, a).callers[a.t].pc.Returned?
    ensures var c := DoCaller(s, a).callers[a.t].pc.conn;
      c in s.closes && (s.closes[c] == if CloseGotTo(s, c) then 1 else 0) && (a.CheckCache? ==> s.closes[c] == 0)
  {
    CallerDoes(s, a);
    if a.CheckCache? { FoundIsOpen(s, run, a); }
    hide Reachable, DoCaller, Do, Enabled, CallerEnabled, CallerRank, CloseGotTo;
    Extend(s, run, a);
    GivenClosedExactly(DoCaller(s, a), run + [a], a.t);
    SameClose(s, DoCaller(s, a), DoCaller(s, a).callers[a.t].pc.conn);
  }

  lemma SameClose(s: State, r: State, c: Conn)
    requires r.closed == s.closed && r.phase == s.phase
    ensures CloseGotTo(r, c) <==> CloseGotTo(s, c)
  {
  }

  /** A closed session has an empty cache. */
  lemma FoundIsOpen(s: State, run: seq<Action>, a: Action)
    requires Reachable(s, run) && a.CheckCache? && CallerEnabled(s, a) && DoCaller(s, a).callers[a.t].pc.Returned?
    ensures !CloseGotTo(s, DoCaller(s, a).callers[a.t].pc.conn)
  {
    ReachableInvariant(s, run);
    hide Reachable, StringValue, PlacesSound, CallersSound, GroupSound, OpeningSound, OutcomesSound, CountsSound, ReturnsSound;
  }

  /** And it can come to that: whoever waits for a load that has not failed, in an open session or with its
      outcome already there, may find `Close` faster. */
  lemma WaiterMayReturnClosed(s: State, run: seq<Action>, t: CallerId) returns (s': State, run': seq<Action>)
    requires Reachable(s, run) && t in s.callers && s.callers[t].pc.Waiting?
    requires s.callers[t].pc.load in s.loads ==> Hopeful(s, s.callers[t].pc.load)
    ensures Reachable(s', run') && GoesOn(run, run') && t in s'.callers && s'.callers[t].pc.Returned?
    ensures var c := s'.callers[t].pc.conn; c in s'.closes && s'.closes[c] == 1
  {
    hide *;
    ReachableInvariant(s, run);
    WaitedLoadExists(s, t);
    var f := s.callers[t].pc.load;
    var m, middle := LoadDelivers(s, run, f);
    SameCallersAreOne(s, t, f, m);
    HopeFulfilled(m, f);
    var n, later := CloseEnds(m, middle);
    s', run' := Received(n, later, t);
    GoesOnThrough(run, middle, later);
    GoesOnThrough(run, later, run');
    assert CloseGotTo(s', s'.callers[t].pc.conn) by { AllIsClosed(s', run', s'.callers[t].pc.conn); }
    ReturnedHasConn(s'.callers[t].pc);
    GivenClosedExactly(s', run', t);
  }

  lemma ReturnedHasConn(pc: CallerPc)
    requires pc.Returned?
    ensures HasConn(pc)
  {
  }

  lemma AllIsClosed(s: State, run: seq<Action>, c: Conn)
    requires Reachable(s, run) && s.phase.Closed?
    ensures CloseGotTo(s, c)
  {
    ReachableInvariant(s, run);
    hide Reachable, StringValue, PlacesSound, CallersSound, GroupSound, OpeningSound, OutcomesSound, CountsSound, ReturnsSound;
  }
}
