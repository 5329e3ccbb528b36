/** The two levels of semaphores in front of every remote call: a capability's own limit first, the
    session's limit second, released in the opposite order. Any number of callers, with any
    capabilities, take their steps in any order; the session may be closed at any time, and a caller
    that waits may be cancelled. */
module RemoteSlots {

  type CapId = nat

  /** Where a caller is in `acquireCapabilityRemoteSlot` and in the release function it gets. */
  datatype Pc =
    | AskCap          // waits for its capability's semaphore
    | AskOpen         // `requireOpen` before the session's semaphore
    | AskSession      // waits for the session's semaphore
    | Recheck         // `requireOpen` after it
    | Entering        // about to count itself in
    | Running         // has the release function
    | Leaving         // has entered the outer guard of that function
    | LeavingSession  // counted out under the inner guard, session permit not yet returned
    | LeavingCap      // session permit returned
    | Done            // released
    | Backing         // second acquire failed, capability permit not yet returned
    | Failed

  datatype Cap = NoCap | OfCap(id: CapId)

  /** The release function wraps the one for the session's slot; each has a `sync.Once` of its own,
      which is `outer` and `inner` here: whether it has been used up. */
  datatype Caller = Caller(cap: Cap, pc: Pc, outer: bool, inner: bool)

  datatype State = State(
    max: nat, limits: map<CapId, nat>,
    closed: bool,
    sessionHeld: int, capHeld: map<CapId, int>,   // permits taken from each semaphore
    inFlight: int, peak: int, operations: int,    // `remoteInFlight` and the two statistics
    callers: seq<Caller>)

  datatype Action =
    | Arrive(cap: Cap)
    | Proceed(t: nat)        // the next statement of caller `t`
    | Cancel(t: nat)         // its context ends while it waits
    | Release(t: nat)        // the release function is called, be it again
    | Close

  predicate Waits(pc: Pc) { pc.AskCap? || pc.AskSession? }

  predicate Finished(t: Caller) { t.pc.Done? || t.pc.Failed? }

  /** The caller has its release function, and may call it at any time. */
  predicate MayRelease(pc: Pc) { pc.Running? || pc.Leaving? || pc.LeavingSession? || pc.LeavingCap? || pc.Done? }

  predicate Enabled(s: State, a: Action) {
    match a
    case Arrive(cap) => cap.OfCap? ==> cap.id in s.limits && cap.id in s.capHeld
    case Proceed(t) =>
      && t < |s.callers| && !Finished(s.callers[t]) && !s.callers[t].pc.Running?
      && (s.callers[t].cap.OfCap? ==> s.callers[t].cap.id in s.limits && s.callers[t].cap.id in s.capHeld)
      && (s.callers[t].pc.AskCap? && s.callers[t].cap.OfCap? ==> s.capHeld[s.callers[t].cap.id] < s.limits[s.callers[t].cap.id])
      && (s.callers[t].pc.AskSession? ==> s.sessionHeld < s.max)
    case Cancel(t) =>
      && t < |s.callers| && Waits(s.callers[t].pc)
      && (s.callers[t].pc.AskCap? ==> s.callers[t].cap.OfCap?)
      && (s.callers[t].cap.OfCap? ==> s.callers[t].cap.id in s.capHeld)
    case Release(t) => t < |s.callers| && MayRelease(s.callers[t].pc)
    case Close => true
  }

  /** Takes (1) or returns (-1) a permit of the caller's capability, if it has one. */
  function AddCap(capHeld: map<CapId, int>, cap: Cap, n: int): map<CapId, int>
    requires cap.OfCap? ==> cap.id in capHeld
  {
    if cap.NoCap? || n == 0 then capHeld else capHeld[cap.id := capHeld[cap.id] + n]
  }

  /** Caller `t` becomes `x`; the three numbers are what it takes of the capability's permits, of the
      session's permits, and of `remoteInFlight`. */
  function Move(s: State, t: nat, x: Caller, cap: int, session: int, inFlight: int): State
    requires t < |s.callers| && (x.cap.OfCap? ==> x.cap.id in s.capHeld)
  {
    s.(callers := s.callers[t := x], capHeld := AddCap(s.capHeld, x.cap, cap),
       sessionHeld := s.sessionHeld + session, inFlight := s.inFlight + inFlight)
  }

  /** The two statistics, when a caller counts itself in. */
  function CountIn(s: State): State {
    s.(operations := s.operations + 1, peak := if s.inFlight + 1 > s.peak then s.inFlight + 1 else s.peak)
  }

  /** How many steps a caller has before it at most. */
  function Rank(pc: Pc): nat {
    match pc
    case AskCap => 9 case AskOpen => 8 case AskSession => 7 case Recheck => 6 case Entering => 5
    case Running => 4 case Leaving => 3 case LeavingSession => 2 case LeavingCap => 1 case Backing => 1
    case Done => 0 case Failed => 0
  }

  /** What caller `x` is after its next statement, in a session that is closed or not. */
  function Next(x: Caller, closed: bool): (r: Caller)
    ensures r.cap == x.cap
    ensures !Finished(x) && !x.pc.Running? ==> Rank(r.pc) < Rank(x.pc)
  {
    match x.pc
    case AskCap => x.(pc := AskOpen)
    case AskOpen => x.(pc := if closed then Backing else AskSession)
    case AskSession => x.(pc := Recheck)
    case Recheck => x.(pc := if closed then Backing else Entering)
    case Entering => x.(pc := Running)
    case Leaving => if x.inner then x.(pc := LeavingCap) else x.(pc := LeavingSession, inner := true)
    case LeavingSession => x.(pc := LeavingCap)
    case LeavingCap => x.(pc := Done)
    case Backing => x.(pc := Failed)
    case Running | Done | Failed => x
  }

  function Do(s: State, a: Action): (r: State)
    requires Enabled(s, a)
    ensures r.limits == s.limits
    ensures a.Proceed? || a.Cancel? || a.Release? ==> |r.callers| == |s.callers| && r.callers == s.callers[a.t := r.callers[a.t]]
    ensures a.Proceed? || a.Cancel? || (a.Release? && !s.callers[a.t].outer && s.callers[a.t].pc.Running?) ==>
              Rank(r.callers[a.t].pc) < Rank(s.callers[a.t].pc)
  {
    match a
    case Arrive(cap) => s.(callers := s.callers + [Caller(cap, AskCap, false, false)])
    case Cancel(t) => Move(s, t, s.callers[t].(pc := if s.callers[t].pc.AskCap? then Failed else Backing), 0, 0, 0)
    case Release(t) =>
      if s.callers[t].outer then s
      else s.(callers := s.callers[t := s.callers[t].(pc := Leaving, outer := true)])
    case Close => s.(closed := true)
    case Proceed(t) =>
      var x := s.callers[t];
      match x.pc
      case AskCap => Move(s, t, Next(x, s.closed), 1, 0, 0)
      case AskOpen => Move(s, t, Next(x, s.closed), 0, 0, 0)
      case AskSession => Move(s, t, Next(x, s.closed), 0, 1, 0)
      case Recheck => Move(s, t, Next(x, s.closed), 0, if s.closed then -1 else 0, 0)
      case Entering => Move(CountIn(s), t, Next(x, s.closed), 0, 0, 1)
      case Leaving => Move(s, t, Next(x, s.closed), 0, 0, if x.inner then 0 else -1)
      case LeavingSession => Move(s, t, Next(x, s.closed), 0, -1, 0)
      case LeavingCap => Move(s, t, Next(x, s.closed), -1, 0, 0)
      case Backing => Move(s, t, Next(x, s.closed), -1, 0, 0)
  }

  predicate Initial(s: State) {
    && s.max > 0 && (forall c :: c in s.limits ==> s.limits[c] > 0)
    && !s.closed && s.sessionHeld == 0 && s.inFlight == 0 && s.peak == 0 && s.operations == 0 && s.callers == []
    && s.capHeld == map c | c in s.limits :: 0
  }

  ghost predicate Step(s: State, a: Action, s': State) { Enabled(s, a) && s' == Do(s, a) }

  /** States that some interleaving leads to. */
  ghost predicate Reachable(s: State, run: seq<Action>)
    decreases |run|
  {
    if run == [] then Initial(s)
    else
      var last := run[|run| - 1];
      exists before :: Reachable(before, run[..|run| - 1]) && Step(before, last, s)
  }

  // ----- counting callers -----

  function Count(callers: seq<Caller>, p: Caller -> bool): (n: nat)
    ensures n <= |callers|
  {
    if callers == [] then 0 else (if p(callers[0]) then 1 else 0) + Count(callers[1..], p)
  }

  lemma {:induction false} CountUpdate(callers: seq<Caller>, i: nat, x: Caller, p: Caller -> bool)
    requires i < |callers|
    ensures Count(callers[i := x], p) == Count(callers, p) - (if p(callers[i]) then 1 else 0) + (if p(x) then 1 else 0)
  {
    if i > 0 {
      CountUpdate(callers[1..], i - 1, x, p);
      assert callers[i := x][1..] == callers[1..][i - 1 := x];
    } else {
      assert callers[i := x][1..] == callers[1..];
    }
  }

  lemma {:induction false} CountAppend(callers: seq<Caller>, x: Caller, p: Caller -> bool)
    ensures Count(callers + [x], p) == Count(callers, p) + (if p(x) then 1 else 0)
  {
    if callers == [] {
      assert callers + [x] == [x];
    } else {
      CountAppend(callers[1..], x, p);
      assert (callers + [x])[1..] == callers[1..] + [x];
    }
  }

  lemma {:induction false} CountMonotone(callers: seq<Caller>, p: Caller -> bool, q: Caller -> bool)
    requires forall t: Caller :: p(t) ==> q(t)
    ensures Count(callers, p) <= Count(callers, q)
  {
    if callers != [] { CountMonotone(callers[1..], p, q); }
  }

  lemma {:induction false} CountZero(callers: seq<Caller>, p: Caller -> bool)
    requires forall i :: 0 <= i < |callers| ==> !p(callers[i])
    ensures Count(callers, p) == 0
  {
    if callers != [] { CountZero(callers[1..], p); }
  }

  predicate HoldsSession(t: Caller) { t.pc.Recheck? || t.pc.Entering? || t.pc.Running? || t.pc.Leaving? || t.pc.LeavingSession? }

  predicate InFlight(t: Caller) { t.pc.Running? || t.pc.Leaving? }

  predicate HoldsAnyCap(t: Caller) { !t.pc.AskCap? && !Finished(t) }

  function HoldsCap(c: CapId): Caller -> bool {
    (t: Caller) => t.cap == OfCap(c) && HoldsAnyCap(t)
  }

  // ----- the invariant -----

  ghost predicate CapsSound(limits: map<CapId, nat>, capHeld: map<CapId, int>, callers: seq<Caller>) {
    && capHeld.Keys == limits.Keys
    && (forall c :: c in limits ==> capHeld[c] == Count(callers, HoldsCap(c)) <= limits[c])
  }

  /** The guards are used up exactly while and after what they guard is done. */
  predicate Guarded(x: Caller) {
    && (x.outer <==> x.pc.Leaving? || x.pc.LeavingSession? || x.pc.LeavingCap? || x.pc.Done?)
    && (x.inner <==> x.pc.LeavingSession? || x.pc.LeavingCap? || x.pc.Done?)
  }

  ghost predicate CallersSound(limits: map<CapId, nat>, callers: seq<Caller>) {
    forall i :: 0 <= i < |callers| ==> Guarded(callers[i]) && (callers[i].cap.OfCap? ==> callers[i].cap.id in limits)
  }

  /** Every semaphore's count is the number of callers that hold a permit of it: a caller that fails or
      releases, at whatever point and however often, has given back exactly what it took. */
  ghost predicate Invariant(s: State) {
    && s.max > 0 && (forall c :: c in s.limits ==> s.limits[c] > 0)
    && CapsSound(s.limits, s.capHeld, s.callers)
    && CallersSound(s.limits, s.callers)
    && s.sessionHeld == Count(s.callers, HoldsSession) <= s.max
    && s.inFlight == Count(s.callers, InFlight) <= s.peak <= s.max
    && s.peak <= s.operations
  }

  function One(b: bool): int { if b then 1 else 0 }

  /** A move that takes and returns what the two positions say it should. */
  lemma MoveKeeps(s: State, t: nat, x: Caller, cap: int, session: int, inFlight: int)
    requires Invariant(s) && t < |s.callers| && x.cap == s.callers[t].cap && Guarded(x)
    requires cap == One(HoldsAnyCap(x)) - One(HoldsAnyCap(s.callers[t]))
    requires session == One(HoldsSession(x)) - One(HoldsSession(s.callers[t]))
    requires inFlight == One(InFlight(x)) - One(InFlight(s.callers[t]))
    requires cap > 0 && x.cap.OfCap? ==> s.capHeld[x.cap.id] < s.limits[x.cap.id]
    requires session > 0 ==> s.sessionHeld < s.max
    requires inFlight > 0 ==> s.inFlight < s.peak
    ensures Invariant(Move(s, t, x, cap, session, inFlight))
  {
    CountUpdate(s.callers, t, x, HoldsSession);
    CountUpdate(s.callers, t, x, InFlight);
    CapsKept(s, t, x, cap);
    CallersKept(s, t, x);
    hide Count, HoldsAnyCap, HoldsSession, InFlight, HoldsCap, AddCap, CapsSound, CallersSound;
  }

  lemma CallersKept(s: State, t: nat, x: Caller)
    requires CallersSound(s.limits, s.callers) && t < |s.callers| && x.cap == s.callers[t].cap && Guarded(x)
    ensures CallersSound(s.limits, s.callers[t := x])
  {
    hide Guarded;
  }

  lemma CapsKept(s: State, t: nat, x: Caller, cap: int)
    requires CapsSound(s.limits, s.capHeld, s.callers) && t < |s.callers| && x.cap == s.callers[t].cap
    requires x.cap.OfCap? ==> x.cap.id in s.limits
    requires cap == One(HoldsAnyCap(x)) - One(HoldsAnyCap(s.callers[t]))
    requires cap > 0 && x.cap.OfCap? ==> s.capHeld[x.cap.id] < s.limits[x.cap.id]
    ensures CapsSound(s.limits, AddCap(s.capHeld, x.cap, cap), s.callers[t := x])
  {
    forall c
      ensures Count(s.callers[t := x], HoldsCap(c)) ==
        Count(s.callers, HoldsCap(c)) - One(HoldsCap(c)(s.callers[t])) + One(HoldsCap(c)(x))
    {
      CountUpdate(s.callers, t, x, HoldsCap(c));
    }
    assert forall c, y :: HoldsCap(c)(y) == (y.cap == OfCap(c) && HoldsAnyCap(y));
    hide Count, HoldsAnyCap, HoldsCap;
  }

  /** Callers in flight hold session permits, so counting one more in stays within the maximum. */
  lemma RoomToEnter(s: State, t: nat)
    requires Invariant(s) && t < |s.callers| && s.callers[t].pc.Entering?
    ensures s.inFlight < s.max && Invariant(CountIn(s)) && CountIn(s).inFlight < CountIn(s).peak
  {
    var x := Next(s.callers[t], s.closed);
    CountUpdate(s.callers, t, x, HoldsSession);
    CountUpdate(s.callers, t, x, InFlight);
    CountMonotone(s.callers[t := x], InFlight, HoldsSession);
    CountMonotone(s.callers, InFlight, HoldsSession);
    hide Count, HoldsCap;
  }

  lemma ProceedStep(s: State, a: Action)
    requires Invariant(s) && Enabled(s, a) && a.Proceed?
    ensures Invariant(Do(s, a))
  {
    var t := a.t;
    var x := s.callers[t];
    var y := Next(x, s.closed);
    assert Guarded(x) && Guarded(y);
    hide Invariant, Move;
    match x.pc
    case AskCap => MoveKeeps(s, t, y, 1, 0, 0);
    case AskOpen => MoveKeeps(s, t, y, 0, 0, 0);
    case AskSession => MoveKeeps(s, t, y, 0, 1, 0);
    case Recheck => MoveKeeps(s, t, y, 0, if s.closed then -1 else 0, 0);
    case Entering =>
      RoomToEnter(s, t);
      MoveKeeps(CountIn(s), t, y, 0, 0, 1);
    case Leaving => MoveKeeps(s, t, y, 0, 0, -1);
    case LeavingSession => MoveKeeps(s, t, y, 0, -1, 0);
    case LeavingCap => MoveKeeps(s, t, y, -1, 0, 0);
    case Backing => MoveKeeps(s, t, y, -1, 0, 0);
  }

  /** The first call of the release function enters the guard; every other call changes nothing. */
  lemma ReleaseStep(s: State, t: nat)
    requires Invariant(s) && Enabled(s, Release(t))
    ensures Invariant(Do(s, Release(t)))
    ensures s.callers[t].outer <==> !s.callers[t].pc.Running?
    ensures s.callers[t].outer ==> Do(s, Release(t)) == s
  {
    assert Guarded(s.callers[t]);
    if !s.callers[t].outer {
      var x := s.callers[t].(pc := Leaving, outer := true);
      hide Invariant;
      MoveKeeps(s, t, x, 0, 0, 0);
      assert Do(s, Release(t)) == Move(s, t, x, 0, 0, 0);
    }
  }

  lemma ArriveStep(s: State, cap: Cap)
    requires Invariant(s) && Enabled(s, Arrive(cap))
    ensures Invariant(Do(s, Arrive(cap)))
  {
    var x := Caller(cap, AskCap, false, false);
    CountAppend(s.callers, x, HoldsSession);
    CountAppend(s.callers, x, InFlight);
    forall c
      ensures Count(s.callers + [x], HoldsCap(c)) == Count(s.callers, HoldsCap(c))
    {
      CountAppend(s.callers, x, HoldsCap(c));
    }
    hide Count, HoldsCap;
  }

  lemma InvariantKept(s: State, a: Action)
    requires Invariant(s) && Enabled(s, a)
    ensures Invariant(Do(s, a))
  {
    if a.Arrive? {
      hide Invariant, Do, Enabled;
      ArriveStep(s, a.cap);
    } else if a.Proceed? {
      hide Invariant, Do, Enabled;
      ProceedStep(s, a);
    } else if a.Cancel? {
      assert Guarded(s.callers[a.t]);
      hide Invariant, Move;
      MoveKeeps(s, a.t, s.callers[a.t].(pc := if s.callers[a.t].pc.AskCap? then Failed else Backing), 0, 0, 0);
    } else if a.Release? {
      hide Invariant, Do, Enabled;
      ReleaseStep(s, a.t);
    } else {
      hide Count, HoldsCap;
    }
  }

  lemma {:induction false} ReachableInvariant(s: State, run: seq<Action>)
    requires Reachable(s, run)
    ensures Invariant(s)
    decreases |run|
  {
    if run != [] {
      var last, front := run[|run| - 1], run[..|run| - 1];
      var before :| Reachable(before, front) && Step(before, last, s);
      hide Invariant, Do, Enabled;
      ReachableInvariant(before, front);
      InvariantKept(before, last);
    }
  }

  // ----- what holds in every reachable state -----

  /** The limits of the session and of every capability, and the bounds of the statistics. */
  lemma LimitsHold(s: State, run: seq<Action>)
    requires Reachable(s, run)
    ensures 0 <= s.inFlight <= s.sessionHeld <= s.max
    ensures s.inFlight <= s.peak <= s.max && s.peak <= s.operations
    ensures forall c :: c in s.limits ==> c in s.capHeld && 0 <= s.capHeld[c] <= s.limits[c]
  {
    ReachableInvariant(s, run);
    CountMonotone(s.callers, InFlight, HoldsSession);
    hide Count, HoldsCap;
  }

  /** Permits are conserved: a semaphore is exactly as full as there are callers that hold a permit,
      and so is `remoteInFlight`; a caller that failed or released holds none. The guards see to it that
      only the first call of a release function does anything, even while that call is under way. */
  lemma PermitsAreConserved(s: State, run: seq<Action>)
    requires Reachable(s, run)
    ensures s.sessionHeld == Count(s.callers, HoldsSession) && s.inFlight == Count(s.callers, InFlight)
    ensures forall c :: c in s.limits ==> c in s.capHeld && s.capHeld[c] == Count(s.callers, HoldsCap(c))
    ensures forall t: nat :: Enabled(s, Release(t)) && !s.callers[t].pc.Running? ==> Do(s, Release(t)) == s
    ensures (forall i :: 0 <= i < |s.callers| ==> Finished(s.callers[i])) ==>
              s.sessionHeld == 0 && s.inFlight == 0 && forall c :: c in s.limits ==> s.capHeld[c] == 0
  {
    ReachableInvariant(s, run);
    forall t: nat | Enabled(s, Release(t)) && !s.callers[t].pc.Running?
      ensures Do(s, Release(t)) == s
    {
      ReleaseStep(s, t);
    }
    hide Do;
    if forall i :: 0 <= i < |s.callers| ==> Finished(s.callers[i]) {
      CountZero(s.callers, HoldsSession);
      CountZero(s.callers, InFlight);
      forall c | c in s.limits
        ensures Count(s.callers, HoldsCap(c)) == 0
      {
        CountZero(s.callers, HoldsCap(c));
      }
    }
  }

  // ----- who gets in -----

  /** The capabilities that callers arrived with. */
  ghost function Arrivals(run: seq<Action>): seq<Cap> {
    if run == [] then []
    else
      var rest, last := Arrivals(run[..|run| - 1]), run[|run| - 1];
      if last.Arrive? then rest + [last.cap] else rest
  }

  /** Every caller keeps the capability that it arrived with, and only `Close` closes the session. */
  lemma {:induction false} CallersAreTheArrivals(s: State, run: seq<Action>)
    requires Reachable(s, run)
    ensures (s.closed <==> Close in run) && Enabled(s, Close)
    ensures |s.callers| == |Arrivals(run)| && forall i :: 0 <= i < |s.callers| ==> s.callers[i].cap == Arrivals(run)[i]
    decreases |run|
  {
    if run != [] {
      var last, front := run[|run| - 1], run[..|run| - 1];
      var before :| Reachable(before, front) && Step(before, last, s);
      hide Reachable, Do;
      CallersAreTheArrivals(before, front);
      assert run == front + [last];
      if last.Arrive? || last.Close? { ArrivalMoves(before, last); } else { StepMoves(before, last); }
    }
  }

  /** The caller has counted itself in. */
  ghost predicate Entered(t: Caller) { MayRelease(t.pc) }

  /** The caller has got past the first look at the session. */
  ghost predicate Queued(t: Caller) { t.pc.AskSession? || t.pc.Recheck? || LetIn(t) }

  lemma ArrivalMoves(s: State, a: Action)
    requires Enabled(s, a) && (a.Arrive? || a.Close?)
    ensures Do(s, a).callers == if a.Arrive? then s.callers + [Caller(a.cap, AskCap, false, false)] else s.callers
    ensures Do(s, a).closed <==> s.closed || a.Close?
    ensures Do(s, a).operations == s.operations
  {
  }

  /** What a step makes of its caller, and of the session. */
  lemma StepMoves(s: State, a: Action)
    requires Enabled(s, a) && !a.Arrive? && !a.Close?
    ensures Do(s, a).callers == s.callers[a.t := Do(s, a).callers[a.t]] && Do(s, a).closed == s.closed
    ensures var x, y := s.callers[a.t], Do(s, a).callers[a.t];
      && y.cap == x.cap
      && (Entered(y) <==> Entered(x) || (a.Proceed? && x.pc.Entering?))
      && (y.pc.Entering? ==> a.Proceed? && x.pc.Recheck? && !s.closed)
      && (Queued(y) ==> Queued(x) || (x.pc.AskOpen? && !s.closed))
      && (y.pc.Backing? || y.pc.Failed? ==> x.pc.Backing? || s.closed || a.Cancel?)
      && Do(s, a).operations == s.operations + if a.Proceed? && x.pc.Entering? then 1 else 0
  {
    hide AddCap, Rank;
  }

  lemma EntriesCounted(s: State, a: Action)
    requires Enabled(s, a)
    ensures Do(s, a).operations - s.operations == Count(Do(s, a).callers, Entered) - Count(s.callers, Entered)
  {
    hide Do;
    if a.Arrive? || a.Close? {
      ArrivalMoves(s, a);
      if a.Arrive? { CountAppend(s.callers, Caller(a.cap, AskCap, false, false), Entered); }
    } else {
      StepMoves(s, a);
      CountUpdate(s.callers, a.t, Do(s, a).callers[a.t], Entered);
    }
    hide Count;
  }

  /** The statistics tell what happened: every caller that ever got in is counted once, and the peak is the
      most that were in flight at a time. */
  lemma {:induction false} StatisticsTell(s: State, run: seq<Action>)
    requires Reachable(s, run)
    ensures s.operations == Count(s.callers, Entered)
    ensures forall a :: Enabled(s, a) ==> Do(s, a).peak == if Do(s, a).inFlight > s.peak then Do(s, a).inFlight else s.peak
    decreases |run|
  {
    if run != [] {
      var last, front := run[|run| - 1], run[..|run| - 1];
      var before :| Reachable(before, front) && Step(before, last, s);
      hide Reachable, Do;
      StatisticsTell(before, front);
      EntriesCounted(before, last);
    }
    ReachableInvariant(s, run);
    forall a | Enabled(s, a)
      ensures Do(s, a).peak == if Do(s, a).inFlight > s.peak then Do(s, a).inFlight else s.peak
    {
      PeakMoves(s, a);
    }
  }

  lemma PeakMoves(s: State, a: Action)
    requires Invariant(s) && Enabled(s, a)
    ensures Do(s, a).peak == if Do(s, a).inFlight > s.peak then Do(s, a).inFlight else s.peak
  {
    hide Count, AddCap, CapsSound;
  }

  /** The states that a run leads to. */
  ghost predicate Leads(s: State, more: seq<Action>, s': State)
    decreases |more|
  {
    if more == [] then s' == s else Enabled(s, more[0]) && Leads(Do(s, more[0]), more[1..], s')
  }

  /** The caller has got past the last look at the session. */
  ghost predicate LetIn(t: Caller) { t.pc.Entering? || Entered(t) }

  /** Nobody is let in any more once the session is closed, whoever arrives and whatever happens, and nobody
      begins to wait for one of its slots. */
  lemma {:induction false} ClosedLetsNobodyIn(s: State, more: seq<Action>, s': State, t: nat)
    requires s.closed && Leads(s, more, s') && t < |s'.callers| && Queued(s'.callers[t])
    ensures s'.closed && t < |s.callers| && Queued(s.callers[t]) && (LetIn(s'.callers[t]) ==> LetIn(s.callers[t]))
    decreases |more|
  {
    if more != [] {
      var a := more[0];
      if a.Arrive? || a.Close? { ArrivalMoves(s, a); } else { StepMoves(s, a); }
      hide Do;
      ClosedLetsNobodyIn(Do(s, a), more[1..], s', t);
    }
  }

  /** Nobody is turned away but by the end of a context or of the session. */
  lemma {:induction false} OnlyClosingTurnsAway(s: State, more: seq<Action>, s': State, t: nat)
    requires Leads(s, more, s') && !s'.closed && Cancel(t) !in more
    requires t < |s.callers| ==> !s.callers[t].pc.Backing? && !s.callers[t].pc.Failed?
    requires t < |s'.callers|
    ensures !s.closed && !s'.callers[t].pc.Backing? && !s'.callers[t].pc.Failed?
    decreases |more|
  {
    if more != [] {
      var a := more[0];
      assert a != Cancel(t);
      if a.Arrive? || a.Close? { ArrivalMoves(s, a); } else { StepMoves(s, a); }
      hide Do;
      StaysClosed(Do(s, a), more[1..], s');
      OnlyClosingTurnsAway(Do(s, a), more[1..], s', t);
    }
  }

  lemma {:induction false} StaysClosed(s: State, more: seq<Action>, s': State)
    requires Leads(s, more, s')
    ensures s.closed ==> s'.closed
    decreases |more|
  {
    if more != [] { StaysClosed(Do(s, more[0]), more[1..], s'); }
  }

  // ----- no deadlock -----

  lemma SessionIsFree(s: State)
    requires Invariant(s) && forall i :: 0 <= i < |s.callers| ==> Finished(s.callers[i]) || Waits(s.callers[i].pc)
    ensures s.sessionHeld < s.max
  {
    CountZero(s.callers, HoldsSession);
    hide Count, CapsSound;
  }

  lemma CapIsFree(s: State, c: CapId)
    requires Invariant(s) && forall i :: 0 <= i < |s.callers| ==> Finished(s.callers[i]) || s.callers[i].pc.AskCap?
    requires c in s.limits
    ensures c in s.capHeld && s.capHeld[c] < s.limits[c]
  {
    CountZero(s.callers, HoldsCap(c));
    hide Count;
  }

  /** A next step of a caller, or the first call of its release function. */
  predicate Onward(s: State, a: Action) {
    a.Proceed? || (a.Release? && a.t < |s.callers| && s.callers[a.t].pc.Running?)
  }

  /** As long as a caller is unfinished, some caller can take its next step without anybody being
      cancelled: whoever holds a permit can go on, and if nobody does there is one to take. */
  lemma NoDeadlock(s: State, run: seq<Action>) returns (a: Action)
    requires Reachable(s, run)
    requires exists i :: 0 <= i < |s.callers| && !Finished(s.callers[i])
    ensures Enabled(s, a) && Onward(s, a)
  {
    ReachableInvariant(s, run);
    hide Count, HoldsCap, Reachable;
    if i :| 0 <= i < |s.callers| && s.callers[i].pc.Running? {
      a := Release(i);
    } else if i :| 0 <= i < |s.callers| && !Finished(s.callers[i]) && !Waits(s.callers[i].pc) {
      a := Proceed(i);
    } else if i :| 0 <= i < |s.callers| && s.callers[i].pc.AskSession? {
      SessionIsFree(s);
      a := Proceed(i);
    } else {
      var t :| 0 <= t < |s.callers| && !Finished(s.callers[t]);
      if s.callers[t].cap.OfCap? {
        CapIsFree(s, s.callers[t].cap.id);
      }
      a := Proceed(t);
    }
  }

  function Work(callers: seq<Caller>): nat {
    if callers == [] then 0 else Rank(callers[0].pc) + Work(callers[1..])
  }

  lemma {:induction false} WorkUpdate(callers: seq<Caller>, i: nat, x: Caller)
    requires i < |callers|
    ensures Work(callers[i := x]) == Work(callers) - Rank(callers[i].pc) + Rank(x.pc)
  {
    if i > 0 {
      WorkUpdate(callers[1..], i - 1, x);
      assert callers[i := x][1..] == callers[1..][i - 1 := x];
    } else {
      assert callers[i := x][1..] == callers[1..];
    }
  }

  /** Steps and cancellations use the work up, and only arrivals add to it. */
  lemma WorkDecreases(s: State, run: seq<Action>, a: Action)
    requires Reachable(s, run) && Enabled(s, a) && (Onward(s, a) || a.Cancel?)
    ensures Work(Do(s, a).callers) < Work(s.callers)
  {
    ReachableInvariant(s, run);
    if a.Release? { ReleaseStep(s, a.t); }
    hide Reachable, Invariant;
    WorkUpdate(s.callers, a.t, Do(s, a).callers[a.t]);
    hide Work, Do;
  }

  lemma Extend(s: State, run: seq<Action>, a: Action)
    requires Reachable(s, run) && Enabled(s, a)
    ensures Reachable(Do(s, a), run + [a])
  {
    var all := run + [a];
    assert all[..|all| - 1] == run && all[|all| - 1] == a;
    assert Step(s, a, Do(s, a));
  }

  /** So without new arrivals every caller can finish, and then all permits are back. */
  lemma {:induction false} EverythingIsReturned(s: State, run: seq<Action>) returns (s': State, run': seq<Action>)
    requires Reachable(s, run)
    ensures Reachable(s', run') && run <= run' && |run'| <= |run| + Work(s.callers)
    ensures forall i :: |run| <= i < |run'| ==> run'[i].Proceed? || run'[i].Release?
    ensures |s'.callers| == |s.callers| && (forall i :: 0 <= i < |s'.callers| ==> Finished(s'.callers[i]))
    ensures s'.sessionHeld == 0 && s'.inFlight == 0
    ensures s'.limits == s.limits && (forall c :: c in s'.limits ==> c in s'.capHeld && s'.capHeld[c] == 0)
    decreases Work(s.callers)
  {
    if exists i :: 0 <= i < |s.callers| && !Finished(s.callers[i]) {
      var a := NoDeadlock(s, run);
      WorkDecreases(s, run, a);
      Extend(s, run, a);
      hide Reachable, Do, Enabled, Work;
      s', run' := EverythingIsReturned(Do(s, a), run + [a]);
    } else {
      PermitsAreConserved(s, run);
      s', run' := s, run;
    }
  }
}
