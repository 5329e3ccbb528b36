/** What a run tells of the state it leads to: who closed the session, which failures were counted, who is
    turned away, and who is not. */
module DerivedRuns {
  import opened DerivedConnections

  // ----- what was done -----

  /** How many connections could not be made. */
  ghost function FailedConnects(run: seq<Action>): nat {
    if run == [] then 0 else FailedConnects(run[..|run| - 1]) + if run[|run| - 1].ConnectFails? then 1 else 0
  }

  ghost predicate CloseBegan(run: seq<Action>) {
    exists a :: a in run && a.BeginClose?
  }

  /** The loads that have failed and are about to count it. */
  ghost function Uncounted(loads: map<LoadId, LoadPc>): set<LoadId> {
    set f | f in loads && loads[f].CountingFailure?
  }

  ghost predicate Told(s: State, run: seq<Action>) {
    && (s.closed <==> CloseBegan(run))
    && s.failures + |Uncounted(s.loads)| == FailedConnects(run)
    && MadeBy(s.made, s.loadKey, run)
  }

  lemma CallerMoves(s: State, a: Action)
    requires Enabled(s, a) && CallerAction(a) && s.loadKey.Keys == s.loads.Keys
    ensures var r := Do(s, a);
      && r.closed == s.closed && r.failures == s.failures && r.made == s.made && Uncounted(r.loads) == Uncounted(s.loads)
      && (forall f :: f in s.loadKey ==> f in r.loadKey && r.loadKey[f] == s.loadKey[f])
  {
    assert Do(s, a) == DoCaller(s, a);
    hide Do, DoCaller, Gives;
  }

  lemma LoadMoves(s: State, a: Action)
    requires Enabled(s, a) && LoadAction(a) && s.loadKey.Keys == s.loads.Keys
    ensures var r := Do(s, a);
      && r.closed == s.closed && r.loadKey == s.loadKey
      && (if a.Connect? then a.f in s.loadKey && r.made == s.made[a.c := s.loadKey[a.f]] else r.made == s.made)
      && r.failures + |Uncounted(r.loads)| == s.failures + |Uncounted(s.loads)| + if a.ConnectFails? then 1 else 0
  {
    if a.ConnectFails? || a.CountFailure? {
      FailureMoves(s, a);
    } else {
      OtherMoves(s, a);
    }
    hide Do;
  }

  lemma FailureMoves(s: State, a: Action)
    requires Enabled(s, a) && (a.ConnectFails? || a.CountFailure?)
    ensures var r := Do(s, a);
      && r.closed == s.closed && r.loadKey == s.loadKey && r.made == s.made
      && r.failures + |Uncounted(r.loads)| == s.failures + |Uncounted(s.loads)| + if a.ConnectFails? then 1 else 0
  {
    var r := Do(s, a);
    if a.ConnectFails? {
      AfterFailure(s, a.f);
      hide Do;
      assert Uncounted(r.loads) == Uncounted(s.loads) + {a.f};
    } else {
      AfterCounting(s, a.f);
      hide Do;
      assert Uncounted(s.loads) == Uncounted(r.loads) + {a.f};
    }
  }

  lemma AfterFailure(s: State, f: LoadId)
    requires Enabled(s, ConnectFails(f))
    ensures Do(s, ConnectFails(f)) == s.(loads := s.loads[f := CountingFailure])
  {
  }

  lemma AfterCounting(s: State, f: LoadId)
    requires Enabled(s, CountFailure(f))
    ensures Do(s, CountFailure(f)) == s.(loads := s.loads[f := Finishing(Error)], failures := s.failures + 1)
  {
  }

  lemma OtherMoves(s: State, a: Action)
    requires Enabled(s, a) && LoadAction(a) && !a.ConnectFails? && !a.CountFailure?
    ensures var r := Do(s, a);
      && r.closed == s.closed && r.loadKey == s.loadKey && r.failures == s.failures
      && (if a.Connect? then a.f in s.loadKey && r.made == s.made[a.c := s.loadKey[a.f]] else r.made == s.made)
      && Uncounted(r.loads) == Uncounted(s.loads)
  {
    hide StringValue, MovesLoad;
  }

  lemma CloseMoves(s: State, a: Action)
    requires Enabled(s, a) && !CallerAction(a) && !LoadAction(a)
    ensures var r := Do(s, a);
      && (r.closed <==> s.closed || a.BeginClose?) && r.loadKey == s.loadKey && r.loads == s.loads && r.callers == s.callers
      && r.made == s.made && r.failures == s.failures
  {
    hide StringValue;
  }

  lemma ToldKept(s: State, run: seq<Action>, a: Action)
    requires Enabled(s, a) && Told(s, run) && s.loadKey.Keys == s.loads.Keys
    ensures Told(Do(s, a), run + [a])
  {
    if CallerAction(a) { CallerMoves(s, a); } else if LoadAction(a) { LoadMoves(s, a); } else { CloseMoves(s, a); }
    hide Do, Enabled, Uncounted;
    Longer(run, a);
    MadeKept(s, run, a, Do(s, a));
    hide FailedConnects, CloseBegan;
  }

  lemma Longer(run: seq<Action>, a: Action)
    ensures FailedConnects(run + [a]) == FailedConnects(run) + if a.ConnectFails? then 1 else 0
    ensures CloseBegan(run + [a]) <==> CloseBegan(run) || a.BeginClose?
  {
    var all := run + [a];
    assert all[..|all| - 1] == run && forall x :: x in all <==> x in run || x == a;
  }

  /** Each connection was made by a load, for that load's key. */
  ghost predicate MadeBy(made: map<Conn, Key>, loadKey: map<LoadId, Key>, run: seq<Action>) {
    forall c :: c in made ==> exists f :: f in loadKey && loadKey[f] == made[c] && Connect(f, c) in run
  }

  lemma MadeKept(s: State, run: seq<Action>, a: Action, r: State)
    requires MadeBy(s.made, s.loadKey, run)
    requires forall f :: f in s.loadKey ==> f in r.loadKey && r.loadKey[f] == s.loadKey[f]
    requires if a.Connect? then a.f in s.loadKey && r.made == s.made[a.c := s.loadKey[a.f]] else r.made == s.made
    ensures MadeBy(r.made, r.loadKey, run + [a])
  {
    var all := run + [a];
    assert forall x :: x in all <==> x in run || x == a;
    forall c | c in r.made
      ensures exists f :: f in r.loadKey && r.loadKey[f] == r.made[c] && Connect(f, c) in all
    {
      if a.Connect? && a.c == c {
        assert Connect(a.f, c) in all && a.f in r.loadKey;
      } else {
        var f :| f in s.loadKey && s.loadKey[f] == s.made[c] && Connect(f, c) in run;
        assert f in r.loadKey && Connect(f, c) in all;
      }
    }
  }

  lemma LastStep(s: State, run: seq<Action>) returns (before: State)
    requires Reachable(s, run) && run != []
    ensures var front, last := run[..|run| - 1], run[|run| - 1];
      Reachable(before, front) && Enabled(before, last) && s == Do(before, last) && run == front + [last]
  {
    hide Do, Enabled;
    before :| Reachable(before, run[..|run| - 1]) && Step(before, run[|run| - 1], s);
    hide Reachable;
  }

  /** The session is closed exactly once `Close` has begun; every connection that could not be made is counted
      once, or about to be; and every connection was made for the key its load was started for. */
  lemma {:induction false} RunTells(s: State, run: seq<Action>)
    requires Reachable(s, run)
    ensures Told(s, run)
    decreases |run|
  {
    if run == [] {
      NothingTold(s);
    } else {
      hide *;
      var before := LastStep(s, run);
      var last, front := run[|run| - 1], run[..|run| - 1];
      LoadsHaveKeys(before, front);
      RunTells(before, front);
      ToldKept(before, front, last);
    }
  }

  lemma NothingTold(s: State)
    requires Reachable(s, [])
    ensures Told(s, [])
  {
    assert Uncounted(s.loads) == {};
  }

  lemma LoadsHaveKeys(s: State, run: seq<Action>)
    requires Reachable(s, run)
    ensures s.loadKey.Keys == s.loads.Keys
  {
    ReachableInvariant(s, run);
    hide Reachable, PlacesSound;
  }

  // ----- who is turned away -----

  /** The states that a run leads to. */
  ghost predicate Leads(s: State, more: seq<Action>, s': State)
    decreases |more|
  {
    if more == [] then s' == s else Enabled(s, more[0]) && Leads(Do(s, more[0]), more[1..], s')
  }

  ghost predicate Outside(s: State, t: CallerId) {
    t in s.callers ==> s.callers[t].pc.Start? || s.callers[t].pc.Failed?
  }

  lemma OutsideStays(s: State, a: Action, t: CallerId)
    requires s.closed && Enabled(s, a) && Outside(s, t)
    ensures Do(s, a).closed && Outside(Do(s, a), t)
  {
    hide StringValue;
    if CallerAction(a) { hide MovesCaller, Gives; } else if LoadAction(a) { LoadsLeaveCallers(s, a); hide Do; } else { CloseMoves(s, a); hide Do; }
  }

  lemma LoadsLeaveCallers(s: State, a: Action)
    requires Enabled(s, a) && LoadAction(a)
    ensures Do(s, a).callers == s.callers && Do(s, a).closed == s.closed
  {
  }

  /** Once the session is closed no caller gets past the first look: it joins no load and gets no connection. */
  lemma {:induction false} ClosedTurnsAway(s: State, more: seq<Action>, s': State, t: CallerId)
    requires s.closed && Leads(s, more, s') && Outside(s, t)
    ensures s'.closed && Outside(s', t)
    decreases |more|
  {
    if more != [] {
      OutsideStays(s, more[0], t);
      hide Do, Enabled, Outside;
      ClosedTurnsAway(Do(s, more[0]), more[1..], s', t);
    }
  }

  /** No load has failed so far. */
  ghost predicate AllWell(loads: map<LoadId, LoadPc>) {
    forall f :: f in loads ==>
      && !loads[f].CountingFailure? && !loads[f].Rejecting?
      && (loads[f].Finishing? || loads[f].Delivered? ==> loads[f].outcome.Loaded?)
  }

  ghost predicate NotFailed(s: State, t: CallerId) { t in s.callers ==> !s.callers[t].pc.Failed? }

  lemma CallersWell(s: State, a: Action, t: CallerId)
    requires Enabled(s, a) && CallerAction(a) && !s.closed && AllWell(s.loads) && a != Cancel(t) && NotFailed(s, t)
    ensures !Do(s, a).closed && AllWell(Do(s, a).loads) && NotFailed(Do(s, a), t)
  {
    assert Do(s, a) == DoCaller(s, a);
    assert !a.Arrive? ==> Gives(s, a, DoCaller(s, a).callers[a.t].pc);
    hide Do, DoCaller;
  }

  lemma LoadsWell(s: State, a: Action)
    requires Enabled(s, a) && LoadAction(a) && !s.closed && AllWell(s.loads) && !a.ConnectFails?
    ensures AllWell(Do(s, a).loads)
  {
    hide StringValue, MovesLoad;
  }

  /** A caller comes away with nothing only if a connection could not be made, its context ended, or the
      session was closed. */
  lemma {:induction false} NothingFailsUnprovoked(s: State, more: seq<Action>, s': State, t: CallerId)
    requires Leads(s, more, s') && AllWell(s.loads) && !s.closed && NotFailed(s, t)
    requires (forall a :: a in more ==> !a.ConnectFails? && !a.BeginClose?) && Cancel(t) !in more
    ensures !s'.closed && AllWell(s'.loads) && NotFailed(s', t)
    decreases |more|
  {
    if more != [] {
      var a := more[0];
      assert a in more;
      if CallerAction(a) {
        CallersWell(s, a, t);
      } else if LoadAction(a) {
        LoadsWell(s, a);
        LoadsLeaveCallers(s, a);
      } else {
        CloseMoves(s, a);
      }
      hide Do, Enabled, AllWell;
      NothingFailsUnprovoked(Do(s, a), more[1..], s', t);
    }
  }
}
