/** Which keys get their own connections. Singleflight is keyed by the text of a key and the cache by the
    key itself, so all depends on whether the text tells the keys apart that callers ask for. */
module DerivedKeys {
  import opened DerivedConnections

  predicate ArrivalsFrom(run: seq<Action>, keys: iset<Key>) {
    forall i :: 0 <= i < |run| && run[i].Arrive? ==> run[i].key in keys
  }

  /** The text tells the keys apart. */
  ghost predicate TellsApart(keys: iset<Key>) {
    forall k, l :: k in keys && l in keys && SameText(k, l) ==> k == l
  }

  /** Every caller that has returned has a connection that was made for its key. */
  ghost predicate OwnKeys(s: State) {
    forall t :: t in s.callers && s.callers[t].pc.Returned? ==>
      s.callers[t].pc.conn in s.made && s.made[s.callers[t].pc.conn] == s.callers[t].key
  }

  // ----- the keys of a state are those that arrived -----

  ghost predicate KeysIn(s: State, keys: iset<Key>) {
    && (forall t :: t in s.callers ==> s.callers[t].key in keys)
    && (forall f :: f in s.loadKey ==> s.loadKey[f] in keys)
    && (forall c :: c in s.made ==> s.made[c] in keys)
  }

  lemma KeysInStep(s: State, a: Action, keys: iset<Key>)
    requires KeysIn(s, keys) && Enabled(s, a) && (a.Arrive? ==> a.key in keys)
    ensures KeysIn(Do(s, a), keys)
  {
    hide DoCaller, StringValue, InOrder, TakeCached;
  }

  lemma {:induction false} ReachableKeysIn(s: State, run: seq<Action>, keys: iset<Key>)
    requires Reachable(s, run) && ArrivalsFrom(run, keys)
    ensures KeysIn(s, keys)
    decreases |run|
  {
    if run != [] {
      var last, front := run[|run| - 1], run[..|run| - 1];
      assert last.Arrive? ==> last.key in keys;
      assert ArrivalsFrom(front, keys);
      hide *;
      var before := LastStep(s, run);
      ReachableKeysIn(before, front, keys);
      KeysInStep(before, last, keys);
    }
  }

  ghost predicate AskFor(s: State, keys: iset<Key>) {
    forall t :: t in s.callers ==> s.callers[t].key in keys
  }

  lemma CallersStay(s: State, a: Action, keys: iset<Key>)
    requires Enabled(s, a) && AskFor(Do(s, a), keys)
    ensures AskFor(s, keys) && (a.Arrive? ==> a.key in keys)
  {
    hide DoCaller, StringValue, InOrder, TakeCached;
    var s' := Do(s, a);
    forall t | t in s.callers
      ensures s.callers[t].key in keys
    {
      assert t in s'.callers && s'.callers[t].key == s.callers[t].key;
    }
    if a.Arrive? { assert s'.callers[a.t].key == a.key; }
  }

  lemma {:induction false} ArrivalsWereCallers(s: State, run: seq<Action>, keys: iset<Key>)
    requires Reachable(s, run) && AskFor(s, keys)
    ensures ArrivalsFrom(run, keys)
    decreases |run|
  {
    hide *;
    if run == [] {
      NoArrivals(keys);
    } else {
      var before := LastStep(s, run);
      var last, front := run[|run| - 1], run[..|run| - 1];
      CallersStay(before, last, keys);
      ArrivalsWereCallers(before, front, keys);
      OneMoreArrival(run, keys);
    }
  }

  lemma LastStep(s: State, run: seq<Action>) returns (before: State)
    requires Reachable(s, run) && run != []
    ensures Reachable(before, run[..|run| - 1]) && Enabled(before, run[|run| - 1]) && s == Do(before, run[|run| - 1])
  {
    hide Enabled, Do;
    before :| Reachable(before, run[..|run| - 1]) && Step(before, run[|run| - 1], s);
  }

  lemma NoArrivals(keys: iset<Key>)
    ensures ArrivalsFrom([], keys)
  {
  }

  lemma OneMoreArrival(run: seq<Action>, keys: iset<Key>)
    requires run != [] && ArrivalsFrom(run[..|run| - 1], keys)
    requires run[|run| - 1].Arrive? ==> run[|run| - 1].key in keys
    ensures ArrivalsFrom(run, keys)
  {
    var front := run[..|run| - 1];
    assert forall i :: 0 <= i < |front| ==> run[i] == front[i];
  }

  // ----- two keys with one text -----

  /** Runs on from `s` to a state where a new caller has missed the cache. */
  lemma MissesCache(s: State, run: seq<Action>, t: CallerId, key: Key) returns (run': seq<Action>)
    requires Reachable(s, run) && t !in s.callers && !s.closed && key !in s.connections
    ensures Reachable(s.(callers := s.callers[t := Caller(key, Joining)]), run')
  {
    hide StringValue, InOrder, TakeCached, Reachable;
    var s0 := s.(callers := s.callers[t := Caller(key, Start)]);
    var s1 := s.(callers := s.callers[t := Caller(key, Checking)]);
    var s2 := s.(callers := s.callers[t := Caller(key, Joining)]);
    assert s1.callers == s0.callers[t := Caller(key, Checking)] && s2.callers == s1.callers[t := Caller(key, Joining)];
    Extend(s, run, Arrive(t, key));
    run' := run + [Arrive(t, key)];
    assert Do(s, Arrive(t, key)) == s0;
    Extend(s0, run', RequireOpen(t));
    run' := run' + [RequireOpen(t)];
    assert Do(s0, RequireOpen(t)) == s1;
    Extend(s1, run', CheckCache(t));
    run' := run' + [CheckCache(t)];
    assert Do(s1, CheckCache(t)) == s2;
  }

  /** Runs on to a state where the load `f` has made the connection `c`. */
  lemma Connects(s: State, run: seq<Action>, f: LoadId, c: Conn) returns (s': State, run': seq<Action>)
    requires Reachable(s, run) && !s.closed && c !in s.made
    requires f in s.loads && s.loads[f].Looking? && f in s.loadKey && s.loadKey[f] !in s.connections
    ensures Reachable(s', run') && s'.callers == s.callers && s'.delivered == s.delivered && !s'.closed && s'.loadKey == s.loadKey
    ensures f in s'.loads && s'.loads[f] == Registering(c) && c in s'.made && s'.made[c] == s.loadKey[f]
  {
    hide StringValue, InOrder, TakeCached, Reachable;
    Extend(s, run, Look(f));
    s', run' := Do(s, Look(f)), run + [Look(f)];
    assert s'.loads[f] == Connecting;
    Extend(s', run', Connect(f, c));
    s', run' := Do(s', Connect(f, c)), run' + [Connect(f, c)];
  }

  /** Runs on to a state where the load `f` has opened `c` and delivered it. */
  lemma Opens(s: State, run: seq<Action>, f: LoadId, c: Conn) returns (s': State, run': seq<Action>)
    requires Reachable(s, run) && !s.closed && c !in s.made
    requires f in s.loads && s.loads[f].Looking? && f in s.loadKey && s.loadKey[f] !in s.connections
    ensures Reachable(s', run') && s'.callers == s.callers && s'.delivered == s.delivered
    ensures f in s'.loads && s'.loads[f] == Delivered(Loaded(c, true)) && c in s'.made && s'.made[c] == s.loadKey[f]
  {
    hide StringValue, InOrder, TakeCached, Reachable;
    s', run' := Connects(s, run, f, c);
    Extend(s', run', Register(f));
    s', run' := Do(s', Register(f)), run' + [Register(f)];
    assert s'.loads[f] == Finishing(Loaded(c, true));
    Extend(s', run', Finish(f));
    s', run' := Do(s', Finish(f)), run' + [Finish(f)];
  }

  /** The second caller joins the load of the first, whose key has the same text. */
  lemma SharesLoad(s: State, run: seq<Action>, k: Key, l: Key) returns (s': State, run': seq<Action>)
    requires Reachable(s, run) && s.callers == map[0 := Caller(k, Joining), 1 := Caller(l, Joining)]
    requires s.group == map[] && s.loads == map[] && s.loadKey == map[] && s.connections == map[] && s.made == map[]
    requires s.delivered == {} && !s.closed && StringValue(k) == StringValue(l)
    ensures Reachable(s', run') && s'.callers == map[0 := Caller(k, Waiting(0)), 1 := Caller(l, Waiting(0))]
    ensures s'.loads == map[0 := Looking] && s'.loadKey == map[0 := k]
    ensures s'.connections == map[] && s'.made == map[] && s'.delivered == {} && !s'.closed
  {
    hide StringValue, InOrder, TakeCached, Reachable;
    Extend(s, run, Join(0, 0));
    s', run' := Do(s, Join(0, 0)), run + [Join(0, 0)];
    assert s'.group == map[StringValue(k) := 0];
    Extend(s', run', Join(1, 1));
    s', run' := Do(s', Join(1, 1)), run' + [Join(1, 1)];
  }

  lemma Receives(s: State, run: seq<Action>, t: CallerId, c: Conn) returns (s': State, run': seq<Action>)
    requires Reachable(s, run) && t in s.callers && s.callers[t].pc.Waiting?
    requires var f := s.callers[t].pc.load; f in s.loads && s.loads[f] == Delivered(Loaded(c, true)) && f !in s.delivered
    ensures Reachable(s', run') && s'.made == s.made && s'.callers == s.callers[t := Caller(s.callers[t].key, Returned(c))]
  {
    hide Reachable;
    Extend(s, run, Receive(t));
    s', run' := Do(s, Receive(t)), run + [Receive(t)];
  }

  lemma BothJoining(k: Key, l: Key) returns (s: State, run: seq<Action>)
    ensures Reachable(s, run) && s == INITIAL.(callers := map[0 := Caller(k, Joining), 1 := Caller(l, Joining)])
  {
    assert Reachable(INITIAL, []);
    hide Reachable, Enabled, Do;
    run := MissesCache(INITIAL, [], 0, k);
    s := INITIAL.(callers := map[0 := Caller(k, Joining)]);
    run := MissesCache(s, run, 1, l);
    s := INITIAL.(callers := map[0 := Caller(k, Joining), 1 := Caller(l, Joining)]);
  }

  /** Any two keys with the same text can share a load, and then a caller gets the other's connection. */
  lemma SharedTextMisdelivers(k: Key, l: Key) returns (s: State, run: seq<Action>)
    requires k != l && SameText(k, l)
    ensures Reachable(s, run) && ArrivalsFrom(run, iset{k, l}) && !OwnKeys(s)
  {
    hide Enabled, Do, Reachable, ArrivalsFrom, StringValue;
    s, run := BothJoining(k, l);
    s, run := SharesLoad(s, run, k, l);
    s, run := Opens(s, run, 0, 7);
    s, run := Receives(s, run, 1, 7);
    assert s.callers == map[0 := Caller(k, Waiting(0)), 1 := Caller(l, Returned(7))];
    assert s.callers[1].pc.Returned? && s.made[7] == k;
    ArrivalsWereCallers(s, run, iset{k, l});
  }

  // ----- exactly -----

  lemma OwnTextIsOwnKey(s: State, run: seq<Action>, keys: iset<Key>)
    requires Reachable(s, run) && ArrivalsFrom(run, keys) && TellsApart(keys)
    ensures OwnKeys(s)
  {
    ReachableKeysIn(s, run, keys);
    hide Reachable, ArrivalsFrom, SameText;
    forall t | t in s.callers && s.callers[t].pc.Returned?
      ensures s.callers[t].pc.conn in s.made && s.made[s.callers[t].pc.conn] == s.callers[t].key
    {
      CallersGetTheirOwnText(s, run, t);
    }
  }

  /** Every run of callers that ask for these keys gives each its own connection, if and only if the
      text tells the keys apart. */
  lemma CallersGetTheirOwnKey(keys: iset<Key>)
    ensures TellsApart(keys) <==> forall s, run :: Reachable(s, run) && ArrivalsFrom(run, keys) ==> OwnKeys(s)
  {
    hide Reachable, OwnKeys, SameText, ArrivalsFrom;
    if TellsApart(keys) {
      forall s, run | Reachable(s, run) && ArrivalsFrom(run, keys)
        ensures OwnKeys(s)
      {
        OwnTextIsOwnKey(s, run, keys);
      }
    } else {
      var k, l :| k in keys && l in keys && SameText(k, l) && k != l;
      var s, run := SharedTextMisdelivers(k, l);
      MoreArrivals(run, iset{k, l}, keys);
    }
  }

  lemma MoreArrivals(run: seq<Action>, some: iset<Key>, all: iset<Key>)
    requires ArrivalsFrom(run, some) && some <= all
    ensures ArrivalsFrom(run, all)
  {
  }

  /** The keys without NUL are such a set. */
  lemma PlainKeysAreToldApart()
    ensures TellsApart(iset k | Plain(k))
  {
    hide StringValue, Plain;
    forall k, l | Plain(k) && Plain(l) && SameText(k, l)
      ensures k == l
    {
      SameTextOfPlain(k, l);
    }
  }

  lemma SameTextOfPlain(k: Key, l: Key)
    requires Plain(k) && Plain(l) && SameText(k, l)
    ensures k == l
  {
    StringValueInjective(k, l);
  }
}
