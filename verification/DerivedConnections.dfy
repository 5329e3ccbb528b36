/** The connection cache of a `CollectorSession` as a protocol. Callers of `derivedConnection`, the
    loads that singleflight runs on their behalf, and `Close` interleave freely; every mutex section,
    every singleflight join or finish, and every `Connect` or `Close` of a connection is one action. */
module DerivedConnections {
  import opened Text
  import opened Sorting

  datatype Key = Key(address: string, replicaSet: string, directSet: bool, directEnabled: bool)

  function BoolText(b: bool): string { if b then "true" else "false" }

  /** `derivedConnectionKey.stringValue`: singleflight is keyed by this text. */
  function StringValue(k: Key): string {
    k.address + [NUL] + (k.replicaSet + [NUL] + (BoolText(k.directSet) + [NUL] + BoolText(k.directEnabled)))
  }

  /** The key has the same text: singleflight cannot tell the two apart. */
  predicate SameText(k: Key, l: Key) { StringValue(k) == StringValue(l) }

  predicate Plain(k: Key) { NUL !in k.address && NUL !in k.replicaSet }

  /** Texts that the program uses as addresses and replica-set names tell the keys apart. */
  lemma StringValueInjective(k: Key, l: Key)
    requires Plain(k) && Plain(l) && StringValue(k) == StringValue(l)
    ensures k == l
  {
    FirstSeparator(k.address, k.replicaSet + [NUL] + (BoolText(k.directSet) + [NUL] + BoolText(k.directEnabled)),
                   l.address, l.replicaSet + [NUL] + (BoolText(l.directSet) + [NUL] + BoolText(l.directEnabled)), NUL);
    FirstSeparator(k.replicaSet, BoolText(k.directSet) + [NUL] + BoolText(k.directEnabled),
                   l.replicaSet, BoolText(l.directSet) + [NUL] + BoolText(l.directEnabled), NUL);
    FirstSeparator(BoolText(k.directSet), BoolText(k.directEnabled), BoolText(l.directSet), BoolText(l.directEnabled), NUL);
    assert BoolText(k.directSet)[0] == BoolText(l.directSet)[0];
    assert BoolText(k.directEnabled)[0] == BoolText(l.directEnabled)[0];
  }

  // ----- state -----

  type Conn = nat
  type CallerId = nat
  type LoadId = nat

  /** What a load hands to everyone who joined it: `derivedConnectionLoad` or an error. */
  datatype Outcome = Error | Loaded(conn: Conn, opening: bool)

  datatype CallerPc =
    | Start | Checking | Joining | Waiting(load: LoadId) | CountingHit(conn: Conn) | Returned(conn: Conn) | Failed

  datatype Caller = Caller(key: Key, pc: CallerPc)

  datatype LoadPc =
    | Looking | Connecting | CountingFailure | Registering(conn: Conn) | Rejecting(conn: Conn)
    | Finishing(outcome: Outcome) | Delivered(outcome: Outcome)

  /** `closeOnce`: not called, running with the connections still to be closed, or done. */
  datatype ClosePhase = Open | Closing(pending: seq<Conn>) | Closed

  /** Bookkeeping for the proof: where a connection that was created is now. */
  datatype Place = Held(load: LoadId) | InCache(key: Key) | Taken | Gone

  datatype State = State(
    closed: bool, phase: ClosePhase,
    connections: map<Key, Conn>,      // the cache
    group: map<string, LoadId>,       // singleflight's calls in progress
    loadKey: map<LoadId, Key>,        // the key a load was started for
    loads: map<LoadId, LoadPc>,
    callers: map<CallerId, Caller>,
    made: map<Conn, Key>,             // every connection ever created, and for which key
    closes: map<Conn, nat>,           // how often each was closed
    openedCount: nat, hits: nat, failures: nat,
    // history the program does not keep
    place: map<Conn, Place>,
    opener: map<Key, LoadId>,         // the load that registered a connection for a key
    openedBy: set<LoadId>,            // loads that registered a connection
    delivered: set<LoadId>,           // loads whose opening a caller has claimed
    returned: set<CallerId>)

  const INITIAL := State(false, Open, map[], map[], map[], map[], map[], map[], map[], 0, 0, 0, map[], map[], {}, {}, {})

  datatype Action =
    | Arrive(t: CallerId, key: Key)
    | RequireOpen(t: CallerId)
    | CheckCache(t: CallerId)
    | Join(t: CallerId, newLoad: LoadId)
    | Cancel(t: CallerId)
    | Receive(t: CallerId)
    | CountHit(t: CallerId)
    | Look(f: LoadId)
    | Connect(f: LoadId, c: Conn)
    | ConnectFails(f: LoadId)
    | CountFailure(f: LoadId)
    | Register(f: LoadId)
    | Reject(f: LoadId)
    | Finish(f: LoadId)
    | BeginClose(order: seq<Key>)
    | CloseNext
    | EndClose

  predicate CallerAction(a: Action) {
    a.Arrive? || a.RequireOpen? || a.CheckCache? || a.Join? || a.Cancel? || a.Receive? || a.CountHit?
  }

  predicate LoadAction(a: Action) {
    a.Look? || a.Connect? || a.ConnectFails? || a.CountFailure? || a.Register? || a.Reject? || a.Finish?
  }

  predicate CallerEnabled(s: State, a: Action)
    requires CallerAction(a)
  {
    match a
    case Arrive(t, key) => t !in s.callers
    case RequireOpen(t) => t in s.callers && s.callers[t].pc.Start?
    case CheckCache(t) => t in s.callers && s.callers[t].pc.Checking?
    case Join(t, newLoad) => t in s.callers && s.callers[t].pc.Joining? && newLoad !in s.loads
    case Cancel(t) => t in s.callers && s.callers[t].pc.Waiting?
    case Receive(t) => t in s.callers && s.callers[t].pc.Waiting?
                       && s.callers[t].pc.load in s.loads && s.loads[s.callers[t].pc.load].Delivered?
    case CountHit(t) => t in s.callers && s.callers[t].pc.CountingHit?
  }

  /** When an action can happen. */
  ghost predicate Enabled(s: State, a: Action) {
    if CallerAction(a) then CallerEnabled(s, a)
    else
      match a
      case Look(f) => f in s.loads && s.loads[f].Looking? && f in s.loadKey
      case Connect(f, c) => f in s.loads && s.loads[f].Connecting? && f in s.loadKey && c !in s.made
      case ConnectFails(f) => f in s.loads && s.loads[f].Connecting?
      case CountFailure(f) => f in s.loads && s.loads[f].CountingFailure?
      case Register(f) => f in s.loads && s.loads[f].Registering? && f in s.loadKey
      case Reject(f) => f in s.loads && s.loads[f].Rejecting? && s.loads[f].conn in s.closes
      case Finish(f) => f in s.loads && s.loads[f].Finishing? && f in s.loadKey
      case BeginClose(order) => s.phase.Open? && multiset(order) == multiset(s.connections.Keys) && Sorted(order, StringValue)
      case CloseNext => s.phase.Closing? && s.phase.pending != [] && s.phase.pending[0] in s.closes
      case EndClose => s.phase.Closing? && s.phase.pending == []
  }

  function SetCaller(s: State, t: CallerId, pc: CallerPc): State
    requires t in s.callers
  {
    s.(callers := s.callers[t := s.callers[t].(pc := pc)])
  }

  /** The caller returns with a connection: a hit is counted, or the opening of a load is claimed. */
  function Return(s: State, t: CallerId, c: Conn, hits: nat, delivered: set<LoadId>): State
    requires t in s.callers
  {
    s.(callers := s.callers[t := s.callers[t].(pc := Returned(c))], returned := s.returned + {t},
       hits := hits, delivered := delivered)
  }

  function StartLoad(s: State, f: LoadId, key: Key): State {
    s.(loads := s.loads[f := Looking], loadKey := s.loadKey[f := key], group := s.group[StringValue(key) := f])
  }

  /** How many steps a caller has before it at most. */
  function CallerRank(pc: CallerPc): nat {
    match pc
    case Start => 5 case Checking => 4 case Joining => 3 case Waiting(_) => 2 case CountingHit(_) => 1
    case Returned(_) => 0 case Failed => 0
  }

  function LoadRank(pc: LoadPc): nat {
    match pc
    case Looking => 5 case Connecting => 4 case Registering(_) => 3 case Rejecting(_) => 2 case CountingFailure => 2
    case Finishing(_) => 1 case Delivered(_) => 0
  }

  /** A caller's step brings this caller on and leaves the others alone; a load is started for the
      caller's key. */
  predicate MovesCaller(s: State, a: Action, r: State)
    requires CallerAction(a) && CallerEnabled(s, a)
  {
    && (if a.Arrive? then r.callers == s.callers[a.t := Caller(a.key, Start)]
        else a.t in r.callers && r.callers == s.callers[a.t := Caller(s.callers[a.t].key, r.callers[a.t].pc)]
             && CallerRank(r.callers[a.t].pc) < CallerRank(s.callers[a.t].pc))
    && ((r.loadKey == s.loadKey && r.loads == s.loads)
        || (a.Join? && r.loadKey == s.loadKey[a.newLoad := s.callers[a.t].key] && r.loads == s.loads[a.newLoad := Looking]))
  }

  predicate HasConn(pc: CallerPc) { pc.CountingHit? || pc.Returned? }

  /** Where a step brings its caller: a connection comes from the cache, from the load it waited for, or is what
      it had, and it is turned away by a closed session, a load that failed, or its context. */
  predicate Gives(s: State, a: Action, pc: CallerPc)
    requires CallerAction(a) && CallerEnabled(s, a)
  {
    match a
    case RequireOpen(t) => if s.closed then pc.Failed? else pc.Checking?
    case CheckCache(t) => if s.callers[t].key in s.connections then pc == Returned(s.connections[s.callers[t].key]) else pc.Joining?
    case Receive(t) =>
      var outcome := s.loads[s.callers[t].pc.load].outcome;
      if outcome.Error? then pc.Failed? else pc == Returned(outcome.conn) || pc == CountingHit(outcome.conn)
    case CountHit(t) => pc == Returned(s.callers[t].pc.conn)
    case Cancel(t) => pc.Failed?
    case Join(_, _) => pc.Waiting?
    case Arrive(_, _) => pc.Start?
  }

  /** A load's step brings this load on and leaves everything but the connections alone. */
  ghost predicate MovesLoad(s: State, f: LoadId, r: State) {
    && r.callers == s.callers && r.closed == s.closed && r.phase == s.phase && r.loadKey == s.loadKey
    && f in s.loads && f in r.loads && r.loads == s.loads[f := r.loads[f]] && LoadRank(r.loads[f]) < LoadRank(s.loads[f])
  }

  /** What the steps of `derivedConnection` itself do. */
  function DoCaller(s: State, a: Action): (r: State)
    requires CallerAction(a) && CallerEnabled(s, a)
    ensures r.closed == s.closed && r.connections == s.connections && r.openedCount == s.openedCount
    ensures r.made == s.made && r.phase == s.phase && r.closes == s.closes && r.place == s.place && r.failures == s.failures
    ensures MovesCaller(s, a, r)
    ensures !a.Arrive? ==> Gives(s, a, r.callers[a.t].pc)
  {
    match a
    case Arrive(t, key) => s.(callers := s.callers[t := Caller(key, Start)])
    case RequireOpen(t) => SetCaller(s, t, if s.closed then Failed else Checking)
    case CheckCache(t) =>
      var key := s.callers[t].key;
      if key in s.connections then Return(s, t, s.connections[key], s.hits + 1, s.delivered)
      else SetCaller(s, t, Joining)
    case Join(t, newLoad) =>
      var key := s.callers[t].key;
      if StringValue(key) in s.group then SetCaller(s, t, Waiting(s.group[StringValue(key)]))
      else SetCaller(StartLoad(s, newLoad, key), t, Waiting(newLoad))
    case Cancel(t) => SetCaller(s, t, Failed)
    case Receive(t) =>
      var f := s.callers[t].pc.load;
      var outcome := s.loads[f].outcome;
      if outcome.Error? then SetCaller(s, t, Failed)
      else if outcome.opening && f !in s.delivered then Return(s, t, outcome.conn, s.hits, s.delivered + {f})
      else SetCaller(s, t, CountingHit(outcome.conn))
    case CountHit(t) => Return(s, t, s.callers[t].pc.conn, s.hits + 1, s.delivered)
  }

  /** The cached connections in the order of their keys. */
  function InOrder(connections: map<Key, Conn>, order: seq<Key>): seq<Conn> {
    seq(|order|, i requires 0 <= i < |order| => if order[i] in connections then connections[order[i]] else 0)
  }

  function TakeCached(place: map<Conn, Place>): map<Conn, Place> {
    map c | c in place :: if place[c].InCache? then Taken else place[c]
  }

  /** What every step does: the function that singleflight runs, and `Close`. */
  ghost function Do(s: State, a: Action): (r: State)
    requires Enabled(s, a)
    ensures LoadAction(a) ==> MovesLoad(s, a.f, r)
  {
    if CallerAction(a) then DoCaller(s, a)
    else
      match a
      case Look(f) =>
        var key := s.loadKey[f];
        s.(loads := s.loads[f := if key in s.connections then Finishing(Loaded(s.connections[key], false)) else Connecting])
      case Connect(f, c) =>
        s.(loads := s.loads[f := Registering(c)], made := s.made[c := s.loadKey[f]], closes := s.closes[c := 0],
           place := s.place[c := Held(f)])
      case ConnectFails(f) => s.(loads := s.loads[f := CountingFailure])
      case CountFailure(f) => s.(loads := s.loads[f := Finishing(Error)], failures := s.failures + 1)
      case Register(f) =>
        var c := s.loads[f].conn;
        var key := s.loadKey[f];
        if s.closed then s.(loads := s.loads[f := Rejecting(c)])
        else s.(loads := s.loads[f := Finishing(Loaded(c, true))], connections := s.connections[key := c],
                openedCount := s.openedCount + 1,
                place := s.place[c := InCache(key)], opener := s.opener[key := f], openedBy := s.openedBy + {f})
      case Reject(f) =>
        var c := s.loads[f].conn;
        s.(loads := s.loads[f := Finishing(Error)], closes := s.closes[c := s.closes[c] + 1], place := s.place[c := Gone])
      case Finish(f) =>
        s.(loads := s.loads[f := Delivered(s.loads[f].outcome)], group := s.group - {StringValue(s.loadKey[f])})
      case BeginClose(order) =>
        s.(closed := true, phase := Closing(InOrder(s.connections, order)), connections := map[],
           place := TakeCached(s.place))
      case CloseNext =>
        var c := s.phase.pending[0];
        s.(phase := Closing(s.phase.pending[1..]), closes := s.closes[c := s.closes[c] + 1], place := s.place[c := Gone])
      case EndClose => s.(phase := Closed)
  }

  ghost predicate Step(s: State, a: Action, s': State) { Enabled(s, a) && s' == Do(s, a) }

  /** States that some interleaving leads to. */
  ghost predicate Reachable(s: State, run: seq<Action>)
    decreases |run|
  {
    if run == [] then s == INITIAL
    else
      var last := run[|run| - 1];
      exists before :: Reachable(before, run[..|run| - 1]) && Step(before, last, s)
  }

  // ----- the invariant -----

  function Pending(phase: ClosePhase): seq<Conn> { if phase.Closing? then phase.pending else [] }

  predicate HoldsConn(pc: LoadPc) { pc.Registering? || pc.Rejecting? }

  ghost predicate LedgerSound(made: map<Conn, Key>, closes: map<Conn, nat>, place: map<Conn, Place>) {
    && made.Keys == closes.Keys == place.Keys
    && (forall c :: c in place ==> closes[c] == if place[c].Gone? then 1 else 0)
  }

  ghost predicate HeldSound(loadKey: map<LoadId, Key>, loads: map<LoadId, LoadPc>, made: map<Conn, Key>, place: map<Conn, Place>) {
    && (forall c :: c in place && place[c].Held? ==>
          var f := place[c].load;
          f in loads && f in loadKey && HoldsConn(loads[f]) && loads[f].conn == c && c in made && made[c] == loadKey[f])
    && (forall f :: f in loads && HoldsConn(loads[f]) ==> loads[f].conn in place && place[loads[f].conn] == Held(f))
  }

  ghost predicate CachedSound(connections: map<Key, Conn>, made: map<Conn, Key>, place: map<Conn, Place>) {
    && (forall c :: c in place && place[c].InCache? ==>
          var k := place[c].key;
          k in connections && connections[k] == c && c in made && made[c] == k)
    && (forall k :: k in connections ==> connections[k] in place && place[connections[k]] == InCache(k))
  }

  /** What `Close` has taken and not closed yet is exactly its list, without repetition. */
  ghost predicate PendingSound(pending: seq<Conn>, place: map<Conn, Place>) {
    && (forall c :: c in place && place[c].Taken? ==> c in pending)
    && (forall i :: 0 <= i < |pending| ==> pending[i] in place && place[pending[i]].Taken?)
    && (forall i, j :: 0 <= i < j < |pending| ==> pending[i] != pending[j])
  }

  /** The bookkeeping says where each connection really is, and nothing else holds one. */
  ghost predicate PlacesSound(loadKey: map<LoadId, Key>, loads: map<LoadId, LoadPc>, connections: map<Key, Conn>, pending: seq<Conn>,
                              made: map<Conn, Key>, closes: map<Conn, nat>, place: map<Conn, Place>) {
    && LedgerSound(made, closes, place)
    && HeldSound(loadKey, loads, made, place)
    && CachedSound(connections, made, place)
    && PendingSound(pending, place)
  }

  ghost predicate ClosedSound(closed: bool, phase: ClosePhase, connections: map<Key, Conn>) {
    && (closed <==> !phase.Open?)
    && (closed ==> connections == map[])
  }

  /** Singleflight runs one load per key text, and every unfinished load is one of those. */
  ghost predicate GroupSound(group: map<string, LoadId>, loadKey: map<LoadId, Key>, loads: map<LoadId, LoadPc>) {
    && loadKey.Keys == loads.Keys
    && (forall n :: n in group ==> group[n] in loads && StringValue(loadKey[group[n]]) == n && !loads[group[n]].Delivered?)
    && (forall f :: f in loads && !loads[f].Delivered? ==>
          StringValue(loadKey[f]) in group && group[StringValue(loadKey[f])] == f)
  }

  predicate Outstanding(pc: LoadPc) { pc.Connecting? || pc.CountingFailure? || pc.Registering? || pc.Rejecting? }

  /** A load that goes out to connect does so because its key has no connection, and while it is
      out nobody else registers one. */
  ghost predicate OpeningSound(closed: bool, connections: map<Key, Conn>, loadKey: map<LoadId, Key>, loads: map<LoadId, LoadPc>,
                               opener: map<Key, LoadId>, openedBy: set<LoadId>) {
    && loadKey.Keys == loads.Keys
    && (forall f :: f in loads && Outstanding(loads[f]) ==> loadKey[f] !in connections)
    && (forall f :: f in openedBy ==> f in loadKey && loadKey[f] in opener && opener[loadKey[f]] == f)
    && (forall k :: k in opener ==> closed || k in connections)
  }

  ghost predicate CountsSound(openedCount: nat, openedBy: set<LoadId>, delivered: set<LoadId>) {
    && |openedBy| == openedCount
    && delivered <= openedBy
  }

  predicate Ended(pc: LoadPc) { pc.Finishing? || pc.Delivered? }

  ghost predicate OutcomesSound(loadKey: map<LoadId, Key>, loads: map<LoadId, LoadPc>, made: map<Conn, Key>, openedBy: set<LoadId>) {
    && loadKey.Keys == loads.Keys
    && (forall f :: f in loads && Ended(loads[f]) && loads[f].outcome.Loaded? ==>
          && loads[f].outcome.conn in made && made[loads[f].outcome.conn] == loadKey[f]
          && (loads[f].outcome.opening ==> f in openedBy))
  }

  /** What a caller waits for and what it returns belongs to a key with the same text as its own. */
  ghost predicate CallersSound(callers: map<CallerId, Caller>, loadKey: map<LoadId, Key>, made: map<Conn, Key>) {
    forall t :: t in callers ==> PcFits(callers[t].pc, callers[t].key, loadKey, made)
  }

  predicate PcFits(pc: CallerPc, key: Key, loadKey: map<LoadId, Key>, made: map<Conn, Key>) {
    && (pc.Waiting? ==> pc.load in loadKey && SameText(loadKey[pc.load], key))
    && (pc.Returned? || pc.CountingHit? ==> pc.conn in made && SameText(made[pc.conn], key))
  }

  ghost predicate ReturnsSound(callers: map<CallerId, Caller>, returned: set<CallerId>, hits: nat, delivered: set<LoadId>) {
    && (forall t :: t in returned <==> t in callers && callers[t].pc.Returned?)
    && |returned| == hits + |delivered|
  }

  ghost predicate Invariant(s: State) {
    && PlacesSound(s.loadKey, s.loads, s.connections, Pending(s.phase), s.made, s.closes, s.place)
    && ClosedSound(s.closed, s.phase, s.connections)
    && GroupSound(s.group, s.loadKey, s.loads)
    && OpeningSound(s.closed, s.connections, s.loadKey, s.loads, s.opener, s.openedBy)
    && CountsSound(s.openedCount, s.openedBy, s.delivered)
    && OutcomesSound(s.loadKey, s.loads, s.made, s.openedBy)
    && CallersSound(s.callers, s.loadKey, s.made)
    && ReturnsSound(s.callers, s.returned, s.hits, s.delivered)
  }

  // ----- every step keeps it: the callers -----

  lemma CallerMoves(s: State, t: CallerId, pc: CallerPc)
    requires Invariant(s) && t in s.callers && !s.callers[t].pc.Returned? && !pc.Returned?
    requires PcFits(pc, s.callers[t].key, s.loadKey, s.made)
    ensures Invariant(SetCaller(s, t, pc))
  {
    hide PlacesSound, ClosedSound, GroupSound, OpeningSound, CountsSound, OutcomesSound, SameText;
  }

  /** A caller returns, and either a hit is counted or the opening of a load is claimed. */
  lemma CallerReturns(s: State, t: CallerId, c: Conn, hits: nat, delivered: set<LoadId>)
    requires Invariant(s) && t in s.callers && !s.callers[t].pc.Returned?
    requires c in s.made && SameText(s.made[c], s.callers[t].key)
    requires hits + |delivered| == s.hits + |s.delivered| + 1 && delivered <= s.openedBy
    ensures Invariant(Return(s, t, c, hits, delivered))
  {
    hide PlacesSound, ClosedSound, GroupSound, OpeningSound, OutcomesSound, SameText;
    var s' := Return(s, t, c, hits, delivered);
    assert t !in s.returned;
    assert CallersSound(s'.callers, s'.loadKey, s'.made);
    assert ReturnsSound(s'.callers, s'.returned, hits, delivered);
  }

  lemma ArriveStep(s: State, a: Action)
    requires Invariant(s) && a.Arrive? && Enabled(s, a)
    ensures Invariant(Do(s, a))
  {
    hide PlacesSound, ClosedSound, GroupSound, OpeningSound, CountsSound, OutcomesSound, StringValue;
  }

  lemma MoveStep(s: State, a: Action)
    requires Invariant(s) && (a.RequireOpen? || a.Cancel?) && Enabled(s, a)
    ensures Invariant(Do(s, a))
  {
    hide Invariant;
    CallerMoves(s, a.t, if a.Cancel? || s.closed then Failed else Checking);
  }

  lemma CheckCacheStep(s: State, a: Action)
    requires Invariant(s) && a.CheckCache? && Enabled(s, a)
    ensures Invariant(Do(s, a))
  {
    hide StringValue, ReturnsSound, ClosedSound, GroupSound, OpeningSound, OutcomesSound;
    var key := s.callers[a.t].key;
    assert s.delivered <= s.openedBy;
    if key in s.connections {
      assert s.connections[key] in s.made && s.made[s.connections[key]] == key;
      hide Invariant;
      CallerReturns(s, a.t, s.connections[key], s.hits + 1, s.delivered);
    } else {
      hide Invariant;
      CallerMoves(s, a.t, Joining);
    }
  }

  lemma CountHitStep(s: State, a: Action)
    requires Invariant(s) && a.CountHit? && Enabled(s, a)
    ensures Invariant(Do(s, a))
  {
    hide StringValue, PlacesSound, ClosedSound, GroupSound, OpeningSound, OutcomesSound, ReturnsSound;
    var c := s.callers[a.t].pc.conn;
    assert s.delivered <= s.openedBy;
    assert c in s.made && SameText(s.made[c], s.callers[a.t].key);
    hide Invariant;
    CallerReturns(s, a.t, c, s.hits + 1, s.delivered);
  }

  lemma ReceiveStep(s: State, a: Action)
    requires Invariant(s) && a.Receive? && Enabled(s, a)
    ensures Invariant(Do(s, a))
  {
    hide StringValue, PlacesSound, ClosedSound, GroupSound, OpeningSound, ReturnsSound;
    var f := s.callers[a.t].pc.load;
    assert s.delivered <= s.openedBy;
    var outcome := s.loads[f].outcome;
    assert Ended(s.loads[f]) && SameText(s.loadKey[f], s.callers[a.t].key);
    if outcome.Loaded? {
      assert outcome.conn in s.made && SameText(s.made[outcome.conn], s.callers[a.t].key) && (outcome.opening ==> f in s.openedBy);
      hide Invariant;
      if outcome.opening && f !in s.delivered {
        CallerReturns(s, a.t, outcome.conn, s.hits, s.delivered + {f});
      } else {
        CallerMoves(s, a.t, CountingHit(outcome.conn));
      }
    } else {
      hide Invariant;
      CallerMoves(s, a.t, Failed);
    }
  }

  /** Where the connections are does not depend on loads that hold none. */
  lemma PlacesKept(s: State, loadKey: map<LoadId, Key>, loads: map<LoadId, LoadPc>)
    requires PlacesSound(s.loadKey, s.loads, s.connections, Pending(s.phase), s.made, s.closes, s.place)
    requires forall f :: f in s.loadKey ==> f in loadKey && loadKey[f] == s.loadKey[f]
    requires forall f :: f in s.loads && HoldsConn(s.loads[f]) ==> f in loads && HoldsConn(loads[f]) && loads[f].conn == s.loads[f].conn
    requires forall f :: f in loads && HoldsConn(loads[f]) ==> f in s.loads && HoldsConn(s.loads[f]) && loads[f].conn == s.loads[f].conn
    ensures PlacesSound(loadKey, loads, s.connections, Pending(s.phase), s.made, s.closes, s.place)
  {
    hide Pending, HoldsConn, PendingSound, LedgerSound, CachedSound;
  }

  lemma GroupStarts(group: map<string, LoadId>, loadKey: map<LoadId, Key>, loads: map<LoadId, LoadPc>, f: LoadId, key: Key, name: string)
    requires GroupSound(group, loadKey, loads)
    requires f !in loads && name == StringValue(key) && name !in group
    ensures GroupSound(group[name := f], loadKey[f := key], loads[f := Looking])
  {
    hide StringValue, SameText;
  }

  lemma GroupMoves(group: map<string, LoadId>, loadKey: map<LoadId, Key>, loads: map<LoadId, LoadPc>, f: LoadId, pc: LoadPc)
    requires GroupSound(group, loadKey, loads)
    requires f in loads && !loads[f].Delivered? && !pc.Delivered?
    ensures GroupSound(group, loadKey, loads[f := pc])
  {
    hide StringValue, SameText;
  }

  lemma NothingYet(s: State, f: LoadId, key: Key)
    requires f !in s.loads
    requires OpeningSound(s.closed, s.connections, s.loadKey, s.loads, s.opener, s.openedBy)
    requires OutcomesSound(s.loadKey, s.loads, s.made, s.openedBy) && CallersSound(s.callers, s.loadKey, s.made)
    ensures OpeningSound(s.closed, s.connections, s.loadKey[f := key], s.loads[f := Looking], s.opener, s.openedBy)
    ensures OutcomesSound(s.loadKey[f := key], s.loads[f := Looking], s.made, s.openedBy)
    ensures CallersSound(s.callers, s.loadKey[f := key], s.made)
  {
    hide SameText;
  }

  /** Everything is as before with one load more, which has nothing yet. */
  lemma LoadStarts(s: State, f: LoadId, key: Key, name: string)
    requires Invariant(s) && f !in s.loads && name == StringValue(key) && name !in s.group
    ensures Invariant(StartLoad(s, f, key))
  {
    var loads, loadKey := s.loads[f := Looking], s.loadKey[f := key];
    assert s.loadKey.Keys == s.loads.Keys;
    hide StringValue, ReturnsSound, CountsSound, ClosedSound, PlacesSound, GroupSound, OpeningSound, OutcomesSound, CallersSound;
    PlacesKept(s, loadKey, loads);
    GroupStarts(s.group, s.loadKey, s.loads, f, key, name);
    NothingYet(s, f, key);
  }

  lemma JoinStep(s: State, a: Action)
    requires Invariant(s) && a.Join? && Enabled(s, a)
    ensures Invariant(Do(s, a))
  {
    hide PlacesSound, ClosedSound, OpeningSound, CountsSound, OutcomesSound, ReturnsSound;
    var key := s.callers[a.t].key;
    var name := StringValue(key);
    if name in s.group {
      assert name == StringValue(s.loadKey[s.group[name]]);
      assert PcFits(Waiting(s.group[name]), key, s.loadKey, s.made);
      hide Invariant, StringValue;
      CallerMoves(s, a.t, Waiting(s.group[name]));
    } else {
      hide Invariant, StringValue;
      LoadStarts(s, a.newLoad, key, name);
      CallerMoves(StartLoad(s, a.newLoad, key), a.t, Waiting(a.newLoad));
    }
  }

  // ----- every step keeps it: the loads -----

  /** A load moves on without gaining or losing a connection. */
  lemma LoadMoves(s: State, f: LoadId, pc: LoadPc)
    requires Invariant(s) && f in s.loads && !s.loads[f].Delivered? && !pc.Delivered?
    requires HoldsConn(s.loads[f]) <==> HoldsConn(pc)
    requires HoldsConn(pc) ==> pc.conn == s.loads[f].conn
    requires Outstanding(pc) ==> s.loadKey[f] !in s.connections
    requires Ended(pc) && pc.outcome.Loaded? ==>
               && pc.outcome.conn in s.made && s.made[pc.outcome.conn] == s.loadKey[f]
               && (pc.outcome.opening ==> f in s.openedBy)
    ensures Invariant(s.(loads := s.loads[f := pc]))
  {
    hide StringValue, ReturnsSound, CountsSound, ClosedSound, CallersSound, PlacesSound, GroupSound, OpeningSound, OutcomesSound;
    PlacesMove(s, f, pc);
    GroupMoves(s.group, s.loadKey, s.loads, f, pc);
    OpeningMoves(s, f, pc);
    OutcomesMove(s, f, pc);
  }

  /** A load that moves on holds what it held. */
  lemma PlacesMove(s: State, f: LoadId, pc: LoadPc)
    requires PlacesSound(s.loadKey, s.loads, s.connections, Pending(s.phase), s.made, s.closes, s.place)
    requires f in s.loads && (HoldsConn(s.loads[f]) <==> HoldsConn(pc)) && (HoldsConn(pc) ==> pc.conn == s.loads[f].conn)
    ensures PlacesSound(s.loadKey, s.loads[f := pc], s.connections, Pending(s.phase), s.made, s.closes, s.place)
  {
    hide Pending, HoldsConn, PendingSound, LedgerSound, CachedSound;
  }

  lemma OpeningMoves(s: State, f: LoadId, pc: LoadPc)
    requires OpeningSound(s.closed, s.connections, s.loadKey, s.loads, s.opener, s.openedBy)
    requires f in s.loads && (Outstanding(pc) ==> s.loadKey[f] !in s.connections)
    ensures OpeningSound(s.closed, s.connections, s.loadKey, s.loads[f := pc], s.opener, s.openedBy)
  {
    hide Outstanding;
  }

  lemma OutcomesMove(s: State, f: LoadId, pc: LoadPc)
    requires OutcomesSound(s.loadKey, s.loads, s.made, s.openedBy) && f in s.loads
    requires Ended(pc) && pc.outcome.Loaded? ==>
               && pc.outcome.conn in s.made && s.made[pc.outcome.conn] == s.loadKey[f]
               && (pc.outcome.opening ==> f in s.openedBy)
    ensures OutcomesSound(s.loadKey, s.loads[f := pc], s.made, s.openedBy)
  {
  }

  lemma LookStep(s: State, a: Action)
    requires Invariant(s) && a.Look? && Enabled(s, a)
    ensures Invariant(Do(s, a))
  {
    hide StringValue, ReturnsSound, CountsSound, ClosedSound, CallersSound, GroupSound, OpeningSound, OutcomesSound;
    var key := s.loadKey[a.f];
    if key in s.connections {
      assert s.connections[key] in s.made && s.made[s.connections[key]] == key;
      hide Invariant;
      LoadMoves(s, a.f, Finishing(Loaded(s.connections[key], false)));
    } else {
      hide Invariant;
      LoadMoves(s, a.f, Connecting);
    }
  }

  lemma FailingStep(s: State, a: Action)
    requires Invariant(s) && (a.ConnectFails? || a.CountFailure?) && Enabled(s, a)
    ensures Invariant(Do(s, a))
  {
    hide StringValue, ReturnsSound, CountsSound, ClosedSound, CallersSound, PlacesSound, OutcomesSound, GroupSound;
    assert s.loadKey[a.f] !in s.connections;
    if a.ConnectFails? {
      hide Invariant;
      LoadMoves(s, a.f, CountingFailure);
    } else {
      LoadMoves(s, a.f, Finishing(Error));
      hide OpeningSound;
    }
  }

  lemma PendingKept(pending: seq<Conn>, place: map<Conn, Place>, c: Conn, p: Place)
    requires PendingSound(pending, place) && !p.Taken? && (c in place ==> !place[c].Taken?)
    ensures PendingSound(pending, place[c := p])
  {
  }

  lemma CachedKept(connections: map<Key, Conn>, made: map<Conn, Key>, place: map<Conn, Place>, c: Conn, p: Place)
    requires CachedSound(connections, made, place) && !p.InCache? && (c in place ==> !place[c].InCache?)
    ensures CachedSound(connections, made, place[c := p])
  {
  }

  lemma HeldKept(loadKey: map<LoadId, Key>, loads: map<LoadId, LoadPc>, made: map<Conn, Key>, place: map<Conn, Place>, c: Conn, p: Place)
    requires HeldSound(loadKey, loads, made, place) && !p.Held? && c in place && !place[c].Held?
    ensures HeldSound(loadKey, loads, made, place[c := p])
  {
  }

  lemma HeldDrops(loadKey: map<LoadId, Key>, loads: map<LoadId, LoadPc>, made: map<Conn, Key>, place: map<Conn, Place>,
                  f: LoadId, pc: LoadPc, p: Place)
    requires HeldSound(loadKey, loads, made, place) && f in loads && HoldsConn(loads[f]) && !HoldsConn(pc) && !p.Held?
    ensures HeldSound(loadKey, loads[f := pc], made, place[loads[f].conn := p])
  {
    hide HoldsConn;
  }

  lemma HeldGains(loadKey: map<LoadId, Key>, loads: map<LoadId, LoadPc>, made: map<Conn, Key>, place: map<Conn, Place>, f: LoadId, c: Conn)
    requires HeldSound(loadKey, loads, made, place) && f in loads && f in loadKey && !HoldsConn(loads[f]) && c !in made && c !in place
    ensures HeldSound(loadKey, loads[f := Registering(c)], made[c := loadKey[f]], place[c := Held(f)])
  {
    assert HoldsConn(Registering(c)) && Registering(c).conn == c;
    hide HoldsConn;
  }

  /** A new connection belongs to the load that asked for it. */
  lemma PlacesConnect(s: State, f: LoadId, c: Conn)
    requires PlacesSound(s.loadKey, s.loads, s.connections, Pending(s.phase), s.made, s.closes, s.place)
    requires f in s.loads && f in s.loadKey && !HoldsConn(s.loads[f]) && c !in s.made
    ensures PlacesSound(s.loadKey, s.loads[f := Registering(c)], s.connections, Pending(s.phase),
                        s.made[c := s.loadKey[f]], s.closes[c := 0], s.place[c := Held(f)])
  {
    hide Pending, PendingSound, HeldSound;
    assert c !in s.place;
    PendingKept(Pending(s.phase), s.place, c, Held(f));
    HeldGains(s.loadKey, s.loads, s.made, s.place, f, c);
    assert CachedSound(s.connections, s.made[c := s.loadKey[f]], s.place[c := Held(f)]);
  }

  /** The two facts that mention `made` only ask that it has what it had. */
  lemma MadeGrows(s: State, f: LoadId, c: Conn, key: Key)
    requires f in s.loads && c !in s.made
    requires OutcomesSound(s.loadKey, s.loads, s.made, s.openedBy) && CallersSound(s.callers, s.loadKey, s.made)
    ensures OutcomesSound(s.loadKey, s.loads[f := Registering(c)], s.made[c := key], s.openedBy)
    ensures CallersSound(s.callers, s.loadKey, s.made[c := key])
  {
    hide SameText;
  }

  lemma ConnectStep(s: State, a: Action)
    requires Invariant(s) && a.Connect? && Enabled(s, a)
    ensures Invariant(Do(s, a))
  {
    hide StringValue, ReturnsSound, CountsSound, ClosedSound, PlacesSound, OutcomesSound, CallersSound, GroupSound;
    PlacesConnect(s, a.f, a.c);
    MadeGrows(s, a.f, a.c, s.loadKey[a.f]);
    GroupMoves(s.group, s.loadKey, s.loads, a.f, Registering(a.c));
    assert OpeningSound(s.closed, s.connections, s.loadKey, s.loads[a.f := Registering(a.c)], s.opener, s.openedBy);
  }

  // ----- every step keeps it: registering and rejecting -----

  lemma PlacesRegister(s: State, f: LoadId, outcome: Outcome)
    requires PlacesSound(s.loadKey, s.loads, s.connections, Pending(s.phase), s.made, s.closes, s.place)
    requires f in s.loads && f in s.loadKey && HoldsConn(s.loads[f]) && s.loadKey[f] !in s.connections
    ensures PlacesSound(s.loadKey, s.loads[f := Finishing(outcome)], s.connections[s.loadKey[f] := s.loads[f].conn], Pending(s.phase),
                        s.made, s.closes, s.place[s.loads[f].conn := InCache(s.loadKey[f])])
  {
    var c, p := s.loads[f].conn, InCache(s.loadKey[f]);
    var key := s.loadKey[f];
    assert s.place[c] == Held(f) && s.made[c] == s.loadKey[f];
    hide Pending, PendingSound, HeldSound;
    PendingKept(Pending(s.phase), s.place, c, p);
    HeldDrops(s.loadKey, s.loads, s.made, s.place, f, Finishing(outcome), p);
    assert CachedSound(s.connections[key := c], s.made, s.place[c := p]);
  }

  lemma OpeningRegister(s: State, f: LoadId, outcome: Outcome, c: Conn)
    requires GroupSound(s.group, s.loadKey, s.loads)
    requires OpeningSound(s.closed, s.connections, s.loadKey, s.loads, s.opener, s.openedBy)
    requires !s.closed && f in s.loads && s.loads[f].Registering?
    ensures f !in s.openedBy
    ensures OpeningSound(s.closed, s.connections[s.loadKey[f] := c], s.loadKey, s.loads[f := Finishing(outcome)],
                         s.opener[s.loadKey[f] := f], s.openedBy + {f})
  {
    hide StringValue, SameText;
    var key := s.loadKey[f];
    forall g | g in s.loads && g != f && Outstanding(s.loads[g])
      ensures s.loadKey[g] != key
    {
      assert s.group[StringValue(s.loadKey[g])] == g && s.group[StringValue(s.loadKey[f])] == f;
    }
  }

  lemma Registers(s: State, f: LoadId, c: Conn, key: Key, outcome: Outcome)
    requires Invariant(s) && !s.closed && f in s.loads && s.loads[f] == Registering(c) && f in s.loadKey && s.loadKey[f] == key
    requires outcome == Loaded(c, true) && key !in s.connections && c in s.made && s.made[c] == key
    ensures Invariant(s.(loads := s.loads[f := Finishing(outcome)], connections := s.connections[key := c],
                         openedCount := s.openedCount + 1,
                         place := s.place[c := InCache(key)], opener := s.opener[key := f], openedBy := s.openedBy + {f}))
  {
    hide StringValue, ReturnsSound, PlacesSound, CallersSound, GroupSound, OpeningSound;
    PlacesRegister(s, f, outcome);
    OpeningRegister(s, f, outcome, c);
    GroupMoves(s.group, s.loadKey, s.loads, f, Finishing(outcome));
    assert OutcomesSound(s.loadKey, s.loads[f := Finishing(outcome)], s.made, s.openedBy + {f});
    assert CountsSound(s.openedCount + 1, s.openedBy + {f}, s.delivered);
  }

  lemma RegisterStep(s: State, a: Action)
    requires Invariant(s) && a.Register? && Enabled(s, a)
    ensures Invariant(Do(s, a))
  {
    hide StringValue, ReturnsSound, CallersSound, GroupSound, OutcomesSound, ClosedSound, CountsSound;
    var c := s.loads[a.f].conn;
    var key := s.loadKey[a.f];
    assert key !in s.connections && c in s.made && s.made[c] == key;
    hide Invariant, PlacesSound, OpeningSound, PendingSound;
    if s.closed {
      LoadMoves(s, a.f, Rejecting(c));
    } else {
      Registers(s, a.f, c, key, Loaded(c, true));
    }
  }

  lemma PlacesReject(s: State, f: LoadId, outcome: Outcome)
    requires PlacesSound(s.loadKey, s.loads, s.connections, Pending(s.phase), s.made, s.closes, s.place)
    requires f in s.loads && f in s.loadKey && HoldsConn(s.loads[f])
    ensures s.loads[f].conn in s.closes
    ensures PlacesSound(s.loadKey, s.loads[f := Finishing(outcome)], s.connections, Pending(s.phase), s.made,
                        s.closes[s.loads[f].conn := s.closes[s.loads[f].conn] + 1], s.place[s.loads[f].conn := Gone])
  {
    var c, p := s.loads[f].conn, Gone;
    assert s.place[c] == Held(f) && s.made[c] == s.loadKey[f];
    hide Pending, PendingSound, HeldSound;
    PendingKept(Pending(s.phase), s.place, c, p);
    HeldDrops(s.loadKey, s.loads, s.made, s.place, f, Finishing(outcome), p);
    CachedKept(s.connections, s.made, s.place, c, p);
    hide CachedSound;
  }

  lemma RejectStep(s: State, a: Action)
    requires Invariant(s) && a.Reject? && Enabled(s, a)
    ensures Invariant(Do(s, a))
  {
    hide StringValue, ReturnsSound, PlacesSound, CallersSound, GroupSound, CountsSound, ClosedSound;
    PlacesReject(s, a.f, Error);
    GroupMoves(s.group, s.loadKey, s.loads, a.f, Finishing(Error));
    assert OpeningSound(s.closed, s.connections, s.loadKey, s.loads[a.f := Finishing(Error)], s.opener, s.openedBy);
    assert OutcomesSound(s.loadKey, s.loads[a.f := Finishing(Error)], s.made, s.openedBy);
  }

  lemma GroupFinish(group: map<string, LoadId>, loadKey: map<LoadId, Key>, loads: map<LoadId, LoadPc>, f: LoadId, outcome: Outcome)
    requires GroupSound(group, loadKey, loads) && f in loads && loads[f].Finishing?
    ensures GroupSound(group - {StringValue(loadKey[f])}, loadKey, loads[f := Delivered(outcome)])
  {
    hide StringValue, SameText;
  }

  lemma FinishStep(s: State, a: Action)
    requires Invariant(s) && a.Finish? && Enabled(s, a)
    ensures Invariant(Do(s, a))
  {
    hide StringValue, ReturnsSound, PlacesSound, CallersSound, GroupSound, CountsSound, ClosedSound;
    var loads := s.loads[a.f := Delivered(s.loads[a.f].outcome)];
    PlacesMove(s, a.f, Delivered(s.loads[a.f].outcome));
    GroupFinish(s.group, s.loadKey, s.loads, a.f, s.loads[a.f].outcome);
    assert OpeningSound(s.closed, s.connections, s.loadKey, loads, s.opener, s.openedBy);
    assert OutcomesSound(s.loadKey, loads, s.made, s.openedBy);
  }

  // ----- every step keeps it: Close -----

  lemma OrderCovers(connections: map<Key, Conn>, order: seq<Key>)
    requires multiset(order) == multiset(connections.Keys)
    ensures forall k :: k in connections ==> connections[k] in InOrder(connections, order)
    ensures forall i :: 0 <= i < |order| ==> order[i] in connections && InOrder(connections, order)[i] == connections[order[i]]
    ensures forall i, j :: 0 <= i < j < |order| ==> order[i] != order[j]
  {
    forall i | 0 <= i < |order|
      ensures order[i] in connections
    {
      assert order[i] in multiset(order);
    }
    forall k | k in connections
      ensures connections[k] in InOrder(connections, order)
    {
      assert k in multiset(order);
      var i :| 0 <= i < |order| && order[i] == k;
      assert InOrder(connections, order)[i] == connections[k];
    }
    forall i, j | 0 <= i < j < |order|
      ensures order[i] != order[j]
    {
      NoRepeats(order, connections.Keys, i, j);
    }
  }

  lemma PendingBegins(connections: map<Key, Conn>, place: map<Conn, Place>, order: seq<Key>)
    requires multiset(order) == multiset(connections.Keys)
    requires forall c :: c in place && place[c].InCache? ==> place[c].key in connections && connections[place[c].key] == c
    requires forall k :: k in connections ==> connections[k] in place && place[connections[k]] == InCache(k)
    requires forall c :: c in place ==> !place[c].Taken?
    ensures PendingSound(InOrder(connections, order), TakeCached(place))
  {
    OrderCovers(connections, order);
    var pending := InOrder(connections, order);
    assert |pending| == |order|;
    hide InOrder;
    assert forall i :: 0 <= i < |pending| ==> place[pending[i]] == InCache(order[i]);
  }

  lemma HeldTaken(loadKey: map<LoadId, Key>, loads: map<LoadId, LoadPc>, made: map<Conn, Key>, place: map<Conn, Place>)
    requires HeldSound(loadKey, loads, made, place)
    ensures HeldSound(loadKey, loads, made, TakeCached(place))
  {
    hide HoldsConn;
  }

  lemma NoneCached(made: map<Conn, Key>, closes: map<Conn, nat>, place: map<Conn, Place>)
    requires LedgerSound(made, closes, place)
    ensures LedgerSound(made, closes, TakeCached(place)) && CachedSound(map[], made, TakeCached(place))
  {
  }

  lemma PlacesBeginClose(s: State, order: seq<Key>)
    requires PlacesSound(s.loadKey, s.loads, s.connections, [], s.made, s.closes, s.place)
    requires multiset(order) == multiset(s.connections.Keys)
    ensures PlacesSound(s.loadKey, s.loads, map[], InOrder(s.connections, order), s.made, s.closes, TakeCached(s.place))
  {
    assert forall c :: c in s.place ==> !s.place[c].Taken? by { hide HeldSound, LedgerSound, CachedSound; }
    PendingBegins(s.connections, s.place, order);
    HeldTaken(s.loadKey, s.loads, s.made, s.place);
    NoneCached(s.made, s.closes, s.place);
    hide PendingSound, InOrder, HeldSound, LedgerSound, CachedSound;
  }

  lemma BeginCloseStep(s: State, a: Action)
    requires Invariant(s) && a.BeginClose? && Enabled(s, a)
    ensures Invariant(Do(s, a))
  {
    hide StringValue, ReturnsSound, PlacesSound, CallersSound, GroupSound, CountsSound, OutcomesSound, InOrder;
    PlacesBeginClose(s, a.order);
    assert OpeningSound(true, map[], s.loadKey, s.loads, s.opener, s.openedBy);
  }

  lemma PendingNext(pending: seq<Conn>, place: map<Conn, Place>)
    requires pending != [] && PendingSound(pending, place)
    ensures pending[0] in place && PendingSound(pending[1..], place[pending[0] := Gone])
  {
    var c, rest := pending[0], pending[1..];
    var after := place[c := Gone];
    forall d | d in after && after[d].Taken?
      ensures d in rest
    {
      var i :| 0 <= i < |pending| && pending[i] == d;
      assert rest[i - 1] == d;
    }
    forall i | 0 <= i < |rest|
      ensures rest[i] in after && after[rest[i]].Taken?
    {
      assert rest[i] == pending[i + 1] != pending[0];
    }
  }

  lemma PlacesCloseNext(s: State)
    requires s.phase.Closing? && s.phase.pending != []
    requires PlacesSound(s.loadKey, s.loads, s.connections, s.phase.pending, s.made, s.closes, s.place)
    ensures var c := s.phase.pending[0];
      c in s.closes && PlacesSound(s.loadKey, s.loads, s.connections, s.phase.pending[1..], s.made, s.closes[c := s.closes[c] + 1], s.place[c := Gone])
  {
    var c := s.phase.pending[0];
    assert s.place[c].Taken?;
    PendingNext(s.phase.pending, s.place);
    HeldKept(s.loadKey, s.loads, s.made, s.place, c, Gone);
    CachedKept(s.connections, s.made, s.place, c, Gone);
    hide PendingSound, HeldSound, CachedSound;
  }

  lemma CloseNextStep(s: State, a: Action)
    requires Invariant(s) && (a.CloseNext? || a.EndClose?) && Enabled(s, a)
    ensures Invariant(Do(s, a))
  {
    hide StringValue, ReturnsSound, PlacesSound, CallersSound, GroupSound, CountsSound, OutcomesSound, OpeningSound;
    if a.CloseNext? {
      PlacesCloseNext(s);
    }
  }

  // ----- every run -----

  lemma InvariantKept(s: State, a: Action)
    requires Invariant(s) && Enabled(s, a)
    ensures Invariant(Do(s, a))
  {
    hide *;
    match a
    case Arrive(_, _) => ArriveStep(s, a);
    case RequireOpen(_) => MoveStep(s, a);
    case CheckCache(_) => CheckCacheStep(s, a);
    case Join(_, _) => JoinStep(s, a);
    case Cancel(_) => MoveStep(s, a);
    case Receive(_) => ReceiveStep(s, a);
    case CountHit(_) => CountHitStep(s, a);
    case Look(_) => LookStep(s, a);
    case Connect(_, _) => ConnectStep(s, a);
    case ConnectFails(_) => FailingStep(s, a);
    case CountFailure(_) => FailingStep(s, a);
    case Register(_) => RegisterStep(s, a);
    case Reject(_) => RejectStep(s, a);
    case Finish(_) => FinishStep(s, a);
    case BeginClose(_) => BeginCloseStep(s, a);
    case CloseNext => CloseNextStep(s, a);
    case EndClose => CloseNextStep(s, a);
  }

  lemma InitialInvariant()
    ensures Invariant(INITIAL)
  {
  }

  lemma {:induction false} ReachableInvariant(s: State, run: seq<Action>)
    requires Reachable(s, run)
    ensures Invariant(s)
    decreases |run|
  {
    if run == [] {
      InitialInvariant();
    } else {
      var last, front := run[|run| - 1], run[..|run| - 1];
      var before :| Reachable(before, front) && Step(before, last, s);
      hide Invariant, Enabled, Do, SameText;
      ReachableInvariant(before, front);
      InvariantKept(before, last);
    }
  }

  // ----- what holds in every reachable state -----

  ghost predicate InFlight(s: State, c: Conn) { exists f :: f in s.loads && HoldsConn(s.loads[f]) && s.loads[f].conn == c }

  ghost predicate IsCached(s: State, c: Conn) { exists k :: k in s.connections && s.connections[k] == c }

  predicate IsPending(s: State, c: Conn) { c in Pending(s.phase) }

  predicate WasClosed(s: State, c: Conn) { c in s.closes && s.closes[c] > 0 }

  /** The place in the bookkeeping is the place in the program's own data. */
  lemma PlaceIsReal(s: State, c: Conn)
    requires PlacesSound(s.loadKey, s.loads, s.connections, Pending(s.phase), s.made, s.closes, s.place)
    ensures InFlight(s, c) <==> c in s.place && s.place[c].Held?
    ensures IsCached(s, c) <==> c in s.place && s.place[c].InCache?
    ensures IsPending(s, c) <==> c in s.place && s.place[c].Taken?
    ensures WasClosed(s, c) <==> c in s.place && s.place[c].Gone?
    ensures c in s.closes <==> c in s.made
    ensures c in s.closes ==> s.closes[c] <= 1
  {
    hide Pending, HoldsConn;
  }

  /** Every connection ever created is either with the load that made it, or cached, or taken by
      `Close`, or closed once; and never in two of these. */
  lemma EveryConnectionHasOnePlace(s: State, run: seq<Action>, c: Conn)
    requires Reachable(s, run)
    ensures c in s.made <==> InFlight(s, c) || IsCached(s, c) || IsPending(s, c) || WasClosed(s, c)
    ensures !(InFlight(s, c) && IsCached(s, c)) && !(InFlight(s, c) && IsPending(s, c)) && !(InFlight(s, c) && WasClosed(s, c))
    ensures !(IsCached(s, c) && IsPending(s, c)) && !(IsCached(s, c) && WasClosed(s, c)) && !(IsPending(s, c) && WasClosed(s, c))
    ensures c in s.made ==> c in s.closes && s.closes[c] <= 1
  {
    ReachableInvariant(s, run);
    PlaceIsReal(s, c);
    hide InFlight, IsCached, IsPending, WasClosed, HeldSound, CachedSound, PendingSound;
  }

  lemma ClosedIsFrozen(s: State, a: Action)
    requires Enabled(s, a) && s.closed && !s.phase.Open?
    ensures Do(s, a).closed && Do(s, a).connections == s.connections && Do(s, a).openedCount == s.openedCount
  {
    hide StringValue, InOrder, TakeCached, DoCaller;
  }

  /** Once `closed` is set the cache is empty, and no step puts anything into it again. */
  lemma NothingIsRegisteredAfterClose(s: State, run: seq<Action>, a: Action)
    requires Reachable(s, run) && Enabled(s, a) && s.closed
    ensures s.connections == map[]
    ensures Do(s, a).closed && Do(s, a).connections == map[] && Do(s, a).openedCount == s.openedCount
  {
    ReachableInvariant(s, run);
    assert s.connections == map[] && !s.phase.Open? by {
      hide PlacesSound, GroupSound, OpeningSound, CountsSound, OutcomesSound, CallersSound, ReturnsSound, Enabled;
    }
    hide Invariant, Reachable;
    ClosedIsFrozen(s, a);
  }

  /** When `Close` and every load have come to their end, every connection has been closed exactly once. */
  lemma ClosedExactlyOnce(s: State, run: seq<Action>, c: Conn)
    requires Reachable(s, run)
    requires s.phase.Closed? && (forall f :: f in s.loads ==> s.loads[f].Delivered?)
    requires c in s.made
    ensures c in s.closes && s.closes[c] == 1
  {
    ReachableInvariant(s, run);
    PlaceIsReal(s, c);
    hide HeldSound, CachedSound, PendingSound;
  }

  /** At most one load per key is at work, and in particular at most one `Connect` is in flight;
      and at most one load per key ever registers a connection. */
  lemma OneLoadPerKey(s: State, run: seq<Action>, f: LoadId, g: LoadId)
    requires Reachable(s, run)
    requires f in s.loads && g in s.loads && f in s.loadKey && g in s.loadKey && s.loadKey[f] == s.loadKey[g]
    ensures !s.loads[f].Delivered? && !s.loads[g].Delivered? ==> f == g
    ensures f in s.openedBy && g in s.openedBy ==> f == g
  {
    ReachableInvariant(s, run);
    hide PlacesSound, CallersSound, ReturnsSound, StringValue, OutcomesSound;
  }

  /** A caller that returns has a connection made for a key with the same text as its own. */
  lemma CallersGetTheirOwnText(s: State, run: seq<Action>, t: CallerId)
    requires Reachable(s, run)
    requires t in s.callers && s.callers[t].pc.Returned?
    ensures s.callers[t].pc.conn in s.made && SameText(s.made[s.callers[t].pc.conn], s.callers[t].key)
  {
    ReachableInvariant(s, run);
    hide PlacesSound, GroupSound, OpeningSound, CountsSound, OutcomesSound, ReturnsSound, SameText;
  }

  /** Successful returns are the cache hits and the openings that were delivered, and no more
      openings are delivered than were counted. */
  lemma ReturnsAreCounted(s: State, run: seq<Action>)
    requires Reachable(s, run)
    ensures var successes := set t | t in s.callers && s.callers[t].pc.Returned?;
      s.hits <= |successes| && |successes| - s.hits == |s.delivered| <= s.openedCount
  {
    ReachableInvariant(s, run);
    hide PlacesSound, GroupSound, OpeningSound, CallersSound, OutcomesSound, StringValue;
    var successes := set t | t in s.callers && s.callers[t].pc.Returned?;
    assert successes == s.returned;
    Subset(s.delivered, s.openedBy);
  }

  lemma {:induction false} Subset<T>(a: set<T>, b: set<T>)
    requires a <= b
    ensures |a| <= |b|
  {
    assert b == a + (b - a);
  }

  // ----- going on -----

  lemma Extend(before: State, run: seq<Action>, a: Action)
    requires Reachable(before, run) && Enabled(before, a)
    ensures Reachable(Do(before, a), run + [a])
  {
    var all := run + [a];
    assert all[..|all| - 1] == run && all[|all| - 1] == a;
    assert Step(before, a, Do(before, a));
  }
}
