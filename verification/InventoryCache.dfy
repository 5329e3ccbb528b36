/** The inventories a `CollectorSession` loads once and then answers from: topology, shards, databases,
    collections per database, databases and status per replica set. Readers, the loads that
    singleflight runs for them, and `rememberReplicaSetInventory` interleave freely. */
module InventoryCache {

  /** An inventory that was read: all that matters is whether it is empty. */
  datatype Value = Empty | Content(id: nat)

  type ReaderId = nat
  type LoadId = nat

  /** How the session keeps an inventory: in a map or behind a reference, where presence shows; in a
      slice that counts as absent when it is nil, which a copy of an empty list is; or in the
      replica-set map, into which a status seen elsewhere may be put as well. */
  datatype Kind = Keyed | Slice | Shared

  datatype Result = Error | Ok(value: Value)

  datatype ReaderPc = Start | Checking | Joining | Waiting(load: LoadId) | Returned(value: Value) | Failed

  datatype Reader = Reader(key: string, pc: ReaderPc)

  datatype LoadPc = Looking | Fetching | Storing(value: Value) | Finishing(result: Result) | Delivered(result: Result)

  datatype State = State(
    kind: Kind, closed: bool,
    cache: map<string, Value>,
    group: map<string, LoadId>,           // singleflight's calls in progress
    loadKey: map<LoadId, string>,
    loads: map<LoadId, LoadPc>,
    readers: map<ReaderId, Reader>,
    loadCount: nat,                       // the statistic
    stored: map<string, seq<Value>>,      // history: what was stored for a key, in order
    remembered: set<string>)              // history: keys stored by rememberReplicaSetInventory

  function Initial(kind: Kind): State { State(kind, false, map[], map[], map[], map[], map[], 0, map[], {}) }

  /** Whether a look at the cache finds something. */
  predicate Hit(kind: Kind, cache: map<string, Value>, key: string) {
    key in cache && (kind.Slice? ==> !cache[key].Empty?)
  }

  datatype Action =
    | Arrive(t: ReaderId, key: string)
    | RequireOpen(t: ReaderId)
    | CheckCache(t: ReaderId)
    | Join(t: ReaderId, newLoad: LoadId)
    | Cancel(t: ReaderId)
    | Receive(t: ReaderId)
    | Look(f: LoadId)
    | Fetch(f: LoadId, value: Value)
    | FetchFails(f: LoadId)             // no slot, cancelled, or the server's error
    | Store(f: LoadId)
    | Finish(f: LoadId)
    | Remember(key: string, value: Value)
    | Close

  predicate Enabled(s: State, a: Action) {
    match a
    case Arrive(t, key) => t !in s.readers
    case RequireOpen(t) => t in s.readers && s.readers[t].pc.Start?
    case CheckCache(t) => t in s.readers && s.readers[t].pc.Checking?
    case Join(t, newLoad) => t in s.readers && s.readers[t].pc.Joining? && newLoad !in s.loads
    case Cancel(t) => t in s.readers && s.readers[t].pc.Waiting?
    case Receive(t) => t in s.readers && s.readers[t].pc.Waiting?
                       && s.readers[t].pc.load in s.loads && s.loads[s.readers[t].pc.load].Delivered?
    case Look(f) => f in s.loads && s.loads[f].Looking? && f in s.loadKey
    case Fetch(f, _) => f in s.loads && s.loads[f].Fetching?
    case FetchFails(f) => f in s.loads && s.loads[f].Fetching?
    case Store(f) => f in s.loads && s.loads[f].Storing? && f in s.loadKey
    case Finish(f) => f in s.loads && s.loads[f].Finishing? && f in s.loadKey
    case Remember(_, _) => s.kind.Shared?
    case Close => true
  }

  function SetReader(s: State, t: ReaderId, pc: ReaderPc): State
    requires t in s.readers
  {
    s.(readers := s.readers[t := s.readers[t].(pc := pc)])
  }

  function SetLoad(s: State, f: LoadId, pc: LoadPc): State {
    s.(loads := s.loads[f := pc])
  }

  function StartLoad(s: State, f: LoadId, key: string): State {
    s.(loads := s.loads[f := Looking], loadKey := s.loadKey[f := key], group := s.group[key := f])
  }

  function Stored(s: State, key: string): seq<Value> { if key in s.stored then s.stored[key] else [] }

  function Put(s: State, key: string, value: Value): State {
    s.(cache := s.cache[key := value], loadCount := s.loadCount + 1, stored := s.stored[key := Stored(s, key) + [value]])
  }

  /** A reader keeps the key it arrived with. */
  ghost predicate KeepsKeys(s: State, a: Action, r: State) {
    if a.Arrive? then r.readers == s.readers[a.t := Reader(a.key, Start)]
    else r.readers.Keys == s.readers.Keys && forall t :: t in s.readers ==> r.readers[t].key == s.readers[t].key
  }

  function Do(s: State, a: Action): (r: State)
    requires Enabled(s, a)
    ensures r.kind == s.kind && (r.closed <==> s.closed || a.Close?)
    ensures KeepsKeys(s, a, r)
  {
    match a
    case Arrive(t, key) => s.(readers := s.readers[t := Reader(key, Start)])
    case RequireOpen(t) => SetReader(s, t, if s.closed then Failed else Checking)
    case CheckCache(t) =>
      var key := s.readers[t].key;
      SetReader(s, t, if Hit(s.kind, s.cache, key) then Returned(s.cache[key]) else Joining)
    case Join(t, newLoad) =>
      var key := s.readers[t].key;
      if key in s.group then SetReader(s, t, Waiting(s.group[key]))
      else SetReader(StartLoad(s, newLoad, key), t, Waiting(newLoad))
    case Cancel(t) => SetReader(s, t, Failed)
    case Receive(t) =>
      var result := s.loads[s.readers[t].pc.load].result;
      SetReader(s, t, if result.Ok? then Returned(result.value) else Failed)
    case Look(f) =>
      var key := s.loadKey[f];
      SetLoad(s, f, if Hit(s.kind, s.cache, key) then Finishing(Ok(s.cache[key])) else Fetching)
    case Fetch(f, value) => SetLoad(s, f, Storing(value))
    case FetchFails(f) => SetLoad(s, f, Finishing(Error))
    case Store(f) => SetLoad(Put(s, s.loadKey[f], s.loads[f].value), f, Finishing(Ok(s.loads[f].value)))
    case Finish(f) => SetLoad(s, f, Delivered(s.loads[f].result)).(group := s.group - {s.loadKey[f]})
    case Remember(key, value) =>
      if s.closed || key in s.cache then s else Put(s, key, value).(remembered := s.remembered + {key})
    case Close => s.(closed := true)
  }

  ghost predicate Step(s: State, a: Action, s': State) { Enabled(s, a) && s' == Do(s, a) }

  /** States that some interleaving leads to. */
  ghost predicate Reachable(s: State, run: seq<Action>)
    decreases |run|
  {
    if run == [] then s == Initial(s.kind)
    else
      var last := run[|run| - 1];
      exists before :: Reachable(before, run[..|run| - 1]) && Step(before, last, s)
  }

  // ----- the invariant -----

  ghost predicate GroupSound(group: map<string, LoadId>, loadKey: map<LoadId, string>, loads: map<LoadId, LoadPc>) {
    && loadKey.Keys == loads.Keys
    && (forall n :: n in group ==> group[n] in loads && loadKey[group[n]] == n && !loads[group[n]].Delivered?)
    && (forall f :: f in loads && !loads[f].Delivered? ==> loadKey[f] in group && group[loadKey[f]] == f)
  }

  /** What can have been stored for one key. */
  predicate History(kind: Kind, values: seq<Value>, remembered: bool) {
    && values != []
    && (kind.Keyed? ==> |values| == 1)
    && (kind.Slice? ==> forall i :: 0 <= i < |values| - 1 ==> values[i].Empty?)
    && (kind.Shared? ==> |values| <= if remembered then 2 else 1)
    && (remembered ==> kind.Shared?)
  }

  /** The cache holds the last of them. */
  predicate Latest(kind: Kind, values: seq<Value>, remembered: bool, cached: Value) {
    History(kind, values, remembered) && cached == values[|values| - 1]
  }

  ghost predicate CacheSound(kind: Kind, cache: map<string, Value>, stored: map<string, seq<Value>>, remembered: set<string>) {
    && cache.Keys == stored.Keys && remembered <= cache.Keys
    && (forall k :: k in stored ==> Latest(kind, stored[k], k in remembered, cache[k]))
  }

  /** The statistic counts the keys that are cached. */
  ghost predicate CountSound(kind: Kind, cache: map<string, Value>, loadCount: nat) {
    kind.Keyed? ==> loadCount == |cache|
  }

  predicate Outstanding(pc: LoadPc) { pc.Fetching? || pc.Storing? }

  /** While a load is out for a key, nobody else fills the key, except by remembering. */
  ghost predicate FetchSound(kind: Kind, cache: map<string, Value>, loadKey: map<LoadId, string>, loads: map<LoadId, LoadPc>,
                             stored: map<string, seq<Value>>, remembered: set<string>) {
    && loadKey.Keys == loads.Keys
    && (forall f :: f in loads && Outstanding(loads[f]) && Hit(kind, cache, loadKey[f]) ==>
          loadKey[f] in remembered && loadKey[f] in stored && |stored[loadKey[f]]| == 1)
  }

  predicate Ended(pc: LoadPc) { pc.Finishing? || pc.Delivered? }

  ghost predicate ResultsSound(loadKey: map<LoadId, string>, loads: map<LoadId, LoadPc>, stored: map<string, seq<Value>>) {
    && loadKey.Keys == loads.Keys
    && (forall f :: f in loads && Ended(loads[f]) && loads[f].result.Ok? ==>
          loadKey[f] in stored && loads[f].result.value in stored[loadKey[f]])
  }

  ghost predicate ReadersSound(readers: map<ReaderId, Reader>, loadKey: map<LoadId, string>, stored: map<string, seq<Value>>) {
    forall t :: t in readers ==>
      && (readers[t].pc.Waiting? ==> readers[t].pc.load in loadKey && loadKey[readers[t].pc.load] == readers[t].key)
      && (readers[t].pc.Returned? ==> readers[t].key in stored && readers[t].pc.value in stored[readers[t].key])
  }

  ghost predicate Invariant(s: State) {
    && GroupSound(s.group, s.loadKey, s.loads)
    && CacheSound(s.kind, s.cache, s.stored, s.remembered)
    && CountSound(s.kind, s.cache, s.loadCount)
    && FetchSound(s.kind, s.cache, s.loadKey, s.loads, s.stored, s.remembered)
    && ResultsSound(s.loadKey, s.loads, s.stored)
    && ReadersSound(s.readers, s.loadKey, s.stored)
  }

  // ----- every step keeps it -----

  lemma ReaderMoves(s: State, t: ReaderId, pc: ReaderPc)
    requires Invariant(s) && t in s.readers
    requires pc.Waiting? ==> pc.load in s.loadKey && s.loadKey[pc.load] == s.readers[t].key
    requires pc.Returned? ==> s.readers[t].key in s.stored && pc.value in s.stored[s.readers[t].key]
    ensures Invariant(SetReader(s, t, pc))
  {
    hide GroupSound, CacheSound, FetchSound, ResultsSound;
  }

  lemma LoadMoves(s: State, f: LoadId, pc: LoadPc)
    requires Invariant(s) && f in s.loads && f in s.loadKey && !s.loads[f].Delivered? && !pc.Delivered?
    requires Outstanding(pc) && Hit(s.kind, s.cache, s.loadKey[f]) ==>
               s.loadKey[f] in s.remembered && s.loadKey[f] in s.stored && |s.stored[s.loadKey[f]]| == 1
    requires Ended(pc) && pc.result.Ok? ==> s.loadKey[f] in s.stored && pc.result.value in s.stored[s.loadKey[f]]
    ensures Invariant(SetLoad(s, f, pc))
  {
    hide CacheSound, ReadersSound, Hit;
  }

  lemma GroupStarts(group: map<string, LoadId>, loadKey: map<LoadId, string>, loads: map<LoadId, LoadPc>, f: LoadId, key: string)
    requires GroupSound(group, loadKey, loads) && f !in loads && key !in group
    ensures GroupSound(group[key := f], loadKey[f := key], loads[f := Looking])
  {
  }

  lemma LoadStarts(s: State, f: LoadId, key: string)
    requires Invariant(s) && f !in s.loads && key !in s.group
    ensures Invariant(StartLoad(s, f, key))
  {
    GroupStarts(s.group, s.loadKey, s.loads, f, key);
    var loadKey, loads := s.loadKey[f := key], s.loads[f := Looking];
    hide CacheSound, Hit, GroupSound;
    assert FetchSound(s.kind, s.cache, loadKey, loads, s.stored, s.remembered);
    assert ResultsSound(loadKey, loads, s.stored);
    hide FetchSound, ResultsSound;
  }

  lemma ReaderStep(s: State, a: Action)
    requires Invariant(s) && Enabled(s, a)
    requires a.Arrive? || a.RequireOpen? || a.Cancel? || a.CheckCache?
    ensures Invariant(Do(s, a))
  {
    if a.Arrive? {
      hide GroupSound, CacheSound, FetchSound, ResultsSound;
    } else if a.CheckCache? {
      var key := s.readers[a.t].key;
      if Hit(s.kind, s.cache, key) {
        assert key in s.stored && s.cache[key] in s.stored[key];
        hide Invariant;
        ReaderMoves(s, a.t, Returned(s.cache[key]));
      } else {
        hide Invariant;
        ReaderMoves(s, a.t, Joining);
      }
    } else {
      hide Invariant;
      ReaderMoves(s, a.t, if a.Cancel? || s.closed then Failed else Checking);
    }
  }

  lemma WaitingStep(s: State, a: Action)
    requires Invariant(s) && Enabled(s, a) && (a.Join? || a.Receive?)
    ensures Invariant(Do(s, a))
  {
    hide CacheSound, FetchSound;
    if a.Join? {
      var key := s.readers[a.t].key;
      if key in s.group {
        assert s.loadKey[s.group[key]] == key;
        hide Invariant;
        ReaderMoves(s, a.t, Waiting(s.group[key]));
      } else {
        hide Invariant;
        LoadStarts(s, a.newLoad, key);
        ReaderMoves(StartLoad(s, a.newLoad, key), a.t, Waiting(a.newLoad));
      }
    } else {
      var result := s.loads[s.readers[a.t].pc.load].result;
      assert Ended(s.loads[s.readers[a.t].pc.load]);
      if result.Ok? {
        assert s.readers[a.t].key in s.stored && result.value in s.stored[s.readers[a.t].key];
      }
      hide Invariant;
      ReaderMoves(s, a.t, if result.Ok? then Returned(result.value) else Failed);
    }
  }

  lemma LoadStep(s: State, a: Action)
    requires Invariant(s) && Enabled(s, a) && (a.Look? || a.Fetch? || a.FetchFails?)
    ensures Invariant(Do(s, a))
  {
    assert s.loadKey.Keys == s.loads.Keys;
    if a.Look? {
      var key := s.loadKey[a.f];
      if Hit(s.kind, s.cache, key) {
        assert key in s.stored && s.cache[key] in s.stored[key];
        hide Invariant;
        LoadMoves(s, a.f, Finishing(Ok(s.cache[key])));
      } else {
        hide Invariant;
        LoadMoves(s, a.f, Fetching);
      }
    } else {
      assert Outstanding(s.loads[a.f]);
      assert Hit(s.kind, s.cache, s.loadKey[a.f]) ==>
          s.loadKey[a.f] in s.remembered && s.loadKey[a.f] in s.stored && |s.stored[s.loadKey[a.f]]| == 1;
      hide Invariant, Hit;
      LoadMoves(s, a.f, if a.Fetch? then Storing(a.value) else Finishing(Error));
    }
  }

  lemma GroupFinish(group: map<string, LoadId>, loadKey: map<LoadId, string>, loads: map<LoadId, LoadPc>, f: LoadId, result: Result)
    requires GroupSound(group, loadKey, loads) && f in loads && loads[f].Finishing?
    ensures GroupSound(group - {loadKey[f]}, loadKey, loads[f := Delivered(result)])
  {
  }

  lemma FinishStep(s: State, a: Action)
    requires Invariant(s) && Enabled(s, a) && a.Finish?
    ensures Invariant(Do(s, a))
  {
    var f, result := a.f, s.loads[a.f].result;
    GroupFinish(s.group, s.loadKey, s.loads, f, result);
    assert Ended(s.loads[f]);
    hide CacheSound, ReadersSound, Hit, GroupSound;
    assert FetchSound(s.kind, s.cache, s.loadKey, s.loads[f := Delivered(result)], s.stored, s.remembered);
    assert ResultsSound(s.loadKey, s.loads[f := Delivered(result)], s.stored);
    hide FetchSound, ResultsSound;
  }

  // ----- storing -----

  /** Storing keeps what was stored, so what was true of results and readers stays true. */
  lemma HistoryGrows(s: State, key: string, value: Value)
    requires ResultsSound(s.loadKey, s.loads, s.stored) && ReadersSound(s.readers, s.loadKey, s.stored)
    ensures var stored := Put(s, key, value).stored;
      ResultsSound(s.loadKey, s.loads, stored) && ReadersSound(s.readers, s.loadKey, stored)
  {
    hide Ended;
  }

  lemma HistoryExtends(kind: Kind, values: seq<Value>, was: bool, now: bool, value: Value)
    requires values != [] ==> History(kind, values, was)
    requires now ==> kind.Shared?
    requires was ==> now
    requires values != [] && (kind.Slice? ==> !values[|values| - 1].Empty?) ==> was && |values| == 1
    ensures Latest(kind, values + [value], now, value)
  {
  }

  function Remembering(s: State, key: string, add: bool): set<string> { if add then s.remembered + {key} else s.remembered }

  lemma CachePut(s: State, key: string, value: Value, add: bool)
    requires CacheSound(s.kind, s.cache, s.stored, s.remembered)
    requires add || key in s.remembered ==> s.kind.Shared?
    requires Hit(s.kind, s.cache, key) ==> key in s.remembered && |s.stored[key]| == 1
    ensures var s' := Put(s, key, value); CacheSound(s.kind, s'.cache, s'.stored, Remembering(s, key, add))
  {
    assert key in s.stored ==> Latest(s.kind, s.stored[key], key in s.remembered, s.cache[key]);
    HistoryExtends(s.kind, Stored(s, key), key in s.remembered, add || key in s.remembered, value);
    hide History, Hit, Latest;
    var s' := Put(s, key, value);
    assert s'.stored == s.stored[key := Stored(s, key) + [value]] && s'.cache == s.cache[key := value];
    hide Put, Stored;
  }

  lemma CountPut(s: State, key: string, value: Value)
    requires CountSound(s.kind, s.cache, s.loadCount) && (s.kind.Keyed? ==> key !in s.cache)
    ensures var s' := Put(s, key, value); CountSound(s.kind, s'.cache, s'.loadCount)
  {
    hide Stored;
  }

  /** A load stores: the key it stores for is one that nobody else's load is out for. */
  lemma FetchStored(s: State, f: LoadId, value: Value)
    requires GroupSound(s.group, s.loadKey, s.loads) && FetchSound(s.kind, s.cache, s.loadKey, s.loads, s.stored, s.remembered)
    requires f in s.loads && s.loads[f].Storing?
    ensures var s' := Put(s, s.loadKey[f], value);
      FetchSound(s.kind, s'.cache, s.loadKey, s.loads[f := Finishing(Ok(value))], s'.stored, s.remembered)
  {
    var key := s.loadKey[f];
    forall g | g in s.loads && g != f && Outstanding(s.loads[g])
      ensures s.loadKey[g] != key
    {
      assert s.group[s.loadKey[g]] == g && s.group[key] == f;
    }
  }

  lemma GroupMoves(group: map<string, LoadId>, loadKey: map<LoadId, string>, loads: map<LoadId, LoadPc>, f: LoadId, pc: LoadPc)
    requires GroupSound(group, loadKey, loads) && f in loads && !loads[f].Delivered? && !pc.Delivered?
    ensures GroupSound(group, loadKey, loads[f := pc])
  {
  }

  /** What `StoreStep` needs of the invariant. */
  lemma StoreFits(s: State, f: LoadId)
    requires Invariant(s) && f in s.loads && s.loads[f].Storing?
    ensures f in s.loadKey
    ensures var key := s.loadKey[f];
      && (key in s.remembered ==> s.kind.Shared?)
      && (Hit(s.kind, s.cache, key) ==> key in s.remembered && key in s.stored && |s.stored[key]| == 1)
      && (s.kind.Keyed? ==> key !in s.cache)
  {
    assert Outstanding(s.loads[f]);
    hide GroupSound, ResultsSound, ReadersSound, CountSound;
  }

  lemma ResultStored(s: State, f: LoadId, value: Value)
    requires f in s.loadKey && f in s.loads
    requires ResultsSound(s.loadKey, s.loads, Put(s, s.loadKey[f], value).stored)
    ensures ResultsSound(s.loadKey, s.loads[f := Finishing(Ok(value))], Put(s, s.loadKey[f], value).stored)
  {
    assert value in Put(s, s.loadKey[f], value).stored[s.loadKey[f]];
  }

  lemma StoreStep(s: State, a: Action)
    requires Invariant(s) && Enabled(s, a) && a.Store?
    ensures Invariant(Do(s, a))
  {
    var key, value := s.loadKey[a.f], s.loads[a.f].value;
    StoreFits(s, a.f);
    hide GroupSound, FetchSound, CacheSound, ReadersSound, CountSound, ResultsSound, Hit, Stored;
    GroupMoves(s.group, s.loadKey, s.loads, a.f, Finishing(Ok(value)));
    FetchStored(s, a.f, value);
    HistoryGrows(s, key, value);
    CachePut(s, key, value, false);
    CountPut(s, key, value);
    ResultStored(s, a.f, value);
  }

  lemma RememberStep(s: State, a: Action)
    requires Invariant(s) && Enabled(s, a) && a.Remember?
    ensures Invariant(Do(s, a))
  {
    if !s.closed && a.key !in s.cache {
      HistoryGrows(s, a.key, a.value);
      CachePut(s, a.key, a.value, true);
      CountPut(s, a.key, a.value);
      var s1 := Put(s, a.key, a.value);
      hide CacheSound, GroupSound, ReadersSound, ResultsSound, CountSound, History;
      assert FetchSound(s.kind, s1.cache, s.loadKey, s.loads, s1.stored, s.remembered + {a.key});
      hide FetchSound;
    }
  }

  lemma InvariantKept(s: State, a: Action)
    requires Invariant(s) && Enabled(s, a)
    ensures Invariant(Do(s, a))
  {
    if a.Close? {
      hide GroupSound, CacheSound, FetchSound, ResultsSound, ReadersSound;
    } else {
      hide *;
      match a
      case Arrive(_, _) => ReaderStep(s, a);
      case RequireOpen(_) => ReaderStep(s, a);
      case CheckCache(_) => ReaderStep(s, a);
      case Cancel(_) => ReaderStep(s, a);
      case Join(_, _) => WaitingStep(s, a);
      case Receive(_) => WaitingStep(s, a);
      case Look(_) => LoadStep(s, a);
      case Fetch(_, _) => LoadStep(s, a);
      case FetchFails(_) => LoadStep(s, a);
      case Store(_) => StoreStep(s, a);
      case Finish(_) => FinishStep(s, a);
      case Remember(_, _) => RememberStep(s, a);
    }
  }

  lemma {:induction false} ReachableInvariant(s: State, run: seq<Action>)
    requires Reachable(s, run)
    ensures Invariant(s)
    decreases |run|
  {
    if run != [] {
      var last, front := run[|run| - 1], run[..|run| - 1];
      var before :| Reachable(before, front) && Step(before, last, s);
      hide Invariant, Do, Enabled;
      ReachableInvariant(before, front);
      InvariantKept(before, last);
    }
  }

  // ----- what holds in every reachable state -----

  /** Kept in a map or behind a reference, an inventory is loaded at most once per key, and the
      statistic counts the keys that are cached. */
  lemma LoadedOnce(s: State, run: seq<Action>, k: string)
    requires Reachable(s, run) && s.kind.Keyed?
    ensures k in s.cache <==> Stored(s, k) != []
    ensures k in s.cache ==> Stored(s, k) == [s.cache[k]]
    ensures s.loadCount == |s.cache|
  {
    ReachableInvariant(s, run);
    hide GroupSound, FetchSound, ResultsSound, ReadersSound, Reachable;
    if k in s.stored {
      assert Latest(s.kind, s.stored[k], k in s.remembered, s.cache[k]);
    }
  }

  /** And every reader gets the one value that was loaded for its key. */
  lemma ReadersGetTheLoadedValue(s: State, run: seq<Action>, t: ReaderId)
    requires Reachable(s, run) && s.kind.Keyed?
    requires t in s.readers && s.readers[t].pc.Returned?
    ensures s.readers[t].key in s.cache && s.readers[t].pc.value == s.cache[s.readers[t].key]
  {
    ReachableInvariant(s, run);
    LoadedOnce(s, run, s.readers[t].key);
    hide GroupSound, FetchSound, ResultsSound, CacheSound, Reachable;
    assert s.readers[t].pc.value in Stored(s, s.readers[t].key);
  }

  /** Kept in a slice, every value that was loaded for a key, except the last, was empty: so a
      non-empty inventory is loaded once, and what readers get is empty or the cached value. */
  lemma OnlyEmptyIsReplaced(s: State, run: seq<Action>, k: string)
    requires Reachable(s, run) && s.kind.Slice?
    ensures forall i :: 0 <= i < |Stored(s, k)| - 1 ==> Stored(s, k)[i].Empty?
    ensures Stored(s, k) != [] ==> k in s.cache && s.cache[k] == Stored(s, k)[|Stored(s, k)| - 1]
    ensures forall t :: t in s.readers && s.readers[t].pc.Returned? && s.readers[t].key == k && !s.readers[t].pc.value.Empty? ==>
              k in s.cache && s.readers[t].pc.value == s.cache[k]
  {
    ReachableInvariant(s, run);
    hide GroupSound, FetchSound, ResultsSound, Reachable;
  }

  /** A status may be stored by a load and by rememberReplicaSetInventory, once each; what the cache
      holds and what readers get are values stored for the key. */
  lemma SharedHoldsStoredValues(s: State, run: seq<Action>, k: string)
    requires Reachable(s, run) && s.kind.Shared?
    ensures |Stored(s, k)| <= if k in s.remembered then 2 else 1
    ensures k in s.cache ==> s.cache[k] in Stored(s, k)
    ensures forall t :: t in s.readers && s.readers[t].pc.Returned? && s.readers[t].key == k ==> s.readers[t].pc.value in Stored(s, k)
  {
    ReachableInvariant(s, run);
    hide GroupSound, FetchSound, ResultsSound, Reachable;
    if k in s.stored {
      assert Latest(s.kind, s.stored[k], k in s.remembered, s.cache[k]);
    }
  }

  // ----- what a run tells -----

  /** The session and its readers are as the run says. */
  ghost predicate Told(s: State, run: seq<Action>) {
    && (s.closed <==> Close in run)
    && (forall t :: t in s.readers ==> Arrive(t, s.readers[t].key) in run)
    && (forall t, k :: Arrive(t, k) in run ==> t in s.readers && s.readers[t].key == k)
  }

  lemma ToldKept(s: State, run: seq<Action>, a: Action)
    requires Enabled(s, a) && Told(s, run)
    ensures Told(Do(s, a), run + [a])
  {
    assert forall x :: x in run + [a] <==> x in run || x == a;
    assert KeepsKeys(s, a, Do(s, a));
    hide Do;
  }

  lemma {:induction false} RunTells(s: State, run: seq<Action>)
    requires Reachable(s, run)
    ensures Told(s, run)
    decreases |run|
  {
    if run == [] {
      NothingTold(s);
    } else {
      hide *;
      var before := LastStep(s, run);
      RunTells(before, run[..|run| - 1]);
      ToldKept(before, run[..|run| - 1], run[|run| - 1]);
    }
  }

  lemma NothingTold(s: State)
    requires Reachable(s, [])
    ensures Told(s, []) && AnswersTold(s, [])
  {
  }

  lemma LastStep(s: State, run: seq<Action>) returns (before: State)
    requires Reachable(s, run) && run != []
    ensures var front, last := run[..|run| - 1], run[|run| - 1];
      Reachable(before, front) && Enabled(before, last) && s == Do(before, last) && run == front + [last]
  {
    hide Do, Enabled;
    before :| Reachable(before, run[..|run| - 1]) && Step(before, run[|run| - 1], s);
    hide Reachable;
  }

  /** The value was fetched for the key, or remembered. */
  ghost predicate WasAnswered(loadKey: map<LoadId, string>, run: seq<Action>, k: string, v: Value) {
    Remember(k, v) in run || exists f :: f in loadKey && loadKey[f] == k && Fetch(f, v) in run
  }

  ghost predicate AnswersTold(s: State, run: seq<Action>) {
    && s.loadKey.Keys == s.loads.Keys
    && (forall f :: f in s.loads && s.loads[f].Storing? ==> Fetch(f, s.loads[f].value) in run)
    && (forall k, v :: k in s.stored && v in s.stored[k] ==> WasAnswered(s.loadKey, run, k, v))
  }

  lemma AnswersStay(loadKey: map<LoadId, string>, now: map<LoadId, string>, run: seq<Action>, a: Action, k: string, v: Value)
    requires WasAnswered(loadKey, run, k, v) && forall f :: f in loadKey ==> f in now && now[f] == loadKey[f]
    ensures WasAnswered(now, run + [a], k, v)
  {
    assert forall x :: x in run ==> x in run + [a];
  }

  lemma AnswersKept(s: State, run: seq<Action>, a: Action)
    requires Enabled(s, a) && AnswersTold(s, run)
    ensures AnswersTold(Do(s, a), run + [a])
  {
    var r := Do(s, a);
    LoadsKept(s, a);
    assert forall x :: x in run + [a] <==> x in run || x == a;
    hide Do;
    forall k, v | k in r.stored && v in r.stored[k]
      ensures WasAnswered(r.loadKey, run + [a], k, v)
    {
      if k in s.stored && v in s.stored[k] { AnswersStay(s.loadKey, r.loadKey, run, a, k, v); }
    }
  }

  /** Only a load that has fetched a value stores one, and it stores that value for its key. */
  lemma LoadsKept(s: State, a: Action)
    requires Enabled(s, a) && s.loadKey.Keys == s.loads.Keys
    ensures var r := Do(s, a);
      && r.loadKey.Keys == r.loads.Keys && (forall f :: f in s.loadKey ==> f in r.loadKey && r.loadKey[f] == s.loadKey[f])
      && (forall f :: f in r.loads && r.loads[f].Storing? ==> a == Fetch(f, r.loads[f].value) || (f in s.loads && s.loads[f] == r.loads[f]))
      && (forall k, v :: k in r.stored && v in r.stored[k] ==>
            || (k in s.stored && v in s.stored[k]) || a == Remember(k, v)
            || (a.Store? && a.f in s.loads && s.loads[a.f] == Storing(v) && s.loadKey[a.f] == k))
  {
    if a.Store? || a.Remember? {
      StoresKept(s, a);
    } else {
      OnlyStoresStore(s, a);
      LoadsMove(s, a);
      hide Do;
    }
  }

  lemma LoadsMove(s: State, a: Action)
    requires Enabled(s, a) && s.loadKey.Keys == s.loads.Keys && !a.Store? && !a.Remember?
    ensures var r := Do(s, a);
      && r.loadKey.Keys == r.loads.Keys && (forall f :: f in s.loadKey ==> f in r.loadKey && r.loadKey[f] == s.loadKey[f])
      && (forall f :: f in r.loads && r.loads[f].Storing? ==> a == Fetch(f, r.loads[f].value) || (f in s.loads && s.loads[f] == r.loads[f]))
  {
    hide Hit, Put;
  }

  lemma StoresKept(s: State, a: Action)
    requires Enabled(s, a) && s.loadKey.Keys == s.loads.Keys && (a.Store? || a.Remember?)
    ensures var r := Do(s, a);
      && r.loadKey == s.loadKey && r.loads.Keys == s.loads.Keys
      && (forall f :: f in r.loads && r.loads[f].Storing? ==> r.loads[f] == s.loads[f])
      && (forall k, v :: k in r.stored && v in r.stored[k] ==>
            || (k in s.stored && v in s.stored[k]) || a == Remember(k, v)
            || (a.Store? && a.f in s.loads && s.loads[a.f] == Storing(v) && s.loadKey[a.f] == k))
  {
  }

  /** What is stored, and so what readers get, is what the server answered for the key, or was remembered. */
  lemma {:induction false} StoredWasAnswered(s: State, run: seq<Action>)
    requires Reachable(s, run)
    ensures AnswersTold(s, run)
    decreases |run|
  {
    if run == [] {
      NothingTold(s);
    } else {
      hide *;
      var before := LastStep(s, run);
      StoredWasAnswered(before, run[..|run| - 1]);
      AnswersKept(before, run[..|run| - 1], run[|run| - 1]);
    }
  }

  /** The states that a run leads to. */
  ghost predicate Leads(s: State, more: seq<Action>, s': State)
    decreases |more|
  {
    if more == [] then s' == s else Enabled(s, more[0]) && Leads(Do(s, more[0]), more[1..], s')
  }

  /** Once the session is closed nobody gets past the door, and nothing is remembered. */
  lemma {:induction false} ClosedAdmitsNobody(s: State, more: seq<Action>, s': State, t: ReaderId)
    requires s.closed && Leads(s, more, s')
    requires t in s.readers ==> s.readers[t].pc.Start? || s.readers[t].pc.Failed?
    ensures s'.closed && s'.remembered == s.remembered
    ensures t in s'.readers ==> s'.readers[t].pc.Start? || s'.readers[t].pc.Failed?
    decreases |more|
  {
    if more != [] {
      ClosedStep(s, more[0], t);
      hide Do;
      ClosedAdmitsNobody(Do(s, more[0]), more[1..], s', t);
    }
  }

  lemma ClosedStep(s: State, a: Action, t: ReaderId)
    requires s.closed && Enabled(s, a)
    requires t in s.readers ==> s.readers[t].pc.Start? || s.readers[t].pc.Failed?
    ensures Do(s, a).closed && Do(s, a).remembered == s.remembered
    ensures t in Do(s, a).readers ==> Do(s, a).readers[t].pc.Start? || Do(s, a).readers[t].pc.Failed?
  {
    hide Stored, Hit;
  }

  ghost predicate NoErrors(loads: map<LoadId, LoadPc>) {
    forall f :: f in loads && Ended(loads[f]) ==> loads[f].result.Ok?
  }

  /** A reader comes away with nothing only if a load failed, its context ended, or the session was closed. */
  lemma {:induction false} NothingFailsUnprovoked(s: State, more: seq<Action>, s': State, t: ReaderId)
    requires Leads(s, more, s') && !s'.closed && NoErrors(s.loads)
    requires (forall a :: a in more ==> !a.FetchFails?) && Cancel(t) !in more
    requires t in s.readers ==> !s.readers[t].pc.Failed?
    ensures !s.closed && NoErrors(s'.loads) && (t in s'.readers ==> !s'.readers[t].pc.Failed?)
    decreases |more|
  {
    if more != [] {
      var a := more[0];
      assert a != Cancel(t);
      StaysClosed(s, more, s');
      UnprovokedStep(s, a, t);
      hide Do;
      NothingFailsUnprovoked(Do(s, a), more[1..], s', t);
    }
  }

  lemma UnprovokedStep(s: State, a: Action, t: ReaderId)
    requires Enabled(s, a) && !s.closed && NoErrors(s.loads) && !a.FetchFails? && a != Cancel(t)
    requires t in s.readers ==> !s.readers[t].pc.Failed?
    ensures NoErrors(Do(s, a).loads) && (t in Do(s, a).readers ==> !Do(s, a).readers[t].pc.Failed?)
  {
    hide Stored, Hit;
    if a.Store? { StoreEnds(s, a); }
  }

  lemma StoreEnds(s: State, a: Action)
    requires Enabled(s, a) && a.Store?
    ensures Do(s, a).loads == s.loads[a.f := Finishing(Ok(s.loads[a.f].value))] && Do(s, a).readers == s.readers
  {
  }

  lemma {:induction false} StaysClosed(s: State, more: seq<Action>, s': State)
    requires Leads(s, more, s')
    ensures s.closed ==> s'.closed
    decreases |more|
  {
    if more != [] {
      hide Do;
      StaysClosed(Do(s, more[0]), more[1..], s');
    }
  }

  lemma {:induction false} LeadsOn(s: State, more: seq<Action>, s1: State, rest: seq<Action>, s2: State)
    requires Leads(s, more, s1) && Leads(s1, rest, s2)
    ensures Leads(s, more + rest, s2)
    decreases |more|
  {
    if more == [] {
      assert more + rest == rest;
    } else {
      LeadsOn(Do(s, more[0]), more[1..], s1, rest, s2);
      assert (more + rest)[1..] == more[1..] + rest;
    }
  }

  lemma LeadsFirst(s: State, a: Action, more: seq<Action>, s': State)
    requires Enabled(s, a) && Leads(Do(s, a), more, s')
    ensures Leads(s, [a] + more, s')
  {
    assert ([a] + more)[1..] == more;
    hide Do;
  }

  ghost function LoadRank(pc: LoadPc): nat {
    match pc case Looking => 4 case Fetching => 3 case Storing(_) => 2 case Finishing(_) => 1 case Delivered(_) => 0
  }

  /** What a load does next, when the server answers with `value`. */
  ghost function LoadStepOf(pc: LoadPc, f: LoadId, value: Value): Action {
    match pc case Looking => Look(f) case Fetching => Fetch(f, value) case Storing(_) => Store(f) case _ => Finish(f)
  }

  ghost predicate GoesOn(s: State, f: LoadId, a: Action) {
    && f in s.loads && Enabled(s, a) && Do(s, a).readers == s.readers && Do(s, a).loadKey == s.loadKey
    && f in Do(s, a).loads && LoadRank(Do(s, a).loads[f]) < LoadRank(s.loads[f])
  }

  lemma LooksOn(s: State, f: LoadId)
    requires f in s.loads && f in s.loadKey && s.loads[f].Looking?
    ensures GoesOn(s, f, Look(f))
  {
    hide Hit, Put;
  }

  lemma FetchesOn(s: State, f: LoadId, value: Value)
    requires f in s.loads && s.loads[f].Fetching?
    ensures GoesOn(s, f, Fetch(f, value))
  {
    hide Put;
  }

  lemma StoresOn(s: State, f: LoadId)
    requires f in s.loads && f in s.loadKey && s.loads[f].Storing?
    ensures GoesOn(s, f, Store(f))
  {
    hide Stored;
  }

  lemma FinishesOn(s: State, f: LoadId)
    requires f in s.loads && f in s.loadKey && s.loads[f].Finishing?
    ensures GoesOn(s, f, Finish(f))
  {
    hide Put;
  }

  lemma LoadGoesOn(s: State, f: LoadId, value: Value)
    requires f in s.loads && f in s.loadKey && !s.loads[f].Delivered?
    ensures GoesOn(s, f, LoadStepOf(s.loads[f], f, value))
  {
    hide GoesOn;
    match s.loads[f]
    case Looking => LooksOn(s, f);
    case Fetching => FetchesOn(s, f, value);
    case Storing(_) => StoresOn(s, f);
    case Finishing(_) => FinishesOn(s, f);
  }

  /** A load comes to its end by its own steps, whatever anyone else does or does not do. */
  lemma {:induction false} LoadDelivers(s: State, f: LoadId, value: Value) returns (more: seq<Action>, s': State)
    requires f in s.loads && f in s.loadKey
    ensures Leads(s, more, s') && s'.readers == s.readers && f in s'.loads && s'.loads[f].Delivered?
    ensures forall a :: a in more ==> a.Look? || a.Fetch? || a.Store? || a.Finish?
    decreases LoadRank(s.loads[f])
  {
    if s.loads[f].Delivered? {
      more, s' := [], s;
    } else {
      var a := LoadStepOf(s.loads[f], f, value);
      LoadGoesOn(s, f, value);
      hide Do, Enabled;
      var rest;
      rest, s' := LoadDelivers(Do(s, a), f, value);
      LeadsFirst(s, a, rest, s');
      more := [a] + rest;
    }
  }

  ghost function ReaderRank(pc: ReaderPc): nat {
    match pc case Start => 3 case Checking => 2 case Joining => 1 case _ => 0
  }

  lemma ReaderGoesOn(s: State, t: ReaderId, newLoad: LoadId)
    requires t in s.readers && newLoad !in s.loads && ReaderRank(s.readers[t].pc) > 0
    ensures var pc := s.readers[t].pc;
      var a := if pc.Start? then RequireOpen(t) else if pc.Checking? then CheckCache(t) else Join(t, newLoad);
      && Enabled(s, a) && t in Do(s, a).readers && ReaderRank(Do(s, a).readers[t].pc) < ReaderRank(pc)
  {
    hide Hit;
  }

  /** Every reader can be brought to its return without a cancellation; if the session is open and no load has
      failed it returns with an inventory, by `NothingFailsUnprovoked`. */
  lemma {:induction false} ReaderReturns(s: State, t: ReaderId, value: Value) returns (more: seq<Action>, s': State)
    requires Invariant(s) && t in s.readers
    ensures Leads(s, more, s') && t in s'.readers && (s'.readers[t].pc.Returned? || s'.readers[t].pc.Failed?)
    ensures forall a :: a in more ==> !a.Cancel? && !a.Close? && !a.FetchFails? && !a.Remember? && !a.Arrive?
    decreases ReaderRank(s.readers[t].pc)
  {
    hide Do, Enabled, Invariant, Leads;
    var pc := s.readers[t].pc;
    if ReaderRank(pc) > 0 {
      var newLoad := Above(s.loads.Keys);
      var a := if pc.Start? then RequireOpen(t) else if pc.Checking? then CheckCache(t) else Join(t, newLoad);
      ReaderGoesOn(s, t, newLoad);
      InvariantKept(s, a);
      var rest;
      rest, s' := ReaderReturns(Do(s, a), t, value);
      LeadsFirst(s, a, rest, s');
      more := [a] + rest;
    } else if pc.Waiting? {
      WaitsForALoad(s, t);
      var first, s1 := LoadDelivers(s, pc.load, value);
      CanReceive(s1, t);
      s' := Receives(s1, t);
      LeadsOn(s, first, s1, [Receive(t)], s');
      more := first + [Receive(t)];
    } else {
      more, s' := [], s;
      LeadsNowhere(s);
    }
  }

  lemma LeadsNowhere(s: State)
    ensures Leads(s, [], s)
  {
  }

  lemma CanReceive(s: State, t: ReaderId)
    requires t in s.readers && s.readers[t].pc.Waiting? && s.readers[t].pc.load in s.loads && s.loads[s.readers[t].pc.load].Delivered?
    ensures Enabled(s, Receive(t))
  {
  }

  lemma WaitsForALoad(s: State, t: ReaderId)
    requires Invariant(s) && t in s.readers && s.readers[t].pc.Waiting?
    ensures s.readers[t].pc.load in s.loads && s.readers[t].pc.load in s.loadKey
  {
    hide CacheSound, FetchSound, ResultsSound;
  }

  lemma Receives(s: State, t: ReaderId) returns (s': State)
    requires Enabled(s, Receive(t))
    ensures Leads(s, [Receive(t)], s') && t in s'.readers && (s'.readers[t].pc.Returned? || s'.readers[t].pc.Failed?)
  {
    s' := Do(s, Receive(t));
    assert Leads(s', [], s');
    LeadsFirst(s, Receive(t), [], s');
    assert [Receive(t)] + [] == [Receive(t)];
  }

  /** A reader of an inventory that is there is answered at once: it joins no load, and starts none. */
  lemma FoundIsAnswered(s: State, t: ReaderId, k: string) returns (s': State)
    requires !s.closed && t !in s.readers && Hit(s.kind, s.cache, k)
    ensures Leads(s, [Arrive(t, k), RequireOpen(t), CheckCache(t)], s')
    ensures s' == s.(readers := s.readers[t := Reader(k, Returned(s.cache[k]))])
  {
    assert k in s.cache;
    hide Hit;
    var s1 := Do(s, Arrive(t, k));
    var s2 := Do(s1, RequireOpen(t));
    s' := Do(s2, CheckCache(t));
    assert s1.readers[t] == Reader(k, Start) && s2.readers[t] == Reader(k, Checking);
    assert s'.readers == s.readers[t := Reader(k, Returned(s.cache[k]))];
    assert Leads(s', [], s') && Leads(s2, [CheckCache(t)], s');
    assert Leads(s1, [RequireOpen(t), CheckCache(t)], s');
  }

  /** A status seen elsewhere is remembered exactly if the session is open and knows none. */
  lemma RememberedExactly(s: State, key: string, value: Value)
    requires s.kind.Shared?
    ensures var r := Do(s, Remember(key, value));
      if !s.closed && key !in s.cache then Hit(r.kind, r.cache, key) && r.cache == s.cache[key := value] && r.remembered == s.remembered + {key}
      else r == s
  {
  }

  // ----- a value that is found stays -----

  lemma OnlyStoresStore(s: State, a: Action)
    requires Enabled(s, a) && !a.Store? && !a.Remember?
    ensures Do(s, a).cache == s.cache && Do(s, a).stored == s.stored
  {
    hide Put;
    if a.Join? || a.CheckCache? || a.RequireOpen? || a.Receive? { ReadersStoreNothing(s, a); }
  }

  lemma ReadersStoreNothing(s: State, a: Action)
    requires Enabled(s, a) && (a.Join? || a.CheckCache? || a.RequireOpen? || a.Receive?)
    ensures Do(s, a).cache == s.cache && Do(s, a).stored == s.stored
  {
    hide Put, Hit;
  }

  /** In a map or a slice, what a look at the cache finds is found by every later look, and nothing
      is loaded for that key again. (In the shared map a load that was out may still replace it.) */
  lemma FoundStays(s: State, run: seq<Action>, a: Action, k: string)
    requires Reachable(s, run) && Enabled(s, a) && !s.kind.Shared? && Hit(s.kind, s.cache, k)
    ensures k in s.cache
    ensures var s' := Do(s, a); Hit(s.kind, s'.cache, k) && k in s'.cache && s'.cache[k] == s.cache[k] && Stored(s', k) == Stored(s, k)
  {
    hide *;
    ReachableInvariant(s, run);
    if a.Store? {
      StoresForOthers(s, a, k);
      StoresElsewhere(s, a, k);
    } else {
      NeverShared(s, a);
      OnlyStoresStore(s, a);
      SameCache(s, Do(s, a), k);
    }
  }

  lemma NeverShared(s: State, a: Action)
    requires Enabled(s, a) && !s.kind.Shared?
    ensures !a.Remember? && Do(s, a).kind == s.kind
  {
    hide Do;
  }

  lemma SameCache(s: State, r: State, k: string)
    requires r.kind == s.kind && r.cache == s.cache && r.stored == s.stored && Hit(s.kind, s.cache, k)
    ensures Hit(r.kind, r.cache, k) && k in r.cache && r.cache[k] == s.cache[k] && Stored(r, k) == Stored(s, k)
  {
  }

  lemma StoresForOthers(s: State, a: Action, k: string)
    requires Invariant(s) && Enabled(s, a) && a.Store? && !s.kind.Shared? && Hit(s.kind, s.cache, k)
    ensures a.f in s.loadKey && s.loadKey[a.f] != k
  {
    assert Outstanding(s.loads[a.f]);
    hide GroupSound, ResultsSound, ReadersSound;
  }

  lemma StoresElsewhere(s: State, a: Action, k: string)
    requires Enabled(s, a) && a.Store? && a.f in s.loadKey && s.loadKey[a.f] != k && Hit(s.kind, s.cache, k)
    ensures k in s.cache
    ensures var s' := Do(s, a); Hit(s.kind, s'.cache, k) && k in s'.cache && s'.cache[k] == s.cache[k] && Stored(s', k) == Stored(s, k)
  {
  }

  // ----- an empty slice is loaded again -----

  lemma Extend(s: State, run: seq<Action>, a: Action)
    requires Reachable(s, run) && Enabled(s, a)
    ensures Reachable(Do(s, a), run + [a])
  {
    var all := run + [a];
    assert all[..|all| - 1] == run && all[|all| - 1] == a;
    assert Step(s, a, Do(s, a));
  }

  /** A new reader of a key that is not found, and that no load is out for, starts one. */
  lemma ReaderStartsLoad(s: State, run: seq<Action>, t: ReaderId, f: LoadId, k: string) returns (s': State, run': seq<Action>)
    requires Reachable(s, run) && !s.closed && !Hit(s.kind, s.cache, k)
    requires k !in s.group && t !in s.readers && f !in s.loads
    ensures Reachable(s', run') && s'.kind == s.kind && s'.cache == s.cache && s'.stored == s.stored
    ensures f in s'.loads && s'.loads[f].Looking? && f in s'.loadKey && s'.loadKey[f] == k
  {
    hide Reachable, Hit;
    Extend(s, run, Arrive(t, k));
    s', run' := Do(s, Arrive(t, k)), run + [Arrive(t, k)];
    Extend(s', run', RequireOpen(t));
    s', run' := Do(s', RequireOpen(t)), run' + [RequireOpen(t)];
    assert s'.readers[t] == Reader(k, Checking);
    Extend(s', run', CheckCache(t));
    s', run' := Do(s', CheckCache(t)), run' + [CheckCache(t)];
    assert s'.readers[t] == Reader(k, Joining);
    Extend(s', run', Join(t, f));
    s', run' := Do(s', Join(t, f)), run' + [Join(t, f)];
  }

  lemma LoadStores(s: State, run: seq<Action>, f: LoadId, k: string, value: Value) returns (s': State, run': seq<Action>)
    requires Reachable(s, run) && f in s.loads && s.loads[f].Looking? && f in s.loadKey && s.loadKey[f] == k
    requires !Hit(s.kind, s.cache, k)
    ensures Reachable(s', run') && Stored(s', k) == Stored(s, k) + [value]
  {
    hide Reachable, Hit;
    Extend(s, run, Look(f));
    s', run' := Do(s, Look(f)), run + [Look(f)];
    assert s'.loads[f] == Fetching;
    Extend(s', run', Fetch(f, value));
    s', run' := Do(s', Fetch(f, value)), run' + [Fetch(f, value)];
    assert s'.loads[f] == Storing(value);
    Extend(s', run', Store(f));
    s', run' := Do(s', Store(f)), run' + [Store(f)];
  }

  /** The converse of `FoundStays`: as long as the session is open, what a look does not find can be
      loaded, and then it is loaded again if it was loaded before, as an empty slice is. */
  lemma NotFoundIsLoaded(s: State, run: seq<Action>, k: string, value: Value) returns (s': State, run': seq<Action>)
    requires Reachable(s, run) && !s.closed && !Hit(s.kind, s.cache, k) && k !in s.group
    ensures Reachable(s', run') && Stored(s', k) == Stored(s, k) + [value]
  {
    var t := Above(s.readers.Keys);
    var f := Above(s.loads.Keys);
    s', run' := ReaderStartsLoad(s, run, t, f, k);
    var s1 := s';
    hide *;
    s', run' := LoadStores(s1, run', f, k, value);
    assert Stored(s1, k) == Stored(s, k) by { StoredSame(s1, s, k); }
  }

  lemma StoredSame(s: State, s': State, k: string)
    requires s.stored == s'.stored
    ensures Stored(s, k) == Stored(s', k)
  {
  }

  lemma {:induction false} Above(ids: set<nat>) returns (n: nat)
    ensures forall x :: x in ids ==> x < n
  {
    if ids == {} {
      n := 0;
    } else {
      var x :| x in ids;
      var rest := ids - {x};
      var m := Above(rest);
      n := m + x + 1;
      assert forall y :: y in ids ==> y == x || y in rest;
    }
  }
}
