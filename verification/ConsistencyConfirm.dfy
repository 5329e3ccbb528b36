/** `confirmLegacyDifferences`: a candidate difference is only believed after every compared shard
    has been read a second time. */
module ConsistencyConfirm {
  import opened ConsistencyModel
  import opened ConsistencyCompare
  import opened ConsistencyCandidates
  import opened ConsistencyEvaluate
  import opened ConsistencyExactness
  import opened ConsistencyVerdict
  import opened ConsistencySource

  // ----- reading the log -----

  ghost predicate Asks(e: Event) { !e.Checked? }

  /** `before` is extended by `events`. */
  ghost predicate Extends(now: seq<Event>, before: seq<Event>, events: seq<Event>) {
    now == before + events
  }

  /** A cancellation has been noticed, earlier or during `events`. */
  ghost predicate Noticed(seen: bool, events: seq<Event>) {
    seen || Checked(true) in events
  }

  /** Nothing is asked once a cancellation has been noticed. */
  ghost predicate Disciplined(seen: bool, events: seq<Event>) {
    forall j :: 0 <= j < |events| && Asks(events[j]) ==> !Noticed(seen, events[..j])
  }

  lemma DisciplinedAppend(seen: bool, a: seq<Event>, b: seq<Event>)
    requires Disciplined(seen, a) && Disciplined(Noticed(seen, a), b)
    ensures Disciplined(seen, a + b)
    ensures Noticed(seen, a + b) == Noticed(Noticed(seen, a), b)
  {
    var c := a + b;
    forall j | 0 <= j < |c| && Asks(c[j])
      ensures !Noticed(seen, c[..j])
    {
      if j < |a| {
        assert c[..j] == a[..j];
      } else {
        assert c[..j] == a + b[..j - |a|];
      }
    }
  }

  /** The last answer of each shard. */
  ghost function Answers(events: seq<Event>): Observations {
    if events == [] then map[]
    else
      var e, rest := events[|events| - 1], Answers(events[..|events| - 1]);
      if e.AskedDirect? && e.definitions.Ok? then rest[e.shard := e.definitions.value] else rest
  }

  lemma AnswersAppend(events: seq<Event>, e: Event)
    ensures Answers(events + [e]) ==
      if e.AskedDirect? && e.definitions.Ok? then Answers(events)[e.shard := e.definitions.value] else Answers(events)
  {
    assert (events + [e])[..|events|] == events;
  }

  // ----- marking -----

  ghost function Mark(ds: seq<Definition>, builds: set<string>): (r: seq<Definition>)
    ensures |r| == |ds|
  {
    seq(|ds|, i requires 0 <= i < |ds| => if ds[i].name in builds then ds[i].(building := true) else ds[i])
  }

  ghost function MarkAll(obs: Observations, builds: seq<string>): Observations {
    map s | s in obs :: Mark(obs[s], set b | b in builds)
  }

  /** `markBuildingDefinitions`. */
  method MarkBuildingDefinitions(obs: Observations, builds: seq<string>) returns (r: Observations)
    ensures r == MarkAll(obs, builds)
  {
    var buildSet := set b | b in builds;
    r := obs;
    var todo := obs.Keys;
    while todo != {}
      invariant todo <= obs.Keys && r.Keys == obs.Keys
      invariant forall s :: s in obs ==> r[s] == if s in todo then obs[s] else Mark(obs[s], buildSet)
      decreases todo
    {
      var s :| s in todo;
      var ds := obs[s];
      for i := 0 to |ds|
        invariant |ds| == |obs[s]|
        invariant forall j :: 0 <= j < |ds| ==> ds[j] == if j < i then Mark(obs[s], buildSet)[j] else obs[s][j]
      {
        if ds[i].name in buildSet { ds := ds[i := ds[i].(building := true)]; }
      }
      r := r[s := ds];
      todo := todo - {s};
    }
  }

  // ----- direct reads -----

  datatype Selection = All | Only(shards: set<string>)

  ghost predicate Wanted(only: Selection, shard: string) {
    only.All? || shard in only.shards
  }

  /** The shards that are to be read, in order. */
  ghost function WantedOf(expected: seq<string>, only: Selection): seq<string> {
    if expected == [] then []
    else
      var shard, rest := expected[|expected| - 1], WantedOf(expected[..|expected| - 1], only);
      if Wanted(only, shard) then rest + [shard] else rest
  }

  /** Each shard is read after a look at the context that found it alive. */
  ghost predicate Reads(shards: seq<string>, events: seq<Event>) {
    && |events| == 2 * |shards|
    && forall j :: 0 <= j < |shards| ==>
         events[2 * j] == Checked(false) && events[2 * j + 1].AskedDirect? && events[2 * j + 1].shard == shards[j]
  }

  /** The shards are read in turn, whatever the answers are, and all of them unless the context is found
      cancelled on the way. */
  ghost predicate InTurn(shards: seq<string>, events: seq<Event>) {
    var n := |events| / 2;
    && n <= |shards| && Reads(shards[..n], events[..2 * n])
    && if |events| % 2 == 0 then n == |shards| else n < |shards| && events[2 * n] == Checked(true)
  }

  /** The errors that events give rise to. */
  ghost function Problems(events: seq<Event>): seq<Failure> {
    if events == [] then []
    else
      var e, rest := events[|events| - 1], Problems(events[..|events| - 1]);
      if e == Checked(true) then rest + [Timeout]
      else if e.AskedDirect? && e.definitions.Err? then rest + [e.definitions.error] else rest
  }

  lemma ProblemsAppend(events: seq<Event>, e: Event)
    ensures Problems(events + [e]) == Problems(events) +
      if e == Checked(true) then [Timeout] else if e.AskedDirect? && e.definitions.Err? then [e.definitions.error] else []
  {
    assert (events + [e])[..|events|] == events;
  }

  lemma ReadOne(shards: seq<string>, events: seq<Event>, shard: string, reply: Reply<seq<Definition>>)
    requires Reads(shards, events)
    ensures Reads(shards + [shard], events + [Checked(false)] + [AskedDirect(shard, reply)])
  {
  }

  lemma ReadAll(shards: seq<string>, events: seq<Event>)
    requires Reads(shards, events)
    ensures InTurn(shards, events)
  {
    assert shards[..|shards|] == shards && events[..|events|] == events;
  }

  lemma ReadSome(done: seq<string>, shards: seq<string>, events: seq<Event>)
    requires Reads(done, events) && done < shards
    ensures InTurn(shards, events + [Checked(true)])
  {
    assert shards[..|done|] == done && (events + [Checked(true)])[..2 * |done|] == events;
  }

  lemma {:induction false} WantedPrefix(expected: seq<string>, i: nat, only: Selection)
    requires i < |expected| && Wanted(only, expected[i])
    ensures WantedOf(expected[..i], only) < WantedOf(expected, only)
    decreases |expected|
  {
    var init := expected[..|expected| - 1];
    if i < |init| {
      WantedPrefix(init, i, only);
      assert init[..i] == expected[..i];
    } else {
      assert init == expected[..i];
    }
  }

  lemma {:induction false} AllWanted(expected: seq<string>, only: Selection)
    requires forall s :: s in expected ==> Wanted(only, s)
    ensures WantedOf(expected, only) == expected
  {
    if expected != [] {
      AllWanted(expected[..|expected| - 1], only);
      assert expected == expected[..|expected| - 1] + [expected[|expected| - 1]];
    }
  }

  lemma OddIsCancelled(shards: seq<string>, events: seq<Event>)
    requires InTurn(shards, events)
    ensures |events| % 2 == 1 ==> Checked(true) in events
  {
    hide Reads;
  }

  /** So a shard that nobody asks is one behind which the context was found cancelled. */
  lemma EveryShardIsAsked(shards: seq<string>, events: seq<Event>, shard: string)
    requires InTurn(shards, events) && shard in shards && Checked(true) !in events
    ensures exists reply :: AskedDirect(shard, reply) in events
  {
    var j :| 0 <= j < |shards| && shards[j] == shard;
    var n := |events| / 2;
    OddIsCancelled(shards, events);
    assert shards[..n][j] == shard;
    var e := events[..2 * n][2 * j + 1];
    assert e == AskedDirect(shard, e.definitions) && e in events;
  }

  lemma {:induction false} WantedMembers(expected: seq<string>, only: Selection)
    ensures forall s :: s in WantedOf(expected, only) <==> s in expected && Wanted(only, s)
    ensures NoDuplicates(expected) ==> NoDuplicates(WantedOf(expected, only))
  {
    if expected != [] {
      var init, last := expected[..|expected| - 1], expected[|expected| - 1];
      WantedMembers(init, only);
      assert expected == init + [last];
      if NoDuplicates(expected) && Wanted(only, last) {
        assert last !in WantedOf(init, only);
      }
    }
  }

  /** What is answered, and whether everything was, when shards are read in turn. */
  ghost predicate Answered(shards: seq<string>, events: seq<Event>) {
    && (forall s :: s in Answers(events) ==> s in shards)
    && (Problems(events) == [] ==> forall s :: s in shards ==> s in Answers(events))
    && (Problems(events) != [] && NoDuplicates(shards) ==> exists s :: s in shards && s !in Answers(events))
  }

  lemma {:induction false} ReadsAnswer(shards: seq<string>, events: seq<Event>)
    requires Reads(shards, events)
    ensures Answered(shards, events)
  {
    if shards != [] {
      var init, last := shards[..|shards| - 1], shards[|shards| - 1];
      var before := events[..|events| - 2];
      assert Reads(init, before);
      ReadsAnswer(init, before);
      var reply := events[|events| - 1].definitions;
      assert events == before + [Checked(false)] + [AskedDirect(last, reply)];
      AnswersAppend(before, Checked(false));
      AnswersAppend(before + [Checked(false)], AskedDirect(last, reply));
      ProblemsAppend(before, Checked(false));
      ProblemsAppend(before + [Checked(false)], AskedDirect(last, reply));
      hide Answers, Problems, Reads;
      OneMoreAnswered(init, last, before, events, reply);
    }
  }

  lemma OneMoreAnswered(init: seq<string>, last: string, before: seq<Event>, events: seq<Event>, reply: Reply<seq<Definition>>)
    requires Answered(init, before)
    requires Answers(events) == if reply.Ok? then Answers(before)[last := reply.value] else Answers(before)
    requires Problems(events) == Problems(before) + if reply.Err? then [reply.error] else []
    ensures Answered(init + [last], events)
  {
    hide Answers, Problems;
    var shards := init + [last];
    if Problems(events) != [] && NoDuplicates(shards) {
      assert NoDuplicates(init) by { assert forall i :: 0 <= i < |init| ==> init[i] == shards[i]; }
      assert last !in init by { assert shards[|init|] == last && forall i :: 0 <= i < |init| ==> init[i] == shards[i] != shards[|init|]; }
      if Problems(before) != [] {
        var s :| s in init && s !in Answers(before);
        assert s in shards && s !in Answers(events);
      } else {
        assert last in shards && last !in Answers(events);
      }
    }
  }

  lemma TurnAnswers(shards: seq<string>, events: seq<Event>)
    requires InTurn(shards, events)
    ensures Answered(shards, events)
  {
    var n := |events| / 2;
    ReadsAnswer(shards[..n], events[..2 * n]);
    if |events| % 2 == 1 {
      assert events == events[..2 * n] + [Checked(true)];
      AnswersAppend(events[..2 * n], Checked(true));
      ProblemsAppend(events[..2 * n], Checked(true));
      if NoDuplicates(shards) {
        assert shards[n] !in shards[..n];
        assert shards[n] in shards;
      }
    } else {
      assert events == events[..2 * n] && shards == shards[..n];
    }
    hide Answers, Problems, Reads;
  }

  lemma InTurnKinds(shards: seq<string>, events: seq<Event>)
    requires InTurn(shards, events)
    ensures forall e :: e in events ==> e.Checked? || e.AskedDirect?
  {
    var n := |events| / 2;
    forall i | 0 <= i < |events|
      ensures events[i].Checked? || events[i].AskedDirect?
    {
      if i < 2 * n {
        assert events[..2 * n][i] == events[i];
        assert i == 2 * (i / 2) || i == 2 * (i / 2) + 1;
        assert shards[..n][i / 2] == shards[i / 2];
      }
    }
  }

  /** What one turn makes of what was read so far: the read, or the end. */
  ghost predicate Turned(seen: bool, before: seq<Event>, after: seq<Event>, shard: string, stop: bool, reply: Reply<seq<Definition>>) {
    && Disciplined(seen, after) && after == before + (if stop then [Checked(true)] else [Checked(false)] + [AskedDirect(shard, reply)])
    && (if stop then Noticed(seen, after) else Noticed(seen, after) <==> seen)
    && Answers(after) == (if !stop && reply.Ok? then Answers(before)[shard := reply.value] else Answers(before))
    && Problems(after) == Problems(before) + if stop then [Timeout] else if reply.Err? then [reply.error] else []
  }

  /** The turn of one shard. */
  method AskShard(shard: string, source: Source, ghost seen: bool, ghost before: seq<Event>)
    returns (stop: bool, reply: Reply<seq<Definition>>, ghost after: seq<Event>)
    requires (seen ==> source.cancelled) && Disciplined(seen, before) && (Noticed(seen, before) <==> seen)
    modifies source
    ensures (old(source.cancelled) || stop) ==> source.cancelled
    ensures Turned(seen, before, after, shard, stop, reply)
    ensures forall log :: Extends(old(source.log), log, before) ==> Extends(source.log, log, after)
  {
    hide Disciplined, Noticed, Answers, Problems;
    reply := Err(Timeout);
    stop := source.Check();
    Looked(seen, before, stop);
    after := before + [Checked(stop)];
    if !stop {
      reply := source.Direct(shard);
      Asked(after, shard, reply);
      after := after + [AskedDirect(shard, reply)];
      assert before + [Checked(false)] + [AskedDirect(shard, reply)] == before + ([Checked(false)] + [AskedDirect(shard, reply)]);
    }
  }

  /** `collectDirectDefinitions`. */
  method CollectDirect(expected: seq<string>, only: Selection, source: Source, ghost seen: bool)
    returns (result: Observations, errors: seq<Failure>, ghost events: seq<Event>)
    requires seen ==> source.cancelled
    modifies source
    ensures Extends(source.log, old(source.log), events) && Disciplined(seen, events)
    ensures (old(source.cancelled) || Noticed(seen, events)) ==> source.cancelled
    ensures InTurn(WantedOf(expected, only), events)
    ensures result == Answers(events) && errors == Problems(events)
    ensures Answered(WantedOf(expected, only), events)
  {
    hide *;
    result, errors, events := map[], [], [];
    NothingRead(only, seen);
    ExtendsNothing(source.log);
    for i := 0 to |expected|
      invariant Extends(source.log, old(source.log), events) && Disciplined(seen, events)
      invariant old(source.cancelled) || seen ==> source.cancelled
      invariant Noticed(seen, events) <==> seen
      invariant Reads(WantedOf(expected[..i], only), events)
      invariant result == Answers(events) && errors == Problems(events)
    {
      var shard := expected[i];
      WantedStep(expected, i, only);
      WantedIs(only, shard);
      if only.All? || shard in only.shards {
        ghost var before := events;
        var stop, reply;
        stop, reply, events := AskShard(shard, source, seen, events);
        TurnMeans(seen, before, events, shard, stop, reply);
        if stop {
          errors := errors + [Timeout];
          ReadUpTo(expected, i, only, before);
          return;
        }
        ReadOne(WantedOf(expected[..i], only), before, shard, reply);
        if reply.Err? {
          errors := errors + [reply.error];
        } else {
          result := result[shard := reply.value];
        }
      }
    }
    assert expected[..|expected|] == expected;
    ReadAll(WantedOf(expected, only), events);
    TurnAnswers(WantedOf(expected, only), events);
  }

  lemma TurnMeans(seen: bool, before: seq<Event>, after: seq<Event>, shard: string, stop: bool, reply: Reply<seq<Definition>>)
    requires Turned(seen, before, after, shard, stop, reply)
    ensures Disciplined(seen, after) && (if stop then Noticed(seen, after) else Noticed(seen, after) <==> seen)
    ensures if stop then after == before + [Checked(true)] else after == before + [Checked(false)] + [AskedDirect(shard, reply)]
    ensures Answers(after) == if !stop && reply.Ok? then Answers(before)[shard := reply.value] else Answers(before)
    ensures Problems(after) == Problems(before) + if stop then [Timeout] else if reply.Err? then [reply.error] else []
  {
    hide Disciplined, Noticed, Answers, Problems;
    assert before + [Checked(false)] + [AskedDirect(shard, reply)] == before + ([Checked(false)] + [AskedDirect(shard, reply)]);
  }

  lemma WantedIs(only: Selection, shard: string)
    ensures Wanted(only, shard) <==> only.All? || shard in only.shards
  {
  }

  lemma ExtendsNothing(log: seq<Event>)
    ensures Extends(log, log, [])
  {
  }

  lemma NothingRead(only: Selection, seen: bool)
    ensures Reads(WantedOf([], only), []) && Answers([]) == map[] && Problems([]) == []
    ensures Disciplined(seen, []) && (Noticed(seen, []) <==> seen)
  {
  }

  lemma WantedStep(expected: seq<string>, i: nat, only: Selection)
    requires i < |expected|
    ensures WantedOf(expected[..i + 1], only) ==
      if Wanted(only, expected[i]) then WantedOf(expected[..i], only) + [expected[i]] else WantedOf(expected[..i], only)
  {
    assert expected[..i + 1][..i] == expected[..i];
  }

  /** The context was found cancelled when it was the turn of shard `i`. */
  lemma ReadUpTo(expected: seq<string>, i: nat, only: Selection, events: seq<Event>)
    requires i < |expected| && Wanted(only, expected[i]) && Reads(WantedOf(expected[..i], only), events)
    ensures InTurn(WantedOf(expected, only), events + [Checked(true)])
    ensures Answered(WantedOf(expected, only), events + [Checked(true)])
  {
    WantedPrefix(expected, i, only);
    ReadSome(WantedOf(expected[..i], only), WantedOf(expected, only), events);
    hide Reads, InTurn, Answered, WantedOf;
    TurnAnswers(WantedOf(expected, only), events + [Checked(true)]);
  }

  /** A look at the context. */
  lemma Looked(seen: bool, events: seq<Event>, stop: bool)
    requires Disciplined(seen, events)
    ensures Disciplined(seen, events + [Checked(stop)]) && (Noticed(seen, events + [Checked(stop)]) <==> Noticed(seen, events) || stop)
    ensures Answers(events + [Checked(stop)]) == Answers(events)
    ensures Problems(events + [Checked(stop)]) == Problems(events) + if stop then [Timeout] else []
  {
    DisciplinedAppend(seen, events, [Checked(stop)]);
    AnswersAppend(events, Checked(stop));
    ProblemsAppend(events, Checked(stop));
  }

  lemma Asked(events: seq<Event>, shard: string, reply: Reply<seq<Definition>>)
    requires Disciplined(false, events) && !Noticed(false, events)
    ensures Disciplined(false, events + [AskedDirect(shard, reply)]) && !Noticed(false, events + [AskedDirect(shard, reply)])
    ensures Answers(events + [AskedDirect(shard, reply)]) == if reply.Ok? then Answers(events)[shard := reply.value] else Answers(events)
    ensures Problems(events + [AskedDirect(shard, reply)]) == Problems(events) + if reply.Err? then [reply.error] else []
  {
    AskNext(false, events, AskedDirect(shard, reply));
    AnswersAppend(events, AskedDirect(shard, reply));
    ProblemsAppend(events, AskedDirect(shard, reply));
  }

  lemma AskNext(seen: bool, events: seq<Event>, e: Event)
    requires Disciplined(seen, events) && !Noticed(seen, events) && Asks(e)
    ensures Disciplined(seen, events + [e]) && !Noticed(seen, events + [e])
  {
    assert (events + [e])[..|events|] == events;
    forall j | 0 <= j < |events|
      ensures (events + [e])[..j] == events[..j]
    {
    }
  }

  // ----- affected shards -----

  ghost predicate Affects(d: Difference, expected: seq<string>, first: Observations, s: string) {
    s in d.shards || (d.code == MissingOnShard && s in expected && s in first)
  }

  lemma AffectedGrows(expected: seq<string>, first: Observations, ds: seq<Difference>, i: nat, s: string)
    requires i < |ds|
    ensures (exists d :: d in ds[..i + 1] && Affects(d, expected, first, s)) <==>
            ((exists d :: d in ds[..i] && Affects(d, expected, first, s)) || Affects(ds[i], expected, first, s))
  {
    hide Affects;
    assert ds[..i + 1] == ds[..i] + [ds[i]];
    assert ds[i] in ds[..i + 1];
  }

  /** `affectedConsistencyShards`. */
  method AffectedShards(expected: seq<string>, first: Observations, ds: seq<Difference>) returns (result: set<string>)
    ensures forall s :: s in result <==> exists d :: d in ds && Affects(d, expected, first, s)
  {
    result := {};
    for i := 0 to |ds|
      invariant forall s :: s in result <==> exists d :: d in ds[..i] && Affects(d, expected, first, s)
    {
      ghost var before := result;
      result := result + set s | s in ds[i].shards;
      if ds[i].code == MissingOnShard {
        result := result + set s | s in expected && s in first;
      }
      forall s
        ensures s in result <==> exists d :: d in ds[..i + 1] && Affects(d, expected, first, s)
      {
        AffectedGrows(expected, first, ds, i, s);
      }
    }
    assert ds[..|ds|] == ds;
  }

  /** One candidate is enough to have every compared shard read again, so that old and new reads are
      never compared with one another. */
  lemma EveryComparedShardIsAffected(k: Observations, shards: seq<string>, first: Observations, ds: seq<Difference>, s: string)
    requires forall x :: x in shards ==> x in first
    requires ds != [] && forall d :: d in ds ==> d in Candidates(k, shards)
    ensures (exists d :: d in ds && Affects(d, shards, first, s)) <==> s in shards
  {
    hide Candidates, RenamedSemantics, MissingNames, MismatchedNames;
    forall d | d in ds
      ensures Affects(d, shards, first, s) <==> s in shards
    {
      CandidateKinds(k, shards, d);
      AbsentMembers(shards, NameShards(k, d.indexName));
    }
    assert ds[0] in ds;
  }

  // ----- confirmation -----

  /** The second observation: the new reads in place of all that was compared. */
  ghost function SecondOf(expected: seq<string>, builds: seq<string>, first: Observations, events: seq<Event>): Observations {
    (first - set s | s in Compared(expected, first)) + MarkAll(Answers(events), builds)
  }

  /** A second round takes place exactly when two shards can be compared and something differs. It begins
      with a look at the context, and reads every compared shard. */
  ghost predicate Rechecked(expected: seq<string>, builds: seq<string>, first: Observations, second: Reread, events: seq<Event>) {
    if |Compared(expected, first)| < 2 || FirstCandidates(expected, first) == {} then second == NotRead && events == []
    else if events == [Checked(true)] then second == NotRead
    else
      && events != [] && events[0] == Checked(false) && InTurn(Compared(expected, first), events[1..])
      && second == Read(SecondOf(expected, builds, first, events))
  }

  lemma Confirmable(expected: seq<string>, first: Observations, second: Observations)
    ensures (forall s :: s in Compared(expected, first) ==> s in second) ==> CanConfirm(expected, first, Read(second))
    ensures NoDuplicates(expected) && (exists s :: s in Compared(expected, first) && s !in second) ==> !CanConfirm(expected, first, Read(second))
  {
    PresentMembers(expected, first.Keys);
    PresentMembers(Compared(expected, first), second.Keys);
  }

  /** Everything compared is confirmed or contradicted exactly if every read succeeded. */
  lemma RereadConfirms(expected: seq<string>, builds: seq<string>, first: Observations, events: seq<Event>)
    requires Answered(Compared(expected, first), events)
    ensures var second := SecondOf(expected, builds, first, events);
      && (Problems(events) == [] ==> CanConfirm(expected, first, Read(second)))
      && (Problems(events) != [] && NoDuplicates(expected) ==> !CanConfirm(expected, first, Read(second)))
  {
    hide Answers, Problems, Compared, CanConfirm, Mark;
    var second := SecondOf(expected, builds, first, events);
    assert forall s :: s in Compared(expected, first) ==> (s in second <==> s in Answers(events));
    Confirmable(expected, first, second);
    ComparedOnce(expected, first);
  }

  lemma ComparedOnce(expected: seq<string>, first: Observations)
    ensures NoDuplicates(expected) ==> NoDuplicates(Compared(expected, first))
  {
    PresentMembers(expected, first.Keys);
  }

  /** The affected shards are all that are compared. */
  lemma AllAffected(expected: seq<string>, first: Observations, candidates: seq<Difference>, affected: set<string>)
    requires candidates != [] && multiset(candidates) == multiset(FirstCandidates(expected, first))
    requires forall s :: s in affected <==> exists d :: d in candidates && Affects(d, Compared(expected, first), first, s)
    ensures affected == set s | s in Compared(expected, first)
  {
    hide Candidates, KeepAll, BuildingNames, BuildingSemantics, Affects, Compared;
    ComparedIsRead(expected, first);
    SameMembers(candidates, FirstCandidates(expected, first));
    var k := KeepAll(first, BuildingNames(first), BuildingSemantics(first));
    forall s
      ensures s in affected <==> s in Compared(expected, first)
    {
      EveryComparedShardIsAffected(k, Compared(expected, first), first, candidates, s);
    }
  }

  lemma ComparedIsRead(expected: seq<string>, first: Observations)
    ensures forall s :: s in Compared(expected, first) ==> s in first
  {
    PresentMembers(expected, first.Keys);
  }

  method RereadShards(expected: seq<string>, shards: seq<string>, builds: seq<string>, first: Observations,
                      candidates: seq<Difference>, source: Source, ghost seen: bool)
    returns (second: Observations, errors: seq<Failure>, ghost events: seq<Event>)
    requires seen ==> source.cancelled
    requires shards == Compared(expected, first)
    requires candidates != [] && multiset(candidates) == multiset(FirstCandidates(expected, first))
    modifies source
    ensures Extends(source.log, old(source.log), events) && Disciplined(seen, events)
    ensures (old(source.cancelled) || Noticed(seen, events)) ==> source.cancelled
    ensures InTurn(shards, events) && Answered(shards, events) && errors == Problems(events)
    ensures second == SecondOf(expected, builds, first, events)
  {
    hide *;
    var affected := AffectedShards(shards, first, candidates);
    AllAffected(expected, first, candidates, affected);
    second := first - affected;
    var confirmed;
    AllTaken(shards, affected);
    confirmed, errors, events := CollectDirect(shards, Only(affected), source, seen);
    var marked := MarkBuildingDefinitions(confirmed, builds);
    second := second + marked;
    SecondIs(expected, builds, first, events);
  }

  lemma AllTaken(shards: seq<string>, affected: set<string>)
    requires affected == set s | s in shards
    ensures WantedOf(shards, Only(affected)) == shards
  {
    AllWanted(shards, Only(affected));
  }

  lemma SecondIs(expected: seq<string>, builds: seq<string>, first: Observations, events: seq<Event>)
    ensures SecondOf(expected, builds, first, events) == (first - set s | s in Compared(expected, first)) + MarkAll(Answers(events), builds)
  {
    hide Compared, MarkAll, Answers;
  }

  /** `confirmLegacyDifferences`. */
  method ConfirmLegacy(expected: seq<string>, builds: seq<string>, first: Observations, source: Source, ghost seen: bool)
    returns (e: Evaluation, errors: seq<Failure>, attempted: bool, ghost second: Reread, ghost events: seq<Event>)
    requires seen ==> source.cancelled
    modifies source
    ensures Extends(source.log, old(source.log), events) && Disciplined(seen, events)
    ensures (old(source.cancelled) || Noticed(seen, events)) ==> source.cancelled
    ensures IsEvaluation(expected, first, second, e)
    ensures attempted <==> |Compared(expected, first)| >= 2 && FirstCandidates(expected, first) != {}
    ensures Rechecked(expected, builds, first, second, events) && errors == Problems(events)
    ensures second.Read? && errors == [] ==> CanConfirm(expected, first, second)
    ensures NoDuplicates(expected) && errors != [] ==> !CanConfirm(expected, first, second) && e.state != Inconsistent
  {
    hide Candidates, KeepAll, IsEvaluation, FirstCandidates, BuildingNames, BuildingSemantics, InTurn, Answers, Problems, Answered,
         Disciplined, Noticed, Compared, CanConfirm, SecondOf, Rechecked;
    NothingRead(All, seen);
    events, errors, attempted, second := [], [], false, NotRead;
    var shards := PresentShards(expected, first.Keys);
    ComparedAre(expected, first, shards);
    if |shards| < 2 {
      e := EvaluateLegacy(expected, first, NotRead);
      RecheckedNot(expected, builds, first);
      return;
    }
    var names, semantics := BuildingIndexKeys(first);
    var candidates := CompareCompared(expected, first, shards, names, semantics);
    SameMembers(candidates, FirstCandidates(expected, first));
    if |candidates| == 0 {
      e := EvaluateLegacy(expected, first, NotRead);
      RecheckedNot(expected, builds, first);
      return;
    }
    attempted := true;
    var stop := source.Check();
    Looked(seen, [], stop);
    events := [] + [Checked(stop)];
    if stop {
      errors := [Timeout];
      e := EvaluateLegacy(expected, first, NotRead);
      assert events == [Checked(true)];
      RecheckedStop(expected, builds, first);
      NotConfirmed(expected, first, NotRead, e);
      return;
    }
    var obs;
    ghost var more;
    obs, errors, more := RereadShards(expected, shards, builds, first, candidates, source, Noticed(seen, events));
    DisciplinedAppend(seen, events, more);
    CheckedAnswers(more);
    RereadConfirms(expected, builds, first, more);
    RecheckedRead(expected, builds, first, more);
    events := events + more;
    assert events == [Checked(false)] + more;
    second := Read(obs);
    e := EvaluateLegacy(expected, first, Read(obs));
    if !CanConfirm(expected, first, second) { NotConfirmed(expected, first, second, e); }
  }

  lemma ComparedAre(expected: seq<string>, first: Observations, shards: seq<string>)
    requires shards == Present(expected, first.Keys)
    ensures shards == Compared(expected, first)
  {
  }

  lemma RecheckedNot(expected: seq<string>, builds: seq<string>, first: Observations)
    requires |Compared(expected, first)| < 2 || FirstCandidates(expected, first) == {}
    ensures Rechecked(expected, builds, first, NotRead, [])
  {
    hide Compared, FirstCandidates;
  }

  lemma RecheckedStop(expected: seq<string>, builds: seq<string>, first: Observations)
    requires |Compared(expected, first)| >= 2 && FirstCandidates(expected, first) != {}
    ensures Rechecked(expected, builds, first, NotRead, [Checked(true)]) && !CanConfirm(expected, first, NotRead)
  {
    hide Compared, FirstCandidates;
  }

  lemma RecheckedRead(expected: seq<string>, builds: seq<string>, first: Observations, more: seq<Event>)
    requires |Compared(expected, first)| >= 2 && FirstCandidates(expected, first) != {} && InTurn(Compared(expected, first), more)
    ensures Rechecked(expected, builds, first, Read(SecondOf(expected, builds, first, more)), [Checked(false)] + more)
  {
    CheckedAnswers(more);
    hide Compared, FirstCandidates, InTurn, MarkAll, Answers;
    assert ([Checked(false)] + more)[1..] == more && [Checked(false)] + more != [Checked(true)] by {
      assert ([Checked(false)] + more)[0] == Checked(false);
    }
  }

  lemma {:induction false} CheckedAnswers(more: seq<Event>)
    ensures Answers([Checked(false)] + more) == Answers(more)
    ensures Problems([Checked(false)] + more) == Problems(more)
  {
    if more == [] {
      assert [Checked(false)] + more == [] + [Checked(false)];
      AnswersAppend([], Checked(false));
      ProblemsAppend([], Checked(false));
    } else {
      var init, last := more[..|more| - 1], more[|more| - 1];
      CheckedAnswers(init);
      assert [Checked(false)] + more == ([Checked(false)] + init) + [last];
      AnswersAppend([Checked(false)] + init, last);
      ProblemsAppend([Checked(false)] + init, last);
      assert more == init + [last];
      AnswersAppend(init, last);
      ProblemsAppend(init, last);
    }
  }

  lemma NotConfirmed(expected: seq<string>, first: Observations, second: Reread, e: Evaluation)
    requires IsEvaluation(expected, first, second, e) && !CanConfirm(expected, first, second)
    ensures e.state != Inconsistent
  {
    hide FirstCandidates, CanConfirm, AllBuilding, Changed;
  }
}
