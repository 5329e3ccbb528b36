/** The audit of one collection, from the gates to the final verdict. */
module ConsistencyAudit {
  import opened ConsistencyModel
  import opened ConsistencyCompare
  import opened ConsistencyCandidates
  import opened ConsistencyEvaluate
  import opened ConsistencyExactness
  import opened ConsistencyOfficial
  import opened ConsistencySource
  import opened ConsistencyConfirm
  import opened ConsistencyPipeline
  import opened ConsistencyReport
  import BatchPlanner

  // ----- `$indexStats` -----

  /** The definitions that the entries give for one shard, in order. */
  ghost function DefinitionsOf(entries: seq<Entry>, shard: string): seq<Definition> {
    if entries == [] then []
    else
      var rest, e := DefinitionsOf(entries[..|entries| - 1], shard), entries[|entries| - 1];
      if e.shard == shard then rest + [e.definition] else rest
  }

  ghost predicate ByShard(obs: Observations, entries: seq<Entry>) {
    && (forall s :: s in obs <==> s != "" && exists i :: 0 <= i < |entries| && entries[i].shard == s)
    && (forall s :: s in obs ==> obs[s] == DefinitionsOf(entries, s))
  }

  lemma {:induction false} NoDefinitions(entries: seq<Entry>, shard: string)
    requires forall i :: 0 <= i < |entries| ==> entries[i].shard != shard
    ensures DefinitionsOf(entries, shard) == []
  {
    if entries != [] { NoDefinitions(entries[..|entries| - 1], shard); }
  }

  lemma AddEntry(obs: Observations, entries: seq<Entry>, e: Entry, r: Observations)
    requires ByShard(obs, entries)
    requires r == if e.shard == "" then obs
                  else obs[e.shard := (if e.shard in obs then obs[e.shard] else []) + [e.definition]]
    ensures ByShard(r, entries + [e])
  {
    var all := entries + [e];
    assert all[..|entries|] == entries && all[|entries|] == e;
    forall s
      ensures s in r <==> s != "" && exists i :: 0 <= i < |all| && all[i].shard == s
    {
      if i :| 0 <= i < |entries| && entries[i].shard == s {
        assert all[i].shard == s;
      }
    }
    if e.shard != "" && e.shard !in obs { NoDefinitions(entries, e.shard); }
  }

  /** `definitionsByShard`. */
  method DefinitionsByShard(entries: seq<Entry>) returns (obs: Observations)
    ensures ByShard(obs, entries)
  {
    obs := map[];
    for i := 0 to |entries|
      invariant ByShard(obs, entries[..i])
    {
      hide ByShard;
      var e := entries[i];
      var before := obs;
      if e.shard != "" {
        obs := obs[e.shard := (if e.shard in obs then obs[e.shard] else []) + [e.definition]];
      }
      AddEntry(before, entries[..i], e, obs);
      assert entries[..i + 1] == entries[..i] + [e];
    }
    assert entries[..|entries|] == entries;
  }

  // ----- the legacy strategies -----

  /** What a legacy verdict rests on: the first observation, what was read to get it, and the second. An
      interrupted strategy has only the shards it saw. */
  datatype Evidence =
    | NoEvidence(observed: set<string>)
    | Evidence(first: Observations, second: Reread, initial: seq<Event>, again: seq<Event>)

  /** The first observation is what the reads returned, with the collection's builds marked. */
  ghost predicate FirstFrom(strategy: Strategy, builds: seq<string>, first: Observations, initial: seq<Event>) {
    if strategy == IndexStats then
      && |initial| == 1 && initial[0].AskedStats? && initial[0].entries.Ok?
      && exists obs :: ByShard(obs, initial[0].entries.value) && first == MarkAll(obs, builds)
    else first == MarkAll(Answers(initial), builds)
  }

  ghost predicate Rests(expected: seq<string>, builds: seq<string>, strategy: Strategy, e: Evaluation, evidence: Evidence) {
    match evidence
    case NoEvidence(observed) => IsIncomplete(expected, observed, e)
    case Evidence(first, second, initial, again) =>
      && FirstFrom(strategy, builds, first, initial)
      && IsEvaluation(expected, first, second, e)
      && Rechecked(expected, builds, first, second, again)
  }

  ghost predicate IsTimeout(e: Event) {
    (e.AskedStats? && e.entries == Err(Timeout)) || (e.AskedMetadata? && e.issues == Err(Timeout))
  }

  /** A strategy has ended in a timeout. */
  ghost predicate TimedOut(events: seq<Event>) {
    exists e :: e in events && IsTimeout(e)
  }

  /** After a strategy ended in a timeout, the next one is not tried. */
  ghost predicate TimeoutStops(events: seq<Event>) {
    forall j :: 0 <= j < |events| && (events[j].AskedDirect? || events[j].AskedStats?) ==> !TimedOut(events[..j])
  }

  ghost predicate OnlyDirect(events: seq<Event>) {
    forall x :: x in events ==> x.Checked? || x.AskedDirect?
  }

  method Confirmed(expected: seq<string>, builds: seq<string>, strategy: Strategy, first: Observations, source: Source,
                   ghost initial: seq<Event>, ghost seen: bool)
    returns (e: Evaluation, ghost evidence: Evidence, ghost events: seq<Event>)
    requires FirstFrom(strategy, builds, first, initial)
    requires seen ==> source.cancelled
    modifies source
    ensures Extends(source.log, old(source.log), events) && Disciplined(seen, events)
    ensures (old(source.cancelled) || Noticed(seen, events)) ==> source.cancelled
    ensures OnlyDirect(events)
    ensures evidence.Evidence? && evidence == Evidence(first, evidence.second, initial, events)
    ensures Rests(expected, builds, strategy, e, evidence) && Coherent(expected, e)
  {
    var errors, attempted;
    ghost var second;
    hide FirstFrom, Disciplined, IsEvaluation, Rechecked, Coherent, CanConfirm, FirstCandidates, NoDuplicates, Compared, Problems;
    e, errors, attempted, second, events := ConfirmLegacy(expected, builds, first, source, seen);
    LegacyCoherent(expected, first, second, e);
    RecheckedKinds(expected, builds, first, second, events);
    evidence := Evidence(first, second, initial, events);
  }

  lemma RecheckedKinds(expected: seq<string>, builds: seq<string>, first: Observations, second: Reread, events: seq<Event>)
    requires Rechecked(expected, builds, first, second, events)
    ensures OnlyDirect(events)
  {
    hide FirstCandidates, Compared, InTurn;
    if |events| > 1 {
      InTurnKinds(Compared(expected, first), events[1..]);
      forall i | 0 <= i < |events|
        ensures events[i].Checked? || events[i].AskedDirect?
      {
        if i > 0 { assert events[1..][i - 1] == events[i]; }
      }
    }
  }

  lemma StopsAppend(a: seq<Event>, b: seq<Event>)
    requires TimeoutStops(a) && !TimedOut(a) && OnlyDirect(b)
    ensures TimeoutStops(a + b) && !TimedOut(a + b)
  {
    var c := a + b;
    assert forall e :: e in c ==> !IsTimeout(e);
    forall j | 0 <= j < |c| && (c[j].AskedDirect? || c[j].AskedStats?)
      ensures !TimedOut(c[..j])
    {
      assert forall e :: e in c[..j] ==> e in c;
    }
  }

  lemma OneEvent(e: Event, seen: bool)
    ensures TimeoutStops([e])
    ensures TimedOut([e]) <==> IsTimeout(e)
    ensures !Asks(e) || !seen ==> Disciplined(seen, [e])
    ensures Noticed(seen, [e]) <==> seen || e == Checked(true)
  {
  }

  datatype StatsOutcome = Judged(e: Evaluation) | GaveUp(e: Evaluation) | TryDirect(reason: Reason)

  /** `$indexStats` decides exactly when it answered and names every expected shard. */
  ghost predicate StatsDecide(expected: seq<string>, reply: Reply<seq<Entry>>) {
    reply.Ok? && forall s :: s in expected ==> s in ShardsNamed(reply)
  }

  ghost function ShardsNamed(reply: Reply<seq<Entry>>): set<string> {
    if reply.Err? then {} else set i | 0 <= i < |reply.value| && reply.value[i].shard != "" :: reply.value[i].shard
  }

  /** Why `$indexStats` did not decide. */
  ghost function ReasonOf(reply: Reply<seq<Entry>>): Reason {
    if reply.Ok? then IncompleteCoverage else Because(reply.error)
  }

  /** After an answer that does not decide the context is looked at: a timeout or a cancellation ends the
      collection, anything else leads on to direct reads. */
  ghost predicate StatsCourse(expected: seq<string>, outcome: StatsOutcome, evidence: Evidence, events: seq<Event>) {
    && events != [] && events[0].AskedStats?
    && var reply := events[0].entries;
       if StatsDecide(expected, reply) then
         outcome.Judged? && evidence.Evidence? && evidence.initial == [events[0]] && events == evidence.initial + evidence.again
       else
         && |events| == 2 && events[1].Checked?
         && if events[1].cancelled || reply == Err(Timeout) then outcome.GaveUp? && evidence == NoEvidence(ShardsNamed(reply))
            else outcome == TryDirect(ReasonOf(reply))
  }

  lemma NamedByShard(expected: seq<string>, reply: Reply<seq<Entry>>, obs: Observations, builds: seq<string>)
    requires ByShard(obs, if reply.Ok? then reply.value else [])
    ensures MarkAll(obs, builds).Keys == ShardsNamed(reply)
    ensures |Present(expected, MarkAll(obs, builds).Keys)| == |expected| <==> forall s :: s in expected ==> s in ShardsNamed(reply)
  {
    hide DefinitionsOf, Mark;
    PresentMembers(expected, ShardsNamed(reply));
    assert MarkAll(obs, builds).Keys == ShardsNamed(reply);
  }

  /** The first half of `collectLegacyIndexConsistency`: `$indexStats`, if it is complete. */
  method StatsPhase(expected: seq<string>, builds: seq<string>, source: Source)
    returns (outcome: StatsOutcome, ghost evidence: Evidence, ghost events: seq<Event>)
    modifies source
    ensures Extends(source.log, old(source.log), events) && Disciplined(false, events)
    ensures (old(source.cancelled) || Noticed(false, events)) ==> source.cancelled
    ensures forall x :: x in events ==> x.Checked? || x.AskedDirect? || x.AskedStats?
    ensures TimeoutStops(events)
    ensures StatsCourse(expected, outcome, evidence, events)
    ensures !outcome.TryDirect? ==> Rests(expected, builds, IndexStats, outcome.e, evidence) && Coherent(expected, outcome.e)
    ensures outcome.TryDirect? ==> !Noticed(false, events) && !TimedOut(events)
  {
    hide FirstFrom, Disciplined, Noticed, IsEvaluation, Rechecked, Coherent, ByShard, Answers, MarkAll, Rests, TimeoutStops, TimedOut, ShardsNamed,
         IsIncomplete, StatsCourse;
    var reply := source.Stats();
    OneEvent(AskedStats(reply), false);
    events, evidence := [AskedStats(reply)], NoEvidence({});
    var entries := if reply.Ok? then reply.value else [];
    var read := DefinitionsByShard(entries);
    var observations := MarkBuildingDefinitions(read, builds);
    NamedByShard(expected, reply, read, builds);
    var observed := PresentShards(expected, observations.Keys);
    if reply.Ok? && |observed| == |expected| {
      ghost var more;
      var e;
      StatsEvidence(builds, read, reply, observations);
      e, evidence, more := Confirmed(expected, builds, IndexStats, observations, source, events, false);
      DisciplinedAppend(false, events, more);
      StopsAppend(events, more);
      events := events + more;
      outcome := Judged(e);
      StatsJudged(expected, reply, outcome, evidence, events);
      return;
    }
    var reason := if reply.Ok? then IncompleteCoverage else Because(reply.error);
    var stop := source.Check();
    OneEvent(Checked(stop), false);
    DisciplinedAppend(false, events, [Checked(stop)]);
    TimeoutThenCheck(reply, stop);
    events := events + [Checked(stop)];
    if stop || reason == Because(Timeout) {
      var e := IncompleteEvaluation(expected, observations.Keys);
      evidence := NoEvidence(ShardsNamed(reply));
      RestsOnNothing(expected, builds, IndexStats, e, ShardsNamed(reply));
      outcome := GaveUp(e);
    } else {
      outcome := TryDirect(reason);
    }
    StatsFailed(expected, reply, stop, outcome, evidence);
  }

  lemma StatsJudged(expected: seq<string>, reply: Reply<seq<Entry>>, outcome: StatsOutcome, evidence: Evidence, events: seq<Event>)
    requires StatsDecide(expected, reply) && outcome.Judged? && evidence.Evidence? && evidence.initial == [AskedStats(reply)]
    requires events == [AskedStats(reply)] + evidence.again
    ensures StatsCourse(expected, outcome, evidence, events)
  {
    hide ShardsNamed;
  }

  lemma StatsFailed(expected: seq<string>, reply: Reply<seq<Entry>>, stop: bool, outcome: StatsOutcome, evidence: Evidence)
    requires !StatsDecide(expected, reply)
    requires if stop || reply == Err(Timeout) then outcome.GaveUp? && evidence == NoEvidence(ShardsNamed(reply))
             else outcome == TryDirect(ReasonOf(reply))
    ensures StatsCourse(expected, outcome, evidence, [AskedStats(reply)] + [Checked(stop)])
  {
    hide ShardsNamed, StatsDecide;
    assert [AskedStats(reply)] + [Checked(stop)] == [AskedStats(reply), Checked(stop)];
  }

  lemma TimeoutThenCheck(reply: Reply<seq<Entry>>, stop: bool)
    ensures TimeoutStops([AskedStats(reply)] + [Checked(stop)])
    ensures TimedOut([AskedStats(reply)] + [Checked(stop)]) <==> reply == Err(Timeout)
  {
    var events := [AskedStats(reply)] + [Checked(stop)];
    assert events == [AskedStats(reply), Checked(stop)];
    assert AskedStats(reply) in events;
    assert events[..0] == [];
  }

  /** The second half: direct reads of every expected shard, confirmed by a second round. */
  method DirectPhase(expected: seq<string>, builds: seq<string>, source: Source)
    returns (e: Evaluation, ghost evidence: Evidence, ghost events: seq<Event>)
    modifies source
    ensures Extends(source.log, old(source.log), events) && Disciplined(false, events)
    ensures (old(source.cancelled) || Noticed(false, events)) ==> source.cancelled
    ensures OnlyDirect(events)
    ensures DirectCourse(expected, evidence, events)
    ensures Rests(expected, builds, DirectListIndexes, e, evidence) && Coherent(expected, e)
  {
    hide FirstFrom, Disciplined, Noticed, IsEvaluation, Rechecked, Coherent, Answers, MarkAll, Rests, NoDuplicates, InTurn, WantedOf,
         Problems, ConsistencyConfirm.Answered;
    var first, errors;
    ghost var initial, again;
    AllWanted(expected, All);
    first, errors, initial := CollectDirect(expected, All, source, false);
    InTurnKinds(expected, initial);
    first := MarkBuildingDefinitions(first, builds);
    DirectEvidence(builds, initial, first);
    e, evidence, again := Confirmed(expected, builds, DirectListIndexes, first, source, initial, Noticed(false, initial));
    DisciplinedAppend(false, initial, again);
    events := initial + again;
  }

  /** All expected shards are read in turn, and then those compared once more if need be. */
  ghost predicate DirectCourse(expected: seq<string>, evidence: Evidence, events: seq<Event>) {
    evidence.Evidence? && InTurn(expected, evidence.initial) && events == evidence.initial + evidence.again
  }

  /** The course of the legacy strategies, from where they start to where they end, by the answers. */
  ghost predicate LegacyCourse(expected: seq<string>, start: Strategy, before: Fallback, final: Strategy, fallback: Fallback,
                               evidence: Evidence, events: seq<Event>) {
    if start == DirectListIndexes then final == DirectListIndexes && fallback == before && DirectCourse(expected, evidence, events)
    else
      && events != [] && events[0].AskedStats?
      && var reply := events[0].entries;
         if StatsDecide(expected, reply) then
           && final == IndexStats && fallback == before
           && evidence.Evidence? && evidence.initial == [events[0]] && events == evidence.initial + evidence.again
         else
           && |events| > 1 && events[1].Checked?
           && if events[1].cancelled || reply == Err(Timeout) then
                |events| == 2 && final == IndexStats && fallback == before && evidence == NoEvidence(ShardsNamed(reply))
              else
                && final == DirectListIndexes && DirectCourse(expected, evidence, events[2..])
                && fallback == if before.NoFallback? then Fallback(IndexStats, DirectListIndexes, ReasonOf(reply))
                               else before.(to := DirectListIndexes)
  }

  /** `collectLegacyIndexConsistency`. */
  method CollectLegacy(expected: seq<string>, builds: seq<string>, start: Strategy, fallback0: Fallback, source: Source)
    returns (e: Evaluation, strategy: Strategy, fallback: Fallback, ghost evidence: Evidence, ghost events: seq<Event>)
    requires start == IndexStats || start == DirectListIndexes
    modifies source
    ensures Extends(source.log, old(source.log), events) && Disciplined(false, events)
    ensures (old(source.cancelled) || Noticed(false, events)) ==> source.cancelled
    ensures forall x :: x in events ==> x.Checked? || x.AskedDirect? || x.AskedStats?
    ensures TimeoutStops(events)
    ensures LegacyCourse(expected, start, fallback0, strategy, fallback, evidence, events)
    ensures Rests(expected, builds, strategy, e, evidence) && Coherent(expected, e)
    ensures strategy == IndexStats || strategy == DirectListIndexes
  {
    hide Disciplined, Noticed, Coherent, Rests, TimeoutStops, TimedOut, StatsDecide, ShardsNamed, DirectCourse, LegacyCourse;
    strategy, fallback, events := start, fallback0, [];
    NothingYet();
    ghost var tried: StatsOutcome;
    if strategy == IndexStats {
      var outcome;
      outcome, evidence, events := StatsPhase(expected, builds, source);
      tried := outcome;
      StatsEnds(expected, fallback, outcome, evidence, events);
      match outcome
      case Judged(judged) => e := judged; return;
      case GaveUp(incomplete) => e := incomplete; return;
      case TryDirect(reason) =>
        fallback := if fallback.NoFallback? then Fallback(strategy, DirectListIndexes, reason) else fallback.(to := DirectListIndexes);
        strategy := DirectListIndexes;
    }
    ghost var more, before := [], events;
    e, evidence, more := DirectPhase(expected, builds, source);
    DisciplinedAppend(false, events, more);
    StopsAppend(events, more);
    events := events + more;
    if start == IndexStats {
      StatsThenDirect(expected, fallback0, tried, evidence, before, more);
    } else {
      assert events == more;
      DirectOnly(expected, fallback0, evidence, more);
    }
  }

  lemma StatsEnds(expected: seq<string>, before: Fallback, outcome: StatsOutcome, evidence: Evidence, events: seq<Event>)
    requires StatsCourse(expected, outcome, evidence, events)
    ensures !outcome.TryDirect? ==> LegacyCourse(expected, IndexStats, before, IndexStats, before, evidence, events)
  {
    hide StatsDecide, ShardsNamed, DirectCourse;
  }

  lemma StatsThenDirect(expected: seq<string>, before: Fallback, outcome: StatsOutcome, evidence: Evidence, events: seq<Event>, more: seq<Event>)
    requires outcome.TryDirect? && (exists any :: StatsCourse(expected, outcome, any, events)) && DirectCourse(expected, evidence, more)
    ensures LegacyCourse(expected, IndexStats, before, DirectListIndexes,
                         if before.NoFallback? then Fallback(IndexStats, DirectListIndexes, outcome.reason) else before.(to := DirectListIndexes),
                         evidence, events + more)
  {
    hide StatsDecide, ShardsNamed, DirectCourse;
    assert (events + more)[2..] == more;
  }

  lemma DirectOnly(expected: seq<string>, before: Fallback, evidence: Evidence, events: seq<Event>)
    requires DirectCourse(expected, evidence, events)
    ensures LegacyCourse(expected, DirectListIndexes, before, DirectListIndexes, before, evidence, events)
  {
    hide DirectCourse;
  }

  lemma NothingYet()
    ensures Disciplined(false, []) && !Noticed(false, []) && TimeoutStops([]) && !TimedOut([])
  {
  }

  lemma RestsOnNothing(expected: seq<string>, builds: seq<string>, strategy: Strategy, e: Evaluation, observed: set<string>)
    requires IsIncomplete(expected, observed, e)
    ensures Rests(expected, builds, strategy, e, NoEvidence(observed))
  {
  }

  lemma StatsEvidence(builds: seq<string>, read: Observations, reply: Reply<seq<Entry>>, first: Observations)
    requires reply.Ok? && ByShard(read, reply.value) && first == MarkAll(read, builds)
    ensures FirstFrom(IndexStats, builds, first, [AskedStats(reply)])
  {
  }

  lemma DirectEvidence(builds: seq<string>, initial: seq<Event>, first: Observations)
    requires first == MarkAll(Answers(initial), builds)
    ensures FirstFrom(DirectListIndexes, builds, first, initial)
  {
  }

  // ----- one collection -----

  /** `metadataIssuesForNamespace`. */
  ghost function IssuesFor(namespace: string, issues: seq<Issue>, databaseScope: bool): seq<Issue> {
    if !databaseScope then issues
    else if issues == [] then []
    else
      var rest, issue := IssuesFor(namespace, issues[..|issues| - 1], true), issues[|issues| - 1];
      if issue.namespace == namespace then rest + [issue] else rest
  }

  method SelectIssues(namespace: string, issues: seq<Issue>, databaseScope: bool) returns (r: seq<Issue>)
    ensures r == IssuesFor(namespace, issues, databaseScope)
  {
    if !databaseScope { return issues; }
    r := [];
    for i := 0 to |issues|
      invariant r == IssuesFor(namespace, issues[..i], true)
    {
      assert issues[..i + 1][..i] == issues[..i];
      if issues[i].namespace == namespace { r := r + [issues[i]]; }
    }
    assert issues[..|issues|] == issues;
  }

  /** How a collection leaves the audit without having been compared. */
  function Gated(sharded: bool, state: State, coverage: Coverage, expected: seq<string>, ds: seq<Difference>): Audit {
    Audit(sharded, state, coverage, NoStrategy, NoFallback, expected, [], ds, FindingsFor(ds))
  }

  /** The gates, in order; `Open` lets the collection through. */
  datatype Gate = Open | Closed(audit: Audit)

  /** The collections that are compared. */
  ghost predicate Admitted(isCollection: bool, routing: Routing, plan: Plan) {
    && isCollection && routing.Routing? && routing.sharded && routing.expected != []
    && plan.Ready? && forall s :: s in routing.expected ==> s in plan.targets
  }

  /** Nothing is wrong: the collection has no indexes to compare, or the server is too old. */
  ghost predicate Excused(isCollection: bool, routing: Routing, plan: Plan) {
    !isCollection || (routing.Routing? && (!routing.sharded || plan.UnsupportedVersion?))
  }

  /** Of the expected shards, `shard` is the first without a target. */
  ghost predicate FirstWithout(expected: seq<string>, targets: set<string>, shard: string) {
    exists i :: 0 <= i < |expected| && expected[i] == shard && shard !in targets && forall j :: 0 <= j < i ==> expected[j] in targets
  }

  /** The shards that a collection which is not admitted is reported to be unknown on. */
  ghost predicate Blamed(expected: seq<string>, plan: Plan, shards: seq<string>) {
    match plan
    case TargetsFailed => shards == expected
    case Ready(_, targets) => if expected == [] then shards == [] else |shards| == 1 && FirstWithout(expected, targets, shards[0])
    case UnsupportedVersion => false
  }

  /** What is reported of a collection that is not admitted: it is skipped if it is excused and
      inconclusive otherwise, and why it is inconclusive can be told once its routing is known. */
  ghost predicate Refused(isCollection: bool, routing: Routing, plan: Plan, a: Audit) {
    && a.strategy == NoStrategy && a.fallback == NoFallback && a.observed == [] && a.findings == FindingsFor(a.differences)
    && (a.sharded <==> isCollection && routing.Routing? && routing.sharded)
    && a.expected == (if isCollection && routing.Routing? then routing.expected else [])
    && (if Excused(isCollection, routing, plan) then a.state == Skipped && a.coverage == NotApplicable && a.differences == []
        else && a.state == Unclear && a.coverage == Incomplete
             && if routing.RoutingFailed? then a.differences == []
                else exists shards :: Blamed(routing.expected, plan, shards) && a.differences == [InconclusiveOn(shards)])
  }

  method FindMissingTarget(expected: seq<string>, targets: set<string>) returns (r: seq<string>)
    ensures r == [] <==> forall s :: s in expected ==> s in targets
    ensures r != [] ==> |r| == 1 && FirstWithout(expected, targets, r[0])
  {
    for i := 0 to |expected|
      invariant forall j :: 0 <= j < i ==> expected[j] in targets
    {
      if expected[i] !in targets { return [expected[i]]; }
    }
    r := [];
  }

  /** The conclusion of a strategy, before visibility and builds are taken into account. */
  datatype Basis = OfficialBasis(issues: seq<Issue>) | LegacyBasis(evidence: Evidence)

  ghost predicate Founded(namespace: string, expected: seq<string>, visible: Reply<Visibility>, strategy: Strategy, e: Evaluation, basis: Basis) {
    match basis
    case OfficialBasis(issues) => strategy == MetadataCheck && IsOfficialEvaluation(namespace, expected, ShardsSeen(visible), issues, e)
    case LegacyBasis(evidence) =>
      Rests(expected, BuildsSeen(visible), strategy, e, evidence) && (evidence.Evidence? ==> strategy != MetadataCheck)
  }

  ghost predicate NeverAsksShards(events: seq<Event>) {
    forall x :: x in events ==> !x.AskedStats? && !x.AskedDirect?
  }

  /** The metadata check and the visibility query. */
  method Opening(ref: BatchPlanner.Ref, official: Official, source: Source)
    returns (reply: Reply<seq<Issue>>, databaseScope: bool, visible: Reply<Visibility>, ghost events: seq<Event>)
    modifies source
    ensures Extends(source.log, old(source.log), events)
    ensures Disciplined(false, events) && !Noticed(false, events) && TimeoutStops(events) && NeverAsksShards(events)
    ensures if official.Answered? then reply == official.reply && databaseScope == official.databaseScope else !databaseScope
    ensures events == OpeningOf(ref, official, reply, visible)
    ensures TimedOut(events) <==> official.Pending? && reply == Err(Timeout)
  {
    events := [];
    NothingYet();
    if official.Pending? {
      reply := source.Metadata(ref.database, ref.collection);
      databaseScope := false;
      AskNext(false, events, AskedMetadata(ref.database, ref.collection, reply));
      events := events + [AskedMetadata(ref.database, ref.collection, reply)];
    } else {
      reply, databaseScope := official.reply, official.databaseScope;
    }
    visible := source.Visible();
    AskNext(false, events, AskedVisibility(visible));
    events := events + [AskedVisibility(visible)];
    OpeningTimes(ref, official, reply, visible, events);
  }

  lemma OpeningTimes(ref: BatchPlanner.Ref, official: Official, reply: Reply<seq<Issue>>, visible: Reply<Visibility>, events: seq<Event>)
    requires events == (if official.Pending? then [AskedMetadata(ref.database, ref.collection, reply)] else []) + [AskedVisibility(visible)]
    ensures TimeoutStops(events) && NeverAsksShards(events)
    ensures TimedOut(events) <==> official.Pending? && reply == Err(Timeout)
  {
    if official.Pending? {
      assert events == [AskedMetadata(ref.database, ref.collection, reply), AskedVisibility(visible)];
      assert events[0] in events && (IsTimeout(events[0]) <==> reply == Err(Timeout));
    }
  }

  /** The gates in front of the comparison, in their order. */
  method PassGates(isCollection: bool, routing: Routing, plan: Plan) returns (gate: Gate)
    ensures gate.Open? <==> Admitted(isCollection, routing, plan)
    ensures gate.Closed? ==> Refused(isCollection, routing, plan, gate.audit)
  {
    hide FindingsFor, FirstWithout;
    if !isCollection { return Closed(Gated(false, Skipped, NotApplicable, [], [])); }
    if routing.RoutingFailed? { return Closed(Gated(false, Unclear, Incomplete, [], [])); }
    if !routing.sharded { return Closed(Gated(false, Skipped, NotApplicable, routing.expected, [])); }
    if plan.UnsupportedVersion? { return Closed(Gated(true, Skipped, NotApplicable, routing.expected, [])); }
    if plan.TargetsFailed? {
      assert Blamed(routing.expected, plan, routing.expected);
      return Closed(Gated(true, Unclear, Incomplete, routing.expected, [Difference(Inconclusive, "", routing.expected, [], "", [], "")]));
    }
    if |routing.expected| == 0 {
      assert Blamed(routing.expected, plan, []);
      return Closed(Gated(true, Unclear, Incomplete, [], [Difference(Inconclusive, "", [], [], "", [], "")]));
    }
    var missing := FindMissingTarget(routing.expected, plan.targets);
    if missing != [] {
      assert Blamed(routing.expected, plan, missing);
      return Closed(Gated(true, Unclear, Incomplete, routing.expected, [Difference(Inconclusive, "", missing, [], "", [], "")]));
    }
    gate := Open;
  }

  /** The gates leave no choice: there is one report for a collection that is not admitted. */
  lemma RefusedOneWay(isCollection: bool, routing: Routing, plan: Plan, a: Audit, b: Audit)
    requires Refused(isCollection, routing, plan, a) && Refused(isCollection, routing, plan, b)
    ensures a == b
  {
    hide FindingsFor, FirstWithout;
    if !Excused(isCollection, routing, plan) && routing.Routing? {
      var x :| Blamed(routing.expected, plan, x) && a.differences == [InconclusiveOn(x)];
      var y :| Blamed(routing.expected, plan, y) && b.differences == [InconclusiveOn(y)];
      if plan.Ready? && routing.expected != [] {
        OnlyOneIsFirst(routing.expected, plan.targets, x[0], y[0]);
      }
      assert x == y;
    }
  }

  lemma OnlyOneIsFirst(expected: seq<string>, targets: set<string>, x: string, y: string)
    requires FirstWithout(expected, targets, x) && FirstWithout(expected, targets, y)
    ensures x == y
  {
  }

  /** A collection that is not admitted never gets a warning, and is never called consistent. */
  lemma GatesAreCalm(isCollection: bool, routing: Routing, plan: Plan, a: Audit)
    requires Refused(isCollection, routing, plan, a)
    ensures !Warns(a.findings) && a.state != Inconsistent && a.state != Consistent
  {
    hide FindingsFor, Blamed;
    WarnsIfAlarming(a.differences);
  }

  lemma CheckAfter(events: seq<Event>, stop: bool)
    requires Disciplined(false, events) && !Noticed(false, events) && TimeoutStops(events) && NeverAsksShards(events)
    ensures Disciplined(false, events + [Checked(stop)]) && (Noticed(false, events + [Checked(stop)]) <==> stop)
    ensures TimeoutStops(events + [Checked(stop)]) && (TimedOut(events + [Checked(stop)]) <==> TimedOut(events))
    ensures NeverAsksShards(events + [Checked(stop)])
  {
    OneEvent(Checked(stop), false);
    DisciplinedAppend(false, events, [Checked(stop)]);
    hide Disciplined, Noticed;
    var c := events + [Checked(stop)];
    forall j | 0 <= j < |c|
      ensures !(c[j].AskedDirect? || c[j].AskedStats?)
    {
      if j < |events| { assert c[j] in events; }
    }
  }

  lemma StopsBefore(a: seq<Event>, b: seq<Event>)
    requires TimeoutStops(a) && !TimedOut(a) && TimeoutStops(b)
    ensures TimeoutStops(a + b)
  {
    var c := a + b;
    forall j | 0 <= j < |c| && (c[j].AskedDirect? || c[j].AskedStats?)
      ensures !TimedOut(c[..j])
    {
      if j < |a| { assert c[..j] == a[..j]; } else { assert c[..j] == a + b[..j - |a|]; }
    }
  }

  /** The metadata check ended the audit: what is reported is the incomplete evaluation itself. */
  function FinishEarly(expected: seq<string>, e: Evaluation): Audit {
    Audit(true, e.state, e.coverage, MetadataCheck, NoFallback, expected, e.observed, e.differences, e.findings)
  }

  lemma CoherentAudit(expected: seq<string>, a: Audit)
    requires Coherent(expected, Evaluation(a.state, a.coverage, a.observed, a.differences, a.findings))
    ensures a.state == Inconsistent <==> Warns(a.findings)
    ensures a.state == Consistent ==> a.coverage == Complete && a.observed == expected && a.differences == [] && a.findings == []
    ensures a.state != Skipped && a.coverage != NotApplicable && a.findings == FindingsFor(a.differences)
  {
  }

  lemma EarlyIsCoherent(expected: seq<string>, visible: Reply<Visibility>, e: Evaluation)
    requires Coherent(expected, e) && e.state == Unclear && e.coverage == Incomplete
    ensures Adjusted(expected, visible, e, FinishEarly(expected, e))
    ensures !Warns(e.findings) && e.findings == FindingsFor(e.differences)
  {
  }

  /** The metadata check, unless it was made for the whole database, and the visibility query. */
  ghost function OpeningOf(ref: BatchPlanner.Ref, official: Official, reply: Reply<seq<Issue>>, visible: Reply<Visibility>): seq<Event> {
    (if official.Pending? then [AskedMetadata(ref.database, ref.collection, reply)] else []) + [AskedVisibility(visible)]
  }

  /** What the metadata check answered. */
  ghost function ReplyOf(official: Official, events: seq<Event>): Reply<seq<Issue>> {
    if official.Answered? then official.reply
    else if events != [] && events[0].AskedMetadata? then events[0].issues else Err(Failed)
  }

  ghost function Opened(official: Official): nat { if official.Pending? then 2 else 1 }

  /** The course of an audit, by the answers. If the metadata check is the strategy, its answer decides;
      if it failed the context is looked at, and a timeout or a cancellation ends the audit, with nothing
      known but the shards that are visible. Anything else leads on to the legacy strategies. */
  ghost predicate Conducted(ref: BatchPlanner.Ref, expected: seq<string>, start: Strategy, official: Official, visible: Reply<Visibility>,
                            final: Strategy, fallback: Fallback, basis: Basis, events: seq<Event>) {
    var n, reply := Opened(official), ReplyOf(official, events);
    && n <= |events| && events[..n] == OpeningOf(ref, official, reply, visible)
    && if start == MetadataCheck && reply.Ok? then
         && |events| == n && final == MetadataCheck && fallback == NoFallback
         && basis == OfficialBasis(IssuesFor(BatchPlanner.RefKey(ref), reply.value, official.Answered? && official.databaseScope))
       else
         && basis.LegacyBasis?
         && if start == MetadataCheck then
              && n < |events| && events[n].Checked?
              && if events[n].cancelled || reply.error == Timeout then
                   && |events| == n + 1 && final == MetadataCheck && fallback == NoFallback
                   && basis.evidence == NoEvidence(set s | s in ShardsSeen(visible))
                 else LegacyCourse(expected, IndexStats, Fallback(MetadataCheck, IndexStats, Because(reply.error)), final, fallback,
                                   basis.evidence, events[n + 1..])
            else LegacyCourse(expected, start, NoFallback, final, fallback, basis.evidence, events[n..])
  }

  /** All that is promised of an audit. Visibility and builds are reported on top of what the strategy found,
      except of one that a failed metadata check ended. */
  ghost predicate Audited(ref: BatchPlanner.Ref, routing: Routing, plan: Plan, official: Official, a: Audit,
                          visible: Reply<Visibility>, e: Evaluation, basis: Basis, events: seq<Event>) {
    if !Admitted(ref.kind == "collection", routing, plan) then Refused(ref.kind == "collection", routing, plan, a) && events == []
    else
      && Founded(BatchPlanner.RefKey(ref), routing.expected, visible, a.strategy, e, basis)
      && Conducted(ref, routing.expected, plan.strategy, official, visible, a.strategy, a.fallback, basis, events)
      && Adjusted(routing.expected, visible, e, a)
      && (if a.strategy == MetadataCheck && basis.LegacyBasis? then a.differences == e.differences
          else Shows(routing.expected, visible, e, a.differences))
      && a.findings == FindingsFor(a.differences)
      && a.sharded && a.expected == routing.expected && a.state != Skipped && a.coverage != NotApplicable
  }

  // ----- what the course of an audit means -----

  /** A failed metadata check ends the audit exactly if it ran into a timeout or a cancellation is noticed
      right after it; otherwise a legacy strategy decides. */
  lemma MetadataFailureEnds(ref: BatchPlanner.Ref, expected: seq<string>, official: Official, visible: Reply<Visibility>,
                            final: Strategy, fallback: Fallback, basis: Basis, events: seq<Event>)
    requires Conducted(ref, expected, MetadataCheck, official, visible, final, fallback, basis, events)
    requires ReplyOf(official, events).Err?
    ensures ReplyOf(official, events).error == Timeout || events[Opened(official)] == Checked(true) <==> final == MetadataCheck
    ensures final != MetadataCheck ==> final == IndexStats || final == DirectListIndexes
    ensures final == MetadataCheck ==> basis.LegacyBasis? && basis.evidence.NoEvidence? && |events| == Opened(official) + 1
  {
    hide OpeningOf, StatsDecide, DirectCourse, ShardsNamed, ReasonOf, ShardsSeen;
  }

  /** Direct reads decide only where `$indexStats` was not asked or did not name every expected shard. */
  lemma StatsComeFirst(expected: seq<string>, start: Strategy, before: Fallback, final: Strategy, fallback: Fallback,
                       evidence: Evidence, events: seq<Event>)
    requires LegacyCourse(expected, start, before, final, fallback, evidence, events)
    ensures final == DirectListIndexes && start != DirectListIndexes ==>
              && events[0].AskedStats? && !StatsDecide(expected, events[0].entries)
              && events[0].entries != Err(Timeout) && events[1] == Checked(false)
    ensures final != DirectListIndexes && evidence.Evidence? ==> final == IndexStats && StatsDecide(expected, events[0].entries)
  {
    hide StatsDecide, DirectCourse, ShardsNamed, ReasonOf;
  }

  lemma OfficialFounded(namespace: string, expected: seq<string>, visible: Reply<Visibility>, e: Evaluation, issues: seq<Issue>)
    requires IsOfficialEvaluation(namespace, expected, ShardsSeen(visible), issues, e)
    ensures Founded(namespace, expected, visible, MetadataCheck, e, OfficialBasis(issues))
  {
    hide IsOfficialEvaluation;
  }

  lemma LegacyFounded(namespace: string, expected: seq<string>, visible: Reply<Visibility>, strategy: Strategy, e: Evaluation, evidence: Evidence)
    requires Rests(expected, BuildsSeen(visible), strategy, e, evidence) && (evidence.Evidence? ==> strategy != MetadataCheck)
    ensures Founded(namespace, expected, visible, strategy, e, LegacyBasis(evidence))
  {
    hide Rests;
  }

  /** The evidence is the end of the log. */
  ghost predicate OnRecord(events: seq<Event>, evidence: Evidence) {
    evidence.Evidence? ==>
      var n := |evidence.initial + evidence.again|;
      n <= |events| && events[|events| - n..] == evidence.initial + evidence.again
  }

  /** Where an audit started and ended is what its fallback tells, and what a legacy verdict rests on is
      what was asked last. */
  lemma FallbackTells(ref: BatchPlanner.Ref, expected: seq<string>, start: Strategy, official: Official, visible: Reply<Visibility>,
                      final: Strategy, fallback: Fallback, basis: Basis, events: seq<Event>)
    requires Conducted(ref, expected, start, official, visible, final, fallback, basis, events) && start != NoStrategy
    ensures if final == start then fallback == NoFallback else fallback.Fallback? && fallback.from == start && fallback.to == final
    ensures basis.LegacyBasis? ==> OnRecord(events, basis.evidence)
    ensures AskedVisibility(visible) in events
  {
    hide StatsDecide, InTurn, ShardsNamed, ReasonOf, ShardsSeen, IssuesFor, BatchPlanner.RefKey;
    assert OpeningOf(ref, official, ReplyOf(official, events), visible)[Opened(official) - 1] == AskedVisibility(visible);
    assert events[..Opened(official)][Opened(official) - 1] == AskedVisibility(visible);
  }

  lemma ConductedOfficial(ref: BatchPlanner.Ref, expected: seq<string>, official: Official, reply: Reply<seq<Issue>>,
                          visible: Reply<Visibility>, issues: seq<Issue>)
    requires reply.Ok? && (official.Answered? ==> reply == official.reply)
    requires issues == IssuesFor(BatchPlanner.RefKey(ref), reply.value, official.Answered? && official.databaseScope)
    ensures Conducted(ref, expected, MetadataCheck, official, visible, MetadataCheck, NoFallback, OfficialBasis(issues),
                      OpeningOf(ref, official, reply, visible))
  {
    hide BatchPlanner.RefKey, IssuesFor, LegacyCourse, ShardsSeen;
    var events := OpeningOf(ref, official, reply, visible);
    assert events[..|events|] == events;
  }

  lemma ConductedEarly(ref: BatchPlanner.Ref, expected: seq<string>, official: Official, reply: Reply<seq<Issue>>,
                       visible: Reply<Visibility>, stop: bool)
    requires reply.Err? && (official.Answered? ==> reply == official.reply) && (stop || reply.error == Timeout)
    ensures Conducted(ref, expected, MetadataCheck, official, visible, MetadataCheck, NoFallback,
                      LegacyBasis(NoEvidence(set s | s in ShardsSeen(visible))), OpeningOf(ref, official, reply, visible) + [Checked(stop)])
  {
    hide BatchPlanner.RefKey, IssuesFor, LegacyCourse, ShardsSeen;
    var opening := OpeningOf(ref, official, reply, visible);
    assert (opening + [Checked(stop)])[..|opening|] == opening;
  }

  lemma ConductedFailed(ref: BatchPlanner.Ref, expected: seq<string>, official: Official, reply: Reply<seq<Issue>>,
                        visible: Reply<Visibility>, final: Strategy, fallback: Fallback, evidence: Evidence, more: seq<Event>)
    requires reply.Err? && (official.Answered? ==> reply == official.reply) && reply.error != Timeout
    requires LegacyCourse(expected, IndexStats, Fallback(MetadataCheck, IndexStats, Because(reply.error)), final, fallback, evidence, more)
    ensures Conducted(ref, expected, MetadataCheck, official, visible, final, fallback, LegacyBasis(evidence),
                      OpeningOf(ref, official, reply, visible) + [Checked(false)] + more)
  {
    hide BatchPlanner.RefKey, IssuesFor, LegacyCourse, ShardsSeen;
    var opening := OpeningOf(ref, official, reply, visible);
    var events := opening + [Checked(false)] + more;
    assert events[..|opening|] == opening && events[|opening| + 1..] == more;
  }

  lemma ConductedLegacy(ref: BatchPlanner.Ref, expected: seq<string>, start: Strategy, official: Official, reply: Reply<seq<Issue>>,
                        visible: Reply<Visibility>, final: Strategy, fallback: Fallback, evidence: Evidence, more: seq<Event>)
    requires start != MetadataCheck && (official.Answered? ==> reply == official.reply)
    requires LegacyCourse(expected, start, NoFallback, final, fallback, evidence, more)
    ensures Conducted(ref, expected, start, official, visible, final, fallback, LegacyBasis(evidence),
                      OpeningOf(ref, official, reply, visible) + more)
  {
    hide BatchPlanner.RefKey, IssuesFor, LegacyCourse, ShardsSeen;
    var opening := OpeningOf(ref, official, reply, visible);
    assert (opening + more)[..|opening|] == opening && (opening + more)[|opening|..] == more;
  }

  lemma SeenAre(visible: Reply<Visibility>, observed: seq<string>, builds: seq<string>)
    requires observed == if visible.Ok? then visible.value.shards else []
    requires builds == if visible.Ok? then visible.value.builds else []
    ensures observed == ShardsSeen(visible) && builds == BuildsSeen(visible)
  {
  }

  /** `auditIndexConsistencyCollection`. The ghost results are what the verdict rests on. */
  method AuditCollection(ref: BatchPlanner.Ref, routing: Routing, plan: Plan, official: Official, source: Source)
    returns (a: Audit, ghost visible: Reply<Visibility>, ghost e: Evaluation, ghost basis: Basis, ghost events: seq<Event>)
    requires Admitted(ref.kind == "collection", routing, plan) ==>
               plan.strategy != NoStrategy && (official.Pending? ==> plan.strategy == MetadataCheck)
    modifies source
    ensures Extends(source.log, old(source.log), events)
    ensures Disciplined(false, events) && TimeoutStops(events)
    ensures Audited(ref, routing, plan, official, a, visible, e, basis, events)
    ensures a.state == Inconsistent <==> Warns(a.findings)
    ensures a.state == Consistent ==> a.sharded && a.expected != [] && a.coverage == Complete && a.observed == a.expected
                                      && a.differences == [] && a.findings == []
  {
    hide Disciplined, Noticed, TimeoutStops, TimedOut, Rests, Coherent, FindingsFor, Visible, IssuesFor, IsOfficialEvaluation,
         BatchPlanner.RefKey, Adjusted, Founded, Refused, Warns, ShardsSeen, BuildsSeen, OpeningOf, Conducted, LegacyCourse, Shows, IsIncomplete;
    events := [];
    NothingYet();
    var namespace := BatchPlanner.RefKey(ref);
    var gate := PassGates(ref.kind == "collection", routing, plan);
    if gate.Closed? {
      GatesAreCalm(ref.kind == "collection", routing, plan, gate.audit);
      a := gate.audit;
      visible, e, basis := Err(Failed), NOTHING_EXPECTED, OfficialBasis([]);
      return;
    }
    var expected, strategy, fallback := routing.expected, plan.strategy, NoFallback;
    var reply, databaseScope, view, verdict;
    reply, databaseScope, view, events := Opening(ref, official, source);
    visible := view;
    var observed, builds := if view.Ok? then view.value.shards else [], if view.Ok? then view.value.builds else [];
    SeenAre(view, observed, builds);
    if strategy == MetadataCheck && reply.Ok? {
      var issues := SelectIssues(namespace, reply.value, databaseScope);
      verdict := EvaluateOfficial(namespace, expected, observed, issues);
      OfficialCoherent(namespace, expected, ShardsSeen(view), issues, verdict);
      basis := OfficialBasis(issues);
      OfficialFounded(namespace, expected, view, verdict, issues);
      ConductedOfficial(ref, expected, official, reply, view, issues);
    } else {
      ghost var opening := events;
      if strategy == MetadataCheck {
        var stop := source.Check();
        CheckAfter(events, stop);
        events := events + [Checked(stop)];
        if stop || reply.error == Timeout {
          verdict := IncompleteEvaluation(expected, set s | s in observed);
          RestsOnNothing(expected, BuildsSeen(view), strategy, verdict, set s | s in ShardsSeen(view));
          EarlyIsCoherent(expected, view, verdict);
          a := FinishEarly(expected, verdict);
          e, basis := verdict, LegacyBasis(NoEvidence(set s | s in ShardsSeen(view)));
          LegacyFounded(namespace, expected, view, strategy, verdict, basis.evidence);
          ConductedEarly(ref, expected, official, reply, view, stop);
          return;
        }
        fallback, strategy := Fallback(strategy, IndexStats, Because(reply.error)), IndexStats;
      }
      ghost var more;
      ghost var evidence;
      verdict, strategy, fallback, evidence, more := CollectLegacy(expected, builds, strategy, fallback, source);
      DisciplinedAppend(false, events, more);
      StopsBefore(events, more);
      events := events + more;
      basis := LegacyBasis(evidence);
      LegacyFounded(namespace, expected, view, strategy, verdict, evidence);
      if plan.strategy == MetadataCheck {
        ConductedFailed(ref, expected, official, reply, view, strategy, fallback, evidence, more);
      } else {
        ConductedLegacy(ref, expected, plan.strategy, official, reply, view, strategy, fallback, evidence, more);
      }
    }
    e := verdict;
    a := Finish(expected, view, strategy, fallback, verdict);
    CoherentAudit(expected, a);
  }
}
