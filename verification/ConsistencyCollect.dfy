/** `collectIndexConsistency`: the metadata checks of whole databases, and the audits that rely on them. */
module ConsistencyCollect {
  import opened Sorting
  import opened ConsistencyModel
  import opened ConsistencyEvaluate
  import opened ConsistencyOfficial
  import opened ConsistencySource
  import opened ConsistencyConfirm
  import opened ConsistencyPipeline
  import opened ConsistencyReport
  import opened ConsistencyAudit

  /** A collection whose routing was not collected counts as one whose routing failed. */
  ghost function RoutingOf(routings: map<string, Routing>, ref: BatchPlanner.Ref): Routing {
    var namespace := BatchPlanner.RefKey(ref);
    if namespace in routings then routings[namespace] else RoutingFailed
  }

  ghost predicate Sharded(routing: Routing) { routing.Routing? && routing.sharded }

  ghost predicate SomeSharded(routings: map<string, Routing>) {
    exists n :: n in routings && Sharded(routings[n])
  }

  /** The cluster is only looked at if there is something to compare. */
  method PlanFor(routings: map<string, Routing>, cluster: Plan) returns (plan: Plan)
    ensures plan == if SomeSharded(routings) then cluster else Ready(NoStrategy, {})
  {
    var todo := routings.Keys;
    while todo != {}
      invariant todo <= routings.Keys && forall n :: n in routings && n !in todo ==> !Sharded(routings[n])
      decreases todo
    {
      var n :| n in todo;
      if routings[n].Routing? && routings[n].sharded { return cluster; }
      todo := todo - {n};
    }
    return Ready(NoStrategy, {});
  }

  method Lookup(routings: map<string, Routing>, ref: BatchPlanner.Ref) returns (routing: Routing)
    ensures routing == RoutingOf(routings, ref)
  {
    var namespace := BatchPlanner.RefKey(ref);
    routing := RoutingFailed;
    if namespace in routings { routing := routings[namespace]; }
  }

  ghost function ShardedIn(refs: seq<BatchPlanner.Ref>, routings: map<string, Routing>): set<string> {
    set i | 0 <= i < |refs| && refs[i].kind == "collection" && Sharded(RoutingOf(routings, refs[i])) :: refs[i].database
  }

  method ShardedDatabases(refs: seq<BatchPlanner.Ref>, routings: map<string, Routing>) returns (databases: set<string>)
    ensures databases == ShardedIn(refs, routings)
  {
    hide RoutingOf;
    databases := {};
    for i := 0 to |refs|
      invariant databases == ShardedIn(refs[..i], routings)
    {
      assert refs[..i + 1] == refs[..i] + [refs[i]];
      var routing := Lookup(routings, refs[i]);
      if refs[i].kind == "collection" && routing.Routing? && routing.sharded { databases := databases + {refs[i].database}; }
    }
    assert refs[..|refs|] == refs;
  }

  // ----- the metadata checks of whole databases -----

  /** Each scope is what the server answered about the whole database, and each answer is followed by a
      look at the context. */
  ghost predicate Scoped(asked: seq<string>, scopes: map<string, Official>, events: seq<Event>) {
    && |events| == 2 * |asked| && scopes.Keys == (set d | d in asked)
    && forall j: nat :: j < |asked| ==>
         && scopes[asked[j]].Answered? && scopes[asked[j]].databaseScope
         && events[2 * j] == AskedMetadata(asked[j], "", scopes[asked[j]].reply) && events[2 * j + 1].Checked?
  }

  /** The databases are asked about in order, each once, until a cancellation is noticed. */
  ghost predicate ScopesInTurn(order: seq<string>, scopes: map<string, Official>, events: seq<Event>) {
    && |events| / 2 <= |order| && Scoped(order[..|events| / 2], scopes, events)
    && (forall j :: 0 <= j < |events| - 1 ==> events[j] != Checked(true))
    && (|events| / 2 < |order| ==> events != [] && events[|events| - 1] == Checked(true))
  }

  /** Each scope is what the server answered about the whole database. */
  ghost predicate Filled(scopes: map<string, Official>, events: seq<Event>) {
    forall d :: d in scopes ==>
      scopes[d].Answered? && scopes[d].databaseScope && AskedMetadata(d, "", scopes[d].reply) in events
  }

  lemma OneMoreScope(asked: seq<string>, scopes: map<string, Official>, events: seq<Event>, d: string, reply: Reply<seq<Issue>>, stop: bool)
    requires Scoped(asked, scopes, events) && d !in asked
    ensures Scoped(asked + [d], scopes[d := Official.Answered(reply, true)], events + [AskedMetadata(d, "", reply)] + [Checked(stop)])
  {
  }

  lemma ScopedIsFilled(asked: seq<string>, scopes: map<string, Official>, events: seq<Event>)
    requires Scoped(asked, scopes, events)
    ensures Filled(scopes, events)
  {
    forall d | d in scopes
      ensures scopes[d].Answered? && scopes[d].databaseScope && AskedMetadata(d, "", scopes[d].reply) in events
    {
      var j: nat :| j < |asked| && asked[j] == d;
      assert events[2 * j] in events;
    }
  }

  lemma ScopesSoFar(order: seq<string>, i: nat, scopes: map<string, Official>, events: seq<Event>)
    requires i <= |order| && Scoped(order[..i], scopes, events)
    requires forall j :: 0 <= j < |events| - 1 ==> events[j] != Checked(true)
    requires i < |order| ==> events != [] && events[|events| - 1] == Checked(true)
    ensures ScopesInTurn(order, scopes, events)
  {
    hide Scoped;
    assert |events| == 2 * i by { ScopedLength(order[..i], scopes, events); }
  }

  lemma ScopedLength(asked: seq<string>, scopes: map<string, Official>, events: seq<Event>)
    requires Scoped(asked, scopes, events)
    ensures |events| == 2 * |asked|
  {
  }

  lemma AllScoped(databases: set<string>, order: seq<string>, scopes: map<string, Official>, events: seq<Event>)
    requires order == SortedKeys(databases) && Scoped(order, scopes, events)
    ensures scopes.Keys == databases
  {
    KeysOnce(databases);
    forall d
      ensures d in scopes <==> d in databases
    {
      assert d in order <==> d in multiset(order);
    }
  }

  lemma KeysOnce(keys: set<string>)
    ensures multiset(SortedKeys(keys)) == multiset(keys)
    ensures forall i, j :: 0 <= i < j < |SortedKeys(keys)| ==> SortedKeys(keys)[i] != SortedKeys(keys)[j]
  {
    var r := SortedKeys(keys);
    forall i, j | 0 <= i < j < |r|
      ensures r[i] != r[j]
    {
      assert r == r[..j] + [r[j]] + r[j + 1..];
      assert multiset(r)[r[j]] >= multiset(r[..j])[r[j]] + 1;
      assert r[i] in r[..j];
    }
  }

  method AskDatabase(database: string, source: Source, ghost events: seq<Event>)
    returns (reply: Reply<seq<Issue>>, stop: bool, ghost now: seq<Event>)
    requires Disciplined(false, events) && !Noticed(false, events)
    modifies source
    ensures now == events + [AskedMetadata(database, "", reply)] + [Checked(stop)]
    ensures source.log == old(source.log) + [AskedMetadata(database, "", reply)] + [Checked(stop)]
    ensures Disciplined(false, now) && (Noticed(false, now) <==> stop) && (stop ==> source.cancelled)
    ensures forall j :: 0 <= j < |now| - 1 ==> now[j] != Checked(true)
  {
    hide Disciplined, Noticed;
    reply := source.Metadata(database, "");
    AskNext(false, events, AskedMetadata(database, "", reply));
    now := events + [AskedMetadata(database, "", reply)];
    NotNoticed(now);
    stop := source.Check();
    Looked(false, now, stop);
    now := now + [Checked(stop)];
  }

  /** The loop over the databases, which a cancellation cuts short. */
  method DatabaseScopes(databases: set<string>, source: Source) returns (scopes: map<string, Official>, ghost events: seq<Event>)
    modifies source
    ensures Extends(source.log, old(source.log), events) && Disciplined(false, events)
    ensures ScopesInTurn(SortedKeys(databases), scopes, events) && Filled(scopes, events)
    ensures scopes.Keys == databases || source.cancelled
  {
    hide Disciplined, Noticed, SortedKeys, Scoped, ScopesInTurn, Filled;
    scopes, events := map[], [];
    NothingYet();
    NothingScoped();
    KeysOnce(databases);
    var order := MapKeys(databases);
    for i := 0 to |order|
      invariant source.log == old(source.log) + events && Disciplined(false, events) && !Noticed(false, events)
      invariant Scoped(order[..i], scopes, events)
    {
      var d := order[i];
      var reply, stop;
      ghost var before := events;
      reply, stop, events := AskDatabase(d, source, events);
      assert order[..i + 1] == order[..i] + [d];
      OneMoreScope(order[..i], scopes, before, d, reply, stop);
      scopes := scopes[d := Official.Answered(reply, true)];
      if stop {
        ScopesSoFar(order, i + 1, scopes, events);
        ScopedIsFilled(order[..i + 1], scopes, events);
        return;
      }
    }
    assert order[..|order|] == order;
    NotNoticed(events);
    ScopesSoFar(order, |order|, scopes, events);
    ScopedIsFilled(order, scopes, events);
    AllScoped(databases, order, scopes, events);
  }

  lemma NothingScoped()
    ensures Scoped([], map[], [])
  {
  }

  lemma NotNoticed(events: seq<Event>)
    requires !Noticed(false, events)
    ensures forall j :: 0 <= j < |events| ==> events[j] != Checked(true)
  {
  }

  // ----- one audit after the other -----

  /** What an audit rests on. */
  datatype Ground = Ground(official: Official, visible: Reply<Visibility>, e: Evaluation, basis: Basis, events: seq<Event>)

  /** The check that an admitted collection is given: if whole databases are audited, what the server answered
      about its database, and otherwise none yet. */
  ghost predicate RightScope(ref: BatchPlanner.Ref, plan: Plan, wholeDatabases: bool, opening: seq<Event>, official: Official) {
    if plan.Ready? && plan.strategy == MetadataCheck then
      if wholeDatabases then official.Answered? && official.databaseScope && AskedMetadata(ref.database, "", official.reply) in opening
      else official.Pending?
    else official.Answered?
  }

  ghost predicate Sound(ref: BatchPlanner.Ref, routing: Routing, plan: Plan, wholeDatabases: bool, opening: seq<Event>, a: Audit, g: Ground) {
    && (a.state == Inconsistent <==> Warns(a.findings))
    && (Admitted(ref.kind == "collection", routing, plan) ==> RightScope(ref, plan, wholeDatabases, opening, g.official))
    && Audited(ref, routing, plan, g.official, a, g.visible, g.e, g.basis, g.events)
    && Disciplined(false, g.events) && TimeoutStops(g.events)
  }

  /** The context is looked at before each audit. */
  ghost function Audits(grounds: seq<Ground>): seq<Event> {
    if grounds == [] then [] else Audits(grounds[..|grounds| - 1]) + [Checked(false)] + grounds[|grounds| - 1].events
  }

  /** A collection that is admitted has a strategy, and if it needs the check of its database it has it. */
  lemma ScopeFits(refs: seq<BatchPlanner.Ref>, i: nat, routings: map<string, Routing>, cluster: Plan, plan: Plan)
    requires i < |refs| && Admitted(refs[i].kind == "collection", RoutingOf(routings, refs[i]), plan)
    requires cluster.Ready? ==> cluster.strategy != NoStrategy
    requires plan == if SomeSharded(routings) then cluster else Ready(NoStrategy, {})
    ensures plan.Ready? && plan.strategy != NoStrategy
    ensures refs[i].database in ShardedIn(refs, routings)
  {
    hide BatchPlanner.RefKey;
    var namespace := BatchPlanner.RefKey(refs[i]);
    assert namespace in routings && Sharded(routings[namespace]);
  }

  /** The check that a collection gets. */
  method ScopeFor(scopes: map<string, Official>, plan: Plan, wholeDatabases: bool, ref: BatchPlanner.Ref, ghost opening: seq<Event>)
    returns (official: Official)
    requires Filled(scopes, opening)
    ensures if plan.Ready? && plan.strategy == MetadataCheck && wholeDatabases && ref.database !in scopes
            then official == Official.Answered(Ok([]), false) else RightScope(ref, plan, wholeDatabases, opening, official)
  {
    official := Official.Answered(Ok([]), false);
    if plan.Ready? && plan.strategy == MetadataCheck {
      if wholeDatabases {
        if ref.database in scopes { official := scopes[ref.database]; }
      } else {
        official := Pending;
      }
    }
  }

  /** `collectIndexConsistency`, one collection after the other. If the loop over the databases was cut
      short, the slot that every audit needs is refused, so none relies on a check that was not made. */
  method CollectConsistency(refs: seq<BatchPlanner.Ref>, routings: map<string, Routing>, cluster: Plan, wholeDatabases: bool, source: Source)
    returns (audits: seq<Audit>, ghost plan: Plan, ghost opening: seq<Event>, ghost grounds: seq<Ground>)
    requires cluster.Ready? ==> cluster.strategy != NoStrategy
    modifies source
    ensures plan == if SomeSharded(routings) then cluster else Ready(NoStrategy, {})
    ensures Disciplined(false, opening)
    ensures if plan.Ready? && plan.strategy == MetadataCheck && wholeDatabases
            then exists scopes :: ScopesInTurn(SortedKeys(ShardedIn(refs, routings)), scopes, opening) else opening == []
    ensures |audits| == |grounds| <= |refs| && (|audits| < |refs| ==> source.cancelled)
    ensures forall i :: 0 <= i < |audits| ==>
              Sound(refs[i], RoutingOf(routings, refs[i]), plan, wholeDatabases, opening, audits[i], grounds[i])
    ensures source.log == old(source.log) + opening + Audits(grounds) + if |audits| < |refs| then [Checked(true)] else []
  {
    hide Disciplined, RoutingOf, SomeSharded, ShardedIn, Sound, Audited, Admitted, BatchPlanner.RefKey, TimeoutStops, Warns, SortedKeys,
         ScopesInTurn, Filled, RightScope, Audits;
    var chosen := PlanFor(routings, cluster);
    plan, audits, grounds, opening := chosen, [], [], [];
    NothingYet();
    NothingAudited();
    var scopes: map<string, Official> := map[];
    ghost var needed: set<string> := {};
    if chosen.Ready? && chosen.strategy == MetadataCheck && wholeDatabases {
      var databases := ShardedDatabases(refs, routings);
      needed := databases;
      scopes, opening := DatabaseScopes(databases, source);
    }
    for i := 0 to |refs|
      invariant |audits| == |grounds| == i
      invariant source.log == old(source.log) + opening + Audits(grounds)
      invariant needed <= scopes.Keys || (i == 0 && source.cancelled)
      invariant forall k :: 0 <= k < i ==>
                  Sound(refs[k], RoutingOf(routings, refs[k]), plan, wholeDatabases, opening, audits[k], grounds[k])
    {
      var stop := source.Check();
      if stop { return; }
      var ref := refs[i];
      var routing := Lookup(routings, ref);
      var official := ScopeFor(scopes, chosen, wholeDatabases, ref, opening);
      if Admitted(ref.kind == "collection", routing, plan) {
        ScopeFits(refs, i, routings, cluster, plan);
        ScopeIsReady(ref, plan, wholeDatabases, opening, official);
      }
      var a;
      ghost var visible, e, basis, events;
      a, visible, e, basis, events := AuditCollection(ref, routing, chosen, official, source);
      ghost var g := Ground(official, visible, e, basis, events);
      AuditIsSound(ref, routing, plan, wholeDatabases, opening, a, g);
      OneMoreAudit(grounds, g);
      audits, grounds := audits + [a], grounds + [g];
    }
  }

  lemma NothingAudited()
    ensures Audits([]) == [] && Filled(map[], [])
  {
  }

  lemma OneMoreAudit(grounds: seq<Ground>, g: Ground)
    ensures Audits(grounds + [g]) == Audits(grounds) + [Checked(false)] + g.events
  {
    assert (grounds + [g])[..|grounds|] == grounds;
  }

  lemma ScopeIsReady(ref: BatchPlanner.Ref, plan: Plan, wholeDatabases: bool, opening: seq<Event>, official: Official)
    requires RightScope(ref, plan, wholeDatabases, opening, official)
    ensures official.Pending? ==> plan.Ready? && plan.strategy == MetadataCheck
  {
  }

  lemma AuditIsSound(ref: BatchPlanner.Ref, routing: Routing, plan: Plan, wholeDatabases: bool, opening: seq<Event>, a: Audit, g: Ground)
    requires a.state == Inconsistent <==> Warns(a.findings)
    requires Admitted(ref.kind == "collection", routing, plan) ==> RightScope(ref, plan, wholeDatabases, opening, g.official)
    requires Audited(ref, routing, plan, g.official, a, g.visible, g.e, g.basis, g.events)
    requires Disciplined(false, g.events) && TimeoutStops(g.events)
    ensures Sound(ref, routing, plan, wholeDatabases, opening, a, g)
  {
    hide Audited, RightScope, Disciplined, TimeoutStops, Warns, Admitted;
  }

  // ----- what an official verdict says -----

  /** The issues behind an official verdict are what the server answered about the collection, or what it
      answered about the database and the namespace. */
  ghost predicate FromServer(ref: BatchPlanner.Ref, wholeDatabases: bool, opening: seq<Event>, g: Ground) {
    g.basis.OfficialBasis? ==>
      if wholeDatabases then
        exists answer :: AskedMetadata(ref.database, "", Ok(answer)) in opening
                         && g.basis.issues == IssuesFor(BatchPlanner.RefKey(ref), answer, true)
      else AskedMetadata(ref.database, ref.collection, Ok(g.basis.issues)) in g.events
  }

  lemma OfficialIsTheServers(ref: BatchPlanner.Ref, routing: Routing, plan: Plan, wholeDatabases: bool, opening: seq<Event>, a: Audit, g: Ground)
    requires Sound(ref, routing, plan, wholeDatabases, opening, a, g) && Admitted(ref.kind == "collection", routing, plan)
    ensures FromServer(ref, wholeDatabases, opening, g)
  {
    hide Founded, Adjusted, Shows, FindingsFor, LegacyCourse, BatchPlanner.RefKey, Disciplined, TimeoutStops, Warns, ShardsSeen;
    if g.basis.OfficialBasis? {
      var reply := ReplyOf(g.official, g.events);
      if wholeDatabases {
        assert AskedMetadata(ref.database, "", Ok(reply.value)) in opening;
      } else {
        assert OpeningOf(ref, g.official, reply, g.visible)[0] == AskedMetadata(ref.database, ref.collection, reply);
        assert g.events[..Opened(g.official)][0] == g.events[0] && g.events[0] in g.events;
      }
    }
  }

  /** A collection is called consistent on a metadata check only if the check was made, was answered, and
      found nothing about the indexes of the collection, on shards that were all seen. */
  lemma ConsistentWasChecked(ref: BatchPlanner.Ref, routing: Routing, plan: Plan, wholeDatabases: bool, opening: seq<Event>, a: Audit, g: Ground)
    requires Sound(ref, routing, plan, wholeDatabases, opening, a, g)
    requires a.state == Consistent && a.strategy == MetadataCheck
    ensures g.basis.OfficialBasis? && AllDifferences(BatchPlanner.RefKey(ref), routing.expected, g.basis.issues) == []
    ensures Visible(routing.expected, g.visible)
    ensures if wholeDatabases then exists answer :: AskedMetadata(ref.database, "", Ok(answer)) in opening
                                                    && g.basis.issues == IssuesFor(BatchPlanner.RefKey(ref), answer, true)
            else AskedMetadata(ref.database, ref.collection, Ok(g.basis.issues)) in g.events
  {
    hide Visible, IssuesFor, BatchPlanner.RefKey, IsOfficialEvaluation, Warns, FromServer, RightScope, Founded,
         Conducted, Shows, FindingsFor, Disciplined, TimeoutStops;
    OfficialIfMetadata(ref, routing, g, a);
    OfficialIsTheServers(ref, routing, plan, wholeDatabases, opening, a, g);
    NothingOfficial(BatchPlanner.RefKey(ref), routing.expected, ShardsSeen(g.visible), g.basis.issues, g.e);
    OfficialSource(ref, wholeDatabases, opening, g);
  }

  lemma OfficialSource(ref: BatchPlanner.Ref, wholeDatabases: bool, opening: seq<Event>, g: Ground)
    requires FromServer(ref, wholeDatabases, opening, g) && g.basis.OfficialBasis?
    ensures if wholeDatabases then exists answer :: AskedMetadata(ref.database, "", Ok(answer)) in opening
                                                    && g.basis.issues == IssuesFor(BatchPlanner.RefKey(ref), answer, true)
            else AskedMetadata(ref.database, ref.collection, Ok(g.basis.issues)) in g.events
  {
    hide IssuesFor, BatchPlanner.RefKey;
  }

  lemma OfficialIfMetadata(ref: BatchPlanner.Ref, routing: Routing, g: Ground, a: Audit)
    requires routing.Routing? && Founded(BatchPlanner.RefKey(ref), routing.expected, g.visible, a.strategy, g.e, g.basis)
    requires a.strategy == MetadataCheck && g.e.state == Consistent
    ensures g.basis.OfficialBasis? && IsOfficialEvaluation(BatchPlanner.RefKey(ref), routing.expected, ShardsSeen(g.visible), g.basis.issues, g.e)
  {
    hide IsOfficialEvaluation, BatchPlanner.RefKey, FirstFrom, IsEvaluation, Rechecked;
  }

  lemma NothingOfficial(namespace: string, expected: seq<string>, observed: seq<string>, issues: seq<Issue>, e: Evaluation)
    requires IsOfficialEvaluation(namespace, expected, observed, issues, e) && e.state == Consistent
    ensures AllDifferences(namespace, expected, issues) == []
  {
    hide AllDifferences, Reports, FindingsFor, OfficialGap;
    var ds := AllDifferences(namespace, expected, issues);
    assert ds != [] ==> ds[0] in ds;
    OnlyKinds(namespace, expected, issues);
  }

  /** Without that, a scope that was never filled would pass for a clean one. */
  lemma UnmadeCheckPasses(namespace: string, expected: seq<string>, observed: seq<string>, e: Evaluation)
    requires IsOfficialEvaluation(namespace, expected, observed, IssuesFor(namespace, [], false), e)
    ensures e.state == Consistent <==> !OfficialGap(expected, observed)
  {
    hide OfficialGap, Reports;
    NoDifferences();
  }
}
