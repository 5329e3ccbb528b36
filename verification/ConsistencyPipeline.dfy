/** `auditIndexConsistencyCollection`: the fallback chain from the server's metadata check over
    `$indexStats` to direct reads, and what holds of its verdict whatever the source answers. */
module ConsistencyPipeline {
  import opened ConsistencyModel
  import opened ConsistencyCompare
  import opened ConsistencyCandidates
  import opened ConsistencyEvaluate
  import opened ConsistencyVerdict
  import opened ConsistencyOfficial
  import opened ConsistencySource

  datatype Strategy = NoStrategy | DirectListIndexes | IndexStats | MetadataCheck

  datatype Reason = IncompleteCoverage | Because(error: Failure)

  datatype Fallback = NoFallback | Fallback(from: Strategy, to: Strategy, reason: Reason)

  /** The routing baseline of a collection. */
  datatype Routing = RoutingFailed | Routing(sharded: bool, expected: seq<string>)

  /** What was decided for the whole cluster before the collections are audited. */
  datatype Plan = UnsupportedVersion | TargetsFailed | Ready(strategy: Strategy, targets: set<string>)

  /** The metadata check of the database, already made or still to be made for this collection. */
  datatype Official = Pending | Answered(reply: Reply<seq<Issue>>, databaseScope: bool)

  datatype Audit = Audit(
    sharded: bool, state: State, coverage: Coverage, strategy: Strategy, fallback: Fallback,
    expected: seq<string>, observed: seq<string>, differences: seq<Difference>, findings: seq<Finding>)

  // ----- evaluations that make sense on their own -----

  ghost predicate Warns(findings: seq<Finding>) {
    exists f :: f in findings && f.severity == Warning
  }

  /** What every evaluation keeps, on every path of the pipeline. */
  ghost predicate Coherent(expected: seq<string>, e: Evaluation) {
    && (e.state == Inconsistent <==> Warns(e.findings))
    && (e.state == Consistent ==> e.coverage == Complete && e.observed == expected && e.differences == [] && e.findings == [])
    && (e.state == Consistent || e.state == Inconsistent || e.state == Unclear)
    && e.coverage != NotApplicable
    && e.findings == FindingsFor(e.differences)
  }

  ghost predicate Alarming(ds: seq<Difference>) {
    exists d :: d in ds && SeverityOf(d.code) == Warning
  }

  lemma WarnsIfAlarming(ds: seq<Difference>)
    ensures Warns(FindingsFor(ds)) <==> Alarming(ds)
  {
    hide FindingsFor;
    if f :| f in FindingsFor(ds) && f.severity == Warning {
      FindingsMembers(ds, f);
    }
    if d :| d in ds && SeverityOf(d.code) == Warning {
      FindingsMembers(ds, FindingOf(d));
    }
  }

  lemma SingleFinding(d: Difference)
    ensures FindingsFor([d]) == [FindingOf(d)]
  {
    assert FindingsOf([d])[1..] == [];
    assert FindingsOf([d]) == [FindingOf(d)];
  }

  lemma LegacyCoherent(expected: seq<string>, first: Observations, second: Reread, e: Evaluation)
    requires IsEvaluation(expected, first, second, e)
    ensures Coherent(expected, e)
  {
    hide FindingsFor, StateOf, CoverageOf, Reports, Compared;
    VerdictMatchesFindings(expected, first, second, e);
    SingleFinding(InconclusiveOn([]));
    LegacyStates(expected, first, second);
  }

  lemma LegacyStates(expected: seq<string>, first: Observations, second: Reread)
    ensures StateOf(expected, first, second) in {Consistent, Inconsistent, Unclear}
  {
    hide Stable, AllBuilding, Changed, CoverageOf;
  }

  lemma OfficialCoherent(namespace: string, expected: seq<string>, observed: seq<string>, issues: seq<Issue>, e: Evaluation)
    requires IsOfficialEvaluation(namespace, expected, observed, issues, e)
    ensures Coherent(expected, e)
  {
    hide FindingsFor, Reports, AllDifferences;
    OfficialVerdictMatchesFindings(namespace, expected, observed, issues, e);
  }

  // ----- evaluations that are adjusted -----

  /** No verdict, and the one difference that it is unknown what the shards that were not observed hold. */
  ghost predicate IsIncomplete(expected: seq<string>, observed: set<string>, e: Evaluation) {
    && e.state == Unclear && e.coverage == Incomplete && e.observed == Present(expected, observed)
    && e.differences == [InconclusiveOn(Absent(expected, observed))] && e.findings == FindingsFor(e.differences)
  }

  /** `incompleteConsistencyEvaluation`. */
  method IncompleteEvaluation(expected: seq<string>, observed: set<string>) returns (e: Evaluation)
    ensures Coherent(expected, e) && IsIncomplete(expected, observed, e)
  {
    var missing := AbsentShards(expected, observed);
    var present := PresentShards(expected, observed);
    var d := Difference(Inconclusive, "", missing, [], "", [], "");
    e := Evaluation(Unclear, Incomplete, present, [d], [FindingOf(d)]);
    SingleFinding(d);
  }

  lemma NormalAlarm(ds: seq<Difference>)
    ensures Alarming(NormalizeAndSort(ds)) <==> Alarming(ds)
  {
    hide NormalizeAndSort, FindingsFor;
    if d :| d in ds && SeverityOf(d.code) == Warning {
      NormalizeMembers(ds, d.code);
      var x :| x in NormalizeAndSort(ds) && x.code == d.code;
    }
    if d :| d in NormalizeAndSort(ds) && SeverityOf(d.code) == Warning {
      NormalizeMembers(ds, d.code);
      var x :| x in ds && x.code == d.code;
    }
  }

  lemma AlarmingAppend(a: seq<Difference>, b: seq<Difference>)
    ensures Alarming(a + b) <==> Alarming(a) || Alarming(b)
  {
    assert forall d :: d in a + b <==> d in a || d in b;
  }

  ghost predicate ReportsDoubt(ds: seq<Difference>) {
    exists d :: d in ds && d.code == Inconclusive
  }

  /** `applyConsistencyCoverageGap`. */
  method ApplyCoverageGap(expected: seq<string>, e: Evaluation, missing: seq<string>) returns (r: Evaluation)
    requires Coherent(expected, e)
    ensures Coherent(expected, r)
    ensures r.coverage == Incomplete && r.observed == e.observed
    ensures r.state == if e.state == Inconsistent then Inconsistent else Unclear
    ensures ReportsDoubt(r.differences)
    ensures r.differences == if ReportsDoubt(e.differences) then e.differences
                             else NormalizeAndSort(e.differences + [InconclusiveOn(missing)])
  {
    hide NormalizeAndSort, FindingsFor;
    r := e.(coverage := Incomplete, state := if e.state != Inconsistent then Unclear else Inconsistent);
    for i := 0 to |e.differences|
      invariant forall j :: 0 <= j < i ==> e.differences[j].code != Inconclusive
    {
      if e.differences[i].code == Inconclusive { return; }
    }
    var raw := e.differences + [Difference(Inconclusive, "", missing, [], "", [], "")];
    var differences := NormalizeAndSort(raw);
    r := r.(differences := differences, findings := FindingsFor(differences));
    NormalAlarm(raw);
    AlarmingAppend(e.differences, [InconclusiveOn(missing)]);
    WarnsIfAlarming(differences);
    WarnsIfAlarming(e.differences);
    NormalizeMembers(raw, Inconclusive);
    assert raw[|e.differences|] in raw;
  }

  /** The builds that get a difference of their own. */
  ghost function NewBuilds(known: set<string>, builds: seq<string>): seq<Difference> {
    if builds == [] then []
    else
      var rest, name := NewBuilds(known, builds[..|builds| - 1]), builds[|builds| - 1];
      if name == "" || name in known || name in builds[..|builds| - 1] then rest else rest + [Building(name)]
  }

  ghost function KnownBuilds(ds: seq<Difference>): set<string> {
    set d | d in ds && d.code == BuildInProgress :: d.indexName
  }

  lemma {:induction false} NewBuildsCalm(known: set<string>, builds: seq<string>)
    ensures !Alarming(NewBuilds(known, builds))
  {
    if builds != [] { NewBuildsCalm(known, builds[..|builds| - 1]); }
  }

  /** `applyCollectionIndexBuilds`. */
  method ApplyIndexBuilds(expected: seq<string>, e: Evaluation, builds: seq<string>) returns (r: Evaluation)
    requires Coherent(expected, e)
    ensures Coherent(expected, r)
    ensures builds == [] ==> r == e
    ensures builds != [] ==>
      && r.coverage == e.coverage && r.observed == e.observed
      && r.state == (if e.state == Consistent then Unclear else e.state)
      && r.differences == NormalizeAndSort(e.differences + NewBuilds(KnownBuilds(e.differences), builds))
  {
    hide NormalizeAndSort, FindingsFor;
    r := e;
    if |builds| == 0 { return; }
    ghost var known := KnownBuilds(e.differences);
    var existing: set<string> := {};
    for i := 0 to |e.differences|
      invariant existing == KnownBuilds(e.differences[..i])
    {
      assert e.differences[..i + 1] == e.differences[..i] + [e.differences[i]];
      if e.differences[i].code == BuildInProgress { existing := existing + {e.differences[i].indexName}; }
    }
    assert e.differences[..|e.differences|] == e.differences;
    var added: seq<Difference> := [];
    for i := 0 to |builds|
      invariant added == NewBuilds(known, builds[..i])
      invariant forall n :: n in existing <==> n in known || (n in builds[..i] && n != "")
    {
      assert builds[..i + 1] == builds[..i] + [builds[i]];
      assert builds[..i + 1][..i] == builds[..i];
      var name := builds[i];
      if name != "" && name !in existing {
        added := added + [Difference(BuildInProgress, name, [], [], "", [], "")];
        existing := existing + {name};
      }
    }
    assert builds[..|builds|] == builds;
    var differences := NormalizeAndSort(e.differences + added);
    r := e.(state := if e.state == Consistent then Unclear else e.state,
            differences := differences, findings := FindingsFor(differences));
    NewBuildsCalm(known, builds);
    NormalAlarm(e.differences + added);
    AlarmingAppend(e.differences, added);
    WarnsIfAlarming(differences);
    WarnsIfAlarming(e.differences);
  }
}
