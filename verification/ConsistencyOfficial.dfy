/** `evaluateOfficialIndexConsistency`: the verdict drawn from the server's own metadata check. */
module ConsistencyOfficial {
  import opened Text
  import opened Sorting
  import opened ConsistencyModel
  import opened ConsistencyCompare
  import opened ConsistencyCandidates
  import opened ConsistencyEvaluate
  import opened ConsistencyExactness
  import opened ConsistencyVerdict
  import opened ConsistencyOrder

  /** One inconsistency reported by the server. */
  datatype Issue = Issue(
    sourceType: string, namespace: string, indexName: string, missingFrom: seq<string>,
    fields: seq<string>, propertiesDiffer: bool, shard: string, fingerprint: string)

  const NON_INDEX_TYPES := {
    "CollectionAuxiliaryMetadataMismatch", "CollectionOptionsMismatch", "CollectionUUIDMismatch",
    "CorruptedChunkShardKey", "CorruptedZoneShardKey", "HiddenShardedCollection", "MisplacedCollection",
    "MissingLocalCollection", "MissingRoutingTable", "RoutingTableMissingMaxKey", "RoutingTableMissingMinKey",
    "RoutingTableRangeGap", "RoutingTableRangeOverlap", "ShardCatalogCacheCollectionMetadataMismatch",
    "TrackedUnshardedCollectionHasInvalidKey", "TrackedUnshardedCollectionHasMultipleChunks", "ZonesRangeOverlap" }

  /** `knownNonIndexMetadataSourceType`. */
  ghost predicate SaysNothingOfIndexes(sourceType: string) { sourceType in NON_INDEX_TYPES }

  ghost predicate ReportsMissing(issue: Issue) { issue.missingFrom != [] }

  ghost predicate ReportsMismatch(issue: Issue) { issue.propertiesDiffer || issue.fields != [] }

  /** The differences that one issue stands for. */
  ghost function IssueDifferences(namespace: string, expected: seq<string>, issue: Issue): seq<Difference> {
    if issue.namespace != "" && issue.namespace != namespace then []
    else if issue.sourceType == "InconsistentIndex" then
      if !ReportsMissing(issue) && !ReportsMismatch(issue) then
        [Difference(Inconclusive, issue.indexName, [], [], "", [], issue.sourceType)]
      else
        (if ReportsMissing(issue) then
           [Difference(MissingOnShard, issue.indexName, issue.missingFrom, [], issue.fingerprint, [], issue.sourceType)]
         else [])
        + (if ReportsMismatch(issue) then
             [Difference(SpecMismatch, issue.indexName, expected, [], issue.fingerprint, issue.fields, issue.sourceType)]
           else [])
    else if issue.sourceType == "MissingShardKeyIndex" || issue.sourceType == "RangeDeletionMissingShardKeyIndex" then
      [Difference(ShardKeySupportMissing, "", if issue.shard != "" then [issue.shard] else [], [], "", [], issue.sourceType)]
    else if SaysNothingOfIndexes(issue.sourceType) then []
    else [Difference(Inconclusive, "", [], [], "", [], issue.sourceType)]
  }

  ghost function AllDifferences(namespace: string, expected: seq<string>, issues: seq<Issue>): seq<Difference> {
    if issues == [] then []
    else AllDifferences(namespace, expected, issues[..|issues| - 1]) + IssueDifferences(namespace, expected, issues[|issues| - 1])
  }

  ghost predicate HasWarning(ds: seq<Difference>) { exists d :: d in ds && SeverityOf(d.code) == Warning }

  ghost predicate HasDoubt(ds: seq<Difference>) { exists d :: d in ds && d.code == Inconclusive }

  ghost function ObservedOf(expected: seq<string>, observed: seq<string>): seq<string> {
    Present(expected, set s | s in observed)
  }

  ghost function UnobservedOf(expected: seq<string>, observed: seq<string>): seq<string> {
    Absent(expected, set s | s in observed)
  }

  ghost predicate OfficialGap(expected: seq<string>, observed: seq<string>) {
    expected == [] || |ObservedOf(expected, observed)| != |expected|
  }

  /** The differences as the code appends them: the visibility gap, then issue by issue. */
  ghost function OfficialRaw(namespace: string, expected: seq<string>, observed: seq<string>, issues: seq<Issue>): seq<Difference> {
    (if OfficialGap(expected, observed) then [InconclusiveOn(UnobservedOf(expected, observed))] else [])
    + AllDifferences(namespace, expected, issues)
  }

  /** What `evaluateOfficialIndexConsistency` promises about its result. */
  ghost predicate IsOfficialEvaluation(namespace: string, expected: seq<string>, observed: seq<string>, issues: seq<Issue>, e: Evaluation) {
    var ds := AllDifferences(namespace, expected, issues);
    && e.coverage == (if OfficialGap(expected, observed) then Incomplete else Complete)
    && e.observed == ObservedOf(expected, observed)
    && e.state == (if HasWarning(ds) then Inconsistent
                   else if OfficialGap(expected, observed) || HasDoubt(ds) then Unclear else Consistent)
    && e.differences == NormalizeAndSort(OfficialRaw(namespace, expected, observed, issues))
    && e.findings == FindingsFor(e.differences)
  }

  ghost predicate Concerns(namespace: string, issue: Issue) { issue.namespace == "" || issue.namespace == namespace }

  ghost predicate LacksShardKeyIndex(issue: Issue) {
    issue.sourceType == "MissingShardKeyIndex" || issue.sourceType == "RangeDeletionMissingShardKeyIndex"
  }

  ghost predicate Yields(ds: seq<Difference>, code: Code) { exists d :: d in ds && d.code == code }

  /** What a difference of each kind says of the issue it was made from. */
  ghost predicate Tells(expected: seq<string>, issue: Issue, d: Difference) {
    && d.sourceType == issue.sourceType && d.key == []
    && (d.code == ShardKeySupportMissing ==> d.indexName == "" && d.fingerprint == "" && d.fields == []
                                             && d.shards == (if issue.shard != "" then [issue.shard] else []))
    && (d.code == MissingOnShard ==> d.indexName == issue.indexName && d.fingerprint == issue.fingerprint
                                     && d.shards == issue.missingFrom && d.fields == [])
    && (d.code == SpecMismatch ==> d.indexName == issue.indexName && d.fingerprint == issue.fingerprint
                                   && d.shards == expected && d.fields == issue.fields)
    && (d.code == Inconclusive ==> d.shards == [] && d.fields == [] && d.fingerprint == ""
                                   && d.indexName == (if issue.sourceType == "InconsistentIndex" then issue.indexName else ""))
  }

  lemma IndexTypes(sourceType: string)
    requires SaysNothingOfIndexes(sourceType)
    ensures sourceType != "InconsistentIndex" && sourceType != "MissingShardKeyIndex" && sourceType != "RangeDeletionMissingShardKeyIndex"
  {
    assert |sourceType| > 7;
    assert sourceType[0] != 'I' && (sourceType[0] == 'R' ==> sourceType[1] == 'o') && sourceType[7] != 'S';
  }

  lemma IssueTells(namespace: string, expected: seq<string>, issue: Issue)
    ensures forall d :: d in IssueDifferences(namespace, expected, issue) ==> Tells(expected, issue, d)
  {
    hide SaysNothingOfIndexes;
  }

  /** Of each kind an issue yields at most one difference, and it yields it exactly in these cases. An
      issue of this namespace is passed over only if its type is known to say nothing about indexes. */
  lemma IssueKinds(namespace: string, expected: seq<string>, issue: Issue)
    ensures var ds := IssueDifferences(namespace, expected, issue);
      && (Yields(ds, MissingOnShard) <==> Concerns(namespace, issue) && issue.sourceType == "InconsistentIndex" && issue.missingFrom != [])
      && (Yields(ds, SpecMismatch) <==> Concerns(namespace, issue) && issue.sourceType == "InconsistentIndex"
                                        && (issue.propertiesDiffer || issue.fields != []))
      && (Yields(ds, ShardKeySupportMissing) <==> Concerns(namespace, issue) && LacksShardKeyIndex(issue))
      && (ds == [] <==> !Concerns(namespace, issue) || SaysNothingOfIndexes(issue.sourceType))
      && (Yields(ds, Inconclusive) <==> ds != [] && !HasWarning(ds))
      && (forall d :: d in ds ==> Tells(expected, issue, d))
      && (forall i, j :: 0 <= i < j < |ds| ==> ds[i].code != ds[j].code)
  {
    IssueTells(namespace, expected, issue);
    var ds := IssueDifferences(namespace, expected, issue);
    if SaysNothingOfIndexes(issue.sourceType) { IndexTypes(issue.sourceType); }
    hide SaysNothingOfIndexes, Tells;
    if |ds| > 0 { assert ds[0] in ds; }
    if |ds| > 1 { assert ds[1] in ds; }
  }

  lemma AppendDifferences(a: seq<Difference>, b: seq<Difference>)
    ensures HasWarning(a + b) <==> HasWarning(a) || HasWarning(b)
    ensures HasDoubt(a + b) <==> HasDoubt(a) || HasDoubt(b)
  {
    assert forall d :: d in a + b <==> d in a || d in b;
  }

  /** One round of the loop over the issues. */
  method AddIssue(namespace: string, expected: seq<string>, issue: Issue)
    returns (ds: seq<Difference>, deterministic: int, inconclusive: bool)
    ensures ds == IssueDifferences(namespace, expected, issue)
    ensures deterministic >= 0
    ensures deterministic > 0 <==> HasWarning(ds)
    ensures inconclusive <==> HasDoubt(ds)
  {
    ds, deterministic, inconclusive := [], 0, false;
    if issue.namespace != "" && issue.namespace != namespace { return; }
    match issue.sourceType {
      case "InconsistentIndex" =>
        var mapped := false;
        if |issue.missingFrom| > 0 {
          ds := ds + [Difference(MissingOnShard, issue.indexName, issue.missingFrom, [], issue.fingerprint, [], issue.sourceType)];
          deterministic, mapped := deterministic + 1, true;
          assert ds[0] in ds;
        }
        if issue.propertiesDiffer || |issue.fields| > 0 {
          ds := ds + [Difference(SpecMismatch, issue.indexName, expected, [], issue.fingerprint, issue.fields, issue.sourceType)];
          deterministic, mapped := deterministic + 1, true;
          assert ds[|ds| - 1] in ds;
        }
        if !mapped {
          inconclusive := true;
          ds := ds + [Difference(Inconclusive, issue.indexName, [], [], "", [], issue.sourceType)];
          assert ds[0] in ds;
        }
      case "MissingShardKeyIndex" =>
        ds, deterministic := [Difference(ShardKeySupportMissing, "", if issue.shard != "" then [issue.shard] else [], [], "", [], issue.sourceType)], 1;
        assert ds[0] in ds;
      case "RangeDeletionMissingShardKeyIndex" =>
        ds, deterministic := [Difference(ShardKeySupportMissing, "", if issue.shard != "" then [issue.shard] else [], [], "", [], issue.sourceType)], 1;
        assert ds[0] in ds;
      case _ =>
        if issue.sourceType !in NON_INDEX_TYPES {
          inconclusive := true;
          ds := [Difference(Inconclusive, "", [], [], "", [], issue.sourceType)];
          assert ds[0] in ds;
        }
    }
  }

  lemma ConcludeOfficial(namespace: string, expected: seq<string>, observed: seq<string>, issues: seq<Issue>,
                         gap: seq<Difference>, ds: seq<Difference>, e: Evaluation)
    requires ds == AllDifferences(namespace, expected, issues)
    requires gap == if OfficialGap(expected, observed) then [InconclusiveOn(UnobservedOf(expected, observed))] else []
    requires e == Evaluation(if HasWarning(ds) then Inconsistent else if OfficialGap(expected, observed) || HasDoubt(ds) then Unclear else Consistent,
                             if OfficialGap(expected, observed) then Incomplete else Complete, ObservedOf(expected, observed),
                             NormalizeAndSort(gap + ds), FindingsFor(NormalizeAndSort(gap + ds)))
    ensures IsOfficialEvaluation(namespace, expected, observed, issues, e)
  {
    hide AllDifferences, OfficialGap, UnobservedOf, NormalizeAndSort, FindingsFor, HasWarning, HasDoubt, ObservedOf;
    assert gap + ds == OfficialRaw(namespace, expected, observed, issues);
  }

  /** `evaluateOfficialIndexConsistency`. */
  method EvaluateOfficial(namespace: string, expected: seq<string>, observed: seq<string>, issues: seq<Issue>)
    returns (e: Evaluation)
    ensures IsOfficialEvaluation(namespace, expected, observed, issues, e)
  {
    hide HasWarning, HasDoubt, IssueDifferences, FindingsFor, NormalizeAndSort, IsOfficialEvaluation;
    var seen := set s | s in observed;
    var shards := PresentShards(expected, seen);
    var coverage, gap := Complete, [];
    if |expected| == 0 || |shards| != |expected| {
      coverage := Incomplete;
      var missing := AbsentShards(expected, seen);
      gap := [Difference(Inconclusive, "", missing, [], "", [], "")];
    }
    var deterministic, inconclusive := 0, false;
    var ds: seq<Difference> := [];
    NoDifferences();
    for i := 0 to |issues|
      invariant ds == AllDifferences(namespace, expected, issues[..i])
      invariant deterministic >= 0 && (deterministic > 0 <==> HasWarning(ds))
      invariant inconclusive <==> HasDoubt(ds)
    {
      assert issues[..i + 1][..i] == issues[..i];
      var new_, count, doubt := AddIssue(namespace, expected, issues[i]);
      AppendDifferences(ds, new_);
      ds, deterministic, inconclusive := ds + new_, deterministic + count, inconclusive || doubt;
    }
    assert issues[..|issues|] == issues;
    var state := if deterministic > 0 then Inconsistent
                 else if coverage == Incomplete || inconclusive then Unclear else Consistent;
    var differences := NormalizeAndSort(gap + ds);
    e := Evaluation(state, coverage, shards, differences, FindingsFor(differences));
    ConcludeOfficial(namespace, expected, observed, issues, gap, ds, e);
  }

  lemma NoDifferences()
    ensures !HasWarning([]) && !HasDoubt([])
  {
  }

  // ----- the verdict and its findings -----

  lemma SortedNormals(raw: seq<Difference>, x: Difference)
    ensures x in NormalizeAndSort(raw) <==> exists d :: d in raw && x == Normalize(d)
  {
    hide NormalizeAndSort, Normalize;
    assert Reports(NormalizeAndSort(raw), multiset(raw));
    ReportsMembers(NormalizeAndSort(raw), multiset(raw), x);
    assert forall d :: d in raw <==> d in multiset(raw);
  }

  lemma NothingSorted()
    ensures NormalizeAndSort([]) == [] && FindingsFor([]) == []
  {
    hide NormalizeAndSort;
    var raw: seq<Difference> := [];
    assert Reports(NormalizeAndSort(raw), multiset(raw)) && multiset(raw) == multiset{};
    ReportsNothing(NormalizeAndSort([]));
  }

  lemma OfficialWarned(namespace: string, expected: seq<string>, observed: seq<string>, issues: seq<Issue>, e: Evaluation)
    requires IsOfficialEvaluation(namespace, expected, observed, issues, e)
    ensures HasWarning(AllDifferences(namespace, expected, issues)) ==> exists f :: f in e.findings && f.severity == Warning
  {
    hide AllDifferences, FindingsFor, NormalizeAndSort, ObservedOf, UnobservedOf, Normalize, OfficialGap;
    var ds := AllDifferences(namespace, expected, issues);
    if HasWarning(ds) {
      var d :| d in ds && SeverityOf(d.code) == Warning;
      NormalCode(d);
      assert d in OfficialRaw(namespace, expected, observed, issues);
      SortedNormals(OfficialRaw(namespace, expected, observed, issues), Normalize(d));
      FindingsMembers(e.differences, FindingOf(Normalize(d)));
    }
  }

  lemma OfficialWarning(namespace: string, expected: seq<string>, observed: seq<string>, issues: seq<Issue>, e: Evaluation, f: Finding)
    requires IsOfficialEvaluation(namespace, expected, observed, issues, e)
    requires f in e.findings && f.severity == Warning
    ensures HasWarning(AllDifferences(namespace, expected, issues))
  {
    hide AllDifferences, FindingsFor, NormalizeAndSort, ObservedOf, UnobservedOf, Normalize, OfficialGap;
    var ds := AllDifferences(namespace, expected, issues);
    FindingsMembers(e.differences, f);
    var x :| x in e.differences && f == FindingOf(x);
    SortedNormals(OfficialRaw(namespace, expected, observed, issues), x);
    var d :| d in OfficialRaw(namespace, expected, observed, issues) && x == Normalize(d);
    NormalCode(d);
    assert d in ds;
  }

  lemma OfficialConsistent(namespace: string, expected: seq<string>, observed: seq<string>, issues: seq<Issue>, e: Evaluation)
    requires IsOfficialEvaluation(namespace, expected, observed, issues, e) && e.state == Consistent
    ensures expected != [] && e.coverage == Complete && e.observed == expected && e.differences == [] && e.findings == []
  {
    hide AllDifferences, FindingsFor, NormalizeAndSort, ObservedOf, UnobservedOf;
    var ds := AllDifferences(namespace, expected, issues);
    assert ds != [] ==> ds[0] in ds;
    OnlyKinds(namespace, expected, issues);
    FullyObserved(expected, observed);
    assert OfficialRaw(namespace, expected, observed, issues) == [];
    NothingSorted();
  }

  /** As for the legacy evaluation: `inconsistent` exactly with a warning, and `consistent` only with
      full coverage and nothing to report. */
  lemma OfficialVerdictMatchesFindings(namespace: string, expected: seq<string>, observed: seq<string>, issues: seq<Issue>, e: Evaluation)
    requires IsOfficialEvaluation(namespace, expected, observed, issues, e)
    ensures e.state == Inconsistent <==> exists f :: f in e.findings && f.severity == Warning
    ensures e.state == Consistent ==>
      expected != [] && e.coverage == Complete && e.observed == expected && e.differences == [] && e.findings == []
    ensures e.state != Skipped && e.coverage != NotApplicable
  {
    OfficialWarned(namespace, expected, observed, issues, e);
    if f :| f in e.findings && f.severity == Warning {
      OfficialWarning(namespace, expected, observed, issues, e, f);
    }
    if e.state == Consistent {
      OfficialConsistent(namespace, expected, observed, issues, e);
    }
  }

  lemma FullyObserved(expected: seq<string>, observed: seq<string>)
    requires !OfficialGap(expected, observed)
    ensures ObservedOf(expected, observed) == expected
  {
    PresentMembers(expected, set s | s in observed);
  }

  lemma NormalCode(d: Difference)
    ensures Normalize(d).code == d.code
  {
  }

  lemma {:induction false} OnlyKinds(namespace: string, expected: seq<string>, issues: seq<Issue>)
    ensures forall d :: d in AllDifferences(namespace, expected, issues) ==> SeverityOf(d.code) == Warning || d.code == Inconclusive
  {
    if issues != [] { OnlyKinds(namespace, expected, issues[..|issues| - 1]); }
  }

  // ----- the order of the issues -----

  lemma {:induction false} AllDifferencesSplit(namespace: string, expected: seq<string>, a: seq<Issue>, b: seq<Issue>)
    ensures AllDifferences(namespace, expected, a + b) == AllDifferences(namespace, expected, a) + AllDifferences(namespace, expected, b)
  {
    if b == [] {
      assert a + b == a;
    } else {
      var init := b[..|b| - 1];
      assert (a + b)[..|a + b| - 1] == a + init && (a + b)[|a + b| - 1] == b[|b| - 1];
      AllDifferencesSplit(namespace, expected, a, init);
      hide IssueDifferences;
    }
  }

  lemma WithoutIssue(namespace: string, expected: seq<string>, b: seq<Issue>, i: nat)
    requires i < |b|
    ensures multiset(b) == multiset{b[i]} + multiset(b[..i] + b[i + 1..])
    ensures multiset(AllDifferences(namespace, expected, b))
         == multiset(IssueDifferences(namespace, expected, b[i])) + multiset(AllDifferences(namespace, expected, b[..i] + b[i + 1..]))
  {
    hide IssueDifferences;
    var x, d, y := b[..i], [b[i]], b[i + 1..];
    assert b == x + d + y;
    AllDifferencesSplit(namespace, expected, x + d, y);
    AllDifferencesSplit(namespace, expected, x, d);
    AllDifferencesSplit(namespace, expected, x, y);
    assert AllDifferences(namespace, expected, d) == IssueDifferences(namespace, expected, b[i]) by {
      assert d[..0] == [];
    }
  }

  lemma {:induction false} AllDifferencesPermute(namespace: string, expected: seq<string>, a: seq<Issue>, b: seq<Issue>)
    requires multiset(a) == multiset(b)
    ensures multiset(AllDifferences(namespace, expected, a)) == multiset(AllDifferences(namespace, expected, b))
  {
    hide *;
    assert |a| == |multiset(a)| == |multiset(b)| == |b|;
    if a != [] {
      assert a[0] in multiset(b);
      var i :| 0 <= i < |b| && b[i] == a[0];
      var a', b' := a[..0] + a[1..], b[..i] + b[i + 1..];
      WithoutIssue(namespace, expected, a, 0);
      WithoutIssue(namespace, expected, b, i);
      assert multiset(a') == multiset(a) - multiset{a[0]};
      assert multiset(b') == multiset(b) - multiset{a[0]};
      AllDifferencesPermute(namespace, expected, a', b');
    } else {
      assert b == [] && a == b;
    }
  }

  lemma SameKinds(a: seq<Difference>, b: seq<Difference>)
    requires multiset(a) == multiset(b)
    ensures HasWarning(a) == HasWarning(b) && HasDoubt(a) == HasDoubt(b)
  {
    forall d
      ensures d in a <==> d in b
    {
      assert d in a <==> d in multiset(a);
      assert d in b <==> d in multiset(b);
    }
  }

  /** Differences of the issues that have the same signature have the same normal form. */
  ghost predicate IssuesApart(namespace: string, expected: seq<string>, issues: seq<Issue>) {
    var ds := AllDifferences(namespace, expected, issues);
    forall d, e :: d in ds && e in ds && Signature(Normalize(d)) == Signature(Normalize(e)) ==> Normalize(d) == Normalize(e)
  }

  /** The normal forms with one signature, in the order of the issues. */
  ghost function Class(ds: seq<Difference>, k: string): seq<Difference> { WithKey(NormalizeAll(ds), Signature, k) }

  lemma ClassConcat(a: seq<Difference>, b: seq<Difference>, k: string)
    ensures Class(a + b, k) == Class(a, k) + Class(b, k)
  {
    hide WithKey, Signature;
    NormalizeAllSplits(a, b);
    WithKeyConcat(NormalizeAll(a), NormalizeAll(b), Signature, k);
  }

  /** Sorted lists are equal exactly when these are. */
  lemma SortedByClasses(a: seq<Difference>, b: seq<Difference>)
    ensures NormalizeAndSort(a) == NormalizeAndSort(b) <==> forall k :: Class(a, k) == Class(b, k)
  {
    hide WithKey, Signature, NormalizeAll;
    forall k
      ensures WithKey(NormalizeAndSort(a), Signature, k) == Class(a, k) && WithKey(NormalizeAndSort(b), Signature, k) == Class(b, k)
    {
      SortIsStable(NormalizeAll(a), Signature, k);
      SortIsStable(NormalizeAll(b), Signature, k);
    }
    if forall k :: Class(a, k) == Class(b, k) {
      SortedByKeys(NormalizeAndSort(a), NormalizeAndSort(b), Signature);
    }
  }

  lemma {:induction false} AllAlike<T>(x: seq<T>, y: seq<T>)
    requires multiset(x) == multiset(y) && forall i, j :: 0 <= i < |x| && 0 <= j < |x| ==> x[i] == x[j]
    ensures x == y
  {
    assert |x| == |multiset(x)| == |multiset(y)| == |y|;
    forall i | 0 <= i < |x|
      ensures x[i] == y[i]
    {
      assert y[i] in multiset(x);
    }
  }

  lemma NormalOf(ds: seq<Difference>, x: Difference)
    ensures x in NormalizeAll(ds) <==> exists d :: d in ds && x == Normalize(d)
  {
    hide Normalize;
    var all := NormalizeAll(ds);
    if d :| d in ds && x == Normalize(d) {
      var i :| 0 <= i < |ds| && ds[i] == d;
      assert all[i] == x;
    }
    if x in all {
      var i :| 0 <= i < |all| && all[i] == x;
      assert ds[i] in ds;
    }
  }

  lemma ClassOfApart(namespace: string, expected: seq<string>, a: seq<Issue>, b: seq<Issue>, k: string)
    requires IssuesApart(namespace, expected, a) && multiset(a) == multiset(b)
    ensures Class(AllDifferences(namespace, expected, a), k) == Class(AllDifferences(namespace, expected, b), k)
  {
    hide AllDifferences, WithKey, Signature, Normalize;
    var ds, es := AllDifferences(namespace, expected, a), AllDifferences(namespace, expected, b);
    AllDifferencesPermute(namespace, expected, a, b);
    NormalizeAllPermutes(ds, es);
    var x, y := Class(ds, k), Class(es, k);
    forall d
      ensures multiset(x)[d] == multiset(y)[d]
    {
      WithKeyCounts(NormalizeAll(ds), Signature, k, d);
      WithKeyCounts(NormalizeAll(es), Signature, k, d);
    }
    WithKeyMembers(NormalizeAll(ds), Signature, k);
    forall i, j | 0 <= i < |x| && 0 <= j < |x|
      ensures x[i] == x[j]
    {
      assert x[i] in x && x[j] in x;
      NormalOf(ds, x[i]);
      NormalOf(ds, x[j]);
    }
    AllAlike(x, y);
  }

  /** The server's issues may come in any order, if the signature tells apart what they stand for. */
  lemma OfficialOrderIndependence(namespace: string, expected: seq<string>, observed: seq<string>,
                                  a: seq<Issue>, b: seq<Issue>, x: Evaluation, y: Evaluation)
    requires IssuesApart(namespace, expected, a) && multiset(a) == multiset(b)
    requires IsOfficialEvaluation(namespace, expected, observed, a, x)
    requires IsOfficialEvaluation(namespace, expected, observed, b, y)
    ensures x == y
  {
    AllDifferencesPermute(namespace, expected, a, b);
    SameKinds(AllDifferences(namespace, expected, a), AllDifferences(namespace, expected, b));
    hide AllDifferences, NormalizeAndSort, FindingsFor, HasWarning, HasDoubt, ObservedOf, UnobservedOf, OfficialGap, IssuesApart, Class;
    var gap := if OfficialGap(expected, observed) then [InconclusiveOn(UnobservedOf(expected, observed))] else [];
    forall k
      ensures Class(OfficialRaw(namespace, expected, observed, a), k) == Class(OfficialRaw(namespace, expected, observed, b), k)
    {
      ClassOfApart(namespace, expected, a, b, k);
      ClassConcat(gap, AllDifferences(namespace, expected, a), k);
      ClassConcat(gap, AllDifferences(namespace, expected, b), k);
    }
    SortedByClasses(OfficialRaw(namespace, expected, observed, a), OfficialRaw(namespace, expected, observed, b));
  }

  // ----- and only then -----

  lemma CodeComesFirst(d: Difference)
    ensures Signature(d) == CodeText(d.code) + [NUL] + Join(Parts(d)[1..], NUL) && NUL !in CodeText(d.code)
  {
    hide KeyTexts, CodeText, Join;
    SplitFirst(Parts(d));
    CodeIsFree(d.code);
  }

  lemma SplitFirst(parts: seq<string>)
    requires |parts| > 1
    ensures Join(parts, NUL) == parts[0] + [NUL] + Join(parts[1..], NUL)
  {
  }

  lemma CodeIsFree(code: Code)
    ensures NUL !in CodeText(code)
  {
  }

  lemma SignatureShowsCode(d: Difference, e: Difference)
    requires Signature(d) == Signature(e)
    ensures d.code == e.code
  {
    CodeComesFirst(d);
    CodeComesFirst(e);
    hide Signature, Join, CodeText, KeyTexts;
    FirstSeparator(CodeText(d.code), Join(Parts(d)[1..], NUL), CodeText(e.code), Join(Parts(e)[1..], NUL), NUL);
    CodesDiffer(d.code, e.code);
  }

  /** Of one issue the signature tells everything apart, because the codes differ. */
  lemma OneIssueApart(namespace: string, expected: seq<string>, issue: Issue, d: Difference, e: Difference)
    requires d in IssueDifferences(namespace, expected, issue) && e in IssueDifferences(namespace, expected, issue)
    requires Signature(Normalize(d)) == Signature(Normalize(e))
    ensures d == e
  {
    IssueKinds(namespace, expected, issue);
    hide IssueDifferences, Signature, Yields, Tells, HasWarning;
    SignatureShowsCode(Normalize(d), Normalize(e));
    NormalCode(d);
    NormalCode(e);
    var ds := IssueDifferences(namespace, expected, issue);
    var i :| 0 <= i < |ds| && ds[i] == d;
    var j :| 0 <= j < |ds| && ds[j] == e;
  }

  lemma {:induction false} FromSomeIssue(namespace: string, expected: seq<string>, issues: seq<Issue>, d: Difference) returns (i: nat)
    requires d in AllDifferences(namespace, expected, issues)
    ensures i < |issues| && d in IssueDifferences(namespace, expected, issues[i])
  {
    hide IssueDifferences;
    var init := issues[..|issues| - 1];
    if d in AllDifferences(namespace, expected, init) {
      i := FromSomeIssue(namespace, expected, init, d);
    } else {
      i := |issues| - 1;
    }
  }

  /** The same issues, with this one first. */
  ghost function First(issues: seq<Issue>, i: nat): (r: seq<Issue>)
    requires i < |issues|
    ensures multiset(r) == multiset(issues)
  {
    assert issues == issues[..i] + [issues[i]] + issues[i + 1..];
    [issues[i]] + (issues[..i] + issues[i + 1..])
  }

  lemma FirstComesFirst(namespace: string, expected: seq<string>, issues: seq<Issue>, i: nat, d: Difference)
    requires i < |issues| && d in IssueDifferences(namespace, expected, issues[i])
    ensures var c := Class(AllDifferences(namespace, expected, First(issues, i)), Signature(Normalize(d)));
      c != [] && c[0] == Normalize(d)
  {
    var k := Signature(Normalize(d));
    var rest := issues[..i] + issues[i + 1..];
    var ds := IssueDifferences(namespace, expected, issues[i]);
    OnlyIssue(namespace, expected, issues[i]);
    AllDifferencesSplit(namespace, expected, [issues[i]], rest);
    hide IssueDifferences, AllDifferences, Signature, Normalize, WithKey;
    ClassConcat(ds, AllDifferences(namespace, expected, rest), k);
    WithKeyMembers(NormalizeAll(ds), Signature, k);
    NormalOf(ds, Normalize(d));
    var c := Class(ds, k);
    assert Normalize(d) in c;
    assert c[0] in c;
    NormalOf(ds, c[0]);
    var e :| e in ds && c[0] == Normalize(e);
    OneIssueApart(namespace, expected, issues[i], d, e);
  }

  lemma OnlyIssue(namespace: string, expected: seq<string>, issue: Issue)
    ensures AllDifferences(namespace, expected, [issue]) == IssueDifferences(namespace, expected, issue)
  {
    hide IssueDifferences;
    assert [issue][..0] == [];
  }

  ghost function OfficialEvaluationOf(namespace: string, expected: seq<string>, observed: seq<string>, issues: seq<Issue>): (e: Evaluation)
    ensures IsOfficialEvaluation(namespace, expected, observed, issues, e)
  {
    var ds := AllDifferences(namespace, expected, issues);
    var sorted := NormalizeAndSort(OfficialRaw(namespace, expected, observed, issues));
    Evaluation(if HasWarning(ds) then Inconsistent else if OfficialGap(expected, observed) || HasDoubt(ds) then Unclear else Consistent,
               if OfficialGap(expected, observed) then Incomplete else Complete, ObservedOf(expected, observed), sorted, FindingsFor(sorted))
  }

  lemma OtherFirstIsSeen(namespace: string, expected: seq<string>, observed: seq<string>, issues: seq<Issue>, i: nat, j: nat, d: Difference, e: Difference)
    requires i < |issues| && j < |issues|
    requires d in IssueDifferences(namespace, expected, issues[i]) && e in IssueDifferences(namespace, expected, issues[j])
    requires Signature(Normalize(d)) == Signature(Normalize(e)) && Normalize(d) != Normalize(e)
    ensures OfficialEvaluationOf(namespace, expected, observed, First(issues, i)) != OfficialEvaluationOf(namespace, expected, observed, First(issues, j))
  {
    FirstComesFirst(namespace, expected, issues, i, d);
    FirstComesFirst(namespace, expected, issues, j, e);
    hide First, IssueDifferences, AllDifferences, Signature, Normalize, Class, OfficialGap, UnobservedOf, ObservedOf, NormalizeAndSort, FindingsFor, HasWarning, HasDoubt;
    var k := Signature(Normalize(d));
    var gap := if OfficialGap(expected, observed) then [InconclusiveOn(UnobservedOf(expected, observed))] else [];
    var v := AllDifferences(namespace, expected, First(issues, i));
    var w := AllDifferences(namespace, expected, First(issues, j));
    ClassConcat(gap, v, k);
    ClassConcat(gap, w, k);
    assert Class(gap + v, k)[|Class(gap, k)|] != Class(gap + w, k)[|Class(gap, k)|];
    SortedByClasses(gap + v, gap + w);
  }

  /** Any order of the issues leads to the same evaluation, if and only if no two differences that they
      stand for have the same signature but different normal forms. */
  lemma OfficialOrderExactly(namespace: string, expected: seq<string>, observed: seq<string>, issues: seq<Issue>, x: Evaluation)
    requires IsOfficialEvaluation(namespace, expected, observed, issues, x)
    ensures IssuesApart(namespace, expected, issues) <==>
      forall b, y :: multiset(b) == multiset(issues) && IsOfficialEvaluation(namespace, expected, observed, b, y) ==> x == y
  {
    if IssuesApart(namespace, expected, issues) {
      hide IssuesApart, IsOfficialEvaluation;
      forall b, y | multiset(b) == multiset(issues) && IsOfficialEvaluation(namespace, expected, observed, b, y)
        ensures x == y
      {
        OfficialOrderIndependence(namespace, expected, observed, issues, b, x, y);
      }
    } else {
      hide AllDifferences, Signature, Normalize, IsOfficialEvaluation, IssueDifferences, OfficialEvaluationOf;
      var ds := AllDifferences(namespace, expected, issues);
      var d, e :| d in ds && e in ds && Signature(Normalize(d)) == Signature(Normalize(e)) && Normalize(d) != Normalize(e);
      var i := FromSomeIssue(namespace, expected, issues, d);
      var j := FromSomeIssue(namespace, expected, issues, e);
      OtherFirstIsSeen(namespace, expected, observed, issues, i, j, d, e);
      var v, w := First(issues, i), First(issues, j);
      hide First;
      assert IsOfficialEvaluation(namespace, expected, observed, v, OfficialEvaluationOf(namespace, expected, observed, v));
      assert IsOfficialEvaluation(namespace, expected, observed, w, OfficialEvaluationOf(namespace, expected, observed, w));
    }
  }

  // ----- issues of clean text are apart -----

  ghost predicate CleanShards(shards: seq<string>) {
    NulFree(shards) && Joinable(shards, ',')
  }

  lemma CleanSublist(shards: seq<string>, sub: seq<string>)
    requires CleanShards(shards) && forall s :: s in sub ==> s in shards
    ensures CleanShards(sub)
  {
    forall i | 0 <= i < |sub|
      ensures NUL !in sub[i] && sub[i] != [] && ',' !in sub[i]
    {
      assert sub[i] in shards;
    }
  }

  lemma CleanSorted(s: seq<string>)
    requires CleanShards(s)
    ensures CleanShards(SortStrings(s))
  {
    hide SortStrings;
    forall x | x in SortStrings(s)
      ensures x in s
    {
      SortedMembers(s, x);
    }
    CleanSublist(s, SortStrings(s));
  }

  lemma CleanNormal(d: Difference)
    requires Clean(d)
    ensures Clean(Normalize(d))
  {
    hide SortStrings;
    CleanSorted(d.shards);
    CleanSorted(d.fields);
  }

  ghost predicate CleanIssue(issue: Issue) {
    && NUL !in issue.sourceType && NUL !in issue.indexName && NUL !in issue.fingerprint
    && CleanShards(issue.missingFrom) && CleanShards(issue.fields)
    && NUL !in issue.shard && ',' !in issue.shard
  }

  lemma CleanIssueDifferences(namespace: string, expected: seq<string>, issue: Issue)
    requires CleanIssue(issue) && CleanShards(expected)
    ensures forall d :: d in IssueDifferences(namespace, expected, issue) ==> Clean(d)
  {
  }

  lemma {:induction false} CleanAllDifferences(namespace: string, expected: seq<string>, issues: seq<Issue>)
    requires CleanShards(expected) && forall i :: 0 <= i < |issues| ==> CleanIssue(issues[i])
    ensures forall d :: d in AllDifferences(namespace, expected, issues) ==> Clean(d)
  {
    hide Clean, CleanIssue, IssueDifferences;
    if issues != [] {
      CleanAllDifferences(namespace, expected, issues[..|issues| - 1]);
      CleanIssueDifferences(namespace, expected, issues[|issues| - 1]);
    }
  }

  lemma CleanIssuesAreApart(namespace: string, expected: seq<string>, issues: seq<Issue>)
    requires CleanShards(expected) && forall i :: 0 <= i < |issues| ==> CleanIssue(issues[i])
    ensures IssuesApart(namespace, expected, issues)
  {
    CleanAllDifferences(namespace, expected, issues);
    hide Clean, AllDifferences, Normalize, Signature, CleanIssue;
    var ds := AllDifferences(namespace, expected, issues);
    forall d, e | d in ds && e in ds && Signature(Normalize(d)) == Signature(Normalize(e))
      ensures Normalize(d) == Normalize(e)
    {
      CleanNormal(d);
      CleanNormal(e);
      SignatureInjective(Normalize(d), Normalize(e));
    }
  }
}
