/** What a warning means, and why the report does not depend on any iteration order. */
module ConsistencyVerdict {
  import opened Text
  import opened Sorting
  import opened ConsistencyModel
  import opened ConsistencyCompare
  import opened ConsistencyEvaluate
  import opened ConsistencyExactness

  // ----- text without NUL -----

  ghost predicate NulFreeDefinition(d: Definition) {
    && NUL !in d.name && NUL !in d.semantic && NulFreeKey(d.key)
    && (forall f :: f in d.fields ==> NUL !in f)
  }

  ghost predicate NulFreeObservations(obs: Observations) {
    forall s, i :: s in obs && 0 <= i < |obs[s]| ==> NulFreeDefinition(obs[s][i])
  }

  lemma {:induction false} KeepMembers(ds: seq<Definition>, names: set<string>, semantics: set<string>, d: Definition)
    ensures d in Keep(ds, names, semantics) <==> d in ds && d.name !in names && d.semantic !in semantics
  {
    if ds != [] {
      KeepMembers(ds[..|ds| - 1], names, semantics, d);
      assert ds == ds[..|ds| - 1] + [ds[|ds| - 1]];
    }
  }

  lemma NulFreeKept(obs: Observations, names: set<string>, semantics: set<string>)
    requires NulFreeObservations(obs)
    ensures NulFreeObservations(KeepAll(obs, names, semantics))
  {
    hide NulFreeDefinition, Keep;
    var k := KeepAll(obs, names, semantics);
    forall s, i | s in k && 0 <= i < |k[s]|
      ensures NulFreeDefinition(k[s][i])
    {
      KeepMembers(obs[s], names, semantics, k[s][i]);
      var j :| 0 <= j < |obs[s]| && obs[s][j] == k[s][i];
    }
  }

  lemma {:induction false} AbsentMembers(expected: seq<string>, present: set<string>)
    ensures forall s :: s in Absent(expected, present) <==> s in expected && s !in present
  {
    if expected != [] {
      AbsentMembers(expected[..|expected| - 1], present);
      assert expected == expected[..|expected| - 1] + [expected[|expected| - 1]];
    }
  }

  lemma NulFreeSublist(shards: seq<string>, sub: seq<string>)
    requires NulFree(shards) && forall s :: s in sub ==> s in shards
    ensures NulFree(sub)
  {
    forall i | 0 <= i < |sub|
      ensures NUL !in sub[i]
    {
      assert sub[i] in shards;
    }
  }

  lemma SortedKeysMembers(s: set<string>, x: string)
    ensures x in SortedKeys(s) <==> x in s
  {
    hide LexLe, SortedKeys;
    assert x in SortedKeys(s) <==> x in multiset(SortedKeys(s));
  }

  lemma {:induction false} ReferenceMember(ds: seq<Definition>)
    ensures Reference(ds) == BLANK || Reference(ds) in ds
  {
    if ds != [] {
      ReferenceMember(ds[..|ds| - 1]);
      assert ds == ds[..|ds| - 1] + [ds[|ds| - 1]];
    }
  }

  lemma {:induction false} NameReferenceMember(k: Observations, expected: seq<string>, n: string)
    ensures NameReference(k, expected, n) == BLANK || exists s :: s in k && NameReference(k, expected, n) in k[s]
  {
    if expected != [] { NameReferenceMember(k, expected[1..], n); }
  }

  lemma NulFreeMember(k: Observations, s: string, d: Definition)
    requires NulFreeObservations(k) && s in k && d in k[s]
    ensures NulFreeDefinition(d)
  {
    var i :| 0 <= i < |k[s]| && k[s][i] == d;
  }

  lemma NulFreeRename(k: Observations, expected: seq<string>, m: string)
    requires NulFreeObservations(k) && NulFree(expected) && m in Semantics(k)
    ensures NulFreeDifference(RenamedDifference(k, expected, m))
  {
    hide SortedKeys, Reference, SemanticDefinitions, Join;
    var ds := SemanticDefinitions(k, expected, m);
    ReferenceMember(ds);
    forall d | d in ds
      ensures NulFreeDefinition(d)
    {
      SemanticDefinitionsMembers(k, expected, m, d);
      var s :| s in expected && s in k && d in k[s];
      NulFreeMember(k, s, d);
    }
    var names := SortedKeys(SemanticNames(k, expected, m));
    forall i | 0 <= i < |names|
      ensures NUL !in names[i]
    {
      SortedKeysMembers(SemanticNames(k, expected, m), names[i]);
    }
    JoinFree(names, ',', NUL);
  }

  lemma NulFreeReference(k: Observations, expected: seq<string>, n: string)
    requires NulFreeObservations(k)
    ensures NulFreeDefinition(NameReference(k, expected, n))
  {
    NameReferenceMember(k, expected, n);
    var r := NameReference(k, expected, n);
    if r != BLANK {
      var s :| s in k && r in k[s];
      NulFreeMember(k, s, r);
    }
  }

  lemma NulFreeName(k: Observations, n: string)
    requires NulFreeObservations(k) && n in Names(k)
    ensures NUL !in n
  {
  }

  lemma NulFreeMissing(k: Observations, expected: seq<string>, n: string)
    requires NulFreeObservations(k) && NulFree(expected) && n in Names(k)
    ensures NulFreeDifference(MissingDifference(k, expected, n))
  {
    hide Absent, NameReference, NameShards;
    NulFreeName(k, n);
    NulFreeReference(k, expected, n);
    AbsentMembers(expected, NameShards(k, n));
    NulFreeSublist(expected, Absent(expected, NameShards(k, n)));
  }

  lemma NulFreeFields(k: Observations, n: string)
    requires NulFreeObservations(k)
    ensures NulFree(SortedKeys(DifferingFields(Namesakes(k, n).Values)))
  {
    hide SortedKeys;
    var fields := SortedKeys(DifferingFields(Namesakes(k, n).Values));
    forall i | 0 <= i < |fields|
      ensures NUL !in fields[i]
    {
      SortedKeysMembers(DifferingFields(Namesakes(k, n).Values), fields[i]);
      var d :| d in Namesakes(k, n).Values && fields[i] in d.fields;
      var s :| s in NameShards(k, n) && LastNamed(k[s], n) == d;
      NulFreeMember(k, s, d);
    }
  }

  lemma NulFreeMismatch(k: Observations, expected: seq<string>, n: string)
    requires NulFreeObservations(k) && NulFree(expected) && n in Names(k)
    ensures NulFreeDifference(MismatchDifference(k, expected, n))
  {
    hide NameReference, SortedKeys, DifferingFields, Join, Digest;
    NulFreeName(k, n);
    NulFreeReference(k, expected, n);
    NulFreeFields(k, n);
    DigestNulFree(Join(SortedKeys(NameSemantics(k, n)), NUL));
  }

  /** A candidate is a rename, a missing index or a mismatch, by its code. */
  lemma CandidateKinds(k: Observations, expected: seq<string>, d: Difference)
    requires d in Candidates(k, expected)
    ensures d.code == NameMismatch || d.code == MissingOnShard || d.code == SpecMismatch
    ensures d.code == NameMismatch ==> d.fingerprint in RenamedSemantics(k, expected) && d == RenamedDifference(k, expected, d.fingerprint)
    ensures d.code == MissingOnShard ==> d.indexName in MissingNames(k, expected) && d == MissingDifference(k, expected, d.indexName)
    ensures d.code == SpecMismatch ==> d.indexName in MismatchedNames(k, expected) && d == MismatchDifference(k, expected, d.indexName)
  {
    hide SortedKeys, Join, Digest, RenamedSemantics, MissingNames, MismatchedNames, Reference, NameReference, SemanticNames, Absent,
         NameSemantics, DifferingFields;
  }

  lemma NulFreeCandidates(k: Observations, expected: seq<string>, d: Difference)
    requires NulFreeObservations(k) && NulFree(expected) && d in Candidates(k, expected)
    ensures NulFreeDifference(d)
  {
    CandidateKinds(k, expected, d);
    hide RenamedDifference, MissingDifference, MismatchDifference, Candidates, NulFreeDifference, Handled, NameShards, SemanticShards, SemanticNames;
    match d.code
    case NameMismatch => NulFreeRename(k, expected, d.fingerprint);
    case MissingOnShard => NulFreeMissing(k, expected, d.indexName);
    case SpecMismatch => NulFreeMismatch(k, expected, d.indexName);
  }

  // ----- warnings -----

  /** `d` was found in both observations of the compared shards: the same code, name and meaning,
      and the same lists as they are written. */
  ghost predicate SeenTwice(expected: seq<string>, first: Observations, second: Reread, d: Difference) {
    && CanConfirm(expected, first, second)
    && d in FirstCandidates(expected, first)
    && exists e :: e in SecondCandidates(expected, first, second.obs) && SameAsWritten(d, e)
  }

  lemma StableMeans(expected: seq<string>, first: Observations, second: Reread, d: Difference)
    ensures d in Stable(expected, first, second) <==>
      && CanConfirm(expected, first, second)
      && d in FirstCandidates(expected, first)
      && exists e :: e in SecondCandidates(expected, first, second.obs) && Signature(e) == Signature(d)
  {
    hide FirstCandidates, SecondCandidates, CanConfirm, Signature;
  }

  lemma NulFreeFirst(expected: seq<string>, first: Observations, d: Difference)
    requires NulFree(expected) && NulFreeObservations(first) && d in FirstCandidates(expected, first)
    ensures NulFreeDifference(d)
  {
    hide Candidates, KeepAll, NulFreeObservations, BuildingNames, BuildingSemantics, NulFreeDifference;
    PresentMembers(expected, first.Keys);
    NulFreeSublist(expected, Compared(expected, first));
    NulFreeKept(first, BuildingNames(first), BuildingSemantics(first));
    NulFreeCandidates(KeepAll(first, BuildingNames(first), BuildingSemantics(first)), Compared(expected, first), d);
  }

  lemma NulFreeSecond(expected: seq<string>, first: Observations, second: Observations, d: Difference)
    requires NulFree(expected) && NulFreeObservations(second) && d in SecondCandidates(expected, first, second)
    ensures NulFreeDifference(d)
  {
    hide Candidates, KeepAll, NulFreeObservations, BuildingNames, BuildingSemantics, NulFreeDifference;
    PresentMembers(expected, first.Keys);
    NulFreeSublist(expected, Compared(expected, first));
    var names, semantics := BuildingNames(first) + BuildingNames(second), BuildingSemantics(first) + BuildingSemantics(second);
    NulFreeKept(second, names, semantics);
    NulFreeCandidates(KeepAll(second, names, semantics), Compared(expected, first), d);
  }

  /** For text without NUL, agreeing on the signature is being the same difference as written. */
  lemma StableIsSeenTwice(expected: seq<string>, first: Observations, second: Reread, d: Difference)
    requires NulFree(expected) && NulFreeObservations(first)
    requires second.Read? ==> NulFreeObservations(second.obs)
    ensures d in Stable(expected, first, second) <==> SeenTwice(expected, first, second, d)
  {
    hide FirstCandidates, SecondCandidates, CanConfirm, Signature, SameAsWritten, NulFreeObservations, Stable, NulFreeDifference;
    StableMeans(expected, first, second, d);
    if CanConfirm(expected, first, second) && d in FirstCandidates(expected, first) {
      NulFreeFirst(expected, first, d);
      ConfirmedIsRead(expected, first, second);
      forall e | e in SecondCandidates(expected, first, second.obs)
        ensures Signature(e) == Signature(d) <==> SameAsWritten(d, e)
      {
        NulFreeSecond(expected, first, second.obs, e);
        SignatureExact(d, e);
      }
    }
  }

  lemma ConfirmedIsRead(expected: seq<string>, first: Observations, second: Reread)
    requires CanConfirm(expected, first, second)
    ensures second.Read?
  {
  }

  lemma ReportedCodes(expected: seq<string>, first: Observations, second: Reread, d: Difference)
    requires d in Reported(expected, first, second)
    ensures SeverityOf(d.code) == Warning <==> d in Stable(expected, first, second)
  {
    hide AllBuilding, Changed, Gap, Absent, FirstCandidates, Signature, Candidates;
    if d in Stable(expected, first, second) {
      StableMeans(expected, first, second, d);
      FirstCodes(expected, first, d);
    }
  }

  lemma FirstCodes(expected: seq<string>, first: Observations, d: Difference)
    requires d in FirstCandidates(expected, first)
    ensures SeverityOf(d.code) == Warning
  {
    hide Candidates, KeepAll;
    CandidateKinds(KeepAll(first, BuildingNames(first), BuildingSemantics(first)), Compared(expected, first), d);
  }

  lemma StableIsReported(expected: seq<string>, first: Observations, second: Reread, d: Difference)
    requires d in Stable(expected, first, second)
    ensures d in Reported(expected, first, second)
  {
    hide AllBuilding, Changed, Gap, Absent, FirstCandidates, Signature, Candidates, Stable;
  }

  /** What a list of differences reports is what it was made from, normalized. */
  lemma ReportsMembers(ds: seq<Difference>, reported: multiset<Difference>, x: Difference)
    requires Reports(ds, reported)
    ensures x in ds <==> exists d :: d in reported && x == Normalize(d)
  {
    hide Normalize, Signature;
    var raw: seq<Difference> :| multiset(raw) == reported && ds == NormalizeAndSort(raw);
    var all := NormalizeAll(raw);
    assert x in ds <==> x in multiset(ds);
    assert x in all <==> x in multiset(all);
    if x in all {
      var i :| 0 <= i < |all| && all[i] == x;
      assert raw[i] in multiset(raw);
    }
    if d :| d in reported && x == Normalize(d) {
      assert d in multiset(raw);
      var i :| 0 <= i < |raw| && raw[i] == d;
      assert all[i] == x;
    }
  }

  /** The warnings of an evaluation are exactly the differences seen in both observations. */
  lemma WarningsAreSeenTwice(expected: seq<string>, first: Observations, second: Reread, e: Evaluation, f: Finding)
    requires expected != [] && NulFree(expected) && NulFreeObservations(first)
    requires second.Read? ==> NulFreeObservations(second.obs)
    requires IsEvaluation(expected, first, second, e)
    ensures f in e.findings && f.severity == Warning <==>
      exists d :: SeenTwice(expected, first, second, d) && f == Finding(Warning, Normalize(d))
  {
    hide StateOf, CoverageOf, Compared, Reported, FindingsFor, SeenTwice, NulFreeObservations, Reports, Stable;
    FindingsMembers(e.differences, f);
    if f in e.findings && f.severity == Warning {
      var x :| x in e.differences && f == FindingOf(x);
      ReportsMembers(e.differences, Reported(expected, first, second), x);
      var d :| d in Reported(expected, first, second) && x == Normalize(d);
      ReportedCodes(expected, first, second, d);
      StableIsSeenTwice(expected, first, second, d);
    }
    if d :| SeenTwice(expected, first, second, d) && f == Finding(Warning, Normalize(d)) {
      StableIsSeenTwice(expected, first, second, d);
      StableIsReported(expected, first, second, d);
      ReportedCodes(expected, first, second, d);
      ReportsMembers(e.differences, Reported(expected, first, second), Normalize(d));
    }
  }

  /** The verdict is `inconsistent` exactly when some difference was seen in both observations. */
  lemma InconsistentExactly(expected: seq<string>, first: Observations, second: Reread, e: Evaluation)
    requires NulFree(expected) && NulFreeObservations(first)
    requires second.Read? ==> NulFreeObservations(second.obs)
    requires IsEvaluation(expected, first, second, e)
    ensures e.state == Inconsistent <==> expected != [] && exists d :: SeenTwice(expected, first, second, d)
  {
    hide CoverageOf, Compared, Reported, FindingsFor, SeenTwice, NulFreeObservations, Reports, Stable, Changed, AllBuilding, NulFree;
    if d :| d in Stable(expected, first, second) {
      StableIsSeenTwice(expected, first, second, d);
    }
    if d :| SeenTwice(expected, first, second, d) {
      StableIsSeenTwice(expected, first, second, d);
    }
  }

  lemma StableIsWarned(expected: seq<string>, first: Observations, second: Reread, e: Evaluation, d: Difference)
    requires expected != [] && IsEvaluation(expected, first, second, e)
    requires d in Stable(expected, first, second)
    ensures FindingOf(Normalize(d)) in e.findings && FindingOf(Normalize(d)).severity == Warning
  {
    hide StateOf, CoverageOf, Compared, FindingsFor, Stable, Reports, Reported;
    StableIsReported(expected, first, second, d);
    ReportedCodes(expected, first, second, d);
    ReportsMembers(e.differences, Reported(expected, first, second), Normalize(d));
    FindingsMembers(e.differences, FindingOf(Normalize(d)));
  }

  lemma WarnedIsStable(expected: seq<string>, first: Observations, second: Reread, e: Evaluation, f: Finding)
    requires expected != [] && IsEvaluation(expected, first, second, e)
    requires f in e.findings && f.severity == Warning
    ensures Stable(expected, first, second) != {}
  {
    hide StateOf, CoverageOf, Compared, FindingsFor, Stable, Reports, Reported;
    FindingsMembers(e.differences, f);
    var x :| x in e.differences && f == FindingOf(x);
    ReportsMembers(e.differences, Reported(expected, first, second), x);
    var d :| d in Reported(expected, first, second) && x == Normalize(d);
    ReportedCodes(expected, first, second, d);
    assert d in Stable(expected, first, second);
  }

  lemma ConsistentReportsNothing(expected: seq<string>, first: Observations, second: Reread)
    requires expected != [] && StateOf(expected, first, second) == Consistent
    ensures Reported(expected, first, second) == multiset{}
    ensures Compared(expected, first) == expected && CoverageOf(expected, first, second) == Complete
  {
    hide FirstCandidates, CanConfirm, AllBuilding, Absent, Stable;
    PresentMembers(expected, first.Keys);
  }

  lemma ReportsNothing(ds: seq<Difference>)
    requires Reports(ds, multiset{})
    ensures ds == [] && FindingsFor(ds) == []
  {
    var raw: seq<Difference> :| multiset(raw) == multiset{} && ds == NormalizeAndSort(raw);
    assert |multiset(raw)| == |raw|;
  }

  lemma InconsistentIsWarned(expected: seq<string>, first: Observations, second: Reread, e: Evaluation)
    requires expected != [] && IsEvaluation(expected, first, second, e) && e.state == Inconsistent
    ensures exists f :: f in e.findings && f.severity == Warning
  {
    hide FindingsFor, Stable, Reports, AllBuilding, Changed, Compared, Reported;
    var d :| d in Stable(expected, first, second);
    StableIsWarned(expected, first, second, e, d);
  }

  lemma WarnedIsInconsistent(expected: seq<string>, first: Observations, second: Reread, e: Evaluation, f: Finding)
    requires expected != [] && IsEvaluation(expected, first, second, e) && f in e.findings && f.severity == Warning
    ensures e.state == Inconsistent
  {
    hide FindingsFor, Stable, Reports, AllBuilding, Changed, Compared, Reported;
    WarnedIsStable(expected, first, second, e, f);
  }

  /** `inconsistent` and a warning always come together, whatever the text looks like; and a
      `consistent` verdict reports nothing and covers every expected shard. */
  lemma VerdictMatchesFindings(expected: seq<string>, first: Observations, second: Reread, e: Evaluation)
    requires IsEvaluation(expected, first, second, e)
    ensures e.state == Inconsistent <==> exists f :: f in e.findings && f.severity == Warning
    ensures e.state == Consistent ==>
      e.coverage == Complete && e.observed == expected && e.differences == [] && e.findings == []
    ensures e.state != Skipped && e.coverage != NotApplicable
  {
    if expected == [] { return; }
    hide FindingsFor, Stable, Reports, AllBuilding, Changed, Compared, Reported;
    if e.state == Consistent {
      ConsistentReportsNothing(expected, first, second);
      ReportsNothing(e.differences);
    }
    assert e.state == Consistent ==>
        e.coverage == Complete && e.observed == expected && e.differences == [] && e.findings == [];
    assert e.state != Skipped && e.coverage != NotApplicable;
    if e.state == Inconsistent {
      InconsistentIsWarned(expected, first, second, e);
    }
    hide IsEvaluation;
    if f :| f in e.findings && f.severity == Warning {
      WarnedIsInconsistent(expected, first, second, e, f);
    }
  }

  // ----- an index under construction is never warned about -----

  ghost predicate Mentions(names: set<string>, semantics: set<string>, obs: Observations) {
    exists s, i :: s in obs && 0 <= i < |obs[s]| && (obs[s][i].name in names || obs[s][i].semantic in semantics)
  }

  lemma KeptMentionsNothing(obs: Observations, names: set<string>, semantics: set<string>)
    ensures !Mentions(names, semantics, KeepAll(obs, names, semantics))
  {
    hide Keep;
    var k: Observations := KeepAll(obs, names, semantics);
    forall s: string, i: int | s in k && 0 <= i < |k[s]|
      ensures k[s][i].name !in names && k[s][i].semantic !in semantics
    {
      KeepMembers(obs[s], names, semantics, k[s][i]);
    }
  }

  /** Names that a difference speaks of: its own name, or the names under which one meaning goes. */
  ghost function NamesOf(k: Observations, expected: seq<string>, d: Difference): set<string> {
    if d.code == NameMismatch then SemanticNames(k, expected, d.fingerprint) else {d.indexName}
  }

  lemma CandidateNames(k: Observations, expected: seq<string>, d: Difference, n: string)
    requires d in Candidates(k, expected) && n in NamesOf(k, expected, d)
    ensures n in Names(k)
  {
    CandidateKinds(k, expected, d);
    hide Candidates, RenamedDifference, MissingDifference, MismatchDifference, SemanticDefinitions;
    if d.code == NameMismatch {
      var x :| x in SemanticDefinitions(k, expected, d.fingerprint) && x.name == n;
      SemanticDefinitionsMembers(k, expected, d.fingerprint, x);
      var s :| s in expected && s in k && x in k[s];
      var i :| 0 <= i < |k[s]| && k[s][i] == x;
    }
  }

  lemma SameNames(k: Observations, expected: seq<string>, d: Difference, e: Difference)
    requires SameAsWritten(d, e)
    ensures NamesOf(k, expected, d) == NamesOf(k, expected, e)
  {
    hide Join, KeyTexts, SemanticNames;
  }

  /** A difference that leads to a warning names no index that was being built in either pass. */
  lemma BuildingSilences(expected: seq<string>, first: Observations, second: Reread, d: Difference, n: string)
    requires NulFree(expected) && NulFreeObservations(first)
    requires second.Read? ==> NulFreeObservations(second.obs)
    requires d in Stable(expected, first, second)
    requires n in BuildingNames(first) + BuildingNames(second.obs)
    ensures n !in NamesOf(KeepAll(second.obs, BuildingNames(first) + BuildingNames(second.obs),
                                  BuildingSemantics(first) + BuildingSemantics(second.obs)), Compared(expected, first), d)
  {
    hide Candidates, NulFreeObservations, KeepAll, Stable, BuildingNames, BuildingSemantics, NamesOf, Mentions, SameAsWritten, NulFree;
    StableIsSeenTwice(expected, first, second, d);
    var names := BuildingNames(first) + BuildingNames(second.obs);
    var semantics := BuildingSemantics(first) + BuildingSemantics(second.obs);
    var k := KeepAll(second.obs, names, semantics);
    var e :| e in SecondCandidates(expected, first, second.obs) && SameAsWritten(d, e);
    SameNames(k, Compared(expected, first), d, e);
    KeptMentionsNothing(second.obs, names, semantics);
    NamesAreMentioned(k, names, semantics, n);
    if n in NamesOf(k, Compared(expected, first), e) { CandidateNames(k, Compared(expected, first), e, n); }
  }

  lemma NamesAreMentioned(k: Observations, names: set<string>, semantics: set<string>, n: string)
    ensures n in names && n in Names(k) ==> Mentions(names, semantics, k)
  {
    if n in Names(k) {
      var s, i :| s in k && 0 <= i < |k[s]| && k[s][i].name == n;
    }
  }
}
