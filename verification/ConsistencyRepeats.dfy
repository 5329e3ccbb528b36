/** Shards that list a name or a meaning more than once: exactly which reorderings of such a list can
    change an evaluation. */
module ConsistencyRepeats {
  import opened Text
  import opened Sorting
  import opened ConsistencyModel
  import opened ConsistencyCompare
  import opened ConsistencyEvaluate
  import opened ConsistencyExactness
  import opened ConsistencyVerdict
  import opened ConsistencyOrder

  /** Observations without builds, in which one shard lists `ds`, or `es` in its place. */
  ghost predicate Swapped(expected: seq<string>, a: Observations, b: Observations, s: string, ds: seq<Definition>, es: seq<Definition>) {
    && NulFree(expected) && "" !in expected && NulFreeObservations(a) && NothingBuilding(a)
    && s in a && a[s] == ds && b == a[s := es]
  }

  /** An evaluation of shards that read the same twice. */
  ghost predicate Judged(expected: seq<string>, obs: Observations, e: Evaluation) {
    IsEvaluation(expected, obs, Read(obs), e)
  }

  // ----- an interchangeable list is not seen -----

  lemma InterchangeableWithItself(ds: seq<Definition>)
    ensures Interchangeable(ds, ds)
  {
    hide HasName, LastNamed, Reference, WithSemantic;
  }

  lemma SwappedBuilding(a: Observations, b: Observations)
    requires NothingBuilding(a) && SameContents(a, b)
    ensures NothingBuilding(b)
  {
    forall s, i | s in b && 0 <= i < |b[s]|
      ensures !b[s][i].building
    {
      SameMembersOf(a[s], b[s]);
      assert b[s][i] in a[s];
    }
  }

  lemma SwappedAlike(a: Observations, b: Observations, s: string, ds: seq<Definition>, es: seq<Definition>)
    requires Interchangeable(ds, es) && s in a && a[s] == ds && b == a[s := es]
    ensures SameContents(a, b) && Alike(a, b)
  {
    assert multiset(ds) == multiset(es);
    hide Interchangeable;
    forall t | t in a
      ensures Interchangeable(a[t], b[t])
    {
      if t != s { InterchangeableWithItself(a[t]); }
    }
  }

  lemma AlikeWithoutBuilds(a: Observations, b: Observations)
    requires NothingBuilding(a) && SameContents(a, b) && Alike(a, b)
    ensures FirstAlike(a, b) && SecondAlike(a, a, b)
  {
    hide Alike, NothingBuilding, KeepAll, BuildingNames, BuildingSemantics;
    SwappedBuilding(a, b);
    KeepAllNothingBuilding(a);
    KeepAllNothingBuilding(b);
    assert BuildingNames(a) + BuildingNames(a) == {} && BuildingSemantics(a) + BuildingSemantics(a) == {};
  }

  lemma NotSeen(expected: seq<string>, a: Observations, b: Observations, s: string, ds: seq<Definition>, es: seq<Definition>, x: Evaluation, y: Evaluation)
    requires Interchangeable(ds, es) && Swapped(expected, a, b, s, ds, es) && Judged(expected, a, x) && Judged(expected, b, y)
    ensures x == y
  {
    hide Interchangeable, NothingBuilding, NulFreeObservations, IsEvaluation, Alike, SameContents, FirstAlike, SecondAlike, NulFree;
    SwappedAlike(a, b, s, ds, es);
    AlikeWithoutBuilds(a, b);
    OrderIndependence(expected, a, b, Read(a), Read(b), x, y);
  }

  // ----- steady shards report their candidates -----

  lemma SteadyCandidates(expected: seq<string>, obs: Observations)
    requires NothingBuilding(obs) && forall s :: s in expected ==> s in obs
    ensures FirstCandidates(expected, obs) == SecondCandidates(expected, obs, obs) == Candidates(obs, expected)
    ensures CanConfirm(expected, obs, Read(obs))
  {
    hide Candidates, KeepAll, BuildingNames, BuildingSemantics, NothingBuilding;
    PresentMembers(expected, obs.Keys);
    KeepAllNothingBuilding(obs);
    assert BuildingNames(obs) + BuildingNames(obs) == {} && BuildingSemantics(obs) + BuildingSemantics(obs) == {};
  }

  lemma CandidateIsReported(expected: seq<string>, obs: Observations, e: Evaluation, d: Difference)
    requires NothingBuilding(obs) && expected != [] && (forall s :: s in expected ==> s in obs) && Judged(expected, obs, e)
    requires d in Candidates(obs, expected)
    ensures Normalize(d) in e.differences
  {
    SteadyCandidates(expected, obs);
    hide Candidates, NothingBuilding, FirstCandidates, SecondCandidates, CanConfirm, Reported, Reports, StateOf, CoverageOf, FindingsFor, Signature;
    StableMeans(expected, obs, Read(obs), d);
    StableIsReported(expected, obs, Read(obs), d);
    ReportsMembers(e.differences, Reported(expected, obs, Read(obs)), Normalize(d));
  }

  lemma ReportedIsCandidate(expected: seq<string>, obs: Observations, e: Evaluation, x: Difference) returns (d: Difference)
    requires NothingBuilding(obs) && expected != [] && (forall s :: s in expected ==> s in obs) && Judged(expected, obs, e)
    requires x in e.differences && SeverityOf(x.code) == Warning
    ensures d in Candidates(obs, expected) && x == Normalize(d)
  {
    SteadyCandidates(expected, obs);
    hide Candidates, NothingBuilding, FirstCandidates, SecondCandidates, CanConfirm, Reported, Reports, StateOf, CoverageOf, FindingsFor, Signature, Stable;
    ReportsMembers(e.differences, Reported(expected, obs, Read(obs)), x);
    d :| d in Reported(expected, obs, Read(obs)) && x == Normalize(d);
    assert d.code == x.code by { hide SortStrings; }
    ReportedCodes(expected, obs, Read(obs), d);
    StableMeans(expected, obs, Read(obs), d);
  }

  /** Two settings that are judged alike have the same candidates, normalized. */
  lemma JudgedAlike(expected: seq<string>, a: Observations, b: Observations, e: Evaluation, d: Difference) returns (d': Difference)
    requires NothingBuilding(a) && NothingBuilding(b) && expected != []
    requires forall s :: s in expected ==> s in a && s in b
    requires Judged(expected, a, e) && Judged(expected, b, e)
    requires d in Candidates(a, expected)
    ensures d' in Candidates(b, expected)
    ensures d'.code == d.code && d'.indexName == d.indexName && d'.key == d.key && d'.fingerprint == d.fingerprint
    ensures SortStrings(d'.fields) == SortStrings(d.fields)
  {
    hide Candidates, NothingBuilding, Judged, Normalize;
    CandidateWarns(a, expected, d);
    CandidateIsReported(expected, a, e, d);
    d' := ReportedIsCandidate(expected, b, e, Normalize(d));
    SameNormal(d, d');
  }

  lemma CandidateWarns(k: Observations, expected: seq<string>, d: Difference)
    requires d in Candidates(k, expected)
    ensures SeverityOf(Normalize(d).code) == Warning
  {
    CandidateKinds(k, expected, d);
    hide Candidates, RenamedDifference, MissingDifference, MismatchDifference, SortStrings;
  }

  lemma SameNormal(d: Difference, e: Difference)
    requires Normalize(d) == Normalize(e)
    ensures e.code == d.code && e.indexName == d.indexName && e.key == d.key && e.fingerprint == d.fingerprint
    ensures SortStrings(e.fields) == SortStrings(d.fields)
  {
    hide SortStrings;
  }

  lemma {:induction false} Listed<T>(m: multiset<T>) returns (s: seq<T>)
    ensures multiset(s) == m
    decreases |m|
  {
    if m == multiset{} {
      s := [];
    } else {
      var x :| x in m;
      var rest := Listed(m - multiset{x});
      s := rest + [x];
      assert m == (m - multiset{x}) + multiset{x};
    }
  }

  lemma SomeEvaluation(expected: seq<string>, obs: Observations) returns (e: Evaluation)
    requires expected != []
    ensures Judged(expected, obs, e)
  {
    hide Reported, StateOf, CoverageOf, Compared, NormalizeAndSort, FindingsFor, IsEvaluation;
    var raw := Listed(Reported(expected, obs, Read(obs)));
    e := Evaluation(StateOf(expected, obs, Read(obs)), CoverageOf(expected, obs, Read(obs)), Compared(expected, obs),
                    NormalizeAndSort(raw), FindingsFor(NormalizeAndSort(raw)));
    Conclude(expected, obs, Read(obs), raw, e);
  }

  // ----- settings that show a difference -----

  const TWO: seq<string> := ["s", "t"]

  /** The list in question on one of two shards. */
  ghost function Beside(ds: seq<Definition>, other: seq<Definition>): Observations { map["s" := ds, "t" := other] }

  ghost predicate Ordinary(ds: seq<Definition>) {
    forall i :: 0 <= i < |ds| ==> !ds[i].building && NulFreeDefinition(ds[i])
  }

  lemma OrdinaryMember(ds: seq<Definition>, d: Definition)
    requires Ordinary(ds) && d in ds
    ensures !d.building && NulFreeDefinition(d)
  {
  }

  lemma BesideSwaps(ds: seq<Definition>, es: seq<Definition>, other: seq<Definition>)
    requires multiset(ds) == multiset(es) && Ordinary(ds) && Ordinary(other)
    ensures Swapped(TWO, Beside(ds, other), Beside(es, other), "s", ds, es)
    ensures NothingBuilding(Beside(ds, other)) && NothingBuilding(Beside(es, other))
  {
    hide NulFreeDefinition;
    var a, b := Beside(ds, other), Beside(es, other);
    assert b == a["s" := es];
    forall i | 0 <= i < |es|
      ensures !es[i].building
    {
      SameMembersOf(ds, es);
      OrdinaryMember(ds, es[i]);
    }
    assert TWO[0] == "s" && TWO[1] == "t";
  }

  lemma {:induction false} Longer(strings: set<string>) returns (n: nat)
    ensures forall s :: s in strings ==> |s| < n
    decreases strings
  {
    if s :| s in strings {
      var m := Longer(strings - {s});
      n := if m > |s| then m else |s| + 1;
    } else {
      n := 0;
    }
  }

  lemma BesideCovers(ds: seq<Definition>, other: seq<Definition>)
    ensures TWO != [] && forall s :: s in TWO ==> s in Beside(ds, other)
  {
  }

  /** A text that is not among the given ones. */
  lemma Fresh(strings: set<string>) returns (s: string)
    ensures s !in strings && s != "" && NUL !in s
  {
    var n := Longer(strings);
    s := seq(n + 1, _ => 'x');
    assert |s| == n + 1;
  }

  /** No meaning is on both shards. */
  ghost predicate Apart(ds: seq<Definition>, other: seq<Definition>) {
    forall d, e :: d in ds && e in other ==> d.semantic != e.semantic
  }

  lemma NothingIsRenamed(ds: seq<Definition>, other: seq<Definition>)
    requires Apart(ds, other)
    ensures Handled(Beside(ds, other), TWO) == {}
  {
    var a := Beside(ds, other);
    forall m
      ensures |SemanticShards(a, m)| != 2
    {
      WithSemanticMembers(ds, m);
      WithSemanticMembers(other, m);
      hide WithSemantic;
      var v, w := WithSemantic(ds, m), WithSemantic(other, m);
      assert v != [] ==> v[0] in ds;
      assert w != [] ==> w[0] in other;
      OneOfTwo(a, m);
    }
    hide SemanticShards, SemanticNames, Semantics;
    assert RenamedSemantics(a, TWO) == {};
  }

  lemma OneOfTwo(a: Observations, m: string)
    requires a.Keys == {"s", "t"} && (WithSemantic(a["s"], m) == [] || WithSemantic(a["t"], m) == [])
    ensures |SemanticShards(a, m)| < 2
  {
    hide WithSemantic;
    if WithSemantic(a["s"], m) == [] {
      FewerThan(SemanticShards(a, m), {"t"});
    } else {
      FewerThan(SemanticShards(a, m), {"s"});
    }
  }

  lemma FewerThan<T>(s: set<T>, t: set<T>)
    requires s <= t
    ensures |s| <= |t|
  {
    assert t == s + (t - s);
  }

  lemma NamedOn(ds: seq<Definition>, other: seq<Definition>, n: string)
    requires HasName(ds, n)
    ensures n in Names(Beside(ds, other))
    ensures NameShards(Beside(ds, other), n) == if HasName(other, n) then {"s", "t"} else {"s"}
    ensures NameReference(Beside(ds, other), TWO, n) == LastNamed(ds, n)
  {
    hide LastNamed;
    var i :| 0 <= i < |ds| && ds[i].name == n;
    var a: Observations := Beside(ds, other);
    assert a["s"] == ds;
    assert TWO[0] == "s";
  }

  // ----- a last definition of another meaning or key -----

  lemma MissingIsCandidate(ds: seq<Definition>, n: string)
    requires HasName(ds, n)
    ensures MissingDifference(Beside(ds, []), TWO, n) in Candidates(Beside(ds, []), TWO)
    ensures var d := MissingDifference(Beside(ds, []), TWO, n);
      d.code == MissingOnShard && d.indexName == n && d.key == LastNamed(ds, n).key && d.fingerprint == LastNamed(ds, n).semantic
  {
    NothingIsRenamed(ds, []);
    NamedOn(ds, [], n);
    hide Handled, Names, NameShards, NameReference, LastNamed, HasName, Renames, MismatchDifferences, Absent;
    var a := Beside(ds, []);
    assert n in MissingNames(a, TWO);
  }

  lemma MissingAgrees(ds: seq<Definition>, es: seq<Definition>, n: string, e: Evaluation)
    requires multiset(ds) == multiset(es) && Ordinary(ds) && HasName(ds, n) && HasName(es, n)
    requires Judged(TWO, Beside(ds, []), e) && Judged(TWO, Beside(es, []), e)
    ensures LastNamed(ds, n).key == LastNamed(es, n).key && LastNamed(ds, n).semantic == LastNamed(es, n).semantic
  {
    hide *;
    var a, b := Beside(ds, []), Beside(es, []);
    NothingOrdinary();
    BesideSwaps(ds, es, []);
    MissingIsCandidate(ds, n);
    MissingIsCandidate(es, n);
    BesideCovers(ds, []);
    BesideCovers(es, []);
    var d' := JudgedAlike(TWO, a, b, e, MissingDifference(a, TWO, n));
    CandidateKinds(b, TWO, d');
  }

  // ----- a last definition with another field -----

  /** A namesake with another meaning and the fields of `d`. */
  ghost function Namesake(d: Definition, semantic: string): Definition { Definition(d.name, [], semantic, d.fields, false) }

  lemma MismatchIsCandidate(ds: seq<Definition>, other: Definition, n: string)
    requires HasName(ds, n) && other.name == n && Apart(ds, [other])
    ensures MismatchDifference(Beside(ds, [other]), TWO, n) in Candidates(Beside(ds, [other]), TWO)
    ensures Namesakes(Beside(ds, [other]), n).Values == {LastNamed(ds, n), other}
  {
    var a := Beside(ds, [other]);
    NothingIsRenamed(ds, [other]);
    assert HasName([other], n) by { assert [other][0].name == n; }
    NamedOn(ds, [other], n);
    assert LastNamed([other], n) == other;
    assert LastNamed(ds, n).semantic != other.semantic by { assert other in [other]; }
    hide Handled, Names, NameReference, LastNamed, HasName, Renames, MissingDifferences, DifferingFields, Digest, Join, SortedKeys;
    TwoNamesakes(a, n, LastNamed(ds, n), other);
    assert |NameShards(a, n)| == 2 && |TWO| == 2;
    hide NameShards, Namesakes, NameSemantics;
    assert n in MismatchedNames(a, TWO);
  }

  lemma TwoNamesakes(a: Observations, n: string, d: Definition, e: Definition)
    requires "s" in a && "t" in a && NameShards(a, n) == {"s", "t"} && LastNamed(a["s"], n) == d && LastNamed(a["t"], n) == e && d.semantic != e.semantic
    ensures Namesakes(a, n).Values == {d, e} && |NameSemantics(a, n)| > 1
  {
    hide LastNamed, HasName;
    var all := Namesakes(a, n);
    assert all["s"] == d && all["t"] == e;
    hide NameShards;
    assert d.semantic in NameSemantics(a, n) && e.semantic in NameSemantics(a, n);
    AtMostOne(NameSemantics(a, n));
  }

  lemma FieldsOfTwo(d: Definition, e: Definition, f: string)
    ensures f in DifferingFields({d, e}) <==> f != "name" && FieldValue(d, f) != FieldValue(e, f)
  {
    FieldsDiffer({d, e}, f);
    hide FieldValue, DifferingFields;
    AtMostOne(FieldValues({d, e}, f));
    assert FieldValue(d, f) in FieldValues({d, e}, f) && FieldValue(e, f) in FieldValues({d, e}, f);
  }

  lemma MismatchAgrees(ds: seq<Definition>, es: seq<Definition>, other: Definition, n: string, f: string, e: Evaluation)
    requires multiset(ds) == multiset(es) && Ordinary(ds) && HasName(ds, n) && HasName(es, n) && f != "name"
    requires Ordinary([other]) && other.name == n && Apart(ds, [other]) && Apart(es, [other])
    requires Judged(TWO, Beside(ds, [other]), e) && Judged(TWO, Beside(es, [other]), e)
    ensures FieldValue(LastNamed(ds, n), f) == FieldValue(other, f) <==> FieldValue(LastNamed(es, n), f) == FieldValue(other, f)
  {
    var a, b := Beside(ds, [other]), Beside(es, [other]);
    BesideSwaps(ds, es, [other]);
    MismatchIsCandidate(ds, other, n);
    MismatchIsCandidate(es, other, n);
    FieldsOfTwo(LastNamed(ds, n), other, f);
    FieldsOfTwo(LastNamed(es, n), other, f);
    hide Candidates, Judged, LastNamed, HasName, NothingBuilding, Swapped, Apart, SortStrings, RenamedDifference, MissingDifference, FieldValue, DifferingFields,
         Namesakes, SortedKeys, NameReference, Digest, Join, NameSemantics;
    var d := MismatchDifference(a, TWO, n);
    assert d.code == SpecMismatch && d.indexName == n;
    var d' := JudgedAlike(TWO, a, b, e, d);
    CandidateKinds(b, TWO, d');
    SameFields(DifferingFields(Namesakes(a, n).Values), DifferingFields(Namesakes(b, n).Values), f);
  }

  lemma SameFields(v: set<string>, w: set<string>, f: string)
    requires SortStrings(SortedKeys(v)) == SortStrings(SortedKeys(w))
    ensures f in v <==> f in w
  {
    SortedKeysMembers(v, f);
    SortedKeysMembers(w, f);
    SortedMembers(SortedKeys(v), f);
    SortedMembers(SortedKeys(w), f);
    hide SortedKeys, SortStrings;
  }

  // ----- a first definition with another key -----

  lemma RenameIsCandidate(ds: seq<Definition>, other: Definition, m: string)
    requires other.semantic == m && other.name != "" && !HasName(ds, other.name) && Reference(WithSemantic(ds, m)).name != ""
    ensures RenamedDifference(Beside(ds, [other]), TWO, m) in Candidates(Beside(ds, [other]), TWO)
    ensures RenamedDifference(Beside(ds, [other]), TWO, m).key == Reference(WithSemantic(ds, m)).key
  {
    var a := Beside(ds, [other]);
    var v := WithSemantic(ds, m);
    OneWithSemantic(other);
    TwoShardsOf(ds, other);
    ReferenceConcat(v, [other]);
    ReferenceMember(v);
    WithSemanticMembers(ds, m);
    hide WithSemantic, Reference, MissingDifferences, MismatchDifferences, Join, SortedKeys;
    var r := Reference(v);
    assert r in ds;
    assert r.name != other.name;
    var names := SemanticNames(a, TWO, m);
    assert r in v + [other] && other in v + [other];
    assert r.name in names && other.name in names;
    AtMostOne(names);
    RenamedHere(a, m, other);
    hide SemanticNames, SemanticShards, Semantics, SemanticDefinitions;
    assert m in RenamedSemantics(a, TWO);
  }

  lemma OneWithSemantic(other: Definition)
    ensures WithSemantic([other], other.semantic) == [other]
  {
    assert [other][..0] == [];
  }

  lemma TwoShardsOf(ds: seq<Definition>, other: Definition)
    ensures SemanticDefinitions(Beside(ds, [other]), TWO, other.semantic) == WithSemantic(ds, other.semantic) + [other]
  {
    OneWithSemantic(other);
    hide WithSemantic;
    var a, one := Beside(ds, [other]), TWO[..1];
    assert one == ["s"] && one[..0] == [] && TWO[1] == "t";
    assert SemanticDefinitions(a, one[..0], other.semantic) == [];
    assert SemanticDefinitions(a, one, other.semantic) == WithSemantic(ds, other.semantic);
  }

  lemma RenamedHere(a: Observations, m: string, other: Definition)
    requires a.Keys == {"s", "t"} && a["t"] == [other] && other.semantic == m && WithSemantic(a["s"], m) != []
    ensures m in Semantics(a) && |SemanticShards(a, m)| == 2
  {
    OneWithSemantic(other);
    hide WithSemantic;
    assert a["t"][0].semantic == m;
    assert SemanticShards(a, m) == {"s", "t"};
  }

  lemma RenameAgrees(ds: seq<Definition>, es: seq<Definition>, other: Definition, m: string, e: Evaluation)
    requires multiset(ds) == multiset(es) && Ordinary(ds) && Ordinary([other])
    requires other.semantic == m && other.name != "" && !HasName(ds, other.name)
    requires Reference(WithSemantic(ds, m)).name != "" && Reference(WithSemantic(es, m)).name != ""
    requires Judged(TWO, Beside(ds, [other]), e) && Judged(TWO, Beside(es, [other]), e)
    ensures Reference(WithSemantic(ds, m)).key == Reference(WithSemantic(es, m)).key
  {
    var a, b := Beside(ds, [other]), Beside(es, [other]);
    BesideSwaps(ds, es, [other]);
    SameNamesOf(ds, es, other.name);
    RenameIsCandidate(ds, other, m);
    RenameIsCandidate(es, other, m);
    var d := RenamedDifference(a, TWO, m);
    assert d.code == NameMismatch && d.fingerprint == m by { hide Reference, SemanticDefinitions, Join, SortedKeys, SemanticNames; }
    hide Candidates, Judged, HasName, NothingBuilding, Swapped, SortStrings, RenamedDifference, MissingDifference, MismatchDifference, Reference, WithSemantic;
    var d' := JudgedAlike(TWO, a, b, e, d);
    CandidateKinds(b, TWO, d');
  }

  // ----- exactly -----

  /** A setting in which the two lists lead to different evaluations. */
  ghost predicate Seen(ds: seq<Definition>, es: seq<Definition>) {
    exists expected, a, b, s, x, y :: Swapped(expected, a, b, s, ds, es) && Judged(expected, a, x) && Judged(expected, b, y) && x != y
  }

  lemma BesideIsSeen(ds: seq<Definition>, es: seq<Definition>, other: seq<Definition>)
    requires multiset(ds) == multiset(es) && Ordinary(ds) && Ordinary(other)
    requires forall e :: !(Judged(TWO, Beside(ds, other), e) && Judged(TWO, Beside(es, other), e))
    ensures Seen(ds, es)
  {
    BesideSwaps(ds, es, other);
    hide Judged, Swapped, NothingBuilding, Ordinary;
    var x := SomeEvaluation(TWO, Beside(ds, other));
    var y := SomeEvaluation(TWO, Beside(es, other));
    assert x != y;
  }

  lemma LastIsSeen(ds: seq<Definition>, es: seq<Definition>, n: string)
    requires multiset(ds) == multiset(es) && Ordinary(ds) && !SameLast(ds, es, n)
    ensures Seen(ds, es)
  {
    SameNamesOf(ds, es, n);
    hide HasName, LastNamed, Seen, Judged, FieldValue, Ordinary, NulFreeDefinition;
    var d, e := LastNamed(ds, n), LastNamed(es, n);
    if d.semantic != e.semantic || d.key != e.key {
      forall x | Judged(TWO, Beside(ds, []), x) && Judged(TWO, Beside(es, []), x)
        ensures false
      {
        MissingAgrees(ds, es, n, x);
      }
      NothingOrdinary();
      BesideIsSeen(ds, es, []);
    } else {
      var f :| f != "name" && FieldValue(d, f) != FieldValue(e, f);
      FieldIsSeen(ds, es, n, f);
    }
  }

  lemma NothingOrdinary()
    ensures Ordinary([])
  {
  }

  lemma FieldIsSeen(ds: seq<Definition>, es: seq<Definition>, n: string, f: string)
    requires multiset(ds) == multiset(es) && Ordinary(ds) && HasName(ds, n) && HasName(es, n)
    requires f != "name" && FieldValue(LastNamed(ds, n), f) != FieldValue(LastNamed(es, n), f)
    ensures Seen(ds, es)
  {
    var d := LastNamed(ds, n);
    OrdinaryMember(ds, d);
    SameMembersOf(ds, es);
    var meaning := Fresh(set x | x in ds :: x.semantic);
    var other := Namesake(d, meaning);
    assert Apart(ds, [other]) && Apart(es, [other]);
    assert Ordinary([other]);
    assert FieldValue(d, f) == FieldValue(other, f);
    hide HasName, LastNamed, Seen, Judged, FieldValue, Ordinary, Apart;
    forall x | Judged(TWO, Beside(ds, [other]), x) && Judged(TWO, Beside(es, [other]), x)
      ensures false
    {
      MismatchAgrees(ds, es, other, n, f, x);
    }
    BesideIsSeen(ds, es, [other]);
  }

  lemma FirstIsSeen(ds: seq<Definition>, es: seq<Definition>, m: string)
    requires multiset(ds) == multiset(es) && Ordinary(ds) && !SameFirst(ds, es, m)
    ensures Seen(ds, es)
  {
    var r := Reference(WithSemantic(ds, m));
    ReferenceMember(WithSemantic(ds, m));
    WithSemanticMembers(ds, m);
    hide WithSemantic, Reference;
    assert r in ds && r.semantic == m;
    OrdinaryMember(ds, r);
    var name := Fresh(set x | x in ds :: x.name);
    var other := Definition(name, [], m, map[], false);
    assert !HasName(ds, name);
    assert Ordinary([other]);
    hide HasName, Seen, Judged, Ordinary;
    forall x | Judged(TWO, Beside(ds, [other]), x) && Judged(TWO, Beside(es, [other]), x)
      ensures false
    {
      RenameAgrees(ds, es, other, m, x);
    }
    BesideIsSeen(ds, es, [other]);
  }

  /** A reordering of one shard's list changes no evaluation, whatever else was observed, if and only if the
      last definition of every name reads the same and the first of every meaning has the same key. */
  lemma RepeatsSeenExactly(ds: seq<Definition>, es: seq<Definition>)
    requires multiset(ds) == multiset(es) && Ordinary(ds)
    ensures Interchangeable(ds, es) <==>
      forall expected, a, b, s, x, y :: Swapped(expected, a, b, s, ds, es) && Judged(expected, a, x) && Judged(expected, b, y) ==> x == y
  {
    hide SameLast, SameFirst, Swapped, Judged, Ordinary;
    if Interchangeable(ds, es) {
      forall expected, a, b, s, x, y | Swapped(expected, a, b, s, ds, es) && Judged(expected, a, x) && Judged(expected, b, y)
        ensures x == y
      {
        NotSeen(expected, a, b, s, ds, es, x, y);
      }
    } else if n :| !SameLast(ds, es, n) {
      LastIsSeen(ds, es, n);
    } else {
      var m :| !SameFirst(ds, es, m);
      FirstIsSeen(ds, es, m);
    }
  }
}
