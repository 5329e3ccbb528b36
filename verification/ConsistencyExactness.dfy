/** When does the verdict say `consistent`? Exactly when every expected shard was read, nothing is
    being built, and all shards hold the same indexes under the same names. */
module ConsistencyExactness {
  import opened ConsistencyModel
  import opened ConsistencyCompare
  import opened ConsistencyEvaluate

  ghost predicate NoDuplicates(s: seq<string>) {
    forall i, j :: 0 <= i < j < |s| ==> s[i] != s[j]
  }

  ghost predicate UniqueNames(ds: seq<Definition>) {
    forall i, j :: 0 <= i < |ds| && 0 <= j < |ds| && ds[i].name == ds[j].name ==> i == j
  }

  ghost predicate UniqueSemantics(ds: seq<Definition>) {
    forall i, j :: 0 <= i < |ds| && 0 <= j < |ds| && ds[i].semantic == ds[j].semantic ==> i == j
  }

  /** Expected shards are listed once, only they are observed, and no shard has two indexes with
      one name or with one meaning. */
  ghost predicate WellFormed(expected: seq<string>, obs: Observations) {
    && NoDuplicates(expected)
    && (forall s :: s in obs ==> s in expected)
    && (forall s :: s in obs ==> UniqueNames(obs[s]) && UniqueSemantics(obs[s]))
  }

  ghost predicate HasIndex(ds: seq<Definition>, name: string, semantic: string) {
    exists i :: 0 <= i < |ds| && ds[i].name == name && ds[i].semantic == semantic
  }

  /** Every index of `ds` exists in `es` under the same name with the same meaning. */
  ghost predicate Covered(ds: seq<Definition>, es: seq<Definition>) {
    forall i :: 0 <= i < |ds| ==> HasIndex(es, ds[i].name, ds[i].semantic)
  }

  /** All observed shards hold the same name-to-meaning map. */
  ghost predicate SameIndexes(obs: Observations) {
    forall s, t :: s in obs && t in obs ==> Covered(obs[s], obs[t])
  }

  ghost predicate NothingBuilding(obs: Observations) {
    forall s, i :: s in obs && 0 <= i < |obs[s]| ==> !obs[s][i].building
  }

  // ----- shard counting -----

  lemma {:induction false} PresentMembers(expected: seq<string>, present: set<string>)
    ensures forall s :: s in Present(expected, present) <==> s in expected && s in present
    ensures |Present(expected, present)| <= |expected|
    ensures |Present(expected, present)| == |expected| ==> Present(expected, present) == expected
    ensures (forall s :: s in expected ==> s in present) ==> Present(expected, present) == expected
    ensures NoDuplicates(expected) ==> NoDuplicates(Present(expected, present))
  {
    if expected != [] {
      var init, last := expected[..|expected| - 1], expected[|expected| - 1];
      assert expected == init + [last];
      PresentMembers(init, present);
    }
  }

  lemma {:induction false} DistinctCount(s: seq<string>)
    requires NoDuplicates(s)
    ensures |set x | x in s| == |s|
  {
    if s != [] {
      var init, last := s[..|s| - 1], s[|s| - 1];
      assert s == init + [last];
      DistinctCount(init);
      assert (set x | x in s) == (set x | x in init) + {last};
    }
  }

  /** As many shards as expected means all of them. */
  lemma FullCount(expected: seq<string>, shards: set<string>)
    requires NoDuplicates(expected)
    requires forall s :: s in shards ==> s in expected
    ensures |shards| == |expected| <==> shards == set s | s in expected
  {
    DistinctCount(expected);
    var all := set s | s in expected;
    assert shards <= all;
    if shards != all {
      assert |all| == |shards| + |all - shards| by {
        assert all == shards + (all - shards);
      }
    }
  }

  lemma AtMostOne<T>(s: set<T>)
    ensures |s| > 1 <==> exists x, y :: x in s && y in s && x != y
  {
    if |s| > 1 {
      var x :| x in s;
      assert |s - {x}| == |s| - 1;
      var y :| y in s - {x};
    }
    if x, y :| x in s && y in s && x != y {
      assert |s - {x, y}| == |s| - 2;
    }
  }

  // ----- from the maps to the shards -----

  lemma {:induction false} LastNamedUnique(ds: seq<Definition>, i: nat)
    requires UniqueNames(ds) && i < |ds|
    ensures HasName(ds, ds[i].name) && LastNamed(ds, ds[i].name) == ds[i]
  {
    var init := ds[..|ds| - 1];
    if i < |ds| - 1 {
      assert ds[|ds| - 1].name != ds[i].name;
      LastNamedUnique(init, i);
      assert init[i] == ds[i];
    }
  }

  lemma {:induction false} SemanticDefinitionsMembers(k: Observations, expected: seq<string>, m: string, d: Definition)
    ensures d in SemanticDefinitions(k, expected, m) <==> d.semantic == m && exists s :: s in expected && s in k && d in k[s]
  {
    if expected != [] {
      var init, last := expected[..|expected| - 1], expected[|expected| - 1];
      assert expected == init + [last];
      SemanticDefinitionsMembers(k, init, m, d);
      if last in k { WithSemanticMembers(k[last], m); }
    }
  }

  lemma CoveredNames(ds: seq<Definition>, es: seq<Definition>, n: string)
    requires UniqueNames(ds) && UniqueNames(es) && Covered(ds, es) && HasName(ds, n)
    ensures HasName(es, n) && LastNamed(es, n).semantic == LastNamed(ds, n).semantic
  {
    var i :| 0 <= i < |ds| && ds[i].name == n;
    LastNamedUnique(ds, i);
    var j :| 0 <= j < |es| && es[j].name == ds[i].name && es[j].semantic == ds[i].semantic;
    LastNamedUnique(es, j);
  }

  lemma SameMeaningSameName(ds: seq<Definition>, es: seq<Definition>, i: nat, j: nat)
    requires i < |ds| && j < |es| && ds[i].semantic == es[j].semantic
    requires Covered(ds, es) && UniqueSemantics(es)
    ensures ds[i].name == es[j].name
  {
    assert HasIndex(es, ds[i].name, ds[i].semantic);
  }

  lemma NamesakesAgree(k: Observations, expected: seq<string>, m: string, d: Definition, e: Definition)
    requires WellFormed(expected, k) && SameIndexes(k)
    requires d in SemanticDefinitions(k, expected, m) && e in SemanticDefinitions(k, expected, m)
    ensures d.name == e.name
  {
    SemanticDefinitionsMembers(k, expected, m, d);
    SemanticDefinitionsMembers(k, expected, m, e);
    hide SemanticDefinitions;
    var s :| s in expected && s in k && d in k[s];
    var t :| t in expected && t in k && e in k[t];
    var i :| 0 <= i < |k[s]| && k[s][i] == d;
    var j :| 0 <= j < |k[t]| && k[t][j] == e;
    SameMeaningSameName(k[s], k[t], i, j);
  }

  lemma SameIndexesSameNames(k: Observations, expected: seq<string>, m: string)
    requires WellFormed(expected, k) && SameIndexes(k)
    ensures |SemanticNames(k, expected, m)| <= 1
  {
    hide SemanticDefinitions, WellFormed, SameIndexes;
    var names := SemanticNames(k, expected, m);
    forall x, y | x in names && y in names
      ensures x == y
    {
      var d :| d in SemanticDefinitions(k, expected, m) && d.name == x;
      var e :| e in SemanticDefinitions(k, expected, m) && e.name == y;
      NamesakesAgree(k, expected, m, d, e);
    }
    AtMostOne(names);
  }

  lemma SameIndexesOnShards(k: Observations, expected: seq<string>, n: string, s: string, t: string)
    requires WellFormed(expected, k) && SameIndexes(k) && s in k && t in k && HasName(k[s], n)
    ensures HasName(k[t], n) && LastNamed(k[t], n).semantic == LastNamed(k[s], n).semantic
  {
    hide LastNamed, HasName;
    CoveredNames(k[s], k[t], n);
  }

  lemma SameIndexesAgree(k: Observations, expected: seq<string>, n: string)
    requires WellFormed(expected, k) && SameIndexes(k) && k.Keys == set s | s in expected
    requires n in Names(k)
    ensures |NameShards(k, n)| == |expected| && |NameSemantics(k, n)| <= 1
  {
    var s0, i0 :| s0 in k && 0 <= i0 < |k[s0]| && k[s0][i0].name == n;
    assert HasName(k[s0], n);
    hide LastNamed, HasName, SameIndexes, UniqueNames, UniqueSemantics;
    forall t | t in k
      ensures HasName(k[t], n) && LastNamed(k[t], n).semantic == LastNamed(k[s0], n).semantic
    {
      SameIndexesOnShards(k, expected, n, s0, t);
    }
    assert NameShards(k, n) == set s | s in expected;
    FullCount(expected, NameShards(k, n));
    AtMostOne(NameSemantics(k, n));
  }

  lemma NoCandidates(k: Observations, expected: seq<string>)
    requires WellFormed(expected, k) && SameIndexes(k) && k.Keys == set s | s in expected
    ensures Candidates(k, expected) == {}
  {
    hide *;
    forall m
      ensures m !in RenamedSemantics(k, expected)
    {
      SameIndexesSameNames(k, expected, m);
      RenamedHasNames(k, expected, m);
    }
    forall n
      ensures n !in MissingNames(k, expected) && n !in MismatchedNames(k, expected)
    {
      NameKinds(k, expected, n);
      if n in Names(k) { SameIndexesAgree(k, expected, n); }
    }
    EmptyCandidates(k, expected);
  }

  lemma RenamedHasNames(k: Observations, expected: seq<string>, m: string)
    ensures m in RenamedSemantics(k, expected) ==> |SemanticNames(k, expected, m)| > 1
  {
  }

  lemma NameKinds(k: Observations, expected: seq<string>, n: string)
    ensures n in MissingNames(k, expected) <==> n in Names(k) && n !in Handled(k, expected) && |NameShards(k, n)| != |expected|
    ensures n in MismatchedNames(k, expected) <==>
              n in Names(k) && n !in Handled(k, expected) && |NameShards(k, n)| == |expected| && |NameSemantics(k, n)| > 1
  {
  }

  lemma EmptyCandidates(k: Observations, expected: seq<string>)
    ensures Candidates(k, expected) == {} <==>
      RenamedSemantics(k, expected) == {} && MissingNames(k, expected) == {} && MismatchedNames(k, expected) == {}
    ensures RenamedSemantics(k, expected) == {} ==> Handled(k, expected) == {}
  {
    hide RenamedSemantics, MissingNames, MismatchedNames, RenamedDifference, MissingDifference, MismatchDifference;
    if m :| m in RenamedSemantics(k, expected) {
      assert RenamedDifference(k, expected, m) in Candidates(k, expected);
    }
    if n :| n in MissingNames(k, expected) {
      assert MissingDifference(k, expected, n) in Candidates(k, expected);
    }
    if n :| n in MismatchedNames(k, expected) {
      assert MismatchDifference(k, expected, n) in Candidates(k, expected);
    }
  }

  lemma NoCandidatesAgree(k: Observations, expected: seq<string>, n: string, s: string, t: string)
    requires WellFormed(expected, k) && k.Keys == set s | s in expected
    requires Candidates(k, expected) == {}
    requires s in k && t in k && n in Names(k)
    ensures HasName(k[s], n) && HasName(k[t], n) && LastNamed(k[s], n).semantic == LastNamed(k[t], n).semantic
  {
    EmptyCandidates(k, expected);
    NameKinds(k, expected, n);
    FullCount(expected, NameShards(k, n));
    hide Candidates, Names, LastNamed, HasName, MissingNames, MismatchedNames, RenamedSemantics, Handled;
    assert s in NameShards(k, n) && t in NameShards(k, n);
    AtMostOne(NameSemantics(k, n));
    assert LastNamed(k[s], n).semantic in NameSemantics(k, n);
    assert LastNamed(k[t], n).semantic in NameSemantics(k, n);
  }

  /** Without candidates, an index of one shard is on every other shard. */
  lemma NoCandidatesCover(k: Observations, expected: seq<string>, s: string, t: string)
    requires WellFormed(expected, k) && k.Keys == set s | s in expected
    requires Candidates(k, expected) == {}
    requires s in k && t in k
    ensures Covered(k[s], k[t])
  {
    hide Candidates, LastNamed;
    forall i | 0 <= i < |k[s]|
      ensures HasIndex(k[t], k[s][i].name, k[s][i].semantic)
    {
      var n := k[s][i].name;
      NoCandidatesAgree(k, expected, n, s, t);
      LastNamedUnique(k[s], i);
      var e := LastNamed(k[t], n);
      var j :| 0 <= j < |k[t]| && k[t][j] == e;
    }
  }

  // ----- the theorem -----

  lemma {:induction false} KeepNothingBuilding(ds: seq<Definition>)
    ensures Keep(ds, {}, {}) == ds
  {
    if ds != [] {
      KeepNothingBuilding(ds[..|ds| - 1]);
      assert ds == ds[..|ds| - 1] + [ds[|ds| - 1]];
    }
  }

  lemma KeepAllNothingBuilding(obs: Observations)
    requires NothingBuilding(obs)
    ensures BuildingNames(obs) == {} && BuildingSemantics(obs) == {} && KeepAll(obs, {}, {}) == obs
  {
    forall s | s in obs
      ensures Keep(obs[s], {}, {}) == obs[s]
    {
      KeepNothingBuilding(obs[s]);
    }
  }

  lemma BuildingHasName(obs: Observations)
    ensures NothingBuilding(obs) <==> BuildingNames(obs) == {}
  {
    if s, i :| s in obs && 0 <= i < |obs[s]| && obs[s][i].building {
      assert obs[s][i].name in BuildingNames(obs);
    }
  }

  /** The state is `consistent` exactly when there was nothing to report. */
  lemma ConsistentState(expected: seq<string>, first: Observations, second: Reread)
    requires expected != []
    ensures StateOf(expected, first, second) == Consistent <==>
      !Gap(expected, first) && FirstCandidates(expected, first) == {} && BuildingNames(first) == {}
  {
    hide FirstCandidates, BuildingNames, SecondCandidates, CanConfirm, Gap, Signatures;
    if FirstCandidates(expected, first) == {} || !CanConfirm(expected, first, second) {
      Unconfirmed(expected, first, second);
    }
  }

  lemma FullCandidates(expected: seq<string>, first: Observations)
    requires WellFormed(expected, first)
    requires !Gap(expected, first) && NothingBuilding(first)
    ensures first.Keys == set s | s in expected
    ensures FirstCandidates(expected, first) == Candidates(first, expected)
  {
    hide Candidates, KeepAll;
    PresentMembers(expected, first.Keys);
    KeepAllNothingBuilding(first);
  }

  lemma NoCandidatesExactly(expected: seq<string>, first: Observations)
    requires WellFormed(expected, first)
    requires first.Keys == set s | s in expected
    ensures Candidates(first, expected) == {} <==> SameIndexes(first)
  {
    hide Candidates;
    if SameIndexes(first) { NoCandidates(first, expected); }
    if Candidates(first, expected) == {} {
      forall s, t | s in first && t in first
        ensures Covered(first[s], first[t])
      {
        NoCandidatesCover(first, expected, s, t);
      }
    }
  }

  /** Exactness of the verdict `consistent`, whatever the second observation is. */
  lemma Exactness(expected: seq<string>, first: Observations, second: Reread, e: Evaluation)
    requires WellFormed(expected, first)
    requires IsEvaluation(expected, first, second, e)
    ensures e.state == Consistent <==>
      expected != [] && (forall s :: s in expected ==> s in first) && NothingBuilding(first) && SameIndexes(first)
  {
    hide StateOf, Candidates, FirstCandidates, BuildingNames, NothingBuilding, SameIndexes, WellFormed, Reports, CoverageOf;
    if expected != [] {
      ConsistentState(expected, first, second);
      BuildingHasName(first);
      PresentMembers(expected, first.Keys);
      if !Gap(expected, first) && NothingBuilding(first) {
        FullCandidates(expected, first);
        NoCandidatesExactly(expected, first);
      }
    }
  }
}
