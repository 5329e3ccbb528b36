/** What the state of an audited collection says about the shards, when a legacy strategy decided. */
module ConsistencyEndToEnd {
  import opened ConsistencyModel
  import opened ConsistencyCompare
  import opened ConsistencyEvaluate
  import opened ConsistencyExactness
  import opened ConsistencyVerdict
  import opened ConsistencyOrder
  import opened ConsistencySource
  import opened ConsistencyConfirm
  import opened ConsistencyPipeline
  import opened ConsistencyReport
  import opened ConsistencyAudit

  /** `consistent` means: every expected shard is visible and was read, no build is running, and all
      shards hold the same indexes; and whenever that is so, the state is `consistent`. */
  lemma ConsistentMeans(namespace: string, expected: seq<string>, visible: Reply<Visibility>, e: Evaluation, a: Audit, evidence: Evidence)
    requires evidence.Evidence? && WellFormed(expected, evidence.first)
    requires Founded(namespace, expected, visible, a.strategy, e, LegacyBasis(evidence))
    requires Adjusted(expected, visible, e, a)
    ensures a.state == Consistent <==>
      && expected != [] && Visible(expected, visible) && BuildsSeen(visible) == []
      && (forall s :: s in expected ==> s in evidence.first)
      && NothingBuilding(evidence.first) && SameIndexes(evidence.first)
  {
    hide IsEvaluation, WellFormed, Visible, NothingBuilding, SameIndexes, FirstFrom, Rechecked;
    Exactness(expected, evidence.first, evidence.second, e);
  }

  /** `inconsistent` means that one and the same difference was found in two observations, the second
      of which was read entirely after the first had been compared. */
  lemma InconsistentMeans(namespace: string, expected: seq<string>, visible: Reply<Visibility>, e: Evaluation, a: Audit, evidence: Evidence)
    requires evidence.Evidence? && NulFree(expected) && NulFreeObservations(evidence.first)
    requires evidence.second.Read? ==> NulFreeObservations(evidence.second.obs)
    requires Founded(namespace, expected, visible, a.strategy, e, LegacyBasis(evidence))
    requires Adjusted(expected, visible, e, a)
    ensures a.state == Inconsistent <==> expected != [] && exists d :: SeenTwice(expected, evidence.first, evidence.second, d)
    ensures a.state == Inconsistent ==>
      forall s :: s in Compared(expected, evidence.first) ==> s in Answers(evidence.again)
  {
    hide IsEvaluation, Visible, FirstFrom, NulFreeObservations, SeenTwice, Rechecked, Compared;
    InconsistentExactly(expected, evidence.first, evidence.second, e);
    if a.state == Inconsistent {
      var d :| SeenTwice(expected, evidence.first, evidence.second, d);
      SeenTwiceCovers(expected, evidence.first, evidence.second, d);
      SecondIsNew(expected, BuildsSeen(visible), evidence.first, evidence.second, evidence.again);
    }
  }

  /** What the second observation says of a compared shard was answered in the second round. */
  lemma SecondIsNew(expected: seq<string>, builds: seq<string>, first: Observations, second: Reread, again: seq<Event>)
    requires Rechecked(expected, builds, first, second, again) && second.Read?
    ensures forall s :: s in Compared(expected, first) && s in second.obs ==> s in Answers(again)
  {
    hide Compared, FirstCandidates, InTurn, Answers, Mark;
  }

  lemma SeenTwiceCovers(expected: seq<string>, first: Observations, second: Reread, d: Difference)
    requires SeenTwice(expected, first, second, d)
    ensures second.Read? && forall s :: s in Compared(expected, first) ==> s in second.obs && s in expected
  {
    hide FirstCandidates, SecondCandidates;
    PresentMembers(expected, first.Keys);
    PresentMembers(Compared(expected, first), second.obs.Keys);
  }

  // ----- shards that do not change -----

  lemma WellFormedAlike(expected: seq<string>, first: Observations, second: Observations)
    requires WellFormed(expected, first) && SameContents(first, second)
    ensures FirstAlike(first, first) && SecondAlike(first, first, second)
  {
    hide Keep, Alike, UniqueNames, UniqueSemantics;
    assert SameContents(first, first) && UniqueIndexes(first);
    UniqueAreAlike(first, first, BuildingNames(first), BuildingSemantics(first));
    UniqueAreAlike(first, second, BuildingNames(first) + BuildingNames(first), BuildingSemantics(first) + BuildingSemantics(first));
  }

  /** When both reads show the same indexes, all candidates are found again. */
  lemma FoundAgain(expected: seq<string>, first: Observations, second: Observations)
    requires WellFormed(expected, first) && NothingBuilding(first) && SameContents(first, second)
    ensures CanConfirm(expected, first, Read(second))
    ensures SecondCandidates(expected, first, second) == FirstCandidates(expected, first)
  {
    hide Candidates, KeepAll, FirstAlike, SecondAlike, WellFormed, NothingBuilding, BuildingNames, BuildingSemantics;
    WellFormedAlike(expected, first, second);
    AlikeSecond(expected, first, first, first, second);
    assert BuildingNames(first) + BuildingNames(first) == BuildingNames(first);
    assert BuildingSemantics(first) + BuildingSemantics(first) == BuildingSemantics(first);
    PresentMembers(expected, first.Keys);
    PresentMembers(Compared(expected, first), second.Keys);
  }

  /** Reading changes nothing: if no index is being built and the second read, should there be one,
      shows what the first did, in whatever order, then `inconsistent` says that the indexes differ. */
  lemma SteadyReads(expected: seq<string>, first: Observations, second: Reread, e: Evaluation)
    requires WellFormed(expected, first) && (forall s :: s in expected ==> s in first) && NothingBuilding(first)
    requires SameIndexes(first) || (second.Read? && SameContents(first, second.obs))
    requires IsEvaluation(expected, first, second, e)
    ensures e.state == Inconsistent <==> !SameIndexes(first)
  {
    Exactness(expected, first, second, e);
    hide SameIndexes, WellFormed, NothingBuilding, SameContents;
    if !SameIndexes(first) {
      PresentMembers(expected, first.Keys);
      SomethingDiffers(expected, first);
      FoundAgain(expected, first, second.obs);
      hide FirstCandidates, SecondCandidates, CanConfirm, CoverageOf, Reported, Reports, FindingsFor, Stable;
      var d :| d in FirstCandidates(expected, first);
      StableMeans(expected, first, second, d);
      assert Stable(expected, first, second) != {};
    }
  }

  lemma SomethingDiffers(expected: seq<string>, first: Observations)
    requires WellFormed(expected, first) && (forall s :: s in expected ==> s in first) && NothingBuilding(first) && !SameIndexes(first)
    ensures expected != [] && FirstCandidates(expected, first) != {}
  {
    hide FirstCandidates, Candidates, SameIndexes;
    PresentMembers(expected, first.Keys);
    FullCandidates(expected, first);
    NoCandidatesExactly(expected, first);
    if expected == [] { NothingObserved(first); }
  }

  lemma NothingObserved(obs: Observations)
    requires obs.Keys == {}
    ensures SameIndexes(obs)
  {
  }

  /** So on shards that hold still, and are all visible and read, the audit decides: `inconsistent` if
      their indexes differ, and `consistent` if they do not. */
  lemma SteadyShardsAreJudged(namespace: string, expected: seq<string>, visible: Reply<Visibility>, e: Evaluation, a: Audit, evidence: Evidence)
    requires evidence.Evidence? && WellFormed(expected, evidence.first)
    requires expected != [] && (forall s :: s in expected ==> s in evidence.first) && NothingBuilding(evidence.first)
    requires SameIndexes(evidence.first) || (evidence.second.Read? && SameContents(evidence.first, evidence.second.obs))
    requires Founded(namespace, expected, visible, a.strategy, e, LegacyBasis(evidence))
    requires Adjusted(expected, visible, e, a)
    ensures a.state == Inconsistent <==> !SameIndexes(evidence.first)
    ensures Visible(expected, visible) && BuildsSeen(visible) == [] ==> (a.state == Consistent <==> SameIndexes(evidence.first))
  {
    hide IsEvaluation, WellFormed, Visible, NothingBuilding, SameIndexes, FirstFrom, Rechecked, SameContents;
    SteadyReads(expected, evidence.first, evidence.second, e);
    ConsistentMeans(namespace, expected, visible, e, a, evidence);
  }
}
