/** From the evaluation that a strategy arrived at to what is reported of the collection: which shards
    were visible, and which builds are running. */
module ConsistencyReport {
  import opened Sorting
  import opened ConsistencyModel
  import opened ConsistencyCompare
  import opened ConsistencyCandidates
  import opened ConsistencyEvaluate
  import opened ConsistencyOfficial
  import opened ConsistencyOrder
  import opened ConsistencySource
  import opened ConsistencyPipeline

  ghost predicate Visible(expected: seq<string>, visible: Reply<Visibility>) {
    visible.Ok? && |ObservedOf(expected, visible.value.shards)| == |expected|
  }

  ghost function ShardsSeen(visible: Reply<Visibility>): seq<string> {
    if visible.Ok? then visible.value.shards else []
  }

  ghost function BuildsSeen(visible: Reply<Visibility>): seq<string> {
    if visible.Ok? then visible.value.builds else []
  }

  ghost function Invisible(expected: seq<string>, visible: Reply<Visibility>): seq<string> {
    Absent(expected, set s | s in ShardsSeen(visible))
  }

  /** Adjusting for visibility and builds can only take a `consistent` verdict away. */
  ghost predicate Adjusted(expected: seq<string>, visible: Reply<Visibility>, e: Evaluation, a: Audit) {
    && (a.state == Inconsistent <==> e.state == Inconsistent)
    && (a.state == Consistent <==> e.state == Consistent && Visible(expected, visible) && BuildsSeen(visible) == [])
    && a.observed == e.observed
    && (a.coverage == Complete <==> e.coverage == Complete && Visible(expected, visible))
  }

  // ----- which differences are reported -----

  /** The visibility gap is reported when the evaluation has not expressed a doubt already. */
  ghost function GapOf(expected: seq<string>, visible: Reply<Visibility>, e: Evaluation): seq<Difference> {
    if Visible(expected, visible) || ReportsDoubt(e.differences) then [] else [InconclusiveOn(Invisible(expected, visible))]
  }

  /** The builds that the evaluation does not report. */
  ghost function BuildsOf(visible: Reply<Visibility>, e: Evaluation): set<string> {
    set n | n in BuildsSeen(visible) && n != "" && n !in KnownBuilds(e.differences)
  }

  /** What is reported are the differences of the evaluation, the gap and the builds, each in normal form and
      as often as it is there, in the order of signatures; or those of the evaluation as they are. */
  ghost predicate Shows(expected: seq<string>, visible: Reply<Visibility>, e: Evaluation, ds: seq<Difference>) {
    if GapOf(expected, visible, e) == [] && BuildsSeen(visible) == [] then ds == e.differences
    else
      && multiset(ds) == multiset(NormalizeAll(e.differences)) + multiset(NormalizeAll(GapOf(expected, visible, e)))
                         + multiset(BuildingDifferences(BuildsOf(visible, e)))
      && Sorted(ds, Signature)
  }

  lemma NormalizeTwice(d: Difference)
    ensures Normalize(Normalize(d)) == Normalize(d)
  {
    SortStringsUnique(SortStrings(d.shards), d.shards);
    SortStringsUnique(SortStrings(d.fields), d.fields);
    hide SortStrings;
  }

  lemma NormalizeAllTwice(ds: seq<Difference>)
    ensures multiset(NormalizeAll(NormalizeAndSort(ds))) == multiset(NormalizeAll(ds))
  {
    NormalizeAllPermutes(NormalizeAndSort(ds), NormalizeAll(ds));
    hide Normalize, Signature;
    forall i | 0 <= i < |ds|
      ensures NormalizeAll(NormalizeAll(ds))[i] == NormalizeAll(ds)[i]
    {
      NormalizeTwice(ds[i]);
    }
    assert NormalizeAll(NormalizeAll(ds)) == NormalizeAll(ds);
  }

  lemma BuildingIsNormal(n: string)
    ensures Normalize(Building(n)) == Building(n)
  {
    NothingToSort();
    hide SortStrings;
  }

  lemma NothingToSort()
    ensures SortStrings([]) == []
  {
    assert |SortStrings([])| == |multiset(SortStrings([]))| == 0;
  }

  ghost function NewNames(known: set<string>, builds: seq<string>): set<string> {
    set n | n in builds && n != "" && n !in known
  }

  lemma {:induction false} NewBuildsAre(known: set<string>, builds: seq<string>)
    ensures multiset(NormalizeAll(NewBuilds(known, builds))) == multiset(BuildingDifferences(NewNames(known, builds)))
  {
    if builds != [] {
      var init, name := builds[..|builds| - 1], builds[|builds| - 1];
      NewBuildsAre(known, init);
      assert builds == init + [name];
      if name == "" || name in known || name in init {
        assert NewNames(known, builds) == NewNames(known, init);
      } else {
        assert NewNames(known, builds) == NewNames(known, init) + {name};
        BuildingGrows(NewNames(known, init), name);
        BuildingIsNormal(name);
        NormalizeAllSplits(NewBuilds(known, init), [Building(name)]);
        assert NormalizeAll([Building(name)]) == [Building(name)] by { hide Normalize; }
      }
    }
  }

  lemma KnownAfterGap(ds: seq<Difference>, missing: seq<string>)
    ensures KnownBuilds(NormalizeAndSort(ds + [InconclusiveOn(missing)])) == KnownBuilds(ds)
  {
    hide Signature, NormalizeAndSort;
    var all := ds + [InconclusiveOn(missing)];
    forall n
      ensures n in KnownBuilds(NormalizeAndSort(all)) <==> n in KnownBuilds(ds)
    {
      KnownInSorted(all, n);
      assert n in KnownBuilds(all) <==> n in KnownBuilds(ds) by { KnownAppend(ds, InconclusiveOn(missing), n); }
    }
  }

  lemma KnownAppend(ds: seq<Difference>, d: Difference, n: string)
    requires d.code != BuildInProgress
    ensures n in KnownBuilds(ds + [d]) <==> n in KnownBuilds(ds)
  {
    assert forall x :: x in ds + [d] <==> x in ds || x == d;
  }

  lemma KnownInSorted(ds: seq<Difference>, n: string)
    ensures n in KnownBuilds(NormalizeAndSort(ds)) <==> n in KnownBuilds(ds)
  {
    hide NormalizeAndSort, Normalize;
    if n in KnownBuilds(ds) {
      var d :| d in ds && d.code == BuildInProgress && d.indexName == n;
      SortedNormals(ds, Normalize(d));
      NormalKeeps(d);
    }
    if n in KnownBuilds(NormalizeAndSort(ds)) {
      var x :| x in NormalizeAndSort(ds) && x.code == BuildInProgress && x.indexName == n;
      SortedNormals(ds, x);
      var d :| d in ds && x == Normalize(d);
      NormalKeeps(d);
    }
  }

  lemma NormalKeeps(d: Difference)
    ensures Normalize(d).code == d.code && Normalize(d).indexName == d.indexName
  {
  }

  lemma SortedIsSorted(ds: seq<Difference>)
    ensures Sorted(NormalizeAndSort(ds), Signature) && multiset(NormalizeAndSort(ds)) == multiset(NormalizeAll(ds))
  {
  }

  /** The first adjustment. */
  lemma GapShows(ds: seq<Difference>, missing: seq<string>)
    ensures var gap := [InconclusiveOn(missing)]; var r := NormalizeAndSort(ds + gap);
      && multiset(r) == multiset(NormalizeAll(r)) == multiset(NormalizeAll(ds)) + multiset(NormalizeAll(gap))
      && Sorted(r, Signature) && KnownBuilds(r) == KnownBuilds(ds)
  {
    hide NormalizeAndSort, NormalizeAll, Signature, KnownBuilds, Sorted;
    var gap := [InconclusiveOn(missing)];
    NormalizeAllSplits(ds, gap);
    SortedIsSorted(ds + gap);
    NormalizeAllTwice(ds + gap);
    KnownAfterGap(ds, missing);
  }

  /** The second adjustment. */
  lemma BuildsShow(ds: seq<Difference>, builds: seq<string>)
    ensures var r := NormalizeAndSort(ds + NewBuilds(KnownBuilds(ds), builds));
      && multiset(r) == multiset(NormalizeAll(ds)) + multiset(BuildingDifferences(NewNames(KnownBuilds(ds), builds)))
      && Sorted(r, Signature)
  {
    hide NormalizeAndSort, NormalizeAll, Signature, KnownBuilds, Sorted, NewNames, NewBuilds, BuildingDifferences;
    var new_ := NewBuilds(KnownBuilds(ds), builds);
    SortedIsSorted(ds + new_);
    NormalizeAllSplits(ds, new_);
    NewBuildsAre(KnownBuilds(ds), builds);
  }

  /** The two adjustments together show what they should. */
  lemma AdjustmentsShow(expected: seq<string>, visible: Reply<Visibility>, e: Evaluation, between: seq<Difference>, ds: seq<Difference>)
    requires between == if GapOf(expected, visible, e) == [] then e.differences
                        else NormalizeAndSort(e.differences + GapOf(expected, visible, e))
    requires ds == if BuildsSeen(visible) == [] then between
                   else NormalizeAndSort(between + NewBuilds(KnownBuilds(between), BuildsSeen(visible)))
    ensures Shows(expected, visible, e, ds)
  {
    hide NormalizeAndSort, NormalizeAll, Signature, KnownBuilds, Sorted, NewBuilds, BuildingDifferences, Visible, ReportsDoubt, Invisible, NewNames;
    var gap, builds := GapOf(expected, visible, e), BuildsSeen(visible);
    NormalizeAllNothing();
    NoBuilds();
    GapShows(e.differences, Invisible(expected, visible));
    BuildsShow(between, builds);
    BuildsAre(visible, e);
  }

  lemma NoBuilds()
    ensures BuildingDifferences({}) == {}
  {
  }

  lemma BuildsAre(visible: Reply<Visibility>, e: Evaluation)
    ensures BuildsOf(visible, e) == NewNames(KnownBuilds(e.differences), BuildsSeen(visible))
    ensures BuildsSeen(visible) == [] ==> BuildsOf(visible, e) == {}
  {
  }

  lemma NormalizeAllNothing()
    ensures NormalizeAll([]) == []
  {
  }

  /** One of the reported differences, in normal form, is one of the evaluation, or the gap, naming exactly
      the expected shards that are not visible, or a build. */
  lemma ShownExactly(expected: seq<string>, visible: Reply<Visibility>, e: Evaluation, ds: seq<Difference>, x: Difference)
    requires Shows(expected, visible, e, ds)
    ensures x in NormalizeAll(ds) <==>
      || x in NormalizeAll(e.differences)
      || (!Visible(expected, visible) && !ReportsDoubt(e.differences) && x == Normalize(InconclusiveOn(Invisible(expected, visible))))
      || (exists n :: n in BuildsSeen(visible) && n != "" && n !in KnownBuilds(e.differences) && x == Building(n))
  {
    hide Normalize, Visible, Signature, Sorted, ReportsDoubt, KnownBuilds;
    var gap := GapOf(expected, visible, e);
    assert gap != [] ==> NormalizeAll(gap) == [Normalize(InconclusiveOn(Invisible(expected, visible)))];
    assert x in NormalizeAll(gap) <==> gap != [] && x == Normalize(InconclusiveOn(Invisible(expected, visible)));
    if !(gap == [] && BuildsSeen(visible) == []) {
      AlreadyNormal(expected, visible, e, ds);
      assert x in ds <==> x in multiset(ds);
      assert x in NormalizeAll(e.differences) <==> x in multiset(NormalizeAll(e.differences));
      assert x in NormalizeAll(gap) <==> x in multiset(NormalizeAll(gap));
    }
  }

  lemma AlreadyNormal(expected: seq<string>, visible: Reply<Visibility>, e: Evaluation, ds: seq<Difference>)
    requires Shows(expected, visible, e, ds) && !(GapOf(expected, visible, e) == [] && BuildsSeen(visible) == [])
    ensures NormalizeAll(ds) == ds
  {
    hide Normalize, Signature, Sorted, GapOf, BuildsOf;
    forall i | 0 <= i < |ds|
      ensures Normalize(ds[i]) == ds[i]
    {
      assert ds[i] in multiset(ds);
      if ds[i] in multiset(NormalizeAll(e.differences)) {
        NormalIsNormal(e.differences, ds[i]);
      } else if ds[i] in multiset(NormalizeAll(GapOf(expected, visible, e))) {
        NormalIsNormal(GapOf(expected, visible, e), ds[i]);
      } else {
        var n :| n in BuildsOf(visible, e) && ds[i] == Building(n);
        BuildingIsNormal(n);
      }
    }
  }

  lemma NormalIsNormal(ds: seq<Difference>, x: Difference)
    requires x in multiset(NormalizeAll(ds))
    ensures Normalize(x) == x
  {
    hide Normalize;
    var i :| 0 <= i < |ds| && NormalizeAll(ds)[i] == x;
    NormalizeTwice(ds[i]);
  }

  lemma WhatIsSeen(expected: seq<string>, visible: Reply<Visibility>, shards: seq<string>)
    requires shards == if visible.Ok? then visible.value.shards else []
    ensures var seen := set s | s in shards;
      && (Visible(expected, visible) <==> visible.Ok? && |Present(expected, seen)| == |expected|)
      && Invisible(expected, visible) == Absent(expected, seen)
    ensures BuildsSeen(visible) == if visible.Ok? then visible.value.builds else []
  {
    hide Present, Absent;
  }

  method Finish(expected: seq<string>, visible: Reply<Visibility>, strategy: Strategy, fallback: Fallback, e: Evaluation)
    returns (a: Audit)
    requires Coherent(expected, e)
    ensures Adjusted(expected, visible, e, a) && Shows(expected, visible, e, a.differences)
    ensures Coherent(expected, Evaluation(a.state, a.coverage, a.observed, a.differences, a.findings))
    ensures a.sharded && a.expected == expected && a.strategy == strategy && a.fallback == fallback
  {
    hide NormalizeAndSort, FindingsFor, Warns, ReportsDoubt, NewBuilds, Shows, KnownBuilds, Visible, Invisible, Present, Absent, BuildsSeen;
    var r := e;
    var shards := if visible.Ok? then visible.value.shards else [];
    var builds := if visible.Ok? then visible.value.builds else [];
    var seen := set s | s in shards;
    var present := PresentShards(expected, seen);
    WhatIsSeen(expected, visible, shards);
    if visible.Err? || |present| != |expected| {
      var missing := AbsentShards(expected, seen);
      r := ApplyCoverageGap(expected, r, missing);
    }
    ghost var between := r;
    GapIsOf(expected, visible, e, between.differences);
    r := ApplyIndexBuilds(expected, r, builds);
    AdjustmentsShow(expected, visible, e, between.differences, r.differences);
    a := Audit(true, r.state, r.coverage, strategy, fallback, expected, r.observed, r.differences, r.findings);
  }

  lemma GapIsOf(expected: seq<string>, visible: Reply<Visibility>, e: Evaluation, between: seq<Difference>)
    requires between == if Visible(expected, visible) || ReportsDoubt(e.differences) then e.differences
                        else NormalizeAndSort(e.differences + [InconclusiveOn(Invisible(expected, visible))])
    ensures between == if GapOf(expected, visible, e) == [] then e.differences
                       else NormalizeAndSort(e.differences + GapOf(expected, visible, e))
  {
    hide NormalizeAndSort, Visible, ReportsDoubt, Invisible;
  }
}
