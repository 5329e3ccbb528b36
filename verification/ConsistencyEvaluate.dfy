/** `evaluateLegacyIndexConsistency`: one observation, an optional second one, and the verdict. */
module ConsistencyEvaluate {
  import opened ConsistencyModel
  import opened ConsistencyCompare
  import opened ConsistencyCandidates

  datatype Reread = NotRead | Read(obs: Observations)

  // ----- what the verdict is made of -----

  ghost function BuildingNames(obs: Observations): set<string> {
    set s, i | s in obs && 0 <= i < |obs[s]| && obs[s][i].building :: obs[s][i].name
  }

  ghost function BuildingSemantics(obs: Observations): set<string> {
    set s, i | s in obs && 0 <= i < |obs[s]| && obs[s][i].building :: obs[s][i].semantic
  }

  /** The expected shards that the first observation covers. */
  ghost function Compared(expected: seq<string>, first: Observations): seq<string> {
    Present(expected, first.Keys)
  }

  ghost function FirstCandidates(expected: seq<string>, first: Observations): set<Difference> {
    Candidates(KeepAll(first, BuildingNames(first), BuildingSemantics(first)), Compared(expected, first))
  }

  /** The second observation can only confirm when it covers every compared shard. */
  ghost predicate CanConfirm(expected: seq<string>, first: Observations, second: Reread) {
    second.Read? && |Present(Compared(expected, first), second.obs.Keys)| == |Compared(expected, first)|
  }

  ghost function SecondCandidates(expected: seq<string>, first: Observations, second: Observations): set<Difference> {
    Candidates(KeepAll(second, BuildingNames(first) + BuildingNames(second),
                       BuildingSemantics(first) + BuildingSemantics(second)), Compared(expected, first))
  }

  /** Whether the second observation is consulted, and adequate. */
  ghost predicate Confirming(expected: seq<string>, first: Observations, second: Reread) {
    FirstCandidates(expected, first) != {} && CanConfirm(expected, first, second)
  }

  ghost function Signatures(ds: set<Difference>): set<string> {
    set d | d in ds :: Signature(d)
  }

  /** The differences found with the same signature in both observations. */
  ghost function Stable(expected: seq<string>, first: Observations, second: Reread): set<Difference> {
    if Confirming(expected, first, second) then
      BorneOut(FirstCandidates(expected, first), Signatures(SecondCandidates(expected, first, second.obs)))
    else {}
  }

  ghost function BorneOut(ds: set<Difference>, signatures: set<string>): set<Difference> {
    set d | d in ds && Signature(d) in signatures
  }

  ghost predicate Changed(expected: seq<string>, first: Observations, second: Reread) {
    FirstCandidates(expected, first) != Stable(expected, first, second)
  }

  ghost function AllBuilding(expected: seq<string>, first: Observations, second: Reread): set<string> {
    BuildingNames(first) + (if Confirming(expected, first, second) then BuildingNames(second.obs) else {})
  }

  ghost predicate Gap(expected: seq<string>, first: Observations) {
    |Compared(expected, first)| != |expected|
  }

  ghost function CoverageOf(expected: seq<string>, first: Observations, second: Reread): Coverage {
    if expected == [] || Gap(expected, first)
       || (FirstCandidates(expected, first) != {} && !CanConfirm(expected, first, second))
    then Incomplete else Complete
  }

  ghost function StateOf(expected: seq<string>, first: Observations, second: Reread): State {
    if Stable(expected, first, second) != {} then Inconsistent
    else if AllBuilding(expected, first, second) != {} || Changed(expected, first, second)
            || CoverageOf(expected, first, second) == Incomplete
    then Unclear else Consistent
  }

  ghost function BuildingDifferences(names: set<string>): set<Difference> {
    set n | n in names :: Building(n)
  }

  /** The reported differences before they are normalized. */
  ghost function Reported(expected: seq<string>, first: Observations, second: Reread): multiset<Difference> {
    (if Gap(expected, first) then multiset{InconclusiveOn(Absent(expected, first.Keys))} else multiset{})
    + multiset(BuildingDifferences(AllBuilding(expected, first, second)))
    + multiset(Stable(expected, first, second))
    + (if Changed(expected, first, second) then multiset{InconclusiveOn([])} else multiset{})
  }

  ghost predicate Reports(ds: seq<Difference>, reported: multiset<Difference>) {
    exists raw: seq<Difference> :: multiset(raw) == reported && ds == NormalizeAndSort(raw)
  }

  ghost const NOTHING_EXPECTED :=
    Evaluation(Unclear, Incomplete, [], [InconclusiveOn([])], [FindingOf(InconclusiveOn([]))])

  /** What `evaluateLegacyIndexConsistency` promises about its result. */
  ghost predicate IsEvaluation(expected: seq<string>, first: Observations, second: Reread, e: Evaluation) {
    if expected == [] then e == NOTHING_EXPECTED
    else
      && e.state == StateOf(expected, first, second)
      && e.coverage == CoverageOf(expected, first, second)
      && e.observed == Compared(expected, first)
      && Reports(e.differences, Reported(expected, first, second))
      && e.findings == FindingsFor(e.differences)
  }

  // ----- the computation -----

  /** `buildingIndexKeys`. */
  method BuildingIndexKeys(obs: Observations) returns (names: set<string>, semantics: set<string>)
    ensures names == BuildingNames(obs) && semantics == BuildingSemantics(obs)
  {
    names, semantics := {}, {};
    var todo := obs.Keys;
    while todo != {}
      invariant todo <= obs.Keys
      invariant names == set s, i | s in obs.Keys - todo && 0 <= i < |obs[s]| && obs[s][i].building :: obs[s][i].name
      invariant semantics == set s, i | s in obs.Keys - todo && 0 <= i < |obs[s]| && obs[s][i].building :: obs[s][i].semantic
      decreases todo
    {
      var s :| s in todo;
      var ds := obs[s];
      todo := todo - {s};
      ghost var names0, semantics0 := names, semantics;
      for j := 0 to |ds|
        invariant names == names0 + set i | 0 <= i < j && ds[i].building :: ds[i].name
        invariant semantics == semantics0 + set i | 0 <= i < j && ds[i].building :: ds[i].semantic
      {
        if ds[j].building {
          names := names + {ds[j].name};
          semantics := semantics + {ds[j].semantic};
        }
      }
    }
  }

  ghost function StableOf(cs: seq<Difference>, signatures: set<string>): seq<Difference> {
    if cs == [] then []
    else
      var d, rest := cs[|cs| - 1], StableOf(cs[..|cs| - 1], signatures);
      if Signature(d) in signatures then rest + [d] else rest
  }

  lemma {:induction false} StableOfCounts(cs: seq<Difference>, signatures: set<string>, d: Difference)
    ensures multiset(StableOf(cs, signatures))[d] == if Signature(d) in signatures then multiset(cs)[d] else 0
  {
    hide Signature;
    if cs != [] {
      StableOfCounts(cs[..|cs| - 1], signatures, d);
      assert cs == cs[..|cs| - 1] + [cs[|cs| - 1]];
    }
  }

  lemma StableOfSet(cs: seq<Difference>, c: set<Difference>, signatures: set<string>)
    requires multiset(cs) == multiset(c)
    ensures multiset(StableOf(cs, signatures)) == multiset(set d | d in c && Signature(d) in signatures)
  {
    hide Signature, StableOf;
    var kept := set d | d in c && Signature(d) in signatures;
    forall d
      ensures multiset(StableOf(cs, signatures))[d] == multiset(kept)[d]
    {
      StableOfCounts(cs, signatures, d);
      assert multiset(cs)[d] == multiset(c)[d];
    }
  }

  /** The loops over `secondCandidates` and `firstCandidates`. */
  method ConfirmCandidates(firsts: seq<Difference>, seconds: seq<Difference>)
    returns (stable: seq<Difference>, changed: bool)
    ensures stable == StableOf(firsts, set d | d in seconds :: Signature(d))
    ensures changed <==> exists d :: d in firsts && Signature(d) !in (set e | e in seconds :: Signature(e))
  {
    hide Signature;
    var confirmed: set<string> := {};
    for i := 0 to |seconds|
      invariant confirmed == set j | 0 <= j < i :: Signature(seconds[j])
    {
      confirmed := confirmed + {Signature(seconds[i])};
    }
    assert confirmed == set d | d in seconds :: Signature(d);
    stable, changed := [], false;
    for i := 0 to |firsts|
      invariant stable == StableOf(firsts[..i], confirmed)
      invariant changed <==> exists j :: 0 <= j < i && Signature(firsts[j]) !in confirmed
    {
      assert firsts[..i + 1][..i] == firsts[..i];
      if Signature(firsts[i]) in confirmed {
        stable := stable + [firsts[i]];
      } else {
        changed := true;
      }
    }
    assert firsts[..|firsts|] == firsts;
  }

  lemma BuildingGrows(done: set<string>, n: string)
    requires n !in done
    ensures multiset(BuildingDifferences(done + {n})) == multiset(BuildingDifferences(done)) + multiset{Building(n)}
  {
    assert BuildingDifferences(done + {n}) == BuildingDifferences(done) + {Building(n)};
  }

  /** `for name := range buildingNames`. */
  method ReportBuilding(names: set<string>) returns (r: seq<Difference>)
    ensures multiset(r) == multiset(BuildingDifferences(names))
  {
    r := [];
    var todo := names;
    while todo != {}
      invariant todo <= names
      invariant multiset(r) == multiset(BuildingDifferences(names - todo))
      decreases todo
    {
      var n :| n in todo;
      BuildingGrows(names - todo, n);
      assert names - (todo - {n}) == names - todo + {n};
      r := r + [Difference(BuildInProgress, n, [], [], "", [], "")];
      todo := todo - {n};
    }
    assert names - todo == names;
  }

  lemma SameMembers<T>(s: seq<T>, c: set<T>)
    requires multiset(s) == multiset(c)
    ensures forall x :: x in s <==> x in c
    ensures s == [] <==> c == {}
  {
    assert forall x :: x in s <==> x in multiset(s);
    assert s != [] ==> s[0] in multiset(s);
    assert forall x :: x in c <==> x in multiset(c);
    assert c != {} ==> exists x :: x in c;
  }

  lemma ConfirmedMatch(expected: seq<string>, first: Observations, second: Observations,
                       firsts: seq<Difference>, seconds: seq<Difference>, signatures: set<string>)
    requires multiset(firsts) == multiset(FirstCandidates(expected, first)) && firsts != []
    requires multiset(seconds) == multiset(SecondCandidates(expected, first, second))
    requires CanConfirm(expected, first, Read(second))
    requires signatures == set d | d in seconds :: Signature(d)
    ensures multiset(StableOf(firsts, signatures)) == multiset(Stable(expected, first, Read(second)))
    ensures Changed(expected, first, Read(second)) <==> exists d :: d in firsts && Signature(d) !in signatures
    ensures AllBuilding(expected, first, Read(second)) == BuildingNames(first) + BuildingNames(second)
  {
    hide FirstCandidates, SecondCandidates, Signature, BuildingNames, BuildingSemantics, CanConfirm, StableOf;
    var c := FirstCandidates(expected, first);
    SameMembers(firsts, c);
    SameMembers(seconds, SecondCandidates(expected, first, second));
    assert signatures == Signatures(SecondCandidates(expected, first, second));
    StableOfSet(firsts, c, signatures);
    assert Stable(expected, first, Read(second)) == set d | d in c && Signature(d) in signatures;
  }

  lemma Unconfirmed(expected: seq<string>, first: Observations, second: Reread)
    requires FirstCandidates(expected, first) == {} || !CanConfirm(expected, first, second)
    ensures Stable(expected, first, second) == {}
    ensures Changed(expected, first, second) <==> FirstCandidates(expected, first) != {}
    ensures AllBuilding(expected, first, second) == BuildingNames(first)
  {
  }

  /** The confirmation step: which candidates the second observation bears out. */
  method Confirm(expected: seq<string>, first: Observations, second: Reread, firsts: seq<Difference>,
                 names: set<string>, semantics: set<string>)
    returns (stable: seq<Difference>, changed: bool, building: set<string>, adequate: bool)
    requires multiset(firsts) == multiset(FirstCandidates(expected, first)) && firsts != []
    requires names == BuildingNames(first) && semantics == BuildingSemantics(first)
    ensures adequate <==> CanConfirm(expected, first, second)
    ensures multiset(stable) == multiset(Stable(expected, first, second))
    ensures changed <==> Changed(expected, first, second)
    ensures building == AllBuilding(expected, first, second)
  {
    hide Stable, Changed, AllBuilding, FirstCandidates, Candidates, KeepAll, Signature, BuildingNames, BuildingSemantics, StableOf;
    var shards := PresentShards(expected, first.Keys);
    stable, changed, building, adequate := [], true, names, false;
    SameMembers(firsts, FirstCandidates(expected, first));
    if second.Read? {
      var covered := PresentShards(shards, second.obs.Keys);
      if |covered| == |shards| {
        var names2, semantics2 := BuildingIndexKeys(second.obs);
        var seconds := CompareLegacyDefinitions(shards, second.obs, names + names2, semantics + semantics2);
        stable, changed := ConfirmCandidates(firsts, seconds);
        building, adequate := names + names2, true;
        ConfirmedMatch(expected, first, second.obs, firsts, seconds, set d | d in seconds :: Signature(d));
        return;
      }
    }
    Unconfirmed(expected, first, second);
  }

  /** The coverage and the state as the code derives them from the pieces. */
  lemma Verdict(expected: seq<string>, first: Observations, second: Reread, stable: seq<Difference>, coverage: Coverage)
    requires expected != []
    requires multiset(stable) == multiset(Stable(expected, first, second))
    requires coverage == if Gap(expected, first) || (FirstCandidates(expected, first) != {} && !CanConfirm(expected, first, second))
                         then Incomplete else Complete
    ensures coverage == CoverageOf(expected, first, second)
    ensures StateOf(expected, first, second) ==
      if stable != [] then Inconsistent
      else if AllBuilding(expected, first, second) != {} || Changed(expected, first, second) || coverage == Incomplete then Unclear
      else Consistent
  {
    hide Stable, Changed, AllBuilding, FirstCandidates, CanConfirm, Gap;
    SameMembers(stable, Stable(expected, first, second));
  }

  lemma ReportedPieces(expected: seq<string>, first: Observations, second: Reread,
                       gap: seq<Difference>, builds: seq<Difference>, stable: seq<Difference>, change: seq<Difference>)
    requires gap == if Gap(expected, first) then [InconclusiveOn(Absent(expected, first.Keys))] else []
    requires multiset(builds) == multiset(BuildingDifferences(AllBuilding(expected, first, second)))
    requires multiset(stable) == multiset(Stable(expected, first, second))
    requires change == if Changed(expected, first, second) then [InconclusiveOn([])] else []
    ensures multiset(gap + builds + stable + change) == Reported(expected, first, second)
  {
    hide Stable, Changed, AllBuilding, BuildingDifferences, Gap, Absent;
  }

  lemma NothingExpected(first: Observations, second: Reread)
    ensures IsEvaluation([], first, second, NOTHING_EXPECTED)
  {
  }

  lemma Conclude(expected: seq<string>, first: Observations, second: Reread, raw: seq<Difference>, e: Evaluation)
    requires expected != []
    requires multiset(raw) == Reported(expected, first, second)
    requires e == Evaluation(StateOf(expected, first, second), CoverageOf(expected, first, second), Compared(expected, first),
                             NormalizeAndSort(raw), FindingsFor(NormalizeAndSort(raw)))
    ensures IsEvaluation(expected, first, second, e)
  {
    hide StateOf, CoverageOf, Compared, NormalizeAndSort, FindingsFor, Reported;
    assert Reports(e.differences, Reported(expected, first, second));
  }

  /** `evaluateLegacyIndexConsistency`. */
  method EvaluateLegacy(expected: seq<string>, first: Observations, second: Reread) returns (e: Evaluation)
    ensures IsEvaluation(expected, first, second, e)
  {
    hide FirstCandidates, CanConfirm, Stable, Changed, AllBuilding, Candidates, KeepAll, Signature, BuildingNames, BuildingSemantics,
         BuildingDifferences, Reported, StateOf, CoverageOf, IsEvaluation,
         NormalizeAndSort, FindingsFor;
    if expected == [] {
      NothingExpected(first, second);
      var d := Difference(Inconclusive, "", [], [], "", [], "");
      return Evaluation(Unclear, Incomplete, [], [d], [FindingOf(d)]);
    }
    var shards := PresentShards(expected, first.Keys);
    var coverage, gap := Complete, [];
    if |shards| != |expected| {
      coverage := Incomplete;
      var absent := AbsentShards(expected, first.Keys);
      gap := [Difference(Inconclusive, "", absent, [], "", [], "")];
    }
    var names, semantics := BuildingIndexKeys(first);
    var firsts := CompareCompared(expected, first, shards, names, semantics);
    SameMembers(firsts, FirstCandidates(expected, first));
    var stable: seq<Difference>, changed, building := [], false, names;
    if firsts != [] {
      var adequate;
      stable, changed, building, adequate := Confirm(expected, first, second, firsts, names, semantics);
      if !adequate { coverage := Incomplete; }
    } else {
      Unconfirmed(expected, first, second);
    }
    var builds := ReportBuilding(building);
    var change := if changed then [Difference(Inconclusive, "", [], [], "", [], "")] else [];
    var state := if stable != [] then Inconsistent
                 else if building != {} || changed || coverage == Incomplete then Unclear else Consistent;
    Verdict(expected, first, second, stable, coverage);
    ReportedPieces(expected, first, second, gap, builds, stable, change);
    var differences := NormalizeAndSort(gap + builds + stable + change);
    e := Evaluation(state, coverage, shards, differences, FindingsFor(differences));
    Conclude(expected, first, second, gap + builds + stable + change, e);
  }

  method CompareCompared(expected: seq<string>, first: Observations, shards: seq<string>, names: set<string>, semantics: set<string>)
    returns (firsts: seq<Difference>)
    requires shards == Compared(expected, first)
    requires names == BuildingNames(first) && semantics == BuildingSemantics(first)
    ensures multiset(firsts) == multiset(FirstCandidates(expected, first))
  {
    firsts := CompareLegacyDefinitions(shards, first, names, semantics);
  }
}
