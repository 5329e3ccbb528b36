/** The report does not depend on the order in which maps are ranged over, nor on the order of the
    definitions within a shard. */
module ConsistencyOrder {
  import opened Text
  import opened Sorting
  import opened ConsistencyModel
  import opened ConsistencyCompare
  import opened ConsistencyEvaluate
  import opened ConsistencyExactness
  import opened ConsistencyVerdict

  // ----- one input, one result -----

  lemma NormalizeAllSplits(a: seq<Difference>, b: seq<Difference>)
    ensures NormalizeAll(a + b) == NormalizeAll(a) + NormalizeAll(b)
  {
    hide Normalize;
  }

  /** Taking one element out, before or after normalizing. */
  lemma NormalizeWithout(b: seq<Difference>, i: nat)
    requires i < |b|
    ensures multiset(b) == multiset{b[i]} + multiset(b[..i] + b[i + 1..])
    ensures multiset(NormalizeAll(b)) == multiset{Normalize(b[i])} + multiset(NormalizeAll(b[..i] + b[i + 1..]))
  {
    var x, d, y := b[..i], [b[i]], b[i + 1..];
    assert b == x + d + y;
    NormalizeAllSplits(x + d, y);
    NormalizeAllSplits(x, d);
    NormalizeAllSplits(x, y);
    assert NormalizeAll(d) == [Normalize(b[i])];
    hide *;
  }

  lemma {:induction false} NormalizeAllPermutes(a: seq<Difference>, b: seq<Difference>)
    requires multiset(a) == multiset(b)
    ensures multiset(NormalizeAll(a)) == multiset(NormalizeAll(b))
  {
    hide *;
    assert |a| == |multiset(a)| == |multiset(b)| == |b|;
    if a != [] {
      assert a[0] in multiset(b);
      var i :| 0 <= i < |b| && b[i] == a[0];
      var a', b' := a[..0] + a[1..], b[..i] + b[i + 1..];
      NormalizeWithout(a, 0);
      NormalizeWithout(b, i);
      assert multiset(a') == multiset(a) - multiset{a[0]};
      assert multiset(b') == multiset(b) - multiset{a[0]};
      NormalizeAllPermutes(a', b');
    } else {
      assert b == [] && a == b;
    }
  }

  lemma SortedMembers(s: seq<string>, x: string)
    ensures x in SortStrings(s) <==> x in s
  {
    hide LexLe;
    assert x in SortStrings(s) <==> x in multiset(SortStrings(s));
    assert x in s <==> x in multiset(s);
  }

  /** Reported differences that have the same signature have the same normal form. */
  ghost predicate ToldApart(reported: multiset<Difference>) {
    forall d, e :: d in reported && e in reported && Signature(Normalize(d)) == Signature(Normalize(e)) ==> Normalize(d) == Normalize(e)
  }

  lemma ReportsUnique(a: seq<Difference>, b: seq<Difference>, reported: multiset<Difference>)
    requires Reports(a, reported) && Reports(b, reported) && ToldApart(reported)
    ensures a == b
  {
    hide Signature, Normalize, ToldApart;
    var x: seq<Difference> :| multiset(x) == reported && a == NormalizeAndSort(x);
    var y: seq<Difference> :| multiset(y) == reported && b == NormalizeAndSort(y);
    NormalizeAllPermutes(x, y);
    forall p, q | p in multiset(a) && q in multiset(a) && Signature(p) == Signature(q)
      ensures p == q
    {
      NormalsToldApart(x, p, q);
    }
    SortedUnique(a, b, Signature);
  }

  lemma NormalsToldApart(x: seq<Difference>, p: Difference, q: Difference)
    requires ToldApart(multiset(x))
    requires p in multiset(NormalizeAll(x)) && q in multiset(NormalizeAll(x)) && Signature(p) == Signature(q)
    ensures p == q
  {
    hide Signature, Normalize;
    var i :| 0 <= i < |x| && NormalizeAll(x)[i] == p;
    var j :| 0 <= j < |x| && NormalizeAll(x)[j] == q;
    assert x[i] in multiset(x) && x[j] in multiset(x);
  }

  lemma NulFreeNormal(d: Difference)
    requires NulFreeDifference(d)
    ensures NulFreeDifference(Normalize(d))
  {
    hide SortStrings;
    forall s | s in SortStrings(d.shards)
      ensures s in d.shards
    {
      SortedMembers(d.shards, s);
    }
    forall f | f in SortStrings(d.fields)
      ensures f in d.fields
    {
      SortedMembers(d.fields, f);
    }
    NulFreeSublist(d.shards, SortStrings(d.shards));
    NulFreeSublist(d.fields, SortStrings(d.fields));
  }

  lemma NulFreeReported(expected: seq<string>, first: Observations, second: Reread, d: Difference)
    requires NulFree(expected) && NulFreeObservations(first)
    requires second.Read? ==> NulFreeObservations(second.obs)
    requires d in Reported(expected, first, second)
    ensures NulFreeDifference(d)
  {
    hide FirstCandidates, SecondCandidates, Changed, Gap, NulFreeObservations, Signature, Stable, BuildingNames, Absent;
    AbsentMembers(expected, first.Keys);
    NulFreeSublist(expected, Absent(expected, first.Keys));
    if d in Stable(expected, first, second) {
      StableMeans(expected, first, second, d);
      NulFreeFirst(expected, first, d);
    } else if d.code == BuildInProgress {
      var n :| n in AllBuilding(expected, first, second) && d == Building(n);
      if n in BuildingNames(first) { NulFreeBuilding(first, n); } else { NulFreeBuilding(second.obs, n); }
    }
  }

  lemma NulFreeBuilding(obs: Observations, n: string)
    requires NulFreeObservations(obs) && n in BuildingNames(obs)
    ensures NulFreeDifference(Building(n))
  {
  }

  lemma ReportedIs(expected: seq<string>, first: Observations, second: Reread, d: Difference)
    requires d in Reported(expected, first, second)
    ensures d in Stable(expected, first, second) || d == Building(d.indexName)
            || d == InconclusiveOn(Absent(expected, first.Keys)) || d == InconclusiveOn([])
  {
    hide Changed, Gap, AllBuilding, Stable, Absent;
  }

  /** Code, name and meaning tell the differences of one evaluation apart, but for the two that are
      inconclusive: one of them lists shards, the other none. */
  lemma ReportedApart(expected: seq<string>, first: Observations, second: Reread, d: Difference, e: Difference)
    requires "" !in expected
    requires d in Reported(expected, first, second) && e in Reported(expected, first, second)
    requires SameAsWritten(Normalize(d), Normalize(e))
    ensures d == e
  {
    SameKind(d, e);
    ReportedIs(expected, first, second, d);
    ReportedIs(expected, first, second, e);
    hide FirstCandidates, SecondCandidates, Reported, Signature, Stable, Absent, SameAsWritten, Normalize;
    if d in Stable(expected, first, second) || e in Stable(expected, first, second) {
      ReportedCodes(expected, first, second, d);
      ReportedCodes(expected, first, second, e);
      StableMeans(expected, first, second, d);
      StableMeans(expected, first, second, e);
      CandidatesApart(expected, first, d, e);
    } else if d.code == Inconclusive {
      AbsentMembers(expected, first.Keys);
      InconclusiveApart(Absent(expected, first.Keys), d, e);
    }
  }

  lemma SameKind(d: Difference, e: Difference)
    requires SameAsWritten(Normalize(d), Normalize(e))
    ensures d.code == e.code && d.indexName == e.indexName && d.fingerprint == e.fingerprint
  {
    hide Join, KeyTexts, SortStrings;
  }

  lemma CandidatesApart(expected: seq<string>, first: Observations, d: Difference, e: Difference)
    requires d in FirstCandidates(expected, first) && e in FirstCandidates(expected, first)
    requires d.code == e.code && d.indexName == e.indexName && d.fingerprint == e.fingerprint
    ensures d == e
  {
    hide Candidates, KeepAll, RenamedDifference, MissingDifference, MismatchDifference;
    var k := KeepAll(first, BuildingNames(first), BuildingSemantics(first));
    CandidateKinds(k, Compared(expected, first), d);
    CandidateKinds(k, Compared(expected, first), e);
  }

  lemma InconclusiveApart(absent: seq<string>, d: Difference, e: Difference)
    requires "" !in absent
    requires d == InconclusiveOn(absent) || d == InconclusiveOn([])
    requires e == InconclusiveOn(absent) || e == InconclusiveOn([])
    requires SameAsWritten(Normalize(d), Normalize(e))
    ensures d == e
  {
    hide SortStrings, KeyTexts;
    var sorted := SortStrings(absent);
    assert |sorted| == |multiset(sorted)| == |multiset(absent)| == |absent|;
    assert SortStrings([]) == [] by { assert |SortStrings([])| == |multiset(SortStrings([]))| == 0; }
    if absent != [] {
      SortedMembers(absent, sorted[0]);
      JoinNonEmpty(sorted, ',');
    }
  }

  lemma LegacyToldApart(expected: seq<string>, first: Observations, second: Reread)
    requires NulFree(expected) && "" !in expected && NulFreeObservations(first)
    requires second.Read? ==> NulFreeObservations(second.obs)
    ensures ToldApart(Reported(expected, first, second))
  {
    hide Reported, NulFreeObservations, Signature, SameAsWritten, Normalize, NulFreeDifference, NulFree;
    forall d, e | d in Reported(expected, first, second) && e in Reported(expected, first, second)
                  && Signature(Normalize(d)) == Signature(Normalize(e))
      ensures d == e
    {
      NulFreeReported(expected, first, second, d);
      NulFreeReported(expected, first, second, e);
      NulFreeNormal(d);
      NulFreeNormal(e);
      SignatureExact(Normalize(d), Normalize(e));
      ReportedApart(expected, first, second, d, e);
    }
  }

  /** The contract of `EvaluateLegacy` leaves no choice: whatever order the maps were ranged over in,
      the whole evaluation, with its sorted lists, is the same. */
  lemma EvaluationUnique(expected: seq<string>, first: Observations, second: Reread, a: Evaluation, b: Evaluation)
    requires NulFree(expected) && "" !in expected && NulFreeObservations(first)
    requires second.Read? ==> NulFreeObservations(second.obs)
    requires IsEvaluation(expected, first, second, a) && IsEvaluation(expected, first, second, b)
    ensures a == b
  {
    hide StateOf, CoverageOf, Compared, Reported, Reports, NulFreeObservations, FindingsFor, ToldApart, NulFree;
    if expected != [] {
      LegacyToldApart(expected, first, second);
      ReportsUnique(a.differences, b.differences, Reported(expected, first, second));
    }
  }

  // ----- what the comparison sees of one shard -----

  /** What is read off a definition: its meaning, its key and the values of its fields. */
  ghost predicate ReadsAlike(d: Definition, e: Definition) {
    d.semantic == e.semantic && d.key == e.key && forall f :: f != "name" ==> FieldValue(d, f) == FieldValue(e, f)
  }

  /** Of several definitions with one name the last counts. */
  ghost predicate SameLast(ds: seq<Definition>, es: seq<Definition>, n: string) {
    && (HasName(ds, n) <==> HasName(es, n))
    && (HasName(ds, n) && HasName(es, n) ==> ReadsAlike(LastNamed(ds, n), LastNamed(es, n)))
  }

  /** Of several definitions with one meaning the key of the first that has a name counts. */
  ghost predicate SameFirst(ds: seq<Definition>, es: seq<Definition>, m: string) {
    var d, e := Reference(WithSemantic(ds, m)), Reference(WithSemantic(es, m));
    d.name != "" && e.name != "" ==> d.key == e.key
  }

  /** The same definitions in an order that the comparison does not see. */
  ghost predicate Interchangeable(ds: seq<Definition>, es: seq<Definition>) {
    multiset(ds) == multiset(es) && (forall n :: SameLast(ds, es, n)) && (forall m :: SameFirst(ds, es, m))
  }

  lemma SameMembersOf(ds: seq<Definition>, es: seq<Definition>)
    requires multiset(ds) == multiset(es)
    ensures forall d :: d in ds <==> d in es
  {
    assert forall d :: d in ds <==> d in multiset(ds);
    assert forall d :: d in es <==> d in multiset(es);
  }

  lemma SameNamesOf(ds: seq<Definition>, es: seq<Definition>, x: string)
    requires multiset(ds) == multiset(es)
    ensures NamesIn(WithSemantic(ds, x)) == NamesIn(WithSemantic(es, x))
    ensures WithSemantic(ds, x) == [] <==> WithSemantic(es, x) == []
    ensures HasName(ds, x) <==> HasName(es, x)
  {
    SameMembersOf(ds, es);
    WithSemanticMembers(ds, x);
    WithSemanticMembers(es, x);
    hide WithSemantic;
    var v, w := WithSemantic(ds, x), WithSemantic(es, x);
    assert forall d :: d in v <==> d in w;
    if v != [] { assert v[0] in w; }
    if w != [] { assert w[0] in v; }
    if HasName(ds, x) { assert LastNamed(ds, x) in es; }
    if HasName(es, x) { assert LastNamed(es, x) in ds; }
  }

  lemma {:induction false} ReferenceNamed(ds: seq<Definition>)
    ensures Reference(ds).name != "" <==> exists d :: d in ds && d.name != ""
  {
    if ds != [] {
      ReferenceNamed(ds[..|ds| - 1]);
      assert ds == ds[..|ds| - 1] + [ds[|ds| - 1]];
    }
  }

  lemma {:induction false} ReferenceConcat(xs: seq<Definition>, ys: seq<Definition>)
    ensures Reference(xs + ys) == if Reference(xs).name != "" || ys == [] then Reference(xs) else Reference(ys)
  {
    if ys == [] {
      assert xs + ys == xs;
    } else {
      var init := ys[..|ys| - 1];
      ReferenceConcat(xs, init);
      assert (xs + ys)[..|xs + ys| - 1] == xs + init;
    }
  }

  /** The fields that differ are those of which there are two values. */
  lemma FieldsDiffer(ds: set<Definition>, f: string)
    ensures f in DifferingFields(ds) <==> f != "name" && |FieldValues(ds, f)| > 1
  {
    if |FieldValues(ds, f)| > 1 {
      AtMostOne(FieldValues(ds, f));
      var v, w :| v in FieldValues(ds, f) && w in FieldValues(ds, f) && v != w;
      var u := if v == MISSING_VALUE then w else v;
      var d :| d in ds && FieldValue(d, f) == u;
      assert f in d.fields;
    }
  }

  // ----- shard by shard -----

  /** The same definitions on every shard, in whatever order. */
  ghost predicate SameContents(a: Observations, b: Observations) {
    && a.Keys == b.Keys
    && (forall s :: s in a ==> multiset(a[s]) == multiset(b[s]))
  }

  ghost predicate Alike(a: Observations, b: Observations) {
    a.Keys == b.Keys && forall s :: s in a ==> Interchangeable(a[s], b[s])
  }

  lemma {:induction false} AlikeMeaning(a: Observations, b: Observations, expected: seq<string>, m: string)
    requires Alike(a, b)
    ensures SemanticNames(a, expected, m) == SemanticNames(b, expected, m)
    ensures var d, e := Reference(SemanticDefinitions(a, expected, m)), Reference(SemanticDefinitions(b, expected, m));
      (d.name != "" <==> e.name != "") && (d.name != "" ==> d.key == e.key)
  {
    hide Interchangeable, WithSemantic, SameLast;
    if expected != [] {
      var init, s := expected[..|expected| - 1], expected[|expected| - 1];
      AlikeMeaning(a, b, init, m);
      var v := if s in a then WithSemantic(a[s], m) else [];
      var w := if s in b then WithSemantic(b[s], m) else [];
      if s in a { AlikeOnShard(a[s], b[s], m); }
      OneMoreShard(SemanticDefinitions(a, init, m), SemanticDefinitions(b, init, m), v, w);
    }
  }

  lemma AlikeOnShard(ds: seq<Definition>, es: seq<Definition>, m: string)
    requires Interchangeable(ds, es)
    ensures var v, w := WithSemantic(ds, m), WithSemantic(es, m);
      NamesIn(v) == NamesIn(w) && (v == [] <==> w == []) && (Reference(v).name != "" && Reference(w).name != "" ==> Reference(v).key == Reference(w).key)
  {
    SameNamesOf(ds, es, m);
    assert SameFirst(ds, es, m);
    hide SameLast, WithSemantic, Reference, HasName;
  }

  lemma OneMoreShard(xs: seq<Definition>, ys: seq<Definition>, v: seq<Definition>, w: seq<Definition>)
    requires NamesIn(xs) == NamesIn(ys) && NamesIn(v) == NamesIn(w) && (v == [] <==> w == [])
    requires Reference(xs).name != "" <==> Reference(ys).name != ""
    requires Reference(xs).name != "" ==> Reference(xs).key == Reference(ys).key
    requires Reference(v).name != "" && Reference(w).name != "" ==> Reference(v).key == Reference(w).key
    ensures NamesIn(xs + v) == NamesIn(ys + w)
    ensures Reference(xs + v).name != "" <==> Reference(ys + w).name != ""
    ensures Reference(xs + v).name != "" ==> Reference(xs + v).key == Reference(ys + w).key
  {
    ReferenceConcat(xs, v);
    ReferenceConcat(ys, w);
    SameNamedness(v, w);
    NamesConcat(xs, v);
    NamesConcat(ys, w);
    hide Reference, NamesIn;
  }

  lemma NamesConcat(xs: seq<Definition>, ys: seq<Definition>)
    ensures NamesIn(xs + ys) == NamesIn(xs) + NamesIn(ys)
  {
    assert forall d :: d in xs + ys <==> d in xs || d in ys;
  }

  lemma SameNamedness(v: seq<Definition>, w: seq<Definition>)
    requires NamesIn(v) == NamesIn(w)
    ensures Reference(v).name != "" <==> Reference(w).name != ""
  {
    ReferenceNamed(v);
    ReferenceNamed(w);
    hide Reference;
    if d :| d in v && d.name != "" { assert d.name in NamesIn(w); }
    if d :| d in w && d.name != "" { assert d.name in NamesIn(v); }
  }

  lemma {:induction false} AlikeReference(a: Observations, b: Observations, expected: seq<string>, n: string)
    requires Alike(a, b)
    ensures ReadsAlike(NameReference(a, expected, n), NameReference(b, expected, n))
  {
    hide ReadsAlike, LastNamed, HasName, SameFirst, WithSemantic;
    if expected == [] {
      ReadsItself(BLANK);
    } else {
      AlikeReference(a, b, expected[1..], n);
      if expected[0] in a { assert SameLast(a[expected[0]], b[expected[0]], n); }
    }
  }

  lemma ReadsItself(d: Definition)
    ensures ReadsAlike(d, d)
  {
  }

  lemma MembersByShard(k: Observations, x: string)
    ensures x in Semantics(k) <==> SemanticShards(k, x) != {}
    ensures x in Names(k) <==> NameShards(k, x) != {}
  {
    if x in Semantics(k) {
      var s, i :| s in k && 0 <= i < |k[s]| && k[s][i].semantic == x;
      WithSemanticNonEmpty(k[s], x);
      assert s in SemanticShards(k, x);
    }
    if s :| s in SemanticShards(k, x) {
      WithSemanticNonEmpty(k[s], x);
    }
    if x in Names(k) {
      var s, i :| s in k && 0 <= i < |k[s]| && k[s][i].name == x;
      assert HasName(k[s], x);
      assert s in NameShards(k, x);
    }
    if s :| s in NameShards(k, x) {
      assert HasName(k[s], x);
    }
  }

  lemma AlikeShards(a: Observations, b: Observations, x: string)
    requires Alike(a, b)
    ensures SemanticShards(a, x) == SemanticShards(b, x) && NameShards(a, x) == NameShards(b, x)
    ensures forall s :: s in NameShards(a, x) ==> ReadsAlike(LastNamed(a[s], x), LastNamed(b[s], x))
    ensures x in Semantics(a) <==> x in Semantics(b)
    ensures x in Names(a) <==> x in Names(b)
  {
    hide LastNamed, WithSemantic, HasName, ReadsAlike, SameFirst;
    forall s | s in a
      ensures WithSemantic(a[s], x) == [] <==> WithSemantic(b[s], x) == []
      ensures HasName(a[s], x) <==> HasName(b[s], x)
      ensures HasName(a[s], x) ==> ReadsAlike(LastNamed(a[s], x), LastNamed(b[s], x))
    {
      assert Interchangeable(a[s], b[s]) && SameLast(a[s], b[s], x);
      SameNamesOf(a[s], b[s], x);
    }
    MembersByShard(a, x);
    MembersByShard(b, x);
  }

  lemma AlikeNamesakes(a: Observations, b: Observations, n: string)
    requires NameShards(a, n) == NameShards(b, n)
    requires forall s :: s in NameShards(a, n) ==> ReadsAlike(LastNamed(a[s], n), LastNamed(b[s], n))
    ensures NameSemantics(a, n) == NameSemantics(b, n)
    ensures DifferingFields(Namesakes(a, n).Values) == DifferingFields(Namesakes(b, n).Values)
  {
    hide LastNamed, HasName;
    assert NameSemantics(a, n) == NameSemantics(b, n) by { hide ReadsAlike; SameSemantics(a, b, n); }
    forall f
      ensures f in DifferingFields(Namesakes(a, n).Values) <==> f in DifferingFields(Namesakes(b, n).Values)
    {
      FieldsDiffer(Namesakes(a, n).Values, f);
      FieldsDiffer(Namesakes(b, n).Values, f);
      if f != "name" { SameValues(a, b, n, f); }
    }
  }

  lemma SameSemantics(a: Observations, b: Observations, n: string)
    requires NameShards(a, n) == NameShards(b, n)
    requires forall s :: s in NameShards(a, n) ==> ReadsAlike(LastNamed(a[s], n), LastNamed(b[s], n))
    ensures NameSemantics(a, n) == NameSemantics(b, n)
  {
    hide LastNamed, HasName;
  }

  lemma SameValues(a: Observations, b: Observations, n: string, f: string)
    requires NameShards(a, n) == NameShards(b, n) && f != "name"
    requires forall s :: s in NameShards(a, n) ==> ReadsAlike(LastNamed(a[s], n), LastNamed(b[s], n))
    ensures FieldValues(Namesakes(a, n).Values, f) == FieldValues(Namesakes(b, n).Values, f)
  {
    hide LastNamed, HasName, FieldValue;
    var shards := NameShards(a, n);
    forall s | s in shards
      ensures FieldValue(LastNamed(a[s], n), f) == FieldValue(LastNamed(b[s], n), f)
    {
      assert ReadsAlike(LastNamed(a[s], n), LastNamed(b[s], n));
    }
    hide ReadsAlike;
    ValuesByShard(a, n, f);
    ValuesByShard(b, n, f);
  }

  lemma ValuesByShard(k: Observations, n: string, f: string)
    ensures FieldValues(Namesakes(k, n).Values, f) == set s | s in NameShards(k, n) :: FieldValue(LastNamed(k[s], n), f)
  {
    hide LastNamed, HasName, FieldValue;
    var all := Namesakes(k, n);
    forall s | s in NameShards(k, n)
      ensures LastNamed(k[s], n) in all.Values
    {
      assert all[s] == LastNamed(k[s], n);
    }
    forall d | d in all.Values
      ensures exists s :: s in NameShards(k, n) && LastNamed(k[s], n) == d
    {
      var s :| s in all && all[s] == d;
    }
  }

  lemma AlikeRenames(a: Observations, b: Observations, expected: seq<string>)
    requires Alike(a, b)
    ensures RenamedSemantics(a, expected) == RenamedSemantics(b, expected)
    ensures forall m :: m in RenamedSemantics(a, expected) ==> RenamedDifference(a, expected, m) == RenamedDifference(b, expected, m)
    ensures forall m :: SemanticNames(a, expected, m) == SemanticNames(b, expected, m)
  {
    hide Alike, SemanticShards, Semantics, SemanticDefinitions, Join, SortedKeys, Reference, SemanticNames;
    forall m
      ensures SemanticNames(a, expected, m) == SemanticNames(b, expected, m)
      ensures SemanticShards(a, m) == SemanticShards(b, m) && (m in Semantics(a) <==> m in Semantics(b))
    {
      AlikeMeaning(a, b, expected, m);
      AlikeShards(a, b, m);
    }
    forall m | m in RenamedSemantics(a, expected)
      ensures RenamedDifference(a, expected, m) == RenamedDifference(b, expected, m)
    {
      AlikeMeaning(a, b, expected, m);
      TwoNamesOneNamed(a, expected, m);
    }
  }

  /** One of two different names is not empty. */
  lemma TwoNamesOneNamed(k: Observations, expected: seq<string>, m: string)
    requires |SemanticNames(k, expected, m)| > 1
    ensures Reference(SemanticDefinitions(k, expected, m)).name != ""
  {
    hide SemanticDefinitions, Reference;
    var names := SemanticNames(k, expected, m);
    ReferenceNamed(SemanticDefinitions(k, expected, m));
    AtMostOne(names);
    var x, y :| x in names && y in names && x != y;
    var d :| d in SemanticDefinitions(k, expected, m) && d.name == if x != "" then x else y;
  }

  lemma AlikeNames(a: Observations, b: Observations, expected: seq<string>)
    requires Alike(a, b) && Handled(a, expected) == Handled(b, expected)
    ensures MissingNames(a, expected) == MissingNames(b, expected) && MismatchedNames(a, expected) == MismatchedNames(b, expected)
    ensures forall n :: MissingDifference(a, expected, n) == MissingDifference(b, expected, n)
    ensures forall n :: MismatchDifference(a, expected, n) == MismatchDifference(b, expected, n)
  {
    hide Alike, Names, NameShards, NameSemantics, Namesakes, NameReference, Handled, Join, SortedKeys, Digest, DifferingFields, Absent;
    forall n
      ensures NameShards(a, n) == NameShards(b, n) && NameSemantics(a, n) == NameSemantics(b, n)
      ensures DifferingFields(Namesakes(a, n).Values) == DifferingFields(Namesakes(b, n).Values)
      ensures ReadsAlike(NameReference(a, expected, n), NameReference(b, expected, n))
      ensures n in Names(a) <==> n in Names(b)
    {
      AlikeShards(a, b, n);
      AlikeNamesakes(a, b, n);
      AlikeReference(a, b, expected, n);
    }
  }

  lemma AlikeHandled(a: Observations, b: Observations, expected: seq<string>)
    requires Alike(a, b)
    ensures Handled(a, expected) == Handled(b, expected)
  {
    AlikeRenames(a, b, expected);
    hide RenamedSemantics, SemanticNames, RenamedDifference, Alike;
  }

  lemma AlikeCandidates(a: Observations, b: Observations, expected: seq<string>)
    requires Alike(a, b)
    ensures Candidates(a, expected) == Candidates(b, expected)
  {
    hide *;
    AlikeRenames(a, b, expected);
    AlikeHandled(a, b, expected);
    AlikeNames(a, b, expected);
    EqualCandidates(a, b, expected);
  }

  lemma EqualCandidates(a: Observations, b: Observations, expected: seq<string>)
    requires RenamedSemantics(a, expected) == RenamedSemantics(b, expected)
    requires MissingNames(a, expected) == MissingNames(b, expected) && MismatchedNames(a, expected) == MismatchedNames(b, expected)
    requires forall m :: m in RenamedSemantics(a, expected) ==> RenamedDifference(a, expected, m) == RenamedDifference(b, expected, m)
    requires forall n :: MissingDifference(a, expected, n) == MissingDifference(b, expected, n)
    requires forall n :: MismatchDifference(a, expected, n) == MismatchDifference(b, expected, n)
    ensures Candidates(a, expected) == Candidates(b, expected)
  {
    hide RenamedSemantics, RenamedDifference, MissingDifference, MismatchDifference, MissingNames, MismatchedNames;
    assert Renames(a, expected) == Renames(b, expected);
    assert MissingDifferences(a, expected, MissingNames(a, expected)) == MissingDifferences(b, expected, MissingNames(b, expected));
    assert MismatchDifferences(a, expected, MismatchedNames(a, expected)) == MismatchDifferences(b, expected, MismatchedNames(b, expected));
  }

  lemma SameBuilding(a: Observations, b: Observations)
    requires SameContents(a, b)
    ensures BuildingNames(a) == BuildingNames(b) && BuildingSemantics(a) == BuildingSemantics(b)
  {
    BuildingIn(a, b);
    BuildingIn(b, a);
  }

  lemma BuildingIn(a: Observations, b: Observations)
    requires SameContents(a, b)
    ensures BuildingNames(a) <= BuildingNames(b) && BuildingSemantics(a) <= BuildingSemantics(b)
  {
    forall s, i | s in a && 0 <= i < |a[s]| && a[s][i].building
      ensures a[s][i].name in BuildingNames(b) && a[s][i].semantic in BuildingSemantics(b)
    {
      SameMembersOf(a[s], b[s]);
      var d := a[s][i];
      assert d in b[s];
      var j :| 0 <= j < |b[s]| && b[s][j] == d;
    }
  }

  /** The same definitions, and what is compared of them is interchangeable on every shard. */
  ghost predicate FirstAlike(a: Observations, b: Observations) {
    SameContents(a, b)
    && Alike(KeepAll(a, BuildingNames(a), BuildingSemantics(a)), KeepAll(b, BuildingNames(a), BuildingSemantics(a)))
  }

  /** Likewise for a second read, of which the builds of both reads are left out. */
  ghost predicate SecondAlike(a: Observations, c: Observations, d: Observations) {
    SameContents(c, d)
    && Alike(KeepAll(c, BuildingNames(a) + BuildingNames(c), BuildingSemantics(a) + BuildingSemantics(c)),
             KeepAll(d, BuildingNames(a) + BuildingNames(c), BuildingSemantics(a) + BuildingSemantics(c)))
  }

  ghost predicate RereadAlike(a: Observations, c: Reread, d: Reread) {
    if c.Read? then d.Read? && SecondAlike(a, c.obs, d.obs) else d.NotRead?
  }

  lemma AlikeFirst(expected: seq<string>, a: Observations, b: Observations)
    requires FirstAlike(a, b)
    ensures Compared(expected, a) == Compared(expected, b)
    ensures FirstCandidates(expected, a) == FirstCandidates(expected, b)
    ensures BuildingNames(a) == BuildingNames(b)
  {
    hide Candidates, KeepAll, BuildingNames, BuildingSemantics, Alike;
    SameBuilding(a, b);
    AlikeCandidates(KeepAll(a, BuildingNames(a), BuildingSemantics(a)), KeepAll(b, BuildingNames(b), BuildingSemantics(b)), Compared(expected, a));
  }

  lemma AlikeSecond(expected: seq<string>, a: Observations, b: Observations, c: Observations, d: Observations)
    requires FirstAlike(a, b) && SecondAlike(a, c, d)
    ensures SecondCandidates(expected, a, c) == SecondCandidates(expected, b, d)
    ensures BuildingNames(c) == BuildingNames(d)
  {
    hide Candidates, KeepAll, BuildingNames, BuildingSemantics, Alike;
    SameBuilding(a, b);
    SameBuilding(c, d);
    var names, semantics := BuildingNames(a) + BuildingNames(c), BuildingSemantics(a) + BuildingSemantics(c);
    AlikeCandidates(KeepAll(c, names, semantics), KeepAll(d, names, semantics), Compared(expected, a));
  }

  /** The verdict is a function of what was compared, what was found and what was being built. */
  lemma SameFindings(expected: seq<string>, a: Observations, b: Observations, c: Reread, d: Reread)
    requires Compared(expected, a) == Compared(expected, b) && a.Keys == b.Keys
    requires FirstCandidates(expected, a) == FirstCandidates(expected, b) && BuildingNames(a) == BuildingNames(b)
    requires CanConfirm(expected, a, c) <==> CanConfirm(expected, b, d)
    requires c.Read? <==> d.Read?
    requires c.Read? ==> SecondCandidates(expected, a, c.obs) == SecondCandidates(expected, b, d.obs)
    requires c.Read? ==> BuildingNames(c.obs) == BuildingNames(d.obs)
    ensures StateOf(expected, a, c) == StateOf(expected, b, d)
    ensures CoverageOf(expected, a, c) == CoverageOf(expected, b, d)
    ensures Reported(expected, a, c) == Reported(expected, b, d)
  {
    assert CanConfirm(expected, a, c) ==> c.Read? && d.Read?;
    hide FirstCandidates, SecondCandidates, BuildingNames, BuildingSemantics, CanConfirm, Compared, Signature, Signatures, Absent,
         BuildingDifferences, Present;
    assert Confirming(expected, a, c) <==> Confirming(expected, b, d);
    assert c.Read? ==> Signatures(SecondCandidates(expected, a, c.obs)) == Signatures(SecondCandidates(expected, b, d.obs));
    assert Stable(expected, a, c) == Stable(expected, b, d);
    assert Changed(expected, a, c) <==> Changed(expected, b, d);
    assert AllBuilding(expected, a, c) == AllBuilding(expected, b, d);
    SameReport(expected, a, b, c, d);
  }

  lemma SameReport(expected: seq<string>, a: Observations, b: Observations, c: Reread, d: Reread)
    requires Compared(expected, a) == Compared(expected, b) && a.Keys == b.Keys
    requires Stable(expected, a, c) == Stable(expected, b, d) && AllBuilding(expected, a, c) == AllBuilding(expected, b, d)
    requires Changed(expected, a, c) <==> Changed(expected, b, d)
    requires FirstCandidates(expected, a) == FirstCandidates(expected, b)
    requires CanConfirm(expected, a, c) <==> CanConfirm(expected, b, d)
    ensures StateOf(expected, a, c) == StateOf(expected, b, d)
    ensures CoverageOf(expected, a, c) == CoverageOf(expected, b, d)
    ensures Reported(expected, a, c) == Reported(expected, b, d)
  {
    hide FirstCandidates, CanConfirm, Compared, Absent, BuildingDifferences, Stable, AllBuilding, Changed;
    assert CoverageOf(expected, a, c) == CoverageOf(expected, b, d);
  }

  lemma AlikeVerdict(expected: seq<string>, a: Observations, b: Observations, c: Reread, d: Reread)
    requires FirstAlike(a, b) && RereadAlike(a, c, d)
    ensures StateOf(expected, a, c) == StateOf(expected, b, d)
    ensures CoverageOf(expected, a, c) == CoverageOf(expected, b, d)
    ensures Reported(expected, a, c) == Reported(expected, b, d)
  {
    AlikeFirst(expected, a, b);
    if c.Read? { AlikeSecond(expected, a, b, c.obs, d.obs); }
    hide FirstCandidates, SecondCandidates, BuildingNames, BuildingSemantics, StateOf, CoverageOf, Reported, Compared, Alike, KeepAll;
    SameFindings(expected, a, b, c, d);
  }

  /** Evaluations of observations that differ only in the order of definitions are equal, as long as the
      last definition of each name and the first of each meaning read the same. */
  lemma OrderIndependence(expected: seq<string>, a: Observations, b: Observations, c: Reread, d: Reread, x: Evaluation, y: Evaluation)
    requires NulFree(expected) && "" !in expected && NulFreeObservations(a)
    requires c.Read? ==> NulFreeObservations(c.obs)
    requires FirstAlike(a, b) && RereadAlike(a, c, d)
    requires IsEvaluation(expected, a, c, x) && IsEvaluation(expected, b, d, y)
    ensures x == y
  {
    AlikeVerdict(expected, a, b, c, d);
    assert a.Keys == b.Keys;
    hide NulFreeObservations, StateOf, CoverageOf, Reported, Reports, FindingsFor, FirstAlike, RereadAlike;
    assert Compared(expected, a) == Compared(expected, b);
    hide Compared;
    assert IsEvaluation(expected, a, c, y);
    EvaluationUnique(expected, a, c, x, y);
  }

  // ----- names and meanings that occur once -----

  ghost predicate UniqueIndexes(k: Observations) {
    forall s :: s in k ==> UniqueNames(k[s]) && UniqueSemantics(k[s])
  }

  ghost predicate SameDefinitions(ds: seq<Definition>, es: seq<Definition>) {
    && multiset(ds) == multiset(es) && (forall d :: d in ds <==> d in es)
    && UniqueNames(ds) && UniqueSemantics(ds) && UniqueNames(es) && UniqueSemantics(es)
  }

  lemma {:induction false} KeepUnique(ds: seq<Definition>, names: set<string>, semantics: set<string>)
    requires UniqueNames(ds) && UniqueSemantics(ds)
    ensures UniqueNames(Keep(ds, names, semantics)) && UniqueSemantics(Keep(ds, names, semantics))
  {
    if ds != [] {
      var init, last := ds[..|ds| - 1], ds[|ds| - 1];
      KeepUnique(init, names, semantics);
      var rest := Keep(init, names, semantics);
      forall i | 0 <= i < |rest|
        ensures rest[i].name != last.name && rest[i].semantic != last.semantic
      {
        KeepMembers(init, names, semantics, rest[i]);
        var j :| 0 <= j < |init| && init[j] == rest[i];
        assert ds[j] == rest[i];
      }
    }
  }

  lemma {:induction false} AtMostOneMeaning(ds: seq<Definition>, m: string)
    requires UniqueSemantics(ds)
    ensures |WithSemantic(ds, m)| <= 1
  {
    if ds != [] {
      var init, last := ds[..|ds| - 1], ds[|ds| - 1];
      AtMostOneMeaning(init, m);
      WithSemanticNonEmpty(init, m);
      assert forall j :: 0 <= j < |init| ==> init[j] == ds[j];
    }
  }

  lemma SameMeanings(ds: seq<Definition>, es: seq<Definition>, m: string)
    requires SameDefinitions(ds, es)
    ensures WithSemantic(ds, m) == WithSemantic(es, m)
  {
    AtMostOneMeaning(ds, m);
    AtMostOneMeaning(es, m);
    WithSemanticMembers(ds, m);
    WithSemanticMembers(es, m);
    hide WithSemantic, UniqueNames, UniqueSemantics;
    SameSingleton(WithSemantic(ds, m), WithSemantic(es, m));
  }

  lemma SameSingleton<T>(x: seq<T>, y: seq<T>)
    requires |x| <= 1 && |y| <= 1 && forall d :: d in x <==> d in y
    ensures x == y
  {
    if x != [] { assert x[0] in y; }
    if y != [] { assert y[0] in x; }
  }

  lemma SameNamed(ds: seq<Definition>, es: seq<Definition>, n: string)
    requires SameDefinitions(ds, es)
    ensures HasName(ds, n) <==> HasName(es, n)
    ensures HasName(ds, n) ==> LastNamed(ds, n) == LastNamed(es, n)
  {
    hide LastNamed;
    if HasName(ds, n) {
      var d := LastNamed(ds, n);
      assert d in es;
      var j :| 0 <= j < |es| && es[j] == d;
      LastNamedUnique(es, j);
    }
    if HasName(es, n) {
      var e := LastNamed(es, n);
      assert e in ds;
      var j :| 0 <= j < |ds| && ds[j] == e;
    }
  }

  lemma CountOnce(ds: seq<Definition>, d: Definition)
    requires UniqueNames(ds) && d in ds
    ensures multiset(ds)[d] == 1
  {
    var i :| 0 <= i < |ds| && ds[i] == d;
    var front, back := ds[..i], ds[i + 1..];
    assert ds == front + [d] + back;
    forall j | 0 <= j < |back|
      ensures back[j] != d
    {
      assert back[j] == ds[i + 1 + j];
    }
    forall j | 0 <= j < |front|
      ensures front[j] != d
    {
      assert front[j] == ds[j];
    }
    hide UniqueNames;
    NotCounted(front, d);
    NotCounted(back, d);
    assert multiset(ds) == multiset(front) + multiset{d} + multiset(back);
  }

  lemma NotCounted<T>(s: seq<T>, x: T)
    requires forall j :: 0 <= j < |s| ==> s[j] != x
    ensures multiset(s)[x] == 0
  {
    assert x in multiset(s) <==> x in s;
  }

  lemma CountTwice(es: seq<Definition>, i: nat, j: nat)
    requires i < j < |es| && es[i] == es[j]
    ensures multiset(es)[es[i]] > 1
  {
    var front, back := es[..j], es[j..];
    assert es == front + back && front[i] == es[i] && back[0] == es[i];
    assert multiset(es) == multiset(front) + multiset(back);
    assert multiset(front)[es[i]] > 0 && multiset(back)[es[i]] > 0;
  }

  /** Reordering keeps names and meanings unique. */
  lemma UniquePermuted(ds: seq<Definition>, es: seq<Definition>)
    requires multiset(ds) == multiset(es) && UniqueNames(ds) && UniqueSemantics(ds)
    ensures SameDefinitions(ds, es)
  {
    SameMembersOf(ds, es);
    forall i, j | 0 <= i < j < |es|
      ensures es[i].name != es[j].name && es[i].semantic != es[j].semantic
    {
      assert es[i] in ds && es[j] in ds;
      CountOnce(ds, es[i]);
      if es[i] == es[j] { CountTwice(es, i, j); }
    }
  }

  lemma {:induction false} KeepCounts(ds: seq<Definition>, names: set<string>, semantics: set<string>, d: Definition)
    ensures multiset(Keep(ds, names, semantics))[d] == if d.name in names || d.semantic in semantics then 0 else multiset(ds)[d]
  {
    if ds != [] {
      KeepCounts(ds[..|ds| - 1], names, semantics, d);
      assert ds == ds[..|ds| - 1] + [ds[|ds| - 1]];
    }
  }

  lemma UniqueInterchangeable(ds: seq<Definition>, es: seq<Definition>)
    requires SameDefinitions(ds, es)
    ensures Interchangeable(ds, es)
  {
    forall n
      ensures SameLast(ds, es, n)
    {
      SameNamed(ds, es, n);
      hide SameDefinitions, LastNamed, HasName;
    }
    forall m
      ensures SameFirst(ds, es, m)
    {
      SameMeanings(ds, es, m);
      hide SameDefinitions, WithSemantic, Reference;
    }
    hide SameLast, SameFirst, UniqueNames, UniqueSemantics;
  }

  /** If names and meanings occur once per shard, no order is seen, whatever is being built. */
  lemma UniqueAreAlike(a: Observations, b: Observations, names: set<string>, semantics: set<string>)
    requires SameContents(a, b) && UniqueIndexes(a)
    ensures Alike(KeepAll(a, names, semantics), KeepAll(b, names, semantics))
  {
    hide Keep, Interchangeable, SameDefinitions, UniqueNames, UniqueSemantics;
    forall s | s in a
      ensures Interchangeable(Keep(a[s], names, semantics), Keep(b[s], names, semantics))
    {
      KeepUnique(a[s], names, semantics);
      forall d
        ensures multiset(Keep(a[s], names, semantics))[d] == multiset(Keep(b[s], names, semantics))[d]
      {
        KeepCounts(a[s], names, semantics, d);
        KeepCounts(b[s], names, semantics, d);
      }
      UniquePermuted(Keep(a[s], names, semantics), Keep(b[s], names, semantics));
      UniqueInterchangeable(Keep(a[s], names, semantics), Keep(b[s], names, semantics));
    }
  }
}
