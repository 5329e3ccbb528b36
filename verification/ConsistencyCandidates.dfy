/** The second half of `compareLegacyDefinitions`: reading the differences off the two-way maps. */
module ConsistencyCandidates {
  import opened Text
  import opened Sorting
  import opened ConsistencyModel
  import opened ConsistencyCompare

  // ----- shard lists -----

  method PresentShards(expected: seq<string>, present: set<string>) returns (r: seq<string>)
    ensures r == Present(expected, present)
  {
    r := [];
    for i := 0 to |expected|
      invariant r == Present(expected[..i], present)
    {
      assert expected[..i + 1][..i] == expected[..i];
      if expected[i] in present { r := r + [expected[i]]; }
    }
    assert expected[..|expected|] == expected;
  }

  method AbsentShards(expected: seq<string>, present: set<string>) returns (r: seq<string>)
    ensures r == Absent(expected, present)
  {
    r := [];
    for i := 0 to |expected|
      invariant r == Absent(expected[..i], present)
    {
      assert expected[..i + 1][..i] == expected[..i];
      if expected[i] !in present { r := r + [expected[i]]; }
    }
    assert expected[..|expected|] == expected;
  }

  // ----- renames -----

  lemma ReferenceAppend(ds: seq<Definition>, d: Definition)
    ensures Reference(ds + [d]) == if Reference(ds).name == "" then d else Reference(ds)
    ensures NamesIn(ds + [d]) == NamesIn(ds) + {d.name}
  {
    assert (ds + [d])[..|ds|] == ds;
    assert forall e :: e in ds + [d] <==> e in ds || e == d;
  }

  method SummarizeShard(names0: set<string>, reference0: Definition, ghost before: seq<Definition>, ds: seq<Definition>)
    returns (names: set<string>, reference: Definition)
    requires names0 == NamesIn(before) && reference0 == Reference(before)
    ensures names == NamesIn(before + ds) && reference == Reference(before + ds)
  {
    hide NamesIn, Reference;
    names, reference := names0, reference0;
    assert before + ds[..0] == before;
    for j := 0 to |ds|
      invariant names == NamesIn(before + ds[..j]) && reference == Reference(before + ds[..j])
    {
      assert before + ds[..j + 1] == before + ds[..j] + [ds[j]];
      ReferenceAppend(before + ds[..j], ds[j]);
      names := names + {ds[j].name};
      if reference.name == "" { reference := ds[j]; }
    }
    assert ds[..|ds|] == ds;
  }

  /** The names under which one semantic appears, and the definition that stands for it. */
  method SemanticSummary(expected: seq<string>, shards: map<string, seq<Definition>>, ghost k: Observations, ghost m: string)
    returns (names: set<string>, reference: Definition)
    requires forall s :: s in shards <==> s in k && WithSemantic(k[s], m) != []
    requires forall s :: s in shards ==> shards[s] == WithSemantic(k[s], m)
    ensures names == SemanticNames(k, expected, m)
    ensures reference == Reference(SemanticDefinitions(k, expected, m))
  {
    names, reference := {}, BLANK;
    ghost var seen: seq<Definition> := [];
    for i := 0 to |expected|
      invariant seen == SemanticDefinitions(k, expected[..i], m)
      invariant names == NamesIn(seen) && reference == Reference(seen)
    {
      assert expected[..i + 1][..i] == expected[..i];
      var ds := if expected[i] in shards then shards[expected[i]] else [];
      names, reference := SummarizeShard(names, reference, seen, ds);
      seen := seen + ds;
    }
    assert expected[..|expected|] == expected;
  }

  ghost function RenamesOf(k: Observations, expected: seq<string>, semantics: set<string>): set<Difference> {
    set m | m in semantics :: RenamedDifference(k, expected, m)
  }

  lemma RenamesGrow(k: Observations, expected: seq<string>, done: set<string>, m: string)
    requires m !in done
    ensures multiset(RenamesOf(k, expected, done + {m})) == multiset(RenamesOf(k, expected, done)) + multiset{RenamedDifference(k, expected, m)}
  {
    hide Join, Digest, SortedKeys;
    forall x
      ensures RenamedDifference(k, expected, x).fingerprint == x
    {
    }
    assert RenamedDifference(k, expected, m) !in RenamesOf(k, expected, done);
    assert RenamesOf(k, expected, done + {m}) == RenamesOf(k, expected, done) + {RenamedDifference(k, expected, m)};
  }

  lemma RenamesEnd(k: Observations, expected: seq<string>)
    ensures RenamesOf(k, expected, {}) == {}
    ensures RenamesOf(k, expected, RenamedSemantics(k, expected)) == Renames(k, expected)
  {
  }

  lemma RenamedIsPresent(k: Observations, expected: seq<string>, m: string)
    ensures Renamed(k, expected, m) ==> m in Semantics(k)
  {
  }

  const NO_DIFFERENCE := Difference(Inconclusive, "", [], [], "", [], "")

  /** The body of `for semantic, shards := range bySemantic`. */
  method FindRename(expected: seq<string>, g: SemanticMap, ghost k: Observations, m: string)
    returns (found: bool, d: Difference, names: set<string>)
    requires GroupsSemantics(g, k) && m in g
    ensures found <==> Renamed(k, expected, m)
    ensures found ==> d == RenamedDifference(k, expected, m) && names == SemanticNames(k, expected, m)
  {
    found, d, names := false, NO_DIFFERENCE, {};
    GroupedSemantics(g, k, m);
    var shards := g[m];
    assert |shards| == |shards.Keys|;
    if |shards| == |expected| {
      forall s
        ensures s in shards <==> s in k && WithSemantic(k[s], m) != []
        ensures s in shards ==> shards[s] == WithSemantic(k[s], m)
      {
        assert SemanticCell(g, k, m, s);
      }
      var reference;
      names, reference := SemanticSummary(expected, shards, k, m);
      if |names| > 1 {
        var nameValues := MapKeys(names);
        found, d := true, Difference(NameMismatch, Join(nameValues, ','), expected, reference.key, m, [], "");
      }
    }
  }

  /** `for semantic, shards := range bySemantic`. */
  method FindRenames(expected: seq<string>, g: SemanticMap, ghost k: Observations)
    returns (result: seq<Difference>, handled: set<string>)
    requires GroupsSemantics(g, k)
    ensures multiset(result) == multiset(Renames(k, expected))
    ensures handled == Handled(k, expected)
  {
    hide Join, Digest, SortedKeys, RenamedDifference, Renamed, RenamesOf, SemanticNames, SemanticShards;
    result, handled := [], {};
    var todo := g.Keys;
    assert RenamesOf(k, expected, {}) == {} by { RenamesEnd(k, expected); }
    ghost var renamed: set<string> := {};
    while todo != {}
      invariant todo <= g.Keys
      invariant forall m :: m in renamed <==> m in g.Keys - todo && Renamed(k, expected, m)
      invariant multiset(result) == multiset(RenamesOf(k, expected, renamed))
      invariant handled == set m, n | m in renamed && n in SemanticNames(k, expected, m) :: n
      decreases todo
    {
      var m :| m in todo;
      todo := todo - {m};
      var found, d, names := FindRename(expected, g, k, m);
      if found {
        RenamesGrow(k, expected, renamed, m);
        handled := handled + names;
        result := result + [d];
        renamed := renamed + {m};
      }
    }
    forall m
      ensures m in renamed <==> m in RenamedSemantics(k, expected)
    {
      GroupedSemantics(g, k, m);
      RenamedIsPresent(k, expected, m);
    }
    assert renamed == RenamedSemantics(k, expected);
    RenamesEnd(k, expected);
  }

  // ----- names -----

  method FindReference(expected: seq<string>, shards: map<string, Definition>, ghost k: Observations, ghost n: string)
    returns (reference: Definition)
    requires shards == Namesakes(k, n)
    ensures reference == NameReference(k, expected, n)
  {
    reference := BLANK;
    for i := 0 to |expected|
      invariant NameReference(k, expected, n) == NameReference(k, expected[i..], n)
      invariant reference == BLANK
    {
      if expected[i] in shards {
        reference := shards[expected[i]];
        break;
      }
    }
  }

  lemma CollectedFields(ds: seq<Definition>, fields: set<string>)
    requires forall f :: f in fields <==> f != "name" && exists j :: 0 <= j < |ds| && f in ds[j].fields
    ensures fields == AllFields(set d | d in ds)
  {
    var all := set d | d in ds;
    forall f
      ensures f in fields <==> f in AllFields(all)
    {
      if f in fields {
        var j :| 0 <= j < |ds| && f in ds[j].fields;
        assert ds[j] in all;
      }
      if f in AllFields(all) {
        var d :| d in all && f in d.fields;
        var j :| 0 <= j < |ds| && ds[j] == d;
      }
    }
  }

  method CollectValues(ds: seq<Definition>, field: string) returns (values: set<string>)
    ensures values == FieldValues((set d | d in ds), field)
  {
    values := {};
    for i := 0 to |ds|
      invariant forall v :: v in values <==> exists j :: 0 <= j < i && FieldValue(ds[j], field) == v
    {
      values := values + {if field in ds[i].fields then ds[i].fields[field] else MISSING_VALUE};
    }
    ghost var all := set d | d in ds;
    forall v
      ensures v in values <==> v in FieldValues(all, field)
    {
      if v in values {
        var j :| 0 <= j < |ds| && FieldValue(ds[j], field) == v;
        assert ds[j] in all;
      }
      if v in FieldValues(all, field) {
        var d :| d in all && FieldValue(d, field) == v;
        var j :| 0 <= j < |ds| && ds[j] == d;
      }
    }
  }

  method CollectFields(ds: seq<Definition>) returns (fields: set<string>)
    ensures fields == AllFields(set d | d in ds)
  {
    fields := {};
    for i := 0 to |ds|
      invariant forall f :: f in fields <==> f != "name" && exists j :: 0 <= j < i && f in ds[j].fields
    {
      fields := fields + (ds[i].fields.Keys - {"name"});
    }
    CollectedFields(ds, fields);
  }

  /** `differingIndexFields`. */
  method DifferingIndexFields(ds: seq<Definition>) returns (result: seq<string>)
    ensures result == SortedKeys(DifferingFields(set d | d in ds))
  {
    hide LexLe, FieldValue;
    ghost var all := set d | d in ds;
    var fields := CollectFields(ds);
    var found: set<string> := {};
    var todo := fields;
    result := [];
    while todo != {}
      invariant todo <= fields
      invariant multiset(result) == multiset(found)
      invariant forall f :: f in found <==> f in fields - todo && |FieldValues(all, f)| > 1
      decreases todo
    {
      var field :| field in todo;
      todo := todo - {field};
      var values := CollectValues(ds, field);
      if |values| > 1 {
        result := result + [field];
        found := found + {field};
      }
    }
    assert found == DifferingFields(all);
    result := SortStrings(result);
    SortedUnique(result, SortedKeys(found), Self);
  }

  /** `for _, definition := range shards`, which collects the semantics and the definitions of a name. */
  method NamesakeSummary(shards: map<string, Definition>) returns (semantics: set<string>, ds: seq<Definition>)
    ensures semantics == set s | s in shards :: shards[s].semantic
    ensures (set d | d in ds) == shards.Values
  {
    semantics, ds := {}, [];
    var todo := shards.Keys;
    ghost var done: set<string> := {};
    while todo != {}
      invariant done + todo == shards.Keys && done !! todo
      invariant semantics == set s | s in done :: shards[s].semantic
      invariant forall d :: d in ds <==> exists s :: s in done && shards[s] == d
      decreases todo
    {
      var s :| s in todo;
      todo, done := todo - {s}, done + {s};
      semantics := semantics + {shards[s].semantic};
      ds := ds + [shards[s]];
    }
    assert done == shards.Keys;
  }

  lemma MissingGrows(k: Observations, expected: seq<string>, done: set<string>, n: string)
    requires n !in done
    ensures multiset(MissingDifferences(k, expected, done + {n}))
         == multiset(MissingDifferences(k, expected, done)) + multiset{MissingDifference(k, expected, n)}
  {
    hide Join, Digest, SortedKeys;
    forall x
      ensures MissingDifference(k, expected, x).indexName == x
    {
    }
    assert MissingDifference(k, expected, n) !in MissingDifferences(k, expected, done);
    assert MissingDifferences(k, expected, done + {n}) == MissingDifferences(k, expected, done) + {MissingDifference(k, expected, n)};
  }

  lemma MismatchGrows(k: Observations, expected: seq<string>, done: set<string>, n: string)
    requires n !in done
    ensures multiset(MismatchDifferences(k, expected, done + {n}))
         == multiset(MismatchDifferences(k, expected, done)) + multiset{MismatchDifference(k, expected, n)}
  {
    hide Join, Digest, SortedKeys;
    forall x
      ensures MismatchDifference(k, expected, x).indexName == x
    {
    }
    assert MismatchDifference(k, expected, n) !in MismatchDifferences(k, expected, done);
    assert MismatchDifferences(k, expected, done + {n}) == MismatchDifferences(k, expected, done) + {MismatchDifference(k, expected, n)};
  }

  /** The body of `for name, shards := range byName`. */
  method FindNameDifference(expected: seq<string>, h: NameMap, handled: set<string>, ghost k: Observations, n: string)
    returns (found: bool, d: Difference)
    requires GroupsNames(h, k) && n in h && handled == Handled(k, expected)
    ensures n in Names(k)
    ensures found <==> n in MissingNames(k, expected) || n in MismatchedNames(k, expected)
    ensures found && n in MissingNames(k, expected) ==> d == MissingDifference(k, expected, n)
    ensures found && n in MismatchedNames(k, expected) ==> d == MismatchDifference(k, expected, n)
  {
    found, d := false, NO_DIFFERENCE;
    GroupedNames(h, k, n);
    var shards := h[n];
    assert shards.Keys == NameShards(k, n) && |shards| == |shards.Keys|;
    if n in handled {
      return;
    }
    var reference := FindReference(expected, shards, k, n);
    if |shards| != |expected| {
      var absent := AbsentShards(expected, shards.Keys);
      found, d := true, Difference(MissingOnShard, n, absent, reference.key, reference.semantic, [], "");
    } else {
      var semantics, ds := NamesakeSummary(shards);
      assert semantics == NameSemantics(k, n);
      if |semantics| > 1 {
        var fields := DifferingIndexFields(ds);
        var values := MapKeys(semantics);
        found, d := true, Difference(SpecMismatch, n, expected, reference.key, Digest(Join(values, NUL)), fields, "");
      }
    }
  }

  ghost function NameDifferences(k: Observations, expected: seq<string>, missing: set<string>, mismatched: set<string>): multiset<Difference> {
    multiset(MissingDifferences(k, expected, missing)) + multiset(MismatchDifferences(k, expected, mismatched))
  }

  lemma NameDifferencesGrow(k: Observations, expected: seq<string>, missing: set<string>, mismatched: set<string>, n: string)
    ensures NameDifferences(k, expected, {}, {}) == multiset{}
    ensures n !in missing ==>
      NameDifferences(k, expected, missing + {n}, mismatched) == NameDifferences(k, expected, missing, mismatched) + multiset{MissingDifference(k, expected, n)}
    ensures n !in mismatched ==>
      NameDifferences(k, expected, missing, mismatched + {n}) == NameDifferences(k, expected, missing, mismatched) + multiset{MismatchDifference(k, expected, n)}
  {
    hide Join, Digest, SortedKeys, MissingDifference, MismatchDifference;
    if n !in missing { MissingGrows(k, expected, missing, n); }
    if n !in mismatched { MismatchGrows(k, expected, mismatched, n); }
  }

  lemma NamesCovered(h: NameMap, k: Observations, expected: seq<string>)
    requires GroupsNames(h, k)
    ensures MissingNames(k, expected) <= h.Keys && MismatchedNames(k, expected) <= h.Keys
    ensures MissingNames(k, expected) !! MismatchedNames(k, expected)
  {
    forall n
      ensures n in h.Keys <==> n in Names(k)
    {
      GroupedNames(h, k, n);
    }
  }

  /** `for name, shards := range byName`. */
  method FindNameDifferences(expected: seq<string>, h: NameMap, handled: set<string>, ghost k: Observations)
    returns (result: seq<Difference>)
    requires GroupsNames(h, k) && handled == Handled(k, expected)
    ensures multiset(result) == NameDifferences(k, expected, MissingNames(k, expected), MismatchedNames(k, expected))
  {
    hide NameDifferences, MissingNames, MismatchedNames, MissingDifference, MismatchDifference;
    result := [];
    var todo := h.Keys;
    ghost var wanted := MissingNames(k, expected);
    ghost var unlike := MismatchedNames(k, expected);
    ghost var missing: set<string> := {};
    ghost var mismatched: set<string> := {};
    NamesCovered(h, k, expected);
    NameDifferencesGrow(k, expected, missing, mismatched, "");
    while todo != {}
      invariant todo <= h.Keys
      invariant missing == wanted - todo
      invariant mismatched == unlike - todo
      invariant multiset(result) == NameDifferences(k, expected, missing, mismatched)
      decreases todo
    {
      var n :| n in todo;
      var found, d := FindNameDifference(expected, h, handled, k, n);
      NameDifferencesGrow(k, expected, missing, mismatched, n);
      if found {
        result := result + [d];
        missing := if n in wanted then missing + {n} else missing;
        mismatched := if n in wanted then mismatched else mismatched + {n};
      }
      todo := todo - {n};
    }
    assert missing == wanted && mismatched == unlike;
  }

  lemma DisjointUnion<T>(a: set<T>, b: set<T>, c: set<T>)
    requires a !! b && a !! c && b !! c
    ensures multiset(a + b + c) == multiset(a) + multiset(b) + multiset(c)
  {
  }

  lemma DifferentKinds(k: Observations, expected: seq<string>)
    ensures multiset(Candidates(k, expected)) == multiset(Renames(k, expected))
      + NameDifferences(k, expected, MissingNames(k, expected), MismatchedNames(k, expected))
  {
    hide Join, Digest, SortedKeys, MissingNames, MismatchedNames, RenamedSemantics, NameReference, Reference;
    var a := Renames(k, expected);
    var b := MissingDifferences(k, expected, MissingNames(k, expected));
    var c := MismatchDifferences(k, expected, MismatchedNames(k, expected));
    assert forall d :: d in a ==> d.code == NameMismatch;
    assert forall d :: d in b ==> d.code == MissingOnShard;
    assert forall d :: d in c ==> d.code == SpecMismatch;
    DisjointUnion(a, b, c);
  }

  /** `compareLegacyDefinitions`: exactly the candidate differences, sorted by signature, whatever
      order the maps are ranged over in. */
  method CompareLegacyDefinitions(expected: seq<string>, obs: Observations, names: set<string>, semantics: set<string>)
    returns (result: seq<Difference>)
    ensures multiset(result) == multiset(Candidates(KeepAll(obs, names, semantics), expected))
    ensures Sorted(result, Signature)
  {
    ghost var k := KeepAll(obs, names, semantics);
    var bySemantic, byName := GroupDefinitions(obs, names, semantics);
    var renames, handled := FindRenames(expected, bySemantic, k);
    var others := FindNameDifferences(expected, byName, handled, k);
    DifferentKinds(k, expected);
    result := SortBy(renames + others, Signature);
  }
}
