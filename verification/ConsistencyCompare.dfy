/** `compareLegacyDefinitions`: the candidate differences between the shards of one observation.

    Everything is stated about `k`, the observation without the definitions that are being built.
    The methods range over their maps in an arbitrary order. */
module ConsistencyCompare {
  import opened Text
  import opened Sorting
  import opened ConsistencyModel

  // ----- one shard -----

  /** What is left of a shard when the building names and semantics are skipped. */
  ghost function Keep(ds: seq<Definition>, names: set<string>, semantics: set<string>): seq<Definition> {
    if ds == [] then []
    else
      var d, rest := ds[|ds| - 1], Keep(ds[..|ds| - 1], names, semantics);
      if d.name in names || d.semantic in semantics then rest else rest + [d]
  }

  ghost function KeepAll(obs: Observations, names: set<string>, semantics: set<string>): Observations {
    map s | s in obs :: Keep(obs[s], names, semantics)
  }

  ghost function WithSemantic(ds: seq<Definition>, semantic: string): seq<Definition> {
    if ds == [] then []
    else
      var d, rest := ds[|ds| - 1], WithSemantic(ds[..|ds| - 1], semantic);
      if d.semantic == semantic then rest + [d] else rest
  }

  ghost predicate HasName(ds: seq<Definition>, name: string) {
    exists i :: 0 <= i < |ds| && ds[i].name == name
  }

  /** A later definition of the same name overwrites an earlier one. */
  ghost function LastNamed(ds: seq<Definition>, name: string): (d: Definition)
    requires HasName(ds, name)
    ensures d in ds && d.name == name
  {
    if ds[|ds| - 1].name == name then ds[|ds| - 1] else LastNamed(ds[..|ds| - 1], name)
  }

  // ----- across shards -----

  ghost function Semantics(k: Observations): set<string> {
    set s, i | s in k && 0 <= i < |k[s]| :: k[s][i].semantic
  }

  ghost function Names(k: Observations): set<string> {
    set s, i | s in k && 0 <= i < |k[s]| :: k[s][i].name
  }

  ghost function SemanticShards(k: Observations, semantic: string): set<string> {
    set s | s in k && WithSemantic(k[s], semantic) != []
  }

  ghost function NameShards(k: Observations, name: string): set<string> {
    set s | s in k && HasName(k[s], name)
  }

  const BLANK := Definition("", [], "", map[], false)

  /** The definitions with one semantic, in the order of the expected shards. */
  ghost function SemanticDefinitions(k: Observations, expected: seq<string>, semantic: string): seq<Definition> {
    if expected == [] then []
    else
      var s := expected[|expected| - 1];
      SemanticDefinitions(k, expected[..|expected| - 1], semantic) +
      (if s in k then WithSemantic(k[s], semantic) else [])
  }

  ghost function NamesIn(ds: seq<Definition>): set<string> {
    set d | d in ds :: d.name
  }

  /** The reference is replaced for as long as it has no name. */
  ghost function Reference(ds: seq<Definition>): Definition {
    if ds == [] then BLANK
    else
      var r := Reference(ds[..|ds| - 1]);
      if r.name == "" then ds[|ds| - 1] else r
  }

  ghost function SemanticNames(k: Observations, expected: seq<string>, semantic: string): set<string> {
    NamesIn(SemanticDefinitions(k, expected, semantic))
  }

  /** Present on as many shards as expected, under more than one name. */
  ghost predicate Renamed(k: Observations, expected: seq<string>, semantic: string) {
    && semantic in Semantics(k)
    && |SemanticShards(k, semantic)| == |expected|
    && |SemanticNames(k, expected, semantic)| > 1
  }

  ghost function RenamedDifference(k: Observations, expected: seq<string>, semantic: string): Difference {
    Difference(NameMismatch, Join(SortedKeys(SemanticNames(k, expected, semantic)), ','), expected,
               Reference(SemanticDefinitions(k, expected, semantic)).key, semantic, [], "")
  }

  ghost function RenamedSemantics(k: Observations, expected: seq<string>): set<string> {
    set m | m in Semantics(k) && Renamed(k, expected, m)
  }

  ghost function Renames(k: Observations, expected: seq<string>): set<Difference> {
    set m | m in RenamedSemantics(k, expected) :: RenamedDifference(k, expected, m)
  }

  /** Names already reported by a rename are not compared again. */
  ghost function Handled(k: Observations, expected: seq<string>): set<string> {
    set m, n | m in RenamedSemantics(k, expected) && n in SemanticNames(k, expected, m) :: n
  }

  /** The definition on the first expected shard that has the name. */
  ghost function NameReference(k: Observations, expected: seq<string>, name: string): Definition {
    if expected == [] then BLANK
    else if expected[0] in k && HasName(k[expected[0]], name) then LastNamed(k[expected[0]], name)
    else NameReference(k, expected[1..], name)
  }

  ghost function Absent(expected: seq<string>, present: set<string>): seq<string> {
    if expected == [] then []
    else
      var s, rest := expected[|expected| - 1], Absent(expected[..|expected| - 1], present);
      if s in present then rest else rest + [s]
  }

  ghost function Present(expected: seq<string>, present: set<string>): seq<string> {
    if expected == [] then []
    else
      var s, rest := expected[|expected| - 1], Present(expected[..|expected| - 1], present);
      if s in present then rest + [s] else rest
  }

  ghost function MissingDifference(k: Observations, expected: seq<string>, name: string): Difference {
    var r := NameReference(k, expected, name);
    Difference(MissingOnShard, name, Absent(expected, NameShards(k, name)), r.key, r.semantic, [], "")
  }

  /** The definitions that share a name, one per shard. */
  ghost function Namesakes(k: Observations, name: string): map<string, Definition> {
    map s | s in NameShards(k, name) :: LastNamed(k[s], name)
  }

  ghost function NameSemantics(k: Observations, name: string): set<string> {
    set s | s in NameShards(k, name) :: LastNamed(k[s], name).semantic
  }

  const MISSING_VALUE := "<missing>"

  ghost function FieldValue(d: Definition, field: string): string {
    if field in d.fields then d.fields[field] else MISSING_VALUE
  }

  ghost function AllFields(ds: set<Definition>): set<string> {
    set d, f | d in ds && f in d.fields && f != "name" :: f
  }

  ghost function FieldValues(ds: set<Definition>, field: string): set<string> {
    set d | d in ds :: FieldValue(d, field)
  }

  /** The fields on which the definitions do not all agree. */
  ghost function DifferingFields(ds: set<Definition>): set<string> {
    set f | f in AllFields(ds) && |FieldValues(ds, f)| > 1
  }

  ghost function MismatchDifference(k: Observations, expected: seq<string>, name: string): Difference {
    Difference(SpecMismatch, name, expected, NameReference(k, expected, name).key,
               Digest(Join(SortedKeys(NameSemantics(k, name)), NUL)),
               SortedKeys(DifferingFields(Namesakes(k, name).Values)), "")
  }

  ghost function MissingNames(k: Observations, expected: seq<string>): set<string> {
    set n | n in Names(k) - Handled(k, expected) && |NameShards(k, n)| != |expected|
  }

  ghost function MismatchedNames(k: Observations, expected: seq<string>): set<string> {
    set n | n in Names(k) - Handled(k, expected) && |NameShards(k, n)| == |expected| && |NameSemantics(k, n)| > 1
  }

  ghost function MissingDifferences(k: Observations, expected: seq<string>, names: set<string>): set<Difference> {
    set n | n in names :: MissingDifference(k, expected, n)
  }

  ghost function MismatchDifferences(k: Observations, expected: seq<string>, names: set<string>): set<Difference> {
    set n | n in names :: MismatchDifference(k, expected, n)
  }

  /** The candidate differences, as a set. */
  ghost function Candidates(k: Observations, expected: seq<string>): set<Difference> {
    Renames(k, expected)
    + MissingDifferences(k, expected, MissingNames(k, expected))
    + MismatchDifferences(k, expected, MismatchedNames(k, expected))
  }

  // ----- the two-way maps -----

  type SemanticMap = map<string, map<string, seq<Definition>>>
  type NameMap = map<string, map<string, Definition>>

  ghost predicate SemanticCell(g: SemanticMap, k: Observations, m: string, s: string) {
    && ((m in g && s in g[m]) <==> (s in k && WithSemantic(k[s], m) != []))
    && (m in g && s in g[m] && s in k ==> g[m][s] == WithSemantic(k[s], m))
  }

  ghost predicate NameCell(h: NameMap, k: Observations, n: string, s: string) {
    && ((n in h && s in h[n]) <==> (s in k && HasName(k[s], n)))
    && (n in h && s in h[n] && s in k && HasName(k[s], n) ==> h[n][s] == LastNamed(k[s], n))
  }

  ghost predicate GroupsSemantics(g: SemanticMap, k: Observations) {
    && (forall m, s :: SemanticCell(g, k, m, s))
    && (forall m :: m in g ==> g[m] != map[])
  }

  ghost predicate GroupsNames(h: NameMap, k: Observations) {
    && (forall n, s :: NameCell(h, k, n, s))
    && (forall n :: n in h ==> h[n] != map[])
  }

  lemma {:induction false} WithSemanticMembers(ds: seq<Definition>, m: string)
    ensures forall d :: d in WithSemantic(ds, m) <==> d in ds && d.semantic == m
  {
    if ds != [] {
      WithSemanticMembers(ds[..|ds| - 1], m);
      assert ds == ds[..|ds| - 1] + [ds[|ds| - 1]];
    }
  }

  lemma WithSemanticNonEmpty(ds: seq<Definition>, m: string)
    ensures WithSemantic(ds, m) != [] <==> exists i :: 0 <= i < |ds| && ds[i].semantic == m
  {
    WithSemanticMembers(ds, m);
    if WithSemantic(ds, m) != [] {
      assert WithSemantic(ds, m)[0] in ds;
    }
    if i :| 0 <= i < |ds| && ds[i].semantic == m {
      assert ds[i] in WithSemantic(ds, m);
    }
  }

  lemma GroupedSemantics(g: SemanticMap, k: Observations, m: string)
    requires GroupsSemantics(g, k)
    ensures m in g <==> m in Semantics(k)
    ensures m in g ==> g[m].Keys == SemanticShards(k, m)
  {
    if m in g {
      assert g[m].Keys != {};
      var s :| s in g[m].Keys;
      assert SemanticCell(g, k, m, s);
      WithSemanticNonEmpty(k[s], m);
      forall t
        ensures t in g[m].Keys <==> t in SemanticShards(k, m)
      {
        assert SemanticCell(g, k, m, t);
      }
    }
    if m in Semantics(k) {
      var s, i :| s in k && 0 <= i < |k[s]| && k[s][i].semantic == m;
      WithSemanticNonEmpty(k[s], m);
      assert SemanticCell(g, k, m, s);
    }
  }

  lemma GroupedNames(h: NameMap, k: Observations, n: string)
    requires GroupsNames(h, k)
    ensures n in h <==> n in Names(k)
    ensures n in h ==> h[n] == Namesakes(k, n)
  {
    if n in h {
      assert h[n].Keys != {};
      var s :| s in h[n].Keys;
      assert NameCell(h, k, n, s);
      forall t
        ensures t in h[n].Keys <==> t in NameShards(k, n)
        ensures t in h[n].Keys ==> h[n][t] == LastNamed(k[t], n)
      {
        assert NameCell(h, k, n, t);
      }
    }
    if n in Names(k) {
      var s, i :| s in k && 0 <= i < |k[s]| && k[s][i].name == n;
      assert HasName(k[s], n);
      assert NameCell(h, k, n, s);
    }
  }

  lemma AppendSemantic(ds: seq<Definition>, d: Definition, m: string)
    ensures WithSemantic(ds + [d], m) == if d.semantic == m then WithSemantic(ds, m) + [d] else WithSemantic(ds, m)
  {
    assert (ds + [d])[..|ds|] == ds;
  }

  lemma AppendName(ds: seq<Definition>, d: Definition, n: string)
    ensures HasName(ds + [d], n) <==> d.name == n || HasName(ds, n)
    ensures HasName(ds + [d], n) ==> LastNamed(ds + [d], n) == if d.name == n then d else LastNamed(ds, n)
  {
    assert (ds + [d])[..|ds|] == ds;
    if d.name == n {
      assert (ds + [d])[|ds|].name == n;
    }
    if i :| 0 <= i < |ds| && ds[i].name == n {
      assert (ds + [d])[i].name == n;
    }
  }

  method AddSemantic(g: SemanticMap, ghost k: Observations, s: string, d: Definition) returns (r: SemanticMap)
    requires GroupsSemantics(g, k) && s in k
    ensures GroupsSemantics(r, k[s := k[s] + [d]])
  {
    var shards := if d.semantic in g then g[d.semantic] else map[];
    var known := if s in shards then shards[s] else [];
    r := g[d.semantic := shards[s := known + [d]]];
    ghost var k' := k[s := k[s] + [d]];
    assert known == WithSemantic(k[s], d.semantic) by {
      assert SemanticCell(g, k, d.semantic, s);
    }
    forall m, t
      ensures SemanticCell(r, k', m, t)
    {
      assert SemanticCell(g, k, m, t);
      AppendSemantic(k[s], d, m);
    }
    assert s in shards[s := known + [d]];
  }

  method AddName(h: NameMap, ghost k: Observations, s: string, d: Definition) returns (r: NameMap)
    requires GroupsNames(h, k) && s in k
    ensures GroupsNames(r, k[s := k[s] + [d]])
  {
    var shards := if d.name in h then h[d.name] else map[];
    r := h[d.name := shards[s := d]];
    ghost var k' := k[s := k[s] + [d]];
    forall n, t
      ensures NameCell(r, k', n, t)
    {
      assert NameCell(h, k, n, t);
      AppendName(k[s], d, n);
    }
    assert s in shards[s := d];
  }

  lemma NewShard(g: SemanticMap, h: NameMap, k: Observations, s: string)
    requires GroupsSemantics(g, k) && GroupsNames(h, k) && s !in k
    ensures GroupsSemantics(g, k[s := []]) && GroupsNames(h, k[s := []])
  {
    var k' := k[s := []];
    forall m, t
      ensures SemanticCell(g, k', m, t)
    {
      assert SemanticCell(g, k, m, t);
    }
    forall n, t
      ensures NameCell(h, k', n, t)
    {
      assert NameCell(h, k, n, t);
    }
  }

  /** The definitions of one shard, added to the two maps. */
  method GroupShard(g: SemanticMap, h: NameMap, ghost k: Observations, s: string, ds: seq<Definition>,
                    names: set<string>, semantics: set<string>)
    returns (bySemantic: SemanticMap, byName: NameMap)
    requires GroupsSemantics(g, k) && GroupsNames(h, k) && s !in k
    ensures GroupsSemantics(bySemantic, k[s := Keep(ds, names, semantics)])
    ensures GroupsNames(byName, k[s := Keep(ds, names, semantics)])
  {
    bySemantic, byName := g, h;
    NewShard(g, h, k, s);
    for i := 0 to |ds|
      invariant GroupsSemantics(bySemantic, k[s := Keep(ds[..i], names, semantics)])
      invariant GroupsNames(byName, k[s := Keep(ds[..i], names, semantics)])
    {
      var d := ds[i];
      assert ds[..i + 1][..i] == ds[..i];
      ghost var now := k[s := Keep(ds[..i], names, semantics)];
      if d.name !in names && d.semantic !in semantics {
        bySemantic := AddSemantic(bySemantic, now, s, d);
        byName := AddName(byName, now, s, d);
        assert now[s := now[s] + [d]] == k[s := Keep(ds[..i + 1], names, semantics)];
      }
    }
    assert ds[..|ds|] == ds;
  }

  /** The first loop nest of `compareLegacyDefinitions`. */
  method GroupDefinitions(obs: Observations, names: set<string>, semantics: set<string>)
    returns (bySemantic: SemanticMap, byName: NameMap)
    ensures GroupsSemantics(bySemantic, KeepAll(obs, names, semantics))
    ensures GroupsNames(byName, KeepAll(obs, names, semantics))
  {
    bySemantic, byName := map[], map[];
    ghost var k: Observations := map[];
    var todo := obs.Keys;
    while todo != {}
      invariant todo <= obs.Keys && k.Keys == obs.Keys - todo
      invariant forall s :: s in k ==> k[s] == Keep(obs[s], names, semantics)
      invariant GroupsSemantics(bySemantic, k) && GroupsNames(byName, k)
      decreases todo
    {
      var s :| s in todo;
      bySemantic, byName := GroupShard(bySemantic, byName, k, s, obs[s], names, semantics);
      k := k[s := Keep(obs[s], names, semantics)];
      todo := todo - {s};
    }
    assert k == KeepAll(obs, names, semantics);
  }
}
