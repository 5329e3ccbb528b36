/** `canonicalIndexDefinition`: fingerprints that compare index specifications field by field. */
module CanonicalIndex {
  import opened Text
  import opened Sorting
  import opened ConsistencyModel
  import opened ConsistencyCompare
  import opened ConsistencyExactness
  import opened ConsistencyVerdict

  /** A BSON value, as far as this code looks at it. */
  datatype Scalar = Scalar(kind: nat, text: string)
  datatype Value = Name(text: string) | KeyPattern(entries: seq<(string, Scalar)>) | Other(value: Scalar)
  datatype Element = Element(key: string, value: Value)

  type Spec = seq<Element>

  datatype Result<T> = Success(value: T) | Failure

  predicate IsSpace(c: char) {
    var n := c as int;
    || 0x09 <= n <= 0x0d || n == 0x20 || n == 0x85 || n == 0xa0 || n == 0x1680
    || 0x2000 <= n <= 0x200a || n == 0x2028 || n == 0x2029 || n == 0x202f || n == 0x205f || n == 0x3000
  }

  /** These 25 characters are white space. */
  lemma SpacesAre(c: char)
    ensures IsSpace(c) <==> c in "\t\n\U{0b}\U{0c}\r \U{85}\U{a0}\U{1680}\U{2000}\U{2001}\U{2002}\U{2003}\U{2004}\U{2005}\U{2006}"
                                 + "\U{2007}\U{2008}\U{2009}\U{200a}\U{2028}\U{2029}\U{202f}\U{205f}\U{3000}"
  {
  }

  /** `strings.TrimSpace` leaves nothing. */
  method IsBlank(s: string) returns (b: bool)
    ensures b <==> Blank(s)
  {
    for i := 0 to |s|
      invariant Blank(s[..i])
    {
      if !IsSpace(s[i]) { return false; }
    }
    return true;
  }

  ghost predicate Blank(s: string) { forall i :: 0 <= i < |s| ==> IsSpace(s[i]) }

  ghost function KeyFields(entries: seq<(string, Scalar)>): seq<KeyField> {
    seq(|entries|, i requires 0 <= i < |entries| => KeyField(entries[i].0, entries[i].1.text))
  }

  function KeyOf(e: Element): string { e.key }

  /** The elements that take part in the meaning of an index. */
  ghost function Meaningful(spec: Spec): Spec {
    if spec == [] then []
    else
      var rest, e := Meaningful(spec[..|spec| - 1]), spec[|spec| - 1];
      if e.key == "ns" || e.key == "name" then rest else rest + [e]
  }

  /** Why a specification is refused. */
  ghost predicate Acceptable(e: Element) {
    && (e.key == "name" ==> e.value.Name? && !Blank(e.value.text))
    && (e.key == "key" ==> e.value.KeyPattern?)
  }

  ghost function NameIn(spec: Spec): string {
    if spec == [] then ""
    else
      var e := spec[|spec| - 1];
      if e.key == "name" && e.value.Name? then e.value.text else NameIn(spec[..|spec| - 1])
  }

  ghost function KeyIn(spec: Spec): seq<KeyField> {
    if spec == [] then []
    else
      var rest, e := KeyIn(spec[..|spec| - 1]), spec[|spec| - 1];
      if e.key == "key" && e.value.KeyPattern? then rest + KeyFields(e.value.entries) else rest
  }

  ghost function FieldsOf(spec: Spec, digest: Spec -> string): map<string, string> {
    if spec == [] then map[]
    else
      var rest, e := FieldsOf(spec[..|spec| - 1], digest), spec[|spec| - 1];
      if e.key == "ns" then rest else rest[e.key := digest([e])]
  }

  ghost predicate AllAcceptable(spec: Spec) { forall i :: 0 <= i < |spec| ==> Acceptable(spec[i]) }

  /** `canonicalIndexDefinition`. */
  method Canonical(spec: Spec, building: bool, digest: Spec -> string) returns (r: Result<Definition>)
    ensures r.Success? <==> AllAcceptable(spec) && NameIn(spec) != "" && KeyIn(spec) != []
    ensures r.Success? ==> r.value == Definition(NameIn(spec), KeyIn(spec), digest(SortBy(Meaningful(spec), KeyOf)),
                                                 FieldsOf(spec, digest), building)
  {
    var name, key, semantic, fields := "", [], [], map[];
    for i := 0 to |spec|
      invariant AllAcceptable(spec[..i])
      invariant name == NameIn(spec[..i]) && key == KeyIn(spec[..i])
      invariant semantic == Meaningful(spec[..i]) && fields == FieldsOf(spec[..i], digest)
    {
      var e := spec[i];
      assert spec[..i + 1][..i] == spec[..i];
      if e.key != "ns" {
        fields := fields[e.key := digest([e])];
        match e.key {
          case "name" =>
            if !e.value.Name? { return Failure; }
            var blank := IsBlank(e.value.text);
            if blank { return Failure; }
            name := e.value.text;
          case "key" =>
            if !e.value.KeyPattern? { return Failure; }
            for j := 0 to |e.value.entries|
              invariant key == KeyIn(spec[..i]) + KeyFields(e.value.entries[..j])
            {
              key := key + [KeyField(e.value.entries[j].0, e.value.entries[j].1.text)];
            }
            assert e.value.entries[..|e.value.entries|] == e.value.entries;
            semantic := semantic + [e];
          case _ =>
            semantic := semantic + [e];
        }
      }
    }
    assert spec[..|spec|] == spec;
    if name == "" || key == [] { return Failure; }
    r := Success(Definition(name, key, digest(SortBy(semantic, KeyOf)), fields, building));
  }

  // ----- what the fingerprints mean -----

  ghost predicate Injective(digest: Spec -> string) {
    forall a, b :: digest(a) == digest(b) ==> a == b
  }

  ghost predicate DistinctKeys(spec: Spec) {
    forall i, j :: 0 <= i < j < |spec| ==> spec[i].key != spec[j].key
  }

  /** Both specifications say the same about a field: the same value, or nothing. */
  ghost predicate AgreeOn(a: Spec, b: Spec, field: string) {
    forall v :: Element(field, v) in a <==> Element(field, v) in b
  }

  lemma {:induction false} MeaningfulMembers(spec: Spec, e: Element)
    ensures e in Meaningful(spec) <==> e in spec && e.key != "ns" && e.key != "name"
  {
    if spec != [] {
      MeaningfulMembers(spec[..|spec| - 1], e);
      assert spec == spec[..|spec| - 1] + [spec[|spec| - 1]];
    }
  }

  lemma {:induction false} MeaningfulDistinct(spec: Spec)
    requires DistinctKeys(spec)
    ensures DistinctKeys(Meaningful(spec))
  {
    if spec != [] {
      var init, last := spec[..|spec| - 1], spec[|spec| - 1];
      MeaningfulDistinct(init);
      var rest := Meaningful(init);
      forall i | 0 <= i < |rest|
        ensures rest[i].key != last.key
      {
        MeaningfulMembers(init, rest[i]);
        var j :| 0 <= j < |init| && init[j] == rest[i];
        assert spec[j] == rest[i];
      }
    }
  }

  lemma {:induction false} DistinctMultiset(spec: Spec)
    requires DistinctKeys(spec)
    ensures multiset(spec) == multiset(set e | e in spec)
  {
    if spec != [] {
      var init, last := spec[..|spec| - 1], spec[|spec| - 1];
      DistinctMultiset(init);
      assert spec == init + [last];
      assert last !in init;
      assert (set e | e in spec) == (set e | e in init) + {last};
    }
  }

  lemma KeysDistinguish(spec: Spec)
    requires DistinctKeys(spec)
    ensures Distinguishes(KeyOf, multiset(spec))
  {
    forall x, y | x in multiset(spec) && y in multiset(spec) && KeyOf(x) == KeyOf(y)
      ensures x == y
    {
      var i :| 0 <= i < |spec| && spec[i] == x;
      var j :| 0 <= j < |spec| && spec[j] == y;
    }
  }

  /** Equal semantic fingerprints mean exactly that the two specifications agree on every field other
      than `name` and `ns`, in whatever order they list their fields. */
  lemma SemanticFingerprint(a: Spec, b: Spec, digest: Spec -> string)
    requires Injective(digest) && DistinctKeys(a) && DistinctKeys(b)
    ensures digest(SortBy(Meaningful(a), KeyOf)) == digest(SortBy(Meaningful(b), KeyOf)) <==>
      forall f :: f != "name" && f != "ns" ==> AgreeOn(a, b, f)
  {
    var x, y := Meaningful(a), Meaningful(b);
    MeaningfulDistinct(a);
    MeaningfulDistinct(b);
    KeysDistinguish(x);
    if SortBy(x, KeyOf) == SortBy(y, KeyOf) {
      forall f | f != "name" && f != "ns"
        ensures AgreeOn(a, b, f)
      {
        SameMeaningful(a, b, f);
      }
    }
    if forall f :: f != "name" && f != "ns" ==> AgreeOn(a, b, f) {
      forall e: Element
        ensures e in x <==> e in y
      {
        MeaningfulMembers(a, e);
        MeaningfulMembers(b, e);
        assert e.key != "name" && e.key != "ns" ==> AgreeOn(a, b, e.key);
        assert e == Element(e.key, e.value);
      }
      assert (set e | e in x) == (set e | e in y);
      DistinctMultiset(x);
      DistinctMultiset(y);
      SortedUnique(SortBy(x, KeyOf), SortBy(y, KeyOf), KeyOf);
    }
  }

  lemma SameMeaningful(a: Spec, b: Spec, f: string)
    requires SortBy(Meaningful(a), KeyOf) == SortBy(Meaningful(b), KeyOf)
    requires f != "name" && f != "ns"
    ensures AgreeOn(a, b, f)
  {
    hide LexLe, Insert;
    var x, y := Meaningful(a), Meaningful(b);
    assert multiset(x) == multiset(y);
    forall v
      ensures Element(f, v) in a <==> Element(f, v) in b
    {
      MeaningfulMembers(a, Element(f, v));
      MeaningfulMembers(b, Element(f, v));
      assert Element(f, v) in x <==> Element(f, v) in multiset(x);
      assert Element(f, v) in y <==> Element(f, v) in multiset(y);
    }
  }

  lemma {:induction false} FieldAt(spec: Spec, digest: Spec -> string, i: nat)
    requires DistinctKeys(spec) && i < |spec| && spec[i].key != "ns"
    ensures spec[i].key in FieldsOf(spec, digest) && FieldsOf(spec, digest)[spec[i].key] == digest([spec[i]])
  {
    if i < |spec| - 1 {
      assert spec[i].key != spec[|spec| - 1].key;
      FieldAt(spec[..|spec| - 1], digest, i);
    }
  }

  lemma {:induction false} FieldFrom(spec: Spec, digest: Spec -> string, f: string)
    requires f in FieldsOf(spec, digest)
    ensures f != "ns" && exists i :: 0 <= i < |spec| && spec[i].key == f
  {
    if spec[|spec| - 1].key != f || f == "ns" {
      FieldFrom(spec[..|spec| - 1], digest, f);
    }
  }

  lemma FieldMembers(spec: Spec, digest: Spec -> string, f: string)
    requires DistinctKeys(spec)
    ensures f in FieldsOf(spec, digest) <==> f != "ns" && exists v :: Element(f, v) in spec
    ensures forall v :: f != "ns" && Element(f, v) in spec ==> f in FieldsOf(spec, digest) && FieldsOf(spec, digest)[f] == digest([Element(f, v)])
  {
    hide FieldsOf, DistinctKeys;
    forall v | f != "ns" && Element(f, v) in spec
      ensures f in FieldsOf(spec, digest) && FieldsOf(spec, digest)[f] == digest([Element(f, v)])
    {
      var i :| 0 <= i < |spec| && spec[i] == Element(f, v);
      FieldAt(spec, digest, i);
    }
    if f in FieldsOf(spec, digest) {
      FieldFrom(spec, digest, f);
      var i :| 0 <= i < |spec| && spec[i].key == f;
      assert spec[i] == Element(f, spec[i].value);
    }
  }

  /** A definition that was made from a specification. */
  ghost predicate Describes(d: Definition, spec: Spec, digest: Spec -> string) {
    && d.semantic == digest(SortBy(Meaningful(spec), KeyOf))
    && d.fields == FieldsOf(spec, digest)
  }

  lemma SameFieldValue(d: Definition, e: Definition, a: Spec, b: Spec, digest: Spec -> string, f: string)
    requires Injective(digest) && DistinctKeys(a) && DistinctKeys(b) && f != "ns"
    requires forall s :: digest(s) != MISSING_VALUE
    requires d.fields == FieldsOf(a, digest) && e.fields == FieldsOf(b, digest)
    ensures FieldValue(d, f) == FieldValue(e, f) <==> AgreeOn(a, b, f)
  {
    FieldMembers(a, digest, f);
    FieldMembers(b, digest, f);
    if v :| Element(f, v) in a {
      assert FieldValue(d, f) == digest([Element(f, v)]);
      OneValue(a, f, v);
      if w :| Element(f, w) in b {
        OneValue(b, f, w);
        assert FieldValue(e, f) == digest([Element(f, w)]);
        assert [Element(f, v)] == [Element(f, w)] <==> v == w;
      }
    }
  }

  lemma OneValue(spec: Spec, f: string, v: Value)
    requires DistinctKeys(spec) && Element(f, v) in spec
    ensures forall w :: Element(f, w) in spec ==> w == v
  {
    var i :| 0 <= i < |spec| && spec[i] == Element(f, v);
    forall w | Element(f, w) in spec
      ensures w == v
    {
      var j :| 0 <= j < |spec| && spec[j] == Element(f, w);
    }
  }

  /** Two definitions differ in a field exactly when their specifications disagree on it. */
  lemma DifferingOfTwo(d: Definition, e: Definition, a: Spec, b: Spec, digest: Spec -> string, f: string)
    requires Injective(digest) && DistinctKeys(a) && DistinctKeys(b)
    requires forall s :: digest(s) != MISSING_VALUE
    requires Describes(d, a, digest) && Describes(e, b, digest)
    ensures f in DifferingFields({d, e}) <==> f != "name" && f != "ns" && !AgreeOn(a, b, f)
  {
    hide AgreeOn, FieldsOf, Meaningful, LexLe;
    FieldMembers(a, digest, f);
    FieldMembers(b, digest, f);
    if f != "ns" {
      SameFieldValue(d, e, a, b, digest, f);
      AtMostOne(FieldValues({d, e}, f));
      assert FieldValue(d, f) in FieldValues({d, e}, f) && FieldValue(e, f) in FieldValues({d, e}, f);
      UnknownField(a, b, f);
    }
  }

  lemma UnknownField(a: Spec, b: Spec, f: string)
    ensures (forall v :: Element(f, v) !in a && Element(f, v) !in b) ==> AgreeOn(a, b, f)
  {
  }

  lemma DifferingFieldsGrow(small: set<Definition>, large: set<Definition>, f: string)
    requires small <= large && f in DifferingFields(small)
    ensures f in DifferingFields(large)
  {
    AtMostOne(FieldValues(small, f));
    AtMostOne(FieldValues(large, f));
    assert FieldValues(small, f) <= FieldValues(large, f);
  }

  /** Any number of definitions differ in a field if and only if two of them do. */
  lemma TwoOfThem(ds: set<Definition>, f: string)
    ensures f in DifferingFields(ds) <==> exists d, e :: d in ds && e in ds && f in DifferingFields({d, e})
  {
    if f in DifferingFields(ds) {
      var g :| g in ds && f in g.fields && f != "name";
      AtMostOne(FieldValues(ds, f));
      var v, w :| v in FieldValues(ds, f) && w in FieldValues(ds, f) && v != w;
      var d :| d in ds && FieldValue(d, f) == v;
      var e :| e in ds && FieldValue(e, f) == w;
      var h := if v == FieldValue(g, f) then e else d;
      AtMostOne(FieldValues({g, h}, f));
      assert FieldValue(g, f) in FieldValues({g, h}, f) && FieldValue(h, f) in FieldValues({g, h}, f);
      assert f in DifferingFields({g, h});
    }
    if d, e :| d in ds && e in ds && f in DifferingFields({d, e}) {
      DifferingFieldsGrow({d, e}, ds, f);
    }
  }

  /** The specification that each definition was made from. */
  ghost predicate MadeFrom(ds: set<Definition>, specOf: Definition -> Spec, digest: Spec -> string) {
    && Injective(digest) && (forall s :: digest(s) != MISSING_VALUE)
    && forall d :: d in ds ==> Describes(d, specOf(d), digest) && DistinctKeys(specOf(d))
  }

  /** `differingIndexFields` names exactly the fields, other than `name` and `ns`, on which two of the
      specifications disagree, however many there are. */
  lemma DifferingFieldsExact(ds: set<Definition>, specOf: Definition -> Spec, digest: Spec -> string, f: string)
    requires MadeFrom(ds, specOf, digest)
    ensures f in DifferingFields(ds) <==>
      f != "name" && f != "ns" && exists d, e :: d in ds && e in ds && !AgreeOn(specOf(d), specOf(e), f)
  {
    hide AgreeOn, FieldsOf, Meaningful, LexLe, DifferingFields, Describes, Injective;
    TwoOfThem(ds, f);
    forall d, e | d in ds && e in ds
      ensures f in DifferingFields({d, e}) <==> f != "name" && f != "ns" && !AgreeOn(specOf(d), specOf(e), f)
    {
      DifferingOfTwo(d, e, specOf(d), specOf(e), digest, f);
    }
  }

  /** Definitions that differ in meaning differ in a field that is reported. */
  lemma MeaningShowsInAField(ds: set<Definition>, d: Definition, e: Definition, specOf: Definition -> Spec, digest: Spec -> string)
    requires MadeFrom(ds, specOf, digest) && d in ds && e in ds && d.semantic != e.semantic
    ensures DifferingFields(ds) != {}
  {
    hide AgreeOn, FieldsOf, Meaningful, LexLe, DifferingFields, Injective;
    SemanticFingerprint(specOf(d), specOf(e), digest);
    var f :| f != "name" && f != "ns" && !AgreeOn(specOf(d), specOf(e), f);
    DifferingFieldsExact(ds, specOf, digest, f);
  }

  /** The definitions of an observation. */
  ghost function AllDefinitions(k: Observations): set<Definition> {
    set s, i | s in k && 0 <= i < |k[s]| :: k[s][i]
  }

  lemma NamesakesAreDefinitions(k: Observations, n: string, d: Definition)
    requires d in Namesakes(k, n).Values
    ensures d in AllDefinitions(k)
  {
    var s :| s in NameShards(k, n) && LastNamed(k[s], n) == d;
    var i :| 0 <= i < |k[s]| && k[s][i] == d;
  }

  /** Every spec mismatch that the comparison reports names at least one field. */
  lemma MismatchNamesAField(k: Observations, expected: seq<string>, d: Difference, specOf: Definition -> Spec, digest: Spec -> string)
    requires MadeFrom(AllDefinitions(k), specOf, digest)
    requires d in Candidates(k, expected) && d.code == SpecMismatch
    ensures d.fields != []
  {
    hide Candidates, MadeFrom, DifferingFields, SortedKeys, AllDefinitions, Describes;
    CandidateKinds(k, expected, d);
    var n := d.indexName;
    var ds := Namesakes(k, n).Values;
    assert MadeFrom(ds, specOf, digest) by {
      forall x | x in ds ensures x in AllDefinitions(k) { NamesakesAreDefinitions(k, n, x); }
      FewerMade(AllDefinitions(k), ds, specOf, digest);
    }
    AtMostOne(NameSemantics(k, n));
    var u, v :| u in NameSemantics(k, n) && v in NameSemantics(k, n) && u != v;
    var s :| s in NameShards(k, n) && LastNamed(k[s], n).semantic == u;
    var t :| t in NameShards(k, n) && LastNamed(k[t], n).semantic == v;
    assert Namesakes(k, n)[s] in ds && Namesakes(k, n)[t] in ds;
    MeaningShowsInAField(ds, Namesakes(k, n)[s], Namesakes(k, n)[t], specOf, digest);
    var f :| f in DifferingFields(ds);
    SortedKeysMembers(DifferingFields(ds), f);
  }

  lemma FewerMade(all: set<Definition>, some: set<Definition>, specOf: Definition -> Spec, digest: Spec -> string)
    requires MadeFrom(all, specOf, digest) && some <= all
    ensures MadeFrom(some, specOf, digest)
  {
  }
}
