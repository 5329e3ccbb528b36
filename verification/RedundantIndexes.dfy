/** Which indexes an audit reports as prefixes of others, and why all of them may be dropped at once. */
module RedundantIndexes {
  import opened Text
  import opened Sorting

  datatype KeyField = KeyField(field: string, order: string)

  datatype Expiry = Never | After(seconds: int)

  datatype Observation = Observation(name: string, key: seq<KeyField>, unique: bool, sparse: bool, hidden: bool,
                                     partialFilter: string, wildcardProjection: string, collation: string,
                                     expiry: Expiry, host: string)

  /** `compatibleIndexProperties`. */
  predicate Compatible(a: Observation, b: Observation) {
    a.unique == b.unique && a.sparse == b.sparse && a.hidden == b.hidden
    && a.partialFilter == b.partialFilter && a.wildcardProjection == b.wildcardProjection
    && a.collation == b.collation && a.expiry == b.expiry
  }

  /** `keyPrefix`: a proper prefix. */
  method KeyPrefix(a: seq<KeyField>, b: seq<KeyField>) returns (r: bool)
    ensures r <==> a < b
  {
    if |a| >= |b| { return false; }
    for i := 0 to |a|
      invariant a[..i] == b[..i]
    {
      if a[i] != b[i] { return false; }
    }
    assert a == a[..|a|] == b[..|a|];
    return true;
  }

  /** `b` serves wherever `a` does: its key continues the key of `a`, and apart from name, key and the host
      it was observed on it is the same. */
  ghost predicate Covers(b: Observation, a: Observation) {
    a.key < b.key && a.(name := b.name, key := b.key, host := b.host) == b
  }

  function Name(o: Observation): string { o.name }

  /** Observations are grouped under their own names. */
  ghost predicate Grouped(byName: map<string, seq<Observation>>) {
    forall n, i :: n in byName && 0 <= i < |byName[n]| ==> byName[n][i].name == n
  }

  ghost predicate IsFirst(byName: map<string, seq<Observation>>, o: Observation) {
    exists n :: n in byName && byName[n] != [] && byName[n][0] == o
  }

  /** The first observation of every name, once, in the order of the names. */
  ghost predicate FirstDefinitionsOf(byName: map<string, seq<Observation>>, definitions: seq<Observation>) {
    && (forall o :: o in definitions <==> IsFirst(byName, o))
    && (forall i, j :: 0 <= i < j < |definitions| ==> definitions[i].name != definitions[j].name)
    && (forall i, j :: 0 <= i < j < |definitions| ==> LexLe(definitions[i].name, definitions[j].name))
  }

  /** `firstIndexDefinitions`, whatever order the range statement picks. */
  method FirstIndexDefinitions(byName: map<string, seq<Observation>>) returns (result: seq<Observation>)
    requires Grouped(byName)
    ensures FirstDefinitionsOf(byName, result)
  {
    result := [];
    var todo := byName.Keys;
    while todo != {}
      invariant todo <= byName.Keys
      invariant forall o :: o in result <==> exists n :: n in byName && n !in todo && byName[n] != [] && byName[n][0] == o
      invariant forall i :: 0 <= i < |result| ==> result[i].name in byName && result[i].name !in todo
      invariant forall i, j :: 0 <= i < j < |result| ==> result[i].name != result[j].name
      decreases todo
    {
      var n :| n in todo;
      if |byName[n]| > 0 {
        ghost var before := result;
        result := result + [byName[n][0]];
        assert forall o :: o in result <==> o in before || o == byName[n][0];
      }
      todo := todo - {n};
    }
    ghost var collected := result;
    result := SortBy(result, Name);
    SameMembers(collected, result);
  }

  lemma SameMembers(a: seq<Observation>, b: seq<Observation>)
    requires multiset(a) == multiset(b)
    requires forall i, j :: 0 <= i < j < |a| ==> a[i].name != a[j].name
    ensures forall o :: o in a <==> o in b
    ensures forall i, j :: 0 <= i < j < |b| ==> b[i].name != b[j].name
  {
    assert forall o :: o in a <==> o in multiset(a);
    assert forall o :: o in b <==> o in multiset(b);
    forall i, j | 0 <= i < j < |b|
      ensures b[i].name != b[j].name
    {
      if b[i] == b[j] {
        TwiceInMultiset(b, i, j);
        AtMostOnce(a, b[i]);
      } else {
        assert b[i] in a && b[j] in a;
      }
    }
  }

  lemma TwiceInMultiset<T>(s: seq<T>, i: nat, j: nat)
    requires i < j < |s| && s[i] == s[j]
    ensures multiset(s)[s[i]] >= 2
  {
    var front, back := s[..j], s[j..];
    assert s == front + back && front[i] == s[i] && back[0] == s[j];
    assert multiset(s) == multiset(front) + multiset(back);
  }

  lemma {:induction false} AtMostOnce(a: seq<Observation>, o: Observation)
    requires forall i, j :: 0 <= i < j < |a| ==> a[i].name != a[j].name
    ensures multiset(a)[o] <= 1
  {
    if a != [] {
      AtMostOnce(a[1..], o);
      assert a == [a[0]] + a[1..];
      assert forall k :: 0 <= k < |a[1..]| ==> a[1..][k].name != a[0].name;
      assert a[0] !in a[1..];
    }
  }

  /** A report: the index, and the one that covers it. */
  datatype Finding = Finding(index: string, covering: string)

  /** The definition at `i` is reported for the sake of the one at `j`. */
  ghost predicate PairReported(definitions: seq<Observation>, i: int, j: int, f: Finding) {
    && 0 <= i < |definitions| && 0 <= j < |definitions|
    && Covers(definitions[j], definitions[i]) && f == Finding(definitions[i].name, definitions[j].name)
  }

  ghost predicate Reported(definitions: seq<Observation>, f: Finding) {
    exists i, j :: PairReported(definitions, i, j, f)
  }

  ghost predicate Earlier(p: (int, int), q: (int, int)) { p.0 < q.0 || (p.0 == q.0 && p.1 < q.1) }

  /** The reports stand for these pairs, which come in order. */
  ghost predicate StandFor(definitions: seq<Observation>, findings: seq<Finding>, pairs: seq<(int, int)>) {
    && |pairs| == |findings|
    && (forall k :: 0 <= k < |pairs| ==> PairReported(definitions, pairs[k].0, pairs[k].1, findings[k]))
    && (forall k, l :: 0 <= k < l < |pairs| ==> Earlier(pairs[k], pairs[l]))
  }

  lemma OneMorePair(definitions: seq<Observation>, findings: seq<Finding>, pairs: seq<(int, int)>, i: int, j: int, f: Finding)
    requires StandFor(definitions, findings, pairs) && PairReported(definitions, i, j, f)
    requires forall k :: 0 <= k < |pairs| ==> Earlier(pairs[k], (i, j))
    ensures StandFor(definitions, findings + [f], pairs + [(i, j)])
  {
    hide PairReported;
  }

  lemma CoversIs(b: Observation, a: Observation)
    ensures Covers(b, a) <==> Compatible(a, b) && a.key < b.key
  {
  }

  lemma CoveringPair(definitions: seq<Observation>, i: int, j: int)
    requires 0 <= i < |definitions| && 0 <= j < |definitions| && Covers(definitions[j], definitions[i])
    ensures PairReported(definitions, i, j, Finding(definitions[i].name, definitions[j].name))
  {
    hide Covers;
  }

  /** The redundant branch of `evaluateIndexAuditCollection`: one report for every covering pair, in the
      order of the pairs. */
  method RedundantFindings(definitions: seq<Observation>) returns (findings: seq<Finding>, ghost pairs: seq<(int, int)>)
    ensures forall f :: f in findings <==> Reported(definitions, f)
    ensures StandFor(definitions, findings, pairs)
    ensures forall i, j :: 0 <= i < |definitions| && 0 <= j < |definitions| && Covers(definitions[j], definitions[i]) ==> (i, j) in pairs
  {
    hide Covers, Compatible, PairReported;
    findings, pairs := [], [];
    var i := 0;
    while i < |definitions|
      invariant i <= |definitions|
      invariant StandFor(definitions, findings, pairs) && forall k :: 0 <= k < |pairs| ==> pairs[k].0 < i
      invariant forall a, b :: 0 <= a < i && 0 <= b < |definitions| && Covers(definitions[b], definitions[a]) ==> (a, b) in pairs
    {
      var j := 0;
      while j < |definitions|
        invariant j <= |definitions|
        invariant StandFor(definitions, findings, pairs) && forall k :: 0 <= k < |pairs| ==> Earlier(pairs[k], (i, j))
        invariant forall a, b :: 0 <= a < i && 0 <= b < |definitions| && Covers(definitions[b], definitions[a]) ==> (a, b) in pairs
        invariant forall b :: 0 <= b < j && Covers(definitions[b], definitions[i]) ==> (i, b) in pairs
      {
        var prefix := KeyPrefix(definitions[i].key, definitions[j].key);
        CoversIs(definitions[j], definitions[i]);
        if !(i == j || !Compatible(definitions[i], definitions[j]) || !prefix) {
          var f := Finding(definitions[i].name, definitions[j].name);
          CoveringPair(definitions, i, j);
          OneMorePair(definitions, findings, pairs, i, j, f);
          findings := findings + [f];
          pairs := pairs + [(i, j)];
        }
        j := j + 1;
      }
      i := i + 1;
    }
    PairsAreReports(definitions, findings, pairs);
  }

  lemma PairsAreReports(definitions: seq<Observation>, findings: seq<Finding>, pairs: seq<(int, int)>)
    requires StandFor(definitions, findings, pairs)
    requires forall i, j :: 0 <= i < |definitions| && 0 <= j < |definitions| && Covers(definitions[j], definitions[i]) ==> (i, j) in pairs
    ensures forall f :: f in findings <==> Reported(definitions, f)
  {
    hide Covers;
    forall f | Reported(definitions, f)
      ensures f in findings
    {
      var i, j :| PairReported(definitions, i, j, f);
      assert (i, j) in pairs;
      var k :| 0 <= k < |pairs| && pairs[k] == (i, j);
      assert findings[k] == f;
    }
  }

  // ----- dropping everything that is reported -----

  /** Some report names the index. */
  ghost predicate Flagged(definitions: seq<Observation>, o: Observation) {
    exists c :: c in definitions && Covers(c, o)
  }

  /** With distinct names the reports flag exactly the indexes that have a cover. */
  lemma FlaggedExactly(definitions: seq<Observation>, i: nat)
    requires i < |definitions|
    requires forall a, b :: 0 <= a < b < |definitions| ==> definitions[a].name != definitions[b].name
    ensures Flagged(definitions, definitions[i]) <==> exists f :: Reported(definitions, f) && f.index == definitions[i].name
  {
    if Flagged(definitions, definitions[i]) {
      var c :| c in definitions && Covers(c, definitions[i]);
      var j :| 0 <= j < |definitions| && definitions[j] == c;
      assert PairReported(definitions, i, j, Finding(definitions[i].name, c.name));
    }
    if f :| Reported(definitions, f) && f.index == definitions[i].name {
      var a, b :| PairReported(definitions, a, b, f);
      assert a == i;
      assert definitions[b] in definitions;
    }
  }

  lemma CoversTransitively(a: Observation, b: Observation, c: Observation)
    requires Covers(c, b) && Covers(b, a)
    ensures Covers(c, a)
  {
    assert a.key == b.key[..|a.key|] == c.key[..|b.key|][..|a.key|];
  }

  ghost function Longest(definitions: seq<Observation>): (n: nat)
    ensures forall o :: o in definitions ==> |o.key| <= n
  {
    if definitions == [] then 0
    else
      var rest := Longest(definitions[1..]);
      assert forall o :: o in definitions ==> o == definitions[0] || o in definitions[1..];
      if |definitions[0].key| > rest then |definitions[0].key| else rest
  }

  /** Every index that is reported has a cover that is not: so after dropping all reported indexes
      at once, whatever one of them served is still served. */
  lemma {:induction false} CoverSurvives(definitions: seq<Observation>, o: Observation) returns (kept: Observation)
    requires Flagged(definitions, o)
    ensures kept in definitions && !Flagged(definitions, kept) && Covers(kept, o)
    decreases Longest(definitions) - |o.key|
  {
    var c :| c in definitions && Covers(c, o);
    if Flagged(definitions, c) {
      kept := CoverSurvives(definitions, c);
      CoversTransitively(o, c, kept);
    } else {
      kept := c;
    }
  }
}
