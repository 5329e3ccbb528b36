/** The records that index consistency works on, and the text signature by which two differences
    are compared and sorted. */
module ConsistencyModel {
  import opened Text
  import opened Sorting

  datatype KeyField = KeyField(field: string, order: string)

  /** An index definition as one shard reports it. Fingerprints are text; the hash behind them is
      represented by an injective function. */
  datatype Definition = Definition(
    name: string, key: seq<KeyField>, semantic: string, fields: map<string, string>, building: bool)

  /** What was read, shard by shard; a shard that was not read has no entry. */
  type Observations = map<string, seq<Definition>>

  datatype Code =
    | BuildInProgress | Inconclusive | MissingOnShard | NameMismatch | ShardKeySupportMissing | SpecMismatch

  datatype Difference = Difference(
    code: Code, indexName: string, shards: seq<string>, key: seq<KeyField>,
    fingerprint: string, fields: seq<string>, sourceType: string)

  datatype Severity = Warning | Info

  /** A finding carries the difference it reports as its evidence. */
  datatype Finding = Finding(severity: Severity, difference: Difference)

  datatype State = Consistent | Inconsistent | Unclear | Skipped

  datatype Coverage = Complete | Incomplete | NotApplicable

  datatype Evaluation = Evaluation(
    state: State, coverage: Coverage, observed: seq<string>,
    differences: seq<Difference>, findings: seq<Finding>)

  function CodeText(code: Code): string {
    match code
    case BuildInProgress => "index.build_in_progress"
    case Inconclusive => "index.consistency_inconclusive"
    case MissingOnShard => "index.missing_on_shard"
    case NameMismatch => "index.name_mismatch"
    case ShardKeySupportMissing => "index.shard_key_support_missing"
    case SpecMismatch => "index.spec_mismatch"
  }

  /** Nothing is known of the indexes on these shards. */
  ghost function InconclusiveOn(shards: seq<string>): Difference {
    Difference(Inconclusive, "", shards, [], "", [], "")
  }

  /** An index is under construction. */
  ghost function Building(name: string): Difference {
    Difference(BuildInProgress, name, [], [], "", [], "")
  }

  // ----- signatures -----

  function KeyTexts(key: seq<KeyField>): (r: seq<string>)
    ensures |r| == |key|
    ensures forall i :: 0 <= i < |key| ==> r[i] == key[i].field + "=" + key[i].order
  {
    seq(|key|, i requires 0 <= i < |key| => key[i].field + "=" + key[i].order)
  }

  function Parts(d: Difference): seq<string> {
    [CodeText(d.code), d.indexName, Join(d.shards, ','), Join(KeyTexts(d.key), ','),
     d.fingerprint, Join(d.fields, ','), d.sourceType]
  }

  /** `consistencyDifferenceSignature`. */
  function Signature(d: Difference): string {
    Join(Parts(d), NUL)
  }

  ghost predicate NulFree(parts: seq<string>) {
    forall i :: 0 <= i < |parts| ==> NUL !in parts[i]
  }

  ghost predicate CleanKey(key: seq<KeyField>) {
    forall i :: 0 <= i < |key| ==>
      && NUL !in key[i].field && ',' !in key[i].field && '=' !in key[i].field
      && NUL !in key[i].order && ',' !in key[i].order
  }

  ghost predicate NulFreeKey(key: seq<KeyField>) {
    forall i :: 0 <= i < |key| ==> NUL !in key[i].field && NUL !in key[i].order
  }

  /** Text without NUL, which the signature joins its parts with. */
  ghost predicate NulFreeDifference(d: Difference) {
    && NUL !in d.indexName && NUL !in d.fingerprint && NUL !in d.sourceType
    && NulFree(d.shards) && NulFree(d.fields) && NulFreeKey(d.key)
  }

  /** Text in which none of the signature's own separators occurs. */
  ghost predicate Clean(d: Difference) {
    && NUL !in d.indexName && NUL !in d.fingerprint && NUL !in d.sourceType
    && NulFree(d.shards) && Joinable(d.shards, ',')
    && NulFree(d.fields) && Joinable(d.fields, ',')
    && CleanKey(d.key)
  }

  /** The same difference, with lists of shards, key fields and fields compared as they are written. */
  ghost predicate SameAsWritten(d: Difference, e: Difference) {
    && d.code == e.code && d.indexName == e.indexName
    && d.fingerprint == e.fingerprint && d.sourceType == e.sourceType
    && Join(d.shards, ',') == Join(e.shards, ',')
    && Join(KeyTexts(d.key), ',') == Join(KeyTexts(e.key), ',')
    && Join(d.fields, ',') == Join(e.fields, ',')
  }

  lemma CodesDiffer(a: Code, b: Code)
    requires CodeText(a) == CodeText(b)
    ensures a == b
  {
    var marks := (c: Code) => if |CodeText(c)| > 17 then CodeText(c)[16] else 'x';
    assert marks(a) == marks(b);
  }

  lemma {:induction false} KeyTextsInjective(a: seq<KeyField>, b: seq<KeyField>)
    requires CleanKey(a) && CleanKey(b) && KeyTexts(a) == KeyTexts(b)
    ensures a == b
  {
    assert |KeyTexts(a)| == |KeyTexts(b)|;
    forall i | 0 <= i < |a|
      ensures a[i] == b[i]
    {
      assert KeyTexts(a)[i] == KeyTexts(b)[i];
      FirstSeparator(a[i].field, a[i].order, b[i].field, b[i].order, '=');
    }
  }

  lemma KeyTextsClean(key: seq<KeyField>)
    requires CleanKey(key)
    ensures Joinable(KeyTexts(key), ',')
  {
  }

  lemma PartsNulFree(d: Difference)
    requires NulFreeDifference(d)
    ensures NulFree(Parts(d))
  {
    hide Join;
    assert NulFree(KeyTexts(d.key));
    JoinFree(d.shards, ',', NUL);
    JoinFree(KeyTexts(d.key), ',', NUL);
    JoinFree(d.fields, ',', NUL);
    assert NUL !in CodeText(d.code);
  }

  /** Agreeing on the signature is being the same difference as written. */
  lemma SignatureExact(d: Difference, e: Difference)
    requires NulFreeDifference(d) && NulFreeDifference(e)
    ensures Signature(d) == Signature(e) <==> SameAsWritten(d, e)
  {
    hide Join, KeyTexts;
    PartsNulFree(d);
    PartsNulFree(e);
    var p, q := Parts(d), Parts(e);
    if Signature(d) == Signature(e) {
      JoinInjectiveAtLength(p, q, NUL);
      assert p[0] == q[0] && p[1] == q[1] && p[2] == q[2] && p[3] == q[3] && p[4] == q[4] && p[5] == q[5] && p[6] == q[6];
      CodesDiffer(d.code, e.code);
    }
  }

  /** Sorting by signature is sorting by code, then by name, then by what else is written. */
  lemma SignatureOrders(d: Difference, e: Difference)
    requires NulFreeDifference(d) && NulFreeDifference(e)
    ensures LexLe(Signature(d), Signature(e)) <==>
      if d.code != e.code then LexLe(CodeText(d.code), CodeText(e.code))
      else if d.indexName != e.indexName then LexLe(d.indexName, e.indexName)
      else if Join(d.shards, ',') != Join(e.shards, ',') then LexLe(Join(d.shards, ','), Join(e.shards, ','))
      else if Join(KeyTexts(d.key), ',') != Join(KeyTexts(e.key), ',') then LexLe(Join(KeyTexts(d.key), ','), Join(KeyTexts(e.key), ','))
      else if d.fingerprint != e.fingerprint then LexLe(d.fingerprint, e.fingerprint)
      else if Join(d.fields, ',') != Join(e.fields, ',') then LexLe(Join(d.fields, ','), Join(e.fields, ','))
      else LexLe(d.sourceType, e.sourceType)
  {
    hide Join, KeyTexts, CodeText, LexLe;
    PartsNulFree(d);
    PartsNulFree(e);
    JoinOrders(Parts(d), Parts(e));
    if d.code != e.code && CodeText(d.code) == CodeText(e.code) { CodesDiffer(d.code, e.code); }
    SevenParts(Parts(d), Parts(e));
  }

  lemma SevenParts(p: seq<string>, q: seq<string>)
    requires |p| == |q| == 7
    ensures PartsLe(p, q) <==>
      if p[0] != q[0] then LexLe(p[0], q[0]) else if p[1] != q[1] then LexLe(p[1], q[1]) else if p[2] != q[2] then LexLe(p[2], q[2])
      else if p[3] != q[3] then LexLe(p[3], q[3]) else if p[4] != q[4] then LexLe(p[4], q[4]) else if p[5] != q[5] then LexLe(p[5], q[5])
      else LexLe(p[6], q[6])
  {
    hide LexLe;
    forall k | 0 <= k <= 6
      ensures PartsLe(p[k..], q[k..]) <==> if p[k] != q[k] then LexLe(p[k], q[k]) else PartsLe(p[k + 1..], q[k + 1..])
    {
      assert p[k..][1..] == p[k + 1..] && q[k..][1..] == q[k + 1..];
    }
    assert p[0..] == p && q[0..] == q && p[7..] == [] && q[7..] == [];
    if p[6] == q[6] { LexReflexive(p[6]); }
  }

  /** For clean text, differences that are written alike are equal. */
  lemma WrittenAlike(d: Difference, e: Difference)
    requires Clean(d) && Clean(e) && SameAsWritten(d, e)
    ensures d == e
  {
    hide Join;
    JoinInjective(d.shards, e.shards, ',');
    KeyTextsClean(d.key);
    KeyTextsClean(e.key);
    JoinInjective(KeyTexts(d.key), KeyTexts(e.key), ',');
    KeyTextsInjective(d.key, e.key);
    JoinInjective(d.fields, e.fields, ',');
  }

  /** So the signature tells clean differences apart. */
  lemma SignatureInjective(d: Difference, e: Difference)
    requires Clean(d) && Clean(e) && Signature(d) == Signature(e)
    ensures d == e
  {
    hide Signature, SameAsWritten;
    SignatureExact(d, e);
    WrittenAlike(d, e);
  }

  // ----- normal form of a list of differences, and its findings -----

  function Normalize(d: Difference): Difference {
    d.(shards := SortStrings(d.shards), fields := SortStrings(d.fields))
  }

  function NormalizeAll(ds: seq<Difference>): (r: seq<Difference>)
    ensures |r| == |ds|
    ensures forall i :: 0 <= i < |ds| ==> r[i] == Normalize(ds[i])
  {
    seq(|ds|, i requires 0 <= i < |ds| => Normalize(ds[i]))
  }

  /** `normalizeAndSortConsistencyDifferences`. */
  function NormalizeAndSort(ds: seq<Difference>): seq<Difference> {
    SortBy(NormalizeAll(ds), Signature)
  }

  /** The codes that `consistencyFindingsForDifferences` reports as warnings. */
  function SeverityOf(code: Code): Severity {
    match code
    case MissingOnShard | NameMismatch | SpecMismatch | ShardKeySupportMissing => Warning
    case BuildInProgress | Inconclusive => Info
  }

  /** Findings are ordered by severity, then by code; all of them share one scope. */
  function FindingKey(f: Finding): string {
    (if f.severity == Warning then "1" else "2") + CodeText(f.difference.code)
  }

  function FindingOf(d: Difference): Finding { Finding(SeverityOf(d.code), d) }

  function FindingsOf(ds: seq<Difference>): (r: seq<Finding>)
    ensures |r| == |ds|
    ensures forall i :: 0 <= i < |ds| ==> r[i] == FindingOf(ds[i])
  {
    seq(|ds|, i requires 0 <= i < |ds| => FindingOf(ds[i]))
  }

  /** `consistencyFindingsForDifferences`. */
  function FindingsFor(ds: seq<Difference>): (r: seq<Finding>) {
    SortBy(FindingsOf(ds), FindingKey)
  }

  lemma FindingsMembers(ds: seq<Difference>, f: Finding)
    ensures f in FindingsFor(ds) <==> f.difference in ds && f.severity == SeverityOf(f.difference.code)
    ensures f in FindingsFor(ds) <==> exists d :: d in ds && f == FindingOf(d)
  {
    hide FindingKey;
    var fs, r := FindingsOf(ds), FindingsFor(ds);
    assert f in r <==> f in multiset(r);
    assert f in fs <==> f in multiset(fs);
    if f in fs {
      var i :| 0 <= i < |fs| && fs[i] == f;
      assert ds[i] in ds;
    }
    if f.difference in ds && f.severity == SeverityOf(f.difference.code) {
      var i :| 0 <= i < |ds| && ds[i] == f.difference;
      assert fs[i] == f;
    }
  }

  /** Only the order inside the two lists changes. */
  lemma NormalForm(d: Difference)
    ensures Sorted(Normalize(d).shards, Self) && multiset(Normalize(d).shards) == multiset(d.shards)
    ensures Sorted(Normalize(d).fields, Self) && multiset(Normalize(d).fields) == multiset(d.fields)
    ensures Normalize(d).(shards := d.shards, fields := d.fields) == d
  {
  }

  ghost predicate Precedes(a: Finding, b: Finding) {
    || (a.severity == Warning && b.severity == Info)
    || (a.severity == b.severity && LexLe(CodeText(a.difference.code), CodeText(b.difference.code)))
  }

  ghost function CodeOf(f: Finding): string { CodeText(f.difference.code) }

  /** Warnings come first, within a severity the codes are in the order of their text, and findings of one code
      are in the order of the differences. */
  lemma FindingsOrdered(ds: seq<Difference>, code: Code)
    ensures var r := FindingsFor(ds);
      && (forall i, j :: 0 <= i < j < |r| ==> Precedes(r[i], r[j]))
      && WithKey(r, CodeOf, CodeText(code)) == WithKey(FindingsOf(ds), CodeOf, CodeText(code))
  {
    var all, r := FindingsOf(ds), FindingsFor(ds);
    var k := FindingKey(Finding(SeverityOf(code), Difference(code, "", [], [], "", [], "")));
    SortIsStable(all, FindingKey, k);
    hide CodeText, FindingsFor, SortBy;
    forall f | f in all || f in r
      ensures f.severity == SeverityOf(f.difference.code)
    {
      if f in r { FindingsMembers(ds, f); }
    }
    forall f | f in all || f in r
      ensures FindingKey(f) == k <==> CodeOf(f) == CodeText(code)
    {
      if CodeOf(f) == CodeText(code) { CodesDiffer(f.difference.code, code); }
      OneKey(f, code);
    }
    assert r == SortBy(all, FindingKey) by { FindingsAreSorted(ds); }
    SameFilter(all, FindingKey, k, CodeOf, CodeText(code));
    SameFilter(r, FindingKey, k, CodeOf, CodeText(code));
    FindingsAreSorted(ds);
    forall i, j | 0 <= i < j < |r|
      ensures Precedes(r[i], r[j])
    {
      assert LexLe(FindingKey(r[i]), FindingKey(r[j]));
      KeysPrecede(r[i], r[j]);
    }
  }

  lemma FindingsAreSorted(ds: seq<Difference>)
    ensures FindingsFor(ds) == SortBy(FindingsOf(ds), FindingKey) && Sorted(FindingsFor(ds), FindingKey)
  {
  }

  lemma OneKey(f: Finding, code: Code)
    requires f.severity == SeverityOf(f.difference.code)
    ensures FindingKey(f) == FindingKey(Finding(SeverityOf(code), Difference(code, "", [], [], "", [], ""))) <==> f.difference.code == code
  {
    hide CodeText;
    var g := Finding(SeverityOf(code), Difference(code, "", [], [], "", [], ""));
    if FindingKey(f) == FindingKey(g) {
      assert FindingKey(f)[1..] == CodeText(f.difference.code) && FindingKey(g)[1..] == CodeText(code);
      CodesDiffer(f.difference.code, code);
    }
  }

  lemma KeysPrecede(a: Finding, b: Finding)
    requires LexLe(FindingKey(a), FindingKey(b))
    ensures Precedes(a, b)
  {
    hide CodeText;
    var x, y := FindingKey(a), FindingKey(b);
    assert x[1..] == CodeText(a.difference.code) && y[1..] == CodeText(b.difference.code);
  }

  lemma NormalizeMembers(ds: seq<Difference>, code: Code)
    ensures (exists d :: d in NormalizeAndSort(ds) && d.code == code) <==> (exists d :: d in ds && d.code == code)
  {
    var r := NormalizeAndSort(ds);
    assert multiset(r) == multiset(NormalizeAll(ds));
    forall d | d in r && d.code == code
      ensures exists e :: e in ds && e.code == code
    {
      assert d in multiset(NormalizeAll(ds));
      var i :| 0 <= i < |ds| && NormalizeAll(ds)[i] == d;
      assert ds[i] in ds;
    }
    forall d | d in ds && d.code == code
      ensures exists e :: e in r && e.code == code
    {
      var i :| 0 <= i < |ds| && ds[i] == d;
      assert NormalizeAll(ds)[i] in multiset(NormalizeAll(ds));
      assert Normalize(d) in multiset(r);
    }
  }
}
