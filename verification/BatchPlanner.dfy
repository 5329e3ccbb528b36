/** Packing a sorted catalog of collections into batches that end, where possible, at the end of a
    database. */
module BatchPlanner {
  import opened Text
  import opened Sorting

  datatype Ref = Ref(database: string, collection: string, kind: string)

  /** What the catalog is sorted by. */
  function RefKey(r: Ref): string { r.database + "." + r.collection }

  ghost predicate From(refs: seq<Ref>, names: iset<string>) {
    forall i :: 0 <= i < |refs| ==> refs[i].database in names
  }

  /** No name begins with another one followed by a dot. */
  ghost predicate Apart(names: iset<string>) {
    forall a, b :: a in names && b in names ==> !(a + "." <= b)
  }

  /** MongoDB's names hold no dot at all. */
  lemma DotFreeIsApart(names: iset<string>)
    requires forall a :: a in names ==> '.' !in a
    ensures Apart(names)
  {
    forall a, b | a in names && b in names
      ensures !(a + "." <= b)
    {
      assert (a + ".")[|a|] == '.';
    }
  }

  /** The references of a database lie side by side. */
  ghost predicate Contiguous(refs: seq<Ref>) {
    forall i, j, k :: 0 <= i < j < k < |refs| && refs[i].database == refs[k].database ==> refs[j].database == refs[i].database
  }

  lemma LongerBegins(a: string, b: string, key: string)
    requires a + "." <= key && b <= key && |a| < |b|
    ensures a + "." <= b
  {
    assert a + "." == key[..|a| + 1] == b[..|a| + 1];
  }

  /** The full name shows where the database ends, among names that are apart. */
  lemma DatabaseShows(a: string, b: string, key: string)
    requires a + "." <= key && b + "." <= key && !(a + "." <= b) && !(b + "." <= a)
    ensures a == b
  {
    if |a| < |b| {
      LongerBegins(a, b, key);
    } else if |b| < |a| {
      LongerBegins(b, a, key);
    } else {
      assert a == key[..|a|] == b;
    }
  }

  /** Sorting by the full name brings the collections of a database together. */
  lemma SortedIsContiguous(refs: seq<Ref>, names: iset<string>)
    requires Sorted(refs, RefKey) && From(refs, names) && Apart(names)
    ensures Contiguous(refs)
  {
    forall i, j, k | 0 <= i < j < k < |refs| && refs[i].database == refs[k].database
      ensures refs[j].database == refs[i].database
    {
      var a, b := refs[i].database, refs[j].database;
      PrefixesAreConvex(a + ".", RefKey(refs[i]), RefKey(refs[j]), RefKey(refs[k]));
      assert b + "." <= RefKey(refs[j]);
      DatabaseShows(a, b, RefKey(refs[j]));
    }
  }

  lemma {:induction false} PrefixIsBelow(a: string, b: string)
    requires a <= b
    ensures LexLe(a, b)
  {
    if a != [] { PrefixIsBelow(a[1..], b[1..]); }
  }

  /** Three collections of two databases: if `b` begins with `a` and a dot, one of `b` comes between two
      of `a`. */
  lemma Interleaves(a: string, b: string) returns (refs: seq<Ref>)
    requires a + "." <= b
    ensures Sorted(refs, RefKey) && From(refs, iset{a, b}) && !Contiguous(refs)
  {
    var c := b[|a| + 1..];
    refs := [Ref(a, c + ".", ""), Ref(b, "x", ""), Ref(a, c + ".xy", "")];
    var x, y, z := RefKey(refs[0]), RefKey(refs[1]), RefKey(refs[2]);
    assert b == a + "." + c;
    assert x == a + "." + c + "." && y == x + "x" && z == y + "y";
    PrefixIsBelow(x, y);
    PrefixIsBelow(y, z);
    PrefixIsBelow(x, z);
    assert |refs[1].database| > |refs[0].database|;
    assert refs[0].database == refs[2].database != refs[1].database;
  }

  /** Every sorted catalog over these names is contiguous, if and only if the names are apart. */
  lemma ContiguousExactly(names: iset<string>)
    ensures Apart(names) <==> forall refs :: Sorted(refs, RefKey) && From(refs, names) ==> Contiguous(refs)
  {
    hide Contiguous, Sorted, From;
    if Apart(names) {
      forall refs | Sorted(refs, RefKey) && From(refs, names)
        ensures Contiguous(refs)
      {
        SortedIsContiguous(refs, names);
      }
    } else {
      var a, b :| a in names && b in names && a + "." <= b;
      var refs := Interleaves(a, b);
      MoreNames(refs, iset{a, b}, names);
    }
  }

  lemma MoreNames(refs: seq<Ref>, some: iset<string>, all: iset<string>)
    requires From(refs, some) && some <= all
    ensures From(refs, all)
  {
  }

  ghost predicate SameName(x: Ref, y: Ref) { x.database == y.database && x.collection == y.collection }

  /** Two collections of one catalog have different names. */
  ghost predicate NamesUnique(refs: seq<Ref>) {
    forall i, j :: 0 <= i < |refs| && 0 <= j < |refs| && SameName(refs[i], refs[j]) ==> refs[i] == refs[j]
  }

  /** `indexCollectionRefs`, once the references are collected. */
  ghost function Catalog(refs: seq<Ref>): (r: seq<Ref>)
    ensures multiset(r) == multiset(refs) && Sorted(r, RefKey)
  {
    SortBy(refs, RefKey)
  }

  lemma RefKeyInjective(x: Ref, y: Ref)
    requires RefKey(x) == RefKey(y) && !(x.database + "." <= y.database) && !(y.database + "." <= x.database)
    ensures SameName(x, y)
  {
    assert x.database + "." <= RefKey(x) && y.database + "." <= RefKey(y);
    DatabaseShows(x.database, y.database, RefKey(x));
    assert RefKey(x)[|x.database| + 1..] == x.collection && RefKey(y)[|y.database| + 1..] == y.collection;
  }

  /** Whether the catalog depends on the order in which the server lists things. */
  ghost predicate OrderMatters(a: seq<Ref>, b: seq<Ref>) {
    multiset(a) == multiset(b) && NamesUnique(a) && Catalog(a) != Catalog(b)
  }

  lemma OrderDoesNotMatter(a: seq<Ref>, b: seq<Ref>, names: iset<string>)
    requires multiset(a) == multiset(b) && From(a, names) && Apart(names) && NamesUnique(a)
    ensures Catalog(a) == Catalog(b)
  {
    forall x, y | x in multiset(Catalog(a)) && y in multiset(Catalog(a)) && RefKey(x) == RefKey(y)
      ensures x == y
    {
      assert x in multiset(a) && y in multiset(a);
      var i :| 0 <= i < |a| && a[i] == x;
      var j :| 0 <= j < |a| && a[j] == y;
      RefKeyInjective(x, y);
    }
    hide Catalog;
    SortedUnique(Catalog(a), Catalog(b), RefKey);
  }

  lemma EqualKeysStay(x: Ref, y: Ref)
    requires RefKey(x) == RefKey(y)
    ensures Catalog([x, y]) == [x, y]
  {
    LexReflexive(RefKey(x));
    assert [x, y][1..] == [y] && [y][1..] == [];
    assert SortBy<Ref>([], RefKey) == [] && Insert(y, [], RefKey) == [y];
    assert SortBy([y], RefKey) == [y];
    assert Insert(x, [y], RefKey) == [x, y];
  }

  /** No listing order shows in a catalog over these names, if and only if the names are apart. */
  lemma CatalogIsCanonicalExactly(names: iset<string>)
    ensures Apart(names) <==> forall a, b :: From(a, names) ==> !OrderMatters(a, b)
  {
    hide Catalog, From, NamesUnique;
    if Apart(names) {
      forall a, b | From(a, names)
        ensures !OrderMatters(a, b)
      {
        if multiset(a) == multiset(b) && NamesUnique(a) { OrderDoesNotMatter(a, b, names); }
      }
    } else {
      var a, b :| a in names && b in names && a + "." <= b;
      var x, y := TwoOfOneName(a, b);
      EqualKeysStay(x, y);
      EqualKeysStay(y, x);
      assert multiset([x, y]) == multiset([y, x]) && [x, y][0] != [y, x][0];
      MoreNames([x, y], iset{a, b}, names);
      assert OrderMatters([x, y], [y, x]);
    }
  }

  lemma TwoOfOneName(a: string, b: string) returns (x: Ref, y: Ref)
    requires a + "." <= b
    ensures RefKey(x) == RefKey(y) && x != y && From([x, y], iset{a, b}) && NamesUnique([x, y])
  {
    var c := b[|a| + 1..];
    x, y := Ref(a, c + ".x", ""), Ref(b, "x", "");
    assert b == a + "." + c && |a| < |b|;
    assert RefKey(x) == a + "." + c + ".x" == RefKey(y);
  }

  // ----- one batch -----

  /** A place where a batch may be cut without splitting a database. */
  ghost predicate Boundary(refs: seq<Ref>, n: nat) {
    n <= |refs| && (0 < n < |refs| ==> refs[n - 1].database != refs[n].database)
  }

  /** What a batch must be: the longest that ends at a boundary and keeps the limit, or, when not
      even the first database does, the first `limit` of its collections. */
  ghost predicate IsBatch(refs: seq<Ref>, limit: int, n: nat) {
    if refs == [] || limit <= 0 then n == 0
    else if exists m :: 0 < m <= limit && Boundary(refs, m) then
      0 < n <= limit && Boundary(refs, n) && forall m :: n < m <= limit ==> !Boundary(refs, m)
    else n == limit < |refs|
  }

  lemma BatchIsUnique(refs: seq<Ref>, limit: int, n: nat, m: nat)
    requires IsBatch(refs, limit, n) && IsBatch(refs, limit, m)
    ensures n == m
  {
  }

  /** `nextIndexAuditBatch`. */
  method NextIndexAuditBatch(refs: seq<Ref>, limit: int) returns (batch: seq<Ref>)
    ensures batch <= refs && IsBatch(refs, limit, |batch|)
  {
    if |refs| == 0 || limit <= 0 { return []; }
    var selected := 0;
    while selected < |refs|
      invariant selected <= |refs| && selected <= limit && Boundary(refs, selected)
    {
      var database := refs[selected].database;
      var end := selected + 1;
      while end < |refs| && refs[end].database == database
        invariant selected < end <= |refs|
        invariant forall m :: selected <= m < end ==> refs[m].database == database
        invariant forall m :: selected < m < end ==> !Boundary(refs, m)
      {
        assert !Boundary(refs, end);
        end := end + 1;
      }
      assert Boundary(refs, end);
      var databaseCount := end - selected;
      if selected == 0 && databaseCount > limit {
        assert forall m :: 0 < m <= limit ==> !Boundary(refs, m);
        return refs[..limit];
      }
      if selected + databaseCount > limit {
        assert forall m :: selected < m <= limit ==> !Boundary(refs, m);
        break;
      }
      selected := end;
    }
    assert 0 < selected <= limit && Boundary(refs, selected);
    return refs[..selected];
  }

  /** The length of the batch, as a function. */
  ghost function BatchLength(refs: seq<Ref>, limit: int): (n: nat)
    ensures IsBatch(refs, limit, n) && n <= |refs| && (limit > 0 ==> n <= limit)
    ensures refs != [] && limit > 0 ==> n > 0
  {
    BatchExists(refs, limit);
    var n: nat :| n <= |refs| && IsBatch(refs, limit, n);
    n
  }

  lemma BatchExists(refs: seq<Ref>, limit: int)
    ensures exists n: nat :: n <= |refs| && IsBatch(refs, limit, n)
  {
    if refs != [] && limit > 0 && exists m :: 0 < m <= limit && Boundary(refs, m) {
      var m :| 0 < m <= limit && Boundary(refs, m);
      var n := LastBoundary(refs, limit, m);
      assert IsBatch(refs, limit, n);
    } else if refs != [] && limit > 0 {
      assert !(0 < |refs| <= limit && Boundary(refs, |refs|));
      assert IsBatch(refs, limit, limit);
    } else {
      assert IsBatch(refs, limit, 0);
    }
  }

  lemma {:induction false} LastBoundary(refs: seq<Ref>, limit: int, m: nat) returns (n: nat)
    requires 0 < m <= limit && Boundary(refs, m)
    ensures m <= n <= limit && Boundary(refs, n) && forall k :: n < k <= limit ==> !Boundary(refs, k)
    decreases limit - m
  {
    if k :| m < k <= limit && Boundary(refs, k) {
      n := LastBoundary(refs, limit, k);
    } else {
      n := m;
    }
  }

  // ----- no database that fits is split -----

  /** How many collections of a database there are. */
  ghost function CountOf(refs: seq<Ref>, database: string): nat {
    if refs == [] then 0 else (if refs[0].database == database then 1 else 0) + CountOf(refs[1..], database)
  }

  lemma {:induction false} CountSplit(refs: seq<Ref>, n: nat, database: string)
    requires n <= |refs|
    ensures CountOf(refs, database) == CountOf(refs[..n], database) + CountOf(refs[n..], database)
  {
    if n > 0 {
      CountSplit(refs[1..], n - 1, database);
      assert refs[1..][..n - 1] == refs[..n][1..];
    }
  }

  lemma {:induction false} CountAll(refs: seq<Ref>, database: string)
    requires forall i :: 0 <= i < |refs| ==> refs[i].database == database
    ensures CountOf(refs, database) == |refs|
  {
    if refs != [] { CountAll(refs[1..], database); }
  }

  /** If a batch ends inside a database, then that database is the first one remaining, and it has
      more collections left than the limit allows. */
  lemma OnlyOversizedDatabasesAreSplit(refs: seq<Ref>, limit: int, n: nat)
    requires IsBatch(refs, limit, n) && !Boundary(refs, n)
    ensures 0 < n < |refs| && refs[n].database == refs[0].database
    ensures CountOf(refs, refs[0].database) > limit
  {
    assert n == limit < |refs|;
    FrontRun(refs, n);
    CountAll(refs[..n + 1], refs[0].database);
    CountSplit(refs, n + 1, refs[0].database);
  }

  lemma {:induction false} FrontRun(refs: seq<Ref>, n: nat)
    requires n < |refs| && forall m :: 0 < m <= n ==> !Boundary(refs, m)
    ensures forall i :: 0 <= i <= n ==> refs[i].database == refs[0].database
  {
    if n > 0 {
      FrontRun(refs, n - 1);
      assert !Boundary(refs, n);
    }
  }

  // ----- counting databases -----

  ghost function Databases(refs: seq<Ref>): set<string> {
    set i | 0 <= i < |refs| :: refs[i].database
  }

  /** A stretch of one database begins at `i`. */
  ghost predicate Begins(refs: seq<Ref>, i: nat) {
    i < |refs| && (i == 0 || refs[i].database != refs[i - 1].database)
  }

  ghost function Stretches(refs: seq<Ref>): set<nat> {
    set i: nat | i < |refs| && Begins(refs, i)
  }

  lemma StretchesMore(refs: seq<Ref>, i: nat)
    requires i < |refs|
    ensures |Stretches(refs[..i + 1])| == |Stretches(refs[..i])| + if Begins(refs, i) then 1 else 0
  {
    var front, more := refs[..i], refs[..i + 1];
    forall a: nat
      ensures Begins(more, a) <==> Begins(front, a) || (a == i && Begins(refs, i))
    {
    }
    assert Stretches(more) == Stretches(front) + if Begins(refs, i) then {i} else {};
  }

  /** There is a stretch for each database, and exactly one if each is in one piece. */
  lemma {:induction false} StretchesAreDatabases(refs: seq<Ref>, n: nat)
    requires n <= |refs|
    ensures |Stretches(refs[..n])| >= |Databases(refs[..n])|
    ensures |Stretches(refs[..n])| == |Databases(refs[..n])| <==> Contiguous(refs[..n])
  {
    if n == 0 {
      assert Stretches(refs[..n]) == {} && Databases(refs[..n]) == {};
    } else {
      hide *;
      StretchesAreDatabases(refs, n - 1);
      StretchesMore(refs, n - 1);
      CountStep(refs, n - 1, |Stretches(refs[..n - 1])|);
    }
  }

  /** `indexAuditBatchDatabaseCount` counts the stretches, and so the databases exactly when each is in
      one piece. */
  method DatabaseCount(refs: seq<Ref>) returns (count: nat)
    ensures count == |Stretches(refs)|
    ensures count >= |Databases(refs)|
    ensures count == |Databases(refs)| <==> Contiguous(refs)
  {
    hide Contiguous, Databases, Stretches;
    count := 0;
    var last := "";
    var i := 0;
    NoStretches();
    while i < |refs|
      invariant i <= |refs| && (count == 0 <==> i == 0) && (i > 0 ==> last == refs[i - 1].database)
      invariant count == |Stretches(refs[..i])|
    {
      StretchesMore(refs, i);
      if count == 0 || refs[i].database != last {
        count := count + 1;
        last := refs[i].database;
      }
      i := i + 1;
    }
    assert refs[..i] == refs;
    StretchesAreDatabases(refs, |refs|);
  }

  lemma NoStretches()
    ensures Stretches([]) == {}
  {
  }

  lemma CountStep(refs: seq<Ref>, i: nat, count: nat)
    requires i < |refs| && count >= |Databases(refs[..i])|
    requires count == |Databases(refs[..i])| <==> Contiguous(refs[..i])
    ensures var next := count + if Begins(refs, i) then 1 else 0;
      next >= |Databases(refs[..i + 1])| && (next == |Databases(refs[..i + 1])| <==> Contiguous(refs[..i + 1]))
  {
    hide Contiguous, Databases;
    DatabasesMore(refs, i);
    ContiguousMore(refs, i);
    var seen, x := Databases(refs[..i]), refs[i].database;
    if x in seen {
      assert seen + {x} == seen;
    } else {
      assert |seen + {x}| == |seen| + 1;
    }
  }

  lemma DatabasesMore(refs: seq<Ref>, i: nat)
    requires i < |refs|
    ensures Databases(refs[..i + 1]) == Databases(refs[..i]) + {refs[i].database}
    ensures i > 0 ==> refs[i - 1].database in Databases(refs[..i])
    ensures i == 0 ==> Databases(refs[..i]) == {}
  {
    var front, more := refs[..i], refs[..i + 1];
    assert more == front + [refs[i]];
    assert forall a :: 0 <= a < i ==> front[a] == more[a];
    if i > 0 { assert front[i - 1].database == refs[i - 1].database; }
  }

  lemma ContiguousMore(refs: seq<Ref>, i: nat)
    requires i < |refs|
    ensures Contiguous(refs[..i + 1]) <==>
              Contiguous(refs[..i]) && (i == 0 || refs[i - 1].database == refs[i].database || refs[i].database !in Databases(refs[..i]))
  {
    var front, more := refs[..i], refs[..i + 1];
    assert more == front + [refs[i]];
    assert forall a :: 0 <= a < i ==> front[a] == refs[a] == more[a];
    if Contiguous(front) && (i == 0 || refs[i - 1].database == refs[i].database || refs[i].database !in Databases(front)) {
      forall a, b, c | 0 <= a < b < c < |more| && more[a].database == more[c].database
        ensures more[b].database == more[a].database
      {
        if c == i {
          assert front[a].database in Databases(front);
          if b < i - 1 { assert front[i - 1].database == front[a].database; }
        }
      }
    }
    if Contiguous(more) && i > 0 && refs[i].database in Databases(front) {
      var a :| 0 <= a < i && front[a].database == refs[i].database;
      if a < i - 1 { assert more[i - 1].database == more[a].database; }
    }
  }

  // ----- the fewest batches -----

  /** Where the plan with a fixed limit stands after `k` batches. */
  ghost function GreedyEnd(refs: seq<Ref>, limit: int, k: nat): (n: nat)
    ensures n <= |refs|
  {
    if k == 0 then 0
    else
      var start := GreedyEnd(refs, limit, k - 1);
      start + BatchLength(refs[start..], limit)
  }

  /** Some way to cut the catalog at boundaries into batches within the limit, by their ends. */
  ghost predicate IsPlan(refs: seq<Ref>, limit: int, ends: seq<nat>) {
    && (forall k :: 0 <= k < |ends| ==> Boundary(refs, ends[k]) && ends[k] - (if k == 0 then 0 else ends[k - 1]) <= limit)
    && (if ends == [] then 0 else ends[|ends| - 1]) == |refs|
  }

  /** Every database fits the limit. */
  ghost predicate AllFit(refs: seq<Ref>, limit: int) {
    forall i :: 0 <= i < |refs| ==> CountOf(refs, refs[i].database) <= limit
  }

  lemma SuffixBoundary(refs: seq<Ref>, start: nat, m: nat)
    requires start + m <= |refs| && (Boundary(refs, start) || m > 0)
    ensures Boundary(refs[start..], m) <==> m == 0 || Boundary(refs, start + m)
  {
  }

  lemma SuffixFits(refs: seq<Ref>, limit: int, start: nat)
    requires AllFit(refs, limit) && start < |refs|
    ensures CountOf(refs[start..], refs[start..][0].database) <= limit
  {
    CountSplit(refs, start, refs[start].database);
  }

  lemma GreedyStep(refs: seq<Ref>, limit: int, start: nat, end: nat)
    requires AllFit(refs, limit) && start <= |refs| && limit > 0
    requires Boundary(refs, start) && Boundary(refs, end) && end <= start + limit
    ensures Boundary(refs, start + BatchLength(refs[start..], limit))
    ensures end <= start + BatchLength(refs[start..], limit)
  {
    var rest := refs[start..];
    var n := BatchLength(rest, limit);
    if !Boundary(rest, n) {
      OnlyOversizedDatabasesAreSplit(rest, limit, n);
      SuffixFits(refs, limit, start);
    }
    SuffixBoundary(refs, start, n);
    if end > start + n {
      SuffixBoundary(refs, start, end - start);
      assert Boundary(rest, end - start);
    }
  }

  /** Greedy stays ahead of every plan. */
  lemma {:induction false} GreedyStaysAhead(refs: seq<Ref>, limit: int, ends: seq<nat>, k: nat)
    requires AllFit(refs, limit) && limit > 0 && IsPlan(refs, limit, ends) && k <= |ends|
    ensures Boundary(refs, GreedyEnd(refs, limit, k))
    ensures (if k == 0 then 0 else ends[k - 1]) <= GreedyEnd(refs, limit, k)
  {
    if k > 0 {
      GreedyStaysAhead(refs, limit, ends, k - 1);
      var start := GreedyEnd(refs, limit, k - 1);
      assert Boundary(refs, ends[k - 1]) && ends[k - 1] <= start + limit;
      hide IsPlan, AllFit, Boundary, BatchLength;
      GreedyStep(refs, limit, start, ends[k - 1]);
    }
  }

  /** So with a fixed limit that every database fits, the program is through the catalog after no
      more batches than any plan that cuts only at boundaries. */
  lemma FewestBatches(refs: seq<Ref>, limit: int, ends: seq<nat>)
    requires AllFit(refs, limit) && limit > 0 && IsPlan(refs, limit, ends)
    ensures GreedyEnd(refs, limit, |ends|) == |refs|
  {
    GreedyStaysAhead(refs, limit, ends, |ends|);
  }
}
