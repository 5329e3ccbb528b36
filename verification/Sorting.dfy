/** Go's stable sort by a text key, and the two facts the program relies on: the result is a sorted
    rearrangement, and when the key tells the elements apart it does not depend on the input order. */
module Sorting {
  import opened Text

  ghost predicate Sorted<T>(s: seq<T>, key: T -> string) {
    forall i, j :: 0 <= i < j < |s| ==> LexLe(key(s[i]), key(s[j]))
  }

  /** `key` tells the members of `m` apart. */
  ghost predicate Distinguishes<T(!new)>(key: T -> string, m: multiset<T>) {
    forall x, y :: x in m && y in m && key(x) == key(y) ==> x == y
  }

  /** Puts `x` in front of the first element that is not smaller: a stable step when the list is
      built from the back. */
  function Insert<T>(x: T, s: seq<T>, key: T -> string): (r: seq<T>)
    ensures multiset(r) == multiset{x} + multiset(s)
  {
    if s == [] || LexLe(key(x), key(s[0])) then [x] + s
    else
      assert s == [s[0]] + s[1..];
      [s[0]] + Insert(x, s[1..], key)
  }

  ghost predicate Bounds<T>(x: T, s: seq<T>, key: T -> string) {
    forall j :: 0 <= j < |s| ==> LexLe(key(x), key(s[j]))
  }

  lemma BoundedHead<T>(x: T, s: seq<T>, key: T -> string)
    requires Sorted(s, key) && s != [] && LexLe(key(x), key(s[0]))
    ensures Bounds(x, s, key)
  {
    hide LexLe;
    forall j | 0 < j < |s|
      ensures LexLe(key(x), key(s[j]))
    {
      LexTransitive(key(x), key(s[0]), key(s[j]));
    }
  }

  lemma PrependSorted<T>(x: T, s: seq<T>, key: T -> string)
    requires Sorted(s, key) && Bounds(x, s, key)
    ensures Sorted([x] + s, key)
  {
    hide LexLe;
    var r := [x] + s;
    assert forall i :: 0 < i < |r| ==> r[i] == s[i - 1];
  }

  lemma {:induction false} InsertSorted<T>(x: T, s: seq<T>, key: T -> string)
    requires Sorted(s, key)
    ensures Sorted(Insert(x, s, key), key)
    ensures forall w :: Bounds(w, s, key) && LexLe(key(w), key(x)) ==> Bounds(w, Insert(x, s, key), key)
  {
    hide LexLe;
    if s == [] {
    } else if LexLe(key(x), key(s[0])) {
      BoundedHead(x, s, key);
      PrependSorted(x, s, key);
    } else {
      var t := s[1..];
      InsertSorted(x, t, key);
      LexTotal(key(x), key(s[0]));
      assert Bounds(s[0], t, key);
      PrependSorted(s[0], Insert(x, t, key), key);
      forall w | Bounds(w, s, key) && LexLe(key(w), key(x))
        ensures Bounds(w, Insert(x, s, key), key)
      {
        assert Bounds(w, t, key);
      }
    }
  }

  /** `sort.SliceStable` by `key`. */
  function SortBy<T>(s: seq<T>, key: T -> string): (r: seq<T>)
    ensures multiset(r) == multiset(s)
    ensures Sorted(r, key)
  {
    if s == [] then []
    else
      assert s == [s[0]] + s[1..];
      var rest := SortBy(s[1..], key);
      InsertSorted(s[0], rest, key);
      Insert(s[0], rest, key)
  }

  lemma HeadIsLeast<T(!new)>(s: seq<T>, x: T, key: T -> string)
    requires Sorted(s, key) && x in s
    ensures LexLe(key(s[0]), key(x))
  {
    var i :| 0 <= i < |s| && s[i] == x;
    if i == 0 { LexReflexive(key(x)); }
  }

  lemma HeadsAgree<T(!new)>(a: seq<T>, b: seq<T>, key: T -> string)
    requires multiset(a) == multiset(b) && a != [] && b != []
    requires Sorted(a, key) && Sorted(b, key)
    requires Distinguishes(key, multiset(a))
    ensures a[0] == b[0]
  {
    assert a[0] in multiset(b) && b[0] in multiset(a);
    HeadIsLeast(a, b[0], key);
    HeadIsLeast(b, a[0], key);
    LexAntisymmetric(key(a[0]), key(b[0]));
  }

  lemma TailSorted<T(!new)>(s: seq<T>, key: T -> string)
    requires s != [] && Sorted(s, key)
    ensures multiset(s[1..]) == multiset(s) - multiset{s[0]}
    ensures Sorted(s[1..], key)
    ensures Distinguishes(key, multiset(s)) ==> Distinguishes(key, multiset(s[1..]))
  {
    hide LexLe;
    assert s == [s[0]] + s[1..];
    assert forall x :: x in multiset(s[1..]) ==> x in multiset(s);
  }

  /** A sorted list is determined by its members when the key tells them apart. */
  lemma {:induction false} SortedUnique<T(!new)>(a: seq<T>, b: seq<T>, key: T -> string)
    requires multiset(a) == multiset(b)
    requires Sorted(a, key) && Sorted(b, key)
    requires Distinguishes(key, multiset(a))
    ensures a == b
    decreases |a|
  {
    hide *;
    assert |a| == |multiset(a)| == |multiset(b)| == |b|;
    if a != [] {
      HeadsAgree(a, b, key);
      TailSorted(a, key);
      TailSorted(b, key);
      SortedUnique(a[1..], b[1..], key);
      assert a == [a[0]] + a[1..] && b == [a[0]] + b[1..];
    }
  }

  // ----- elements with one key -----

  /** The elements with this key, in their order. */
  ghost function WithKey<T>(s: seq<T>, key: T -> string, k: string): seq<T> {
    if s == [] then [] else (if key(s[0]) == k then [s[0]] else []) + WithKey(s[1..], key, k)
  }

  lemma {:induction false} SameFilter<T>(s: seq<T>, key: T -> string, k: string, other: T -> string, l: string)
    requires forall x :: x in s ==> (key(x) == k <==> other(x) == l)
    ensures WithKey(s, key, k) == WithKey(s, other, l)
  {
    if s != [] { SameFilter(s[1..], key, k, other, l); }
  }

  lemma {:induction false} WithKeyMembers<T(!new)>(s: seq<T>, key: T -> string, k: string)
    ensures forall x :: x in WithKey(s, key, k) <==> x in s && key(x) == k
  {
    if s != [] {
      WithKeyMembers(s[1..], key, k);
      assert s == [s[0]] + s[1..];
    }
  }

  lemma {:induction false} WithKeyCounts<T>(s: seq<T>, key: T -> string, k: string, x: T)
    ensures multiset(WithKey(s, key, k))[x] == if key(x) == k then multiset(s)[x] else 0
  {
    if s != [] {
      WithKeyCounts(s[1..], key, k, x);
      assert s == [s[0]] + s[1..];
    }
  }

  lemma {:induction false} WithKeyConcat<T>(a: seq<T>, b: seq<T>, key: T -> string, k: string)
    ensures WithKey(a + b, key, k) == WithKey(a, key, k) + WithKey(b, key, k)
  {
    if a == [] {
      assert a + b == b;
    } else {
      WithKeyConcat(a[1..], b, key, k);
      assert (a + b)[1..] == a[1..] + b && (a + b)[0] == a[0];
    }
  }

  lemma {:induction false} InsertIsStable<T>(x: T, s: seq<T>, key: T -> string, k: string)
    ensures WithKey(Insert(x, s, key), key, k) == (if key(x) == k then [x] else []) + WithKey(s, key, k)
  {
    if s == [] || LexLe(key(x), key(s[0])) {
      assert ([x] + s)[1..] == s;
    } else {
      LexReflexive(key(x));
      hide LexLe;
      InsertIsStable(x, s[1..], key, k);
      var r := Insert(x, s, key);
      assert r == [s[0]] + Insert(x, s[1..], key);
      assert r[0] == s[0] && r[1..] == Insert(x, s[1..], key);
    }
  }

  /** Elements with one key keep their order. */
  lemma {:induction false} SortIsStable<T>(s: seq<T>, key: T -> string, k: string)
    ensures WithKey(SortBy(s, key), key, k) == WithKey(s, key, k)
  {
    hide Insert;
    if s != [] {
      SortIsStable(s[1..], key, k);
      InsertIsStable(s[0], SortBy(s[1..], key), key, k);
    }
  }

  lemma HeadOfKey<T>(s: seq<T>, key: T -> string)
    requires s != []
    ensures WithKey(s, key, key(s[0])) != [] && WithKey(s, key, key(s[0]))[0] == s[0]
  {
  }

  lemma TailWithKey<T>(s: seq<T>, key: T -> string, k: string)
    requires s != []
    ensures WithKey(s, key, k) == (if key(s[0]) == k then [s[0]] else []) + WithKey(s[1..], key, k)
  {
  }

  /** A sorted list is determined by its elements with each key, in their order. */
  lemma {:induction false} SortedByKeys<T(!new)>(a: seq<T>, b: seq<T>, key: T -> string)
    requires Sorted(a, key) && Sorted(b, key)
    requires forall k :: WithKey(a, key, k) == WithKey(b, key, k)
    ensures a == b
    decreases |a|
  {
    hide *;
    if a != [] { HeadOfKey(a, key); KeyIsThere(b, a, key); }
    if b != [] { HeadOfKey(b, key); KeyIsThere(a, b, key); }
    if a != [] {
      SameHead(a, b, key);
      forall k
        ensures WithKey(a[1..], key, k) == WithKey(b[1..], key, k)
      {
        TailWithKey(a, key, k);
        TailWithKey(b, key, k);
        assert WithKey(a, key, k) == WithKey(b, key, k);
        SameRest(if key(a[0]) == k then [a[0]] else [], WithKey(a[1..], key, k), WithKey(b[1..], key, k));
      }
      TailSorted(a, key);
      TailSorted(b, key);
      SortedByKeys(a[1..], b[1..], key);
      assert a == [a[0]] + a[1..] && b == [b[0]] + b[1..];
    }
  }

  lemma SameRest<T>(x: seq<T>, y: seq<T>, z: seq<T>)
    requires x + y == x + z
    ensures y == z
  {
    assert y == (x + y)[|x|..] && z == (x + z)[|x|..];
  }

  lemma KeyIsThere<T(!new)>(a: seq<T>, b: seq<T>, key: T -> string)
    requires b != [] && WithKey(a, key, key(b[0])) == WithKey(b, key, key(b[0]))
    ensures exists x :: x in a && key(x) == key(b[0])
    ensures a != []
  {
    HeadOfKey(b, key);
    WithKeyMembers(a, key, key(b[0]));
    hide WithKey;
    assert WithKey(a, key, key(b[0]))[0] in a;
  }

  lemma SameHead<T(!new)>(a: seq<T>, b: seq<T>, key: T -> string)
    requires Sorted(a, key) && Sorted(b, key) && a != [] && b != []
    requires forall k :: WithKey(a, key, k) == WithKey(b, key, k)
    ensures a[0] == b[0]
  {
    hide LexLe, Sorted;
    KeyIsThere(a, b, key);
    KeyIsThere(b, a, key);
    HeadOfKey(a, key);
    HeadOfKey(b, key);
    hide WithKey;
    var x :| x in a && key(x) == key(b[0]);
    var y :| y in b && key(y) == key(a[0]);
    HeadIsLeast(a, x, key);
    HeadIsLeast(b, y, key);
    LexAntisymmetric(key(a[0]), key(b[0]));
    assert WithKey(a, key, key(a[0])) == WithKey(b, key, key(a[0]));
  }

  /** The key of a list of plain strings. */
  function Self(x: string): string { x }

  function SortStrings(s: seq<string>): (r: seq<string>)
    ensures multiset(r) == multiset(s)
    ensures Sorted(r, Self)
  {
    SortBy(s, Self)
  }

  lemma SortStringsUnique(s: seq<string>, t: seq<string>)
    requires multiset(s) == multiset(t)
    ensures SortStrings(s) == SortStrings(t)
  {
    SortedUnique(SortStrings(s), SortStrings(t), Self);
  }

  // ----- the keys of a map, in order -----

  ghost function Listing(s: set<string>): (r: seq<string>)
    ensures multiset(r) == multiset(s)
  {
    if s == {} then []
    else
      var x :| x in s;
      assert multiset(s) == multiset{x} + multiset(s - {x});
      [x] + Listing(s - {x})
  }

  /** The members of a set in order. */
  ghost function SortedKeys(s: set<string>): (r: seq<string>)
    ensures multiset(r) == multiset(s)
    ensures Sorted(r, Self)
  {
    SortStrings(Listing(s))
  }

  /** A list with the members of a set, each as often as the set has it, repeats nothing. */
  lemma NoRepeats<T>(s: seq<T>, members: set<T>, i: nat, j: nat)
    requires multiset(s) == multiset(members) && i < j < |s|
    ensures s[i] != s[j]
  {
    var front, back := s[..j], s[j..];
    assert s == front + back;
    assert front[i] == s[i] && back[0] == s[j];
    assert multiset(front)[s[i]] >= 1 && multiset(back)[s[j]] >= 1;
    assert multiset(s)[s[i]] <= 1;
    assert multiset(s) == multiset(front) + multiset(back);
  }

  /** `mapKeys`: ranges over the keys in any order, then sorts them. */
  method MapKeys(keys: set<string>) returns (r: seq<string>)
    ensures r == SortedKeys(keys)
  {
    r := [];
    var todo := keys;
    while todo != {}
      invariant todo <= keys
      invariant multiset(r) == multiset(keys - todo)
      decreases todo
    {
      var key :| key in todo;
      assert keys - (todo - {key}) == (keys - todo) + {key};
      r := r + [key];
      todo := todo - {key};
    }
    assert keys - todo == keys;
    r := SortStrings(r);
    SortedUnique(r, SortedKeys(keys), Self);
  }
}
