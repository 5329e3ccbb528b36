/** Strings as the Go program sees them: compared element by element, joined with a separator,
    and taken apart again at the first separator. Go compares the UTF-8 bytes of two strings, and
    that order agrees with the order of their code points, so `string` is compared by `char`. */
module Text {

  const NUL: char := 0 as char

  /** Go's `a <= b` on strings. */
  predicate LexLe(a: string, b: string) {
    if a == [] then true
    else if b == [] then false
    else if a[0] != b[0] then a[0] < b[0]
    else LexLe(a[1..], b[1..])
  }

  /** A text comes before another exactly if it is a beginning of it, or has the smaller character where they
      first differ. */
  lemma {:induction false} LexMeans(a: string, b: string)
    ensures LexLe(a, b) <==> a <= b || exists i :: 0 <= i < |a| && i < |b| && a[..i] == b[..i] && a[i] < b[i]
  {
    if a != [] && b != [] && a[0] == b[0] {
      LexMeans(a[1..], b[1..]);
      assert a == [a[0]] + a[1..] && b == [b[0]] + b[1..];
      if i :| 0 <= i < |a| && i < |b| && a[..i] == b[..i] && a[i] < b[i] {
        assert i > 0;
        assert a[1..][..i - 1] == a[..i][1..] == b[..i][1..] == b[1..][..i - 1];
      }
      if j :| 0 <= j < |a[1..]| && j < |b[1..]| && a[1..][..j] == b[1..][..j] && a[1..][j] < b[1..][j] {
        assert a[..j + 1] == [a[0]] + a[1..][..j] == b[..j + 1];
      }
    } else if a != [] && b != [] {
      if a[0] < b[0] { assert a[..0] == b[..0]; }
      forall i | 0 < i < |a| && i < |b|
        ensures a[..i] == b[..i] ==> a[0] == b[0]
      {
        assert a[..i][0] == a[0] && b[..i][0] == b[0];
      }
    }
  }

  lemma {:induction false} LexTotal(a: string, b: string)
    ensures LexLe(a, b) || LexLe(b, a)
  {
    if a != [] && b != [] && a[0] == b[0] {
      LexTotal(a[1..], b[1..]);
    }
  }

  lemma {:induction false} LexReflexive(a: string)
    ensures LexLe(a, a)
  {
    if a != [] {
      LexReflexive(a[1..]);
    }
  }

  lemma {:induction false} LexAntisymmetric(a: string, b: string)
    requires LexLe(a, b) && LexLe(b, a)
    ensures a == b
  {
    if a != [] && b != [] && a[0] == b[0] {
      LexAntisymmetric(a[1..], b[1..]);
      assert a == [a[0]] + a[1..] && b == [b[0]] + b[1..];
    }
  }

  lemma {:induction false} LexTransitive(a: string, b: string, c: string)
    requires LexLe(a, b) && LexLe(b, c)
    ensures LexLe(a, c)
  {
    if a != [] && b != [] && c != [] && a[0] == b[0] == c[0] {
      LexTransitive(a[1..], b[1..], c[1..]);
    }
  }

  /** The strings that start with a given prefix are an interval of the order. */
  lemma {:induction false} PrefixesAreConvex(p: string, a: string, b: string, c: string)
    requires p <= a && p <= c
    requires LexLe(a, b) && LexLe(b, c)
    ensures p <= b
  {
    if p != [] {
      assert a[0] == p[0] == c[0];
      assert b != [] && b[0] == p[0];
      PrefixesAreConvex(p[1..], a[1..], b[1..], c[1..]);
      assert b == [b[0]] + b[1..] && p == [p[0]] + p[1..];
    }
  }

  /** A separator that neither head contains marks the same place in both texts. */
  lemma {:induction false} FirstSeparator(a: string, x: string, b: string, y: string, c: char)
    requires a + [c] + x == b + [c] + y
    requires c !in a && c !in b
    ensures a == b && x == y
  {
    var s, t := a + [c] + x, b + [c] + y;
    assert s[|a|] == c && t[|b|] == c;
    assert forall i :: 0 <= i < |a| ==> s[i] == a[i] && a[i] in a;
    assert forall i :: 0 <= i < |b| ==> t[i] == b[i] && b[i] in b;
    assert |a| == |b|;
    assert a == s[..|a|] == t[..|b|] == b;
    assert x == s[|a| + 1..] == t[|b| + 1..] == y;
  }

  /** Go's `strings.Join` with a one-character separator. */
  function Join(parts: seq<string>, c: char): string {
    if parts == [] then []
    else if |parts| == 1 then parts[0]
    else parts[0] + [c] + Join(parts[1..], c)
  }

  /** Joining two lists. */
  lemma {:induction false} JoinConcat(a: seq<string>, b: seq<string>, c: char)
    requires a != [] && b != []
    ensures Join(a + b, c) == Join(a, c) + [c] + Join(b, c)
  {
    if |a| == 1 {
      assert (a + b)[1..] == b;
    } else {
      JoinConcat(a[1..], b, c);
      assert (a + b)[1..] == a[1..] + b;
    }
  }

  /** Parts that a join can be taken back into: non-empty, and free of the separator. */
  ghost predicate Joinable(parts: seq<string>, c: char) {
    forall i :: 0 <= i < |parts| ==> parts[i] != [] && c !in parts[i]
  }

  lemma {:induction false} JoinFree(parts: seq<string>, c: char, d: char)
    requires c != d
    requires forall i :: 0 <= i < |parts| ==> d !in parts[i]
    ensures d !in Join(parts, c)
  {
    if |parts| > 1 {
      JoinFree(parts[1..], c, d);
    }
  }

  lemma JoinNonEmpty(parts: seq<string>, c: char)
    requires parts != [] && parts[0] != []
    ensures Join(parts, c) != []
  {
  }

  lemma JoinHasSeparator(parts: seq<string>, c: char)
    requires Joinable(parts, c)
    ensures c in Join(parts, c) <==> |parts| > 1
  {
    if |parts| > 1 {
      assert Join(parts, c)[|parts[0]|] == c;
    }
  }

  /** Joining is injective on joinable parts. */
  lemma {:induction false} JoinInjective(a: seq<string>, b: seq<string>, c: char)
    requires Joinable(a, c) && Joinable(b, c)
    requires Join(a, c) == Join(b, c)
    ensures a == b
  {
    if a == [] || b == [] {
      if a != [] { JoinNonEmpty(a, c); }
      if b != [] { JoinNonEmpty(b, c); }
    } else if |a| == 1 || |b| == 1 {
      JoinHasSeparator(a, c);
      JoinHasSeparator(b, c);
    } else {
      FirstSeparator(a[0], Join(a[1..], c), b[0], Join(b[1..], c), c);
      JoinInjective(a[1..], b[1..], c);
      assert a == [a[0]] + a[1..] && b == [b[0]] + b[1..];
    }
  }

  /** With a fixed number of parts, possibly empty ones, being free of the separator is enough. */
  lemma {:induction false} JoinInjectiveAtLength(a: seq<string>, b: seq<string>, c: char)
    requires |a| == |b|
    requires forall i :: 0 <= i < |a| ==> c !in a[i] && c !in b[i]
    requires Join(a, c) == Join(b, c)
    ensures a == b
  {
    if |a| > 1 {
      FirstSeparator(a[0], Join(a[1..], c), b[0], Join(b[1..], c), c);
      JoinInjectiveAtLength(a[1..], b[1..], c);
      assert a == [a[0]] + a[1..] && b == [b[0]] + b[1..];
    }
  }

  /** NUL is the smallest character, so what stands before it decides first. */
  lemma {:induction false} FirstDecides(a: string, x: string, b: string, y: string)
    requires NUL !in a && NUL !in b
    ensures LexLe(a + [NUL] + x, b + [NUL] + y) <==> if a == b then LexLe(x, y) else LexLe(a, b)
  {
    var s, t := a + [NUL] + x, b + [NUL] + y;
    if a == [] || b == [] {
      assert a == [] ==> s[0] == NUL && s[1..] == x;
      assert b == [] ==> t[0] == NUL && t[1..] == y;
      assert a != [] ==> s[0] == a[0] && a[0] in a;
      assert b != [] ==> t[0] == b[0] && b[0] in b;
    } else {
      FirstDecides(a[1..], x, b[1..], y);
      assert s[0] == a[0] && t[0] == b[0] && s[1..] == a[1..] + [NUL] + x && t[1..] == b[1..] + [NUL] + y;
      assert a == [a[0]] + a[1..] && b == [b[0]] + b[1..];
    }
  }

  /** The first part that differs decides. */
  ghost predicate PartsLe(p: seq<string>, q: seq<string>)
    requires |p| == |q|
  {
    if p == [] then true else if p[0] != q[0] then LexLe(p[0], q[0]) else PartsLe(p[1..], q[1..])
  }

  /** Texts joined with NUL are ordered part by part. */
  lemma {:induction false} JoinOrders(p: seq<string>, q: seq<string>)
    requires |p| == |q| > 0 && forall i :: 0 <= i < |p| ==> NUL !in p[i] && NUL !in q[i]
    ensures LexLe(Join(p, NUL), Join(q, NUL)) <==> PartsLe(p, q)
  {
    if |p| == 1 {
      LexReflexive(p[0]);
      assert p[1..] == [] && q[1..] == [];
    } else {
      JoinOrders(p[1..], q[1..]);
      FirstDecides(p[0], Join(p[1..], NUL), q[0], Join(q[1..], NUL));
    }
  }

  /** Stands for a hash: injective, and like hexadecimal text free of NUL. */
  function Digest(text: string): string {
    if text == [] then []
    else (if text[0] == NUL then "0" else ['1', text[0]]) + Digest(text[1..])
  }

  lemma {:induction false} DigestNulFree(text: string)
    ensures NUL !in Digest(text)
  {
    if text != [] { DigestNulFree(text[1..]); }
  }

  lemma {:induction false} DigestInjective(a: string, b: string)
    requires Digest(a) == Digest(b)
    ensures a == b
  {
    if a != [] && b != [] {
      assert Digest(a)[0] == Digest(b)[0];
      var n := if a[0] == NUL then 1 else 2;
      assert a[0] == b[0] by {
        if n == 2 { assert Digest(a)[1] == Digest(b)[1]; }
      }
      assert Digest(a)[n..] == Digest(a[1..]) && Digest(b)[n..] == Digest(b[1..]);
      DigestInjective(a[1..], b[1..]);
      assert a == [a[0]] + a[1..] && b == [b[0]] + b[1..];
    }
  }
}
