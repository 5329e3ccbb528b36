/** The two scanners that a shell document passes on its way to Extended JSON: one rewrites
    single-quoted strings to double-quoted ones, the other takes the result apart at its strings.
    They must agree on where strings begin and end. */
module ShellStrings {

  const DQ: char := '"'
  const SQ: char := '\''
  const BS: char := '\\'

  // ----- the first scanner, as functions of what is left to read -----

  /** Outside strings. */
  ghost function Requote(s: string): string
    decreases |s|
  {
    if s == [] then []
    else if s[0] == DQ then [DQ] + InDouble(s[1..])
    else if s[0] == SQ then [DQ] + InSingle(s[1..])
    else [s[0]] + Requote(s[1..])
  }

  /** Inside a double-quoted string: everything is kept. */
  ghost function InDouble(s: string): string
    decreases |s|
  {
    if s == [] then []
    else if s[0] == BS && |s| > 1 then s[..2] + InDouble(s[2..])
    else if s[0] == DQ then [DQ] + Requote(s[1..])
    else [s[0]] + InDouble(s[1..])
  }

  /** Inside a single-quoted string: `\'` becomes `'`, `"` becomes `\"`. */
  ghost function InSingle(s: string): string
    decreases |s|
  {
    if s == [] then []
    else if s[0] == BS && |s| > 1 && s[1] == SQ then [SQ] + InSingle(s[2..])
    else if s[0] == DQ then [BS, DQ] + InSingle(s[1..])
    else if s[0] == SQ then [DQ] + Requote(s[1..])
    else [s[0]] + InSingle(s[1..])
  }

  lemma Outside(s: string, i: nat)
    requires i < |s|
    ensures s[i] == DQ ==> Requote(s[i..]) == [DQ] + InDouble(s[i + 1..])
    ensures s[i] == SQ ==> Requote(s[i..]) == [DQ] + InSingle(s[i + 1..])
    ensures s[i] != DQ && s[i] != SQ ==> Requote(s[i..]) == [s[i]] + Requote(s[i + 1..])
  {
    assert s[i..][1..] == s[i + 1..];
  }

  lemma Double(s: string, i: nat)
    requires i < |s|
    ensures s[i] == BS && i + 1 < |s| ==> InDouble(s[i..]) == [s[i], s[i + 1]] + InDouble(s[i + 2..])
    ensures s[i] == DQ ==> InDouble(s[i..]) == [DQ] + Requote(s[i + 1..])
    ensures s[i] != DQ && !(s[i] == BS && i + 1 < |s|) ==> InDouble(s[i..]) == [s[i]] + InDouble(s[i + 1..])
  {
    assert s[i..][1..] == s[i + 1..];
    if i + 1 < |s| { assert s[i..][..2] == [s[i], s[i + 1]] && s[i..][2..] == s[i + 2..]; }
  }

  lemma Single(s: string, i: nat)
    requires i < |s|
    ensures var escaped := s[i] == BS && i + 1 < |s| && s[i + 1] == SQ;
      && (escaped ==> InSingle(s[i..]) == [SQ] + InSingle(s[i + 2..]))
      && (s[i] == DQ ==> InSingle(s[i..]) == [BS, DQ] + InSingle(s[i + 1..]))
      && (s[i] == SQ ==> InSingle(s[i..]) == [DQ] + Requote(s[i + 1..]))
      && (!escaped && s[i] != DQ && s[i] != SQ ==> InSingle(s[i..]) == [s[i]] + InSingle(s[i + 1..]))
  {
    assert s[i..][1..] == s[i + 1..];
    if i + 1 < |s| { assert s[i..][2..] == s[i + 2..]; }
  }

  lemma AtEnd(s: string)
    ensures s[|s|..] == [] && Requote([]) == InDouble([]) == InSingle([]) == []
  {
  }

  /** What has been written and what is still to be written make up the whole. */
  lemma Written<T>(done: seq<T>, next: seq<T>, rest: seq<T>, whole: seq<T>)
    requires done + (next + rest) == whole
    ensures (done + next) + rest == whole
  {
    assert (done + next) + rest == done + (next + rest);
  }

  /** `singleToDoubleQuotes`. */
  method SingleToDoubleQuotes(input: string) returns (buf: string)
    ensures buf == Requote(input)
  {
    hide Requote, InDouble, InSingle;
    AtEnd(input);
    buf := [];
    var i, n := 0, |input|;
    assert input[0..] == input;
    while i < n
      invariant 0 <= i <= n && buf + Requote(input[i..]) == Requote(input)
    {
      var ch := input[i];
      Outside(input, i);
      if ch == DQ {
        Written(buf, [DQ], InDouble(input[i + 1..]), Requote(input));
        buf := buf + [ch];
        i := i + 1;
        while i < n
          invariant 0 <= i <= n && buf + InDouble(input[i..]) == Requote(input)
        {
          Double(input, i);
          if input[i] == BS && i + 1 < n {
            Written(buf, [input[i], input[i + 1]], InDouble(input[i + 2..]), Requote(input));
            buf := buf + [input[i], input[i + 1]];
            i := i + 2;
            continue;
          }
          Written(buf, [input[i]], if input[i] == DQ then Requote(input[i + 1..]) else InDouble(input[i + 1..]), Requote(input));
          buf := buf + [input[i]];
          if input[i] == DQ {
            i := i + 1;
            break;
          }
          i := i + 1;
        }
        continue;
      }
      if ch == SQ {
        Written(buf, [DQ], InSingle(input[i + 1..]), Requote(input));
        buf := buf + [DQ];
        i := i + 1;
        while i < n
          invariant 0 <= i <= n && buf + InSingle(input[i..]) == Requote(input)
        {
          Single(input, i);
          if input[i] == BS && i + 1 < n && input[i + 1] == SQ {
            Written(buf, [SQ], InSingle(input[i + 2..]), Requote(input));
            buf := buf + [SQ];
            i := i + 2;
            continue;
          }
          if input[i] == DQ {
            Written(buf, [BS, DQ], InSingle(input[i + 1..]), Requote(input));
            buf := buf + [BS, DQ];
            i := i + 1;
            continue;
          }
          if input[i] == SQ {
            Written(buf, [DQ], Requote(input[i + 1..]), Requote(input));
            buf := buf + [DQ];
            i := i + 1;
            break;
          }
          Written(buf, [input[i]], InSingle(input[i + 1..]), Requote(input));
          buf := buf + [input[i]];
          i := i + 1;
        }
        continue;
      }
      Written(buf, [ch], Requote(input[i + 1..]), Requote(input));
      buf := buf + [ch];
      i := i + 1;
    }
  }

  // ----- the second scanner -----

  datatype Segment = Plain(content: string) | Quoted(content: string)

  ghost function Flush(buf: string): seq<Segment> { if buf == [] then [] else [Plain(buf)] }

  /** Outside strings, with `buf` collected since the last one. */
  ghost function SplitFrom(buf: string, s: string): seq<Segment>
    decreases |s|
  {
    if s == [] then Flush(buf)
    else if s[0] == DQ then Flush(buf) + SplitString([DQ], s[1..])
    else SplitFrom(buf + [s[0]], s[1..])
  }

  /** Inside a string, with `buf` read of it. */
  ghost function SplitString(buf: string, s: string): seq<Segment>
    decreases |s|
  {
    if s == [] then [Quoted(buf)]
    else if s[0] == BS && |s| > 1 then SplitString(buf + s[..2], s[2..])
    else if s[0] == DQ then [Quoted(buf + [DQ])] + SplitFrom([], s[1..])
    else SplitString(buf + [s[0]], s[1..])
  }

  ghost function Split(s: string): seq<Segment> { SplitFrom([], s) }

  lemma SplitOutside(buf: string, s: string, i: nat)
    requires i < |s|
    ensures s[i] == DQ ==> SplitFrom(buf, s[i..]) == Flush(buf) + SplitString([DQ], s[i + 1..])
    ensures s[i] != DQ ==> SplitFrom(buf, s[i..]) == SplitFrom(buf + [s[i]], s[i + 1..])
  {
    assert s[i..][1..] == s[i + 1..];
  }

  lemma SplitInside(buf: string, s: string, i: nat)
    requires i < |s|
    ensures s[i] == BS && i + 1 < |s| ==> SplitString(buf, s[i..]) == SplitString(buf + [s[i], s[i + 1]], s[i + 2..])
    ensures s[i] == DQ ==> SplitString(buf, s[i..]) == [Quoted(buf + [DQ])] + SplitFrom([], s[i + 1..])
    ensures s[i] != DQ && !(s[i] == BS && i + 1 < |s|) ==> SplitString(buf, s[i..]) == SplitString(buf + [s[i]], s[i + 1..])
  {
    assert s[i..][1..] == s[i + 1..];
    if i + 1 < |s| { assert s[i..][..2] == [s[i], s[i + 1]] && s[i..][2..] == s[i + 2..]; }
  }

  lemma SplitAtEnd(buf: string, s: string)
    ensures s[|s|..] == [] && SplitFrom(buf, []) == Flush(buf) && SplitString(buf, []) == [Quoted(buf)] + SplitFrom([], [])
  {
  }

  /** `splitByStrings`. */
  method SplitByStrings(input: string) returns (segments: seq<Segment>)
    ensures segments == Split(input)
  {
    hide SplitFrom, SplitString;
    segments := [];
    var buf := [];
    var i, n := 0, |input|;
    assert input[0..] == input;
    while i < n
      invariant 0 <= i <= n && segments + SplitFrom(buf, input[i..]) == Split(input)
    {
      SplitOutside(buf, input, i);
      if input[i] == DQ {
        Written(segments, Flush(buf), SplitString([DQ], input[i + 1..]), Split(input));
        ghost var before, flushed := segments, Flush(buf);
        if |buf| > 0 {
          segments := segments + [Plain(buf)];
          buf := [];
        }
        assert segments == before + flushed;
        buf := buf + [input[i]];
        assert buf == [DQ];
        i := i + 1;
        while i < n
          invariant 0 <= i <= n && segments + SplitString(buf, input[i..]) == Split(input)
        {
          SplitInside(buf, input, i);
          if input[i] == BS && i + 1 < n {
            buf := buf + [input[i], input[i + 1]];
            i := i + 2;
            continue;
          }
          buf := buf + [input[i]];
          if input[i] == DQ {
            i := i + 1;
            break;
          }
          i := i + 1;
        }
        if i == n { SplitAtEnd(buf, input); }
        Written(segments, [Quoted(buf)], SplitFrom([], input[i..]), Split(input));
        segments := segments + [Quoted(buf)];
        buf := [];
      } else {
        buf := buf + [input[i]];
        i := i + 1;
      }
    }
    SplitAtEnd(buf, input);
    if |buf| > 0 {
      segments := segments + [Plain(buf)];
    }
  }

  ghost function Concat(segments: seq<Segment>): string {
    if segments == [] then [] else segments[0].content + Concat(segments[1..])
  }

  lemma Associates(x: string, y: string, z: string)
    ensures x + (y + z) == (x + y) + z
  {
  }

  lemma {:induction false} ConcatAppend(a: seq<Segment>, b: seq<Segment>)
    ensures Concat(a + b) == Concat(a) + Concat(b)
  {
    if a == [] {
      assert a + b == b;
    } else {
      ConcatAppend(a[1..], b);
      var s := a + b;
      assert s != [] && s[0] == a[0] && s[1..] == a[1..] + b;
      Associates(a[0].content, Concat(a[1..]), Concat(b));
    }
  }

  /** Nothing is lost. */
  lemma {:induction false} SplitIsLossless(buf: string, s: string)
    ensures Concat(SplitFrom(buf, s)) == buf + s
    decreases |s|
  {
    if s != [] {
      var rest := s[1..];
      assert s == [s[0]] + rest && buf + s == buf + [s[0]] + rest;
      if s[0] == DQ {
        StringIsLossless([DQ], rest);
        ConcatAppend(Flush(buf), SplitString([DQ], rest));
      } else {
        SplitIsLossless(buf + [s[0]], rest);
      }
      hide SplitString;
    }
  }

  lemma {:induction false} StringIsLossless(buf: string, s: string)
    ensures Concat(SplitString(buf, s)) == buf + s
    decreases |s|
  {
    if s != [] {
      var rest := s[1..];
      assert s == [s[0]] + rest && buf + s == buf + [s[0]] + rest;
      if s[0] == BS && |s| > 1 {
        StringIsLossless(buf + s[..2], s[2..]);
        assert buf + s[..2] + s[2..] == buf + s;
      } else if s[0] == DQ {
        SplitIsLossless([], rest);
        ConcatAppend([Quoted(buf + [DQ])], SplitFrom([], rest));
        hide SplitFrom;
      } else {
        StringIsLossless(buf + [s[0]], rest);
      }
    }
  }

  /** Segments outside strings are not empty, hold no double quote, and never stand side by side;
      strings begin with one. */
  ghost predicate WellSplit(segments: seq<Segment>) {
    && (forall i :: 0 <= i < |segments| ==> segments[i].content != [])
    && (forall i :: 0 <= i < |segments| && segments[i].Plain? ==> DQ !in segments[i].content)
    && (forall i :: 0 <= i < |segments| && segments[i].Quoted? ==> segments[i].content[0] == DQ)
    && (forall i :: 0 <= i < |segments| - 1 ==> segments[i].Quoted? || segments[i + 1].Quoted?)
  }

  ghost predicate StartsQuoted(segments: seq<Segment>) { segments != [] && segments[0].Quoted? }

  lemma {:induction false} SplitIsWellSplit(buf: string, s: string)
    ensures DQ !in buf ==> WellSplit(SplitFrom(buf, s))
    ensures buf != [] && buf[0] == DQ ==> WellSplit(SplitString(buf, s)) && StartsQuoted(SplitString(buf, s))
    decreases |s|
  {
    if s != [] {
      if s[0] == DQ {
        SplitIsWellSplit([DQ], s[1..]);
        SplitIsWellSplit([], s[1..]);
      } else {
        SplitIsWellSplit(buf + [s[0]], s[1..]);
        if s[0] == BS && |s| > 1 { SplitIsWellSplit(buf + s[..2], s[2..]); }
      }
    }
  }
}
