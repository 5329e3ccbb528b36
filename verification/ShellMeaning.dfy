/** What the agreement of the two scanners gives: when rewriting changes nothing, when rewriting
    twice is rewriting once, and that a rewritten string still says what the original said. */
module ShellMeaning {
  import opened ShellStrings
  import opened ShellAgreement

  /** No single quote outside strings. */
  ghost predicate SingleFree(segments: seq<Segment>) {
    forall i :: 0 <= i < |segments| && segments[i].Plain? ==> SQ !in segments[i].content
  }

  lemma SingleFreeParts(a: seq<Segment>, b: seq<Segment>)
    ensures SingleFree(a + b) <==> SingleFree(a) && SingleFree(b)
  {
    if SingleFree(a + b) {
      assert forall i :: 0 <= i < |a| ==> a[i] == (a + b)[i];
      assert forall i :: 0 <= i < |b| ==> b[i] == (a + b)[|a| + i];
    }
  }

  lemma {:induction false} CollectedQuoteShows(buf: string, s: string)
    requires SQ in buf
    ensures !SingleFree(SplitFrom(buf, s))
    decreases |s|
  {
    if s == [] || s[0] == DQ {
      assert Flush(buf) == [Plain(buf)];
      assert SplitFrom(buf, s)[0] == Plain(buf);
    } else {
      CollectedQuoteShows(buf + [s[0]], s[1..]);
    }
  }

  lemma {:induction false} IdentityFrom(buf: string, s: string)
    requires SQ !in buf
    ensures Requote(s) == s <==> SingleFree(SplitFrom(buf, s))
    decreases |s|
  {
    if s == [] {
    } else if s[0] == DQ {
      IdentityFrom([], s[1..][StringLength(false, s[1..])..]);
      IdentityBehindString(buf, s);
    } else if s[0] == SQ {
      CollectedQuoteShows(buf + [SQ], s[1..]);
      assert Requote(s)[0] == DQ;
    } else {
      IdentityFrom(buf + [s[0]], s[1..]);
      var out := Requote(s[1..]);
      assert Requote(s) == [s[0]] + out && ([s[0]] + out)[1..] == out;
      assert s == [s[0]] + s[1..];
    }
  }

  /** A double-quoted string is kept, so all depends on what comes behind it. */
  lemma IdentityBehindString(buf: string, s: string)
    requires SQ !in buf && s != [] && s[0] == DQ
    ensures var rest := s[1..][StringLength(false, s[1..])..];
      && (Requote(s) == s <==> Requote(rest) == rest)
      && (SingleFree(SplitFrom(buf, s)) <==> SingleFree(SplitFrom([], rest)))
  {
    var body := s[1..];
    var k := StringLength(false, body);
    var rest := body[k..];
    InDoubleReads(body);
    SplitStringReads([DQ], body);
    assert Requote(s) == [DQ] + (body[..k] + Requote(rest));
    var quoted := [Quoted([DQ] + body[..k])];
    assert SplitFrom(buf, s) == Flush(buf) + (quoted + SplitFrom([], rest));
    hide StringLength, InDouble, SplitString, Requote, SplitFrom;
    Behind(s, body[..k], rest, Requote(rest));
    SingleFreeParts(Flush(buf), quoted + SplitFrom([], rest));
    SingleFreeParts(quoted, SplitFrom([], rest));
  }

  lemma Behind(s: string, text: string, rest: string, out: string)
    requires s == [DQ] + (text + rest)
    ensures [DQ] + (text + out) == s <==> out == rest
  {
    assert ([DQ] + (text + out))[1 + |text|..] == out && s[1 + |text|..] == rest;
  }

  /** Rewriting changes nothing exactly when no single quote stands outside double-quoted strings. */
  lemma IdentityExactly(s: string)
    ensures Requote(s) == s <==> SingleFree(Split(s))
  {
    IdentityFrom([], s);
  }

  lemma {:induction false} IntendedIsSingleFree(buf: string, s: string)
    requires SQ !in buf
    ensures SingleFree(Intended(buf, s))
    decreases |s|
  {
    if s != [] {
      var rest := s[1..];
      if s[0] == DQ || s[0] == SQ {
        var k := if s[0] == DQ then StringLength(false, rest) else SingleLength(rest);
        IntendedIsSingleFree([], rest[k..]);
        var text := if s[0] == DQ then [DQ] + rest[..k] else [DQ] + Converted(rest);
        assert Intended(buf, s) == Flush(buf) + [Quoted(text)] + Intended([], rest[k..]);
        hide Intended, StringLength, SingleLength, Converted;
        SingleFreeParts(Flush(buf) + [Quoted(text)], Intended([], rest[k..]));
        SingleFreeParts(Flush(buf), [Quoted(text)]);
      } else {
        IntendedIsSingleFree(buf + [s[0]], rest);
      }
    }
  }

  /** The output for a readable document has no single quote outside strings, so rewriting it once
      more changes nothing. */
  lemma RewritingIsIdempotent(s: string)
    requires Readable(s)
    ensures SingleFree(Split(Requote(s))) && Requote(Requote(s)) == Requote(s)
  {
    ScannersAgreeExactly([], s);
    IntendedIsSingleFree([], s);
    IdentityExactly(Requote(s));
  }

  // ----- documents whose backslashes escape quotes -----

  /** Inside single quotes every backslash escapes a single quote. */
  ghost predicate BodyPlain(s: string)
    decreases |s|
  {
    if s == [] then true
    else if s[0] == BS then |s| > 1 && s[1] == SQ && BodyPlain(s[2..])
    else if s[0] == SQ then true
    else BodyPlain(s[1..])
  }

  ghost predicate PlainDocument(s: string)
    decreases |s|
  {
    if s == [] then true
    else if s[0] == DQ then PlainDocument(s[1..][StringLength(false, s[1..])..])
    else if s[0] == SQ then BodyPlain(s[1..]) && PlainDocument(s[1..][SingleLength(s[1..])..])
    else PlainDocument(s[1..])
  }

  lemma {:induction false} PlainBodyIsReadable(s: string)
    requires BodyPlain(s)
    ensures BodyReadable(false, s)
    decreases |s|
  {
    if s != [] && s[0] != SQ { PlainBodyIsReadable(s[Read(s)..]); }
  }

  lemma {:induction false} PlainIsReadable(s: string)
    requires PlainDocument(s)
    ensures Readable(s)
    decreases |s|
  {
    if s != [] {
      if s[0] == DQ {
        PlainIsReadable(s[1..][StringLength(false, s[1..])..]);
      } else if s[0] == SQ {
        PlainBodyIsReadable(s[1..]);
        PlainIsReadable(s[1..][SingleLength(s[1..])..]);
      } else {
        PlainIsReadable(s[1..]);
      }
    }
  }

  /** What a single-quoted string says, from behind its opening quote. */
  ghost function Said(s: string): string
    decreases |s|
  {
    if s == [] || s[0] == SQ then []
    else if Read(s) == 2 then [SQ] + Said(s[2..])
    else [s[0]] + Said(s[1..])
  }

  /** What a double-quoted string says: a backslash stands for the character behind it. */
  ghost function Says(s: string): string
    decreases |s|
  {
    if s == [] || s[0] == DQ then []
    else if s[0] == BS && |s| > 1 then [s[1]] + Says(s[2..])
    else [s[0]] + Says(s[1..])
  }

  /** What one written piece says. */
  lemma SaysOne(c: string, x: string)
    requires c == [BS, DQ] || (|c| == 1 && c[0] != BS && c[0] != DQ)
    ensures Says(c + x) == (if c == [BS, DQ] then [DQ] else c) + Says(x)
  {
    assert (c + x)[|c|..] == x;
  }

  /** The rewritten string says what the original said, up to the quote that closes it. */
  lemma {:induction false} MeaningIsKept(s: string, t: string)
    requires BodyPlain(s) && (t == [] || SingleLength(s) < |s|)
    ensures Says(Converted(s) + t) == Said(s)
    decreases |s|
  {
    if s == [] {
      assert Converted(s) + t == [];
    } else if s[0] == SQ {
      assert (Converted(s) + t)[0] == DQ;
    } else {
      var m, c := Read(s), Write(s);
      var rest := s[m..];
      SingleSteps(s);
      MeaningIsKept(rest, t);
      assert Said(s) == (if c == [BS, DQ] then [DQ] else c) + Said(rest);
      var y := Converted(rest);
      hide Converted, SingleLength, Said;
      assert (c + y) + t == c + (y + t);
      SaysOne(c, y + t);
    }
  }

  /** The whole way for documents of that kind: both scanners see the strings the author wrote, and
      the first one's output is stable. */
  lemma PlainDocumentsAreHandled(s: string)
    requires PlainDocument(s)
    ensures Split(Requote(s)) == Intended([], s)
    ensures SingleFree(Split(Requote(s))) && Requote(Requote(s)) == Requote(s)
  {
    PlainIsReadable(s);
    ScannersAgreeExactly([], s);
    RewritingIsIdempotent(s);
  }
}
