/** When the two scanners agree: what the second takes for a string in the first one's output is
    exactly what the first made of a string. */
module ShellAgreement {
  import opened ShellStrings

  // ----- where a string ends -----

  /** How far a double-quoted string reaches whose opening quote has been read; `escaped` when the
      character before was a backslash that takes the next one with it. */
  ghost function StringLength(escaped: bool, s: string): (k: nat)
    ensures k <= |s|
    decreases |s|
  {
    if s == [] then 0
    else if escaped then 1 + StringLength(false, s[1..])
    else if s[0] == BS then 1 + StringLength(true, s[1..])
    else if s[0] == DQ then 1
    else 1 + StringLength(false, s[1..])
  }

  /** How far a single-quoted string reaches, and what it becomes. */
  ghost function SingleLength(s: string): (k: nat)
    ensures k <= |s|
    decreases |s|
  {
    if s == [] then 0
    else if s[0] == BS && |s| > 1 && s[1] == SQ then 2 + SingleLength(s[2..])
    else if s[0] == SQ then 1
    else 1 + SingleLength(s[1..])
  }

  ghost function Converted(s: string): string
    decreases |s|
  {
    if s == [] then []
    else if s[0] == BS && |s| > 1 && s[1] == SQ then [SQ] + Converted(s[2..])
    else if s[0] == DQ then [BS, DQ] + Converted(s[1..])
    else if s[0] == SQ then [DQ]
    else [s[0]] + Converted(s[1..])
  }

  lemma LengthSteps(s: string)
    requires s != []
    ensures s[0] == BS && |s| > 1 ==> StringLength(false, s) == 2 + StringLength(false, s[2..])
    ensures s[0] == DQ ==> StringLength(false, s) == 1
    ensures s[0] != DQ && !(s[0] == BS && |s| > 1) ==> StringLength(false, s) == 1 + StringLength(false, s[1..])
  {
    if s[0] == BS {
      if |s| > 1 { assert s[1..][1..] == s[2..]; } else { assert s[1..] == []; }
    }
  }

  /** Cutting at `m` and then `n` further is cutting at `m + n`. */
  lemma Cut(s: string, m: nat, n: nat)
    requires m + n <= |s|
    ensures s[..m + n] == s[..m] + s[m..][..n] && s[m + n..] == s[m..][n..]
  {
  }

  lemma DoubleStep(s: string, m: nat)
    requires s != [] && s[0] != DQ && m == if s[0] == BS && |s| > 1 then 2 else 1
    ensures InDouble(s) == s[..m] + InDouble(s[m..])
  {
    hide Requote;
    assert s[..1] == [s[0]];
  }

  /** Both scanners read a double-quoted string the same way. */
  lemma {:induction false} InDoubleReads(s: string)
    ensures InDouble(s) == s[..StringLength(false, s)] + Requote(s[StringLength(false, s)..])
    decreases |s|
  {
    hide *;
    if s == [] || s[0] == DQ {
      DoubleEnds(s);
    } else {
      LengthSteps(s);
      var m := if s[0] == BS && |s| > 1 then 2 else 1;
      DoubleStep(s, m);
      InDoubleReads(s[m..]);
      var n := StringLength(false, s[m..]);
      Cut(s, m, n);
      assert s[..m] + (s[m..][..n] + Requote(s[m + n..])) == s[..m + n] + Requote(s[m + n..]);
    }
  }

  lemma DoubleEnds(s: string)
    requires s == [] || s[0] == DQ
    ensures InDouble(s) == s[..StringLength(false, s)] + Requote(s[StringLength(false, s)..])
  {
    if s != [] {
      LengthSteps(s);
      assert s[..1] == [DQ];
    }
    hide StringLength, Requote;
  }

  lemma Reassociate(buf: string, s: string, m: nat, n: nat)
    requires m <= |s| && n <= |s[m..]|
    ensures buf + s[..m] + s[m..][..n] == buf + s[..m + n]
  {
  }

  lemma SplitStep(buf: string, s: string, m: nat)
    requires s != [] && s[0] != DQ && m == if s[0] == BS && |s| > 1 then 2 else 1
    ensures SplitString(buf, s) == SplitString(buf + s[..m], s[m..])
  {
    assert s[..1] == [s[0]];
    hide SplitFrom;
  }

  lemma {:induction false} SplitStringReads(buf: string, s: string)
    ensures SplitString(buf, s) == [Quoted(buf + s[..StringLength(false, s)])] + SplitFrom([], s[StringLength(false, s)..])
    decreases |s|
  {
    if s == [] {
      assert buf + s == buf;
    } else {
      LengthSteps(s);
      hide StringLength, SplitFrom;
      var m := if s[0] == BS && |s| > 1 then 2 else 1;
      if s[0] == DQ {
        assert s[..1] == [DQ];
      } else {
        SplitStep(buf, s, m);
        hide SplitString;
        SplitStringReads(buf + s[..m], s[m..]);
        var n := StringLength(false, s[m..]);
        Cut(s, m, n);
        Reassociate(buf, s, m, n);
      }
    }
  }

  /** What the first scanner does with the next character inside single quotes: how many it reads,
      and what it writes. */
  ghost function Read(s: string): nat
    requires s != []
  {
    if s[0] == BS && |s| > 1 && s[1] == SQ then 2 else 1
  }

  ghost function Write(s: string): string
    requires s != []
  {
    if Read(s) == 2 then [SQ] else if s[0] == DQ then [BS, DQ] else [s[0]]
  }

  lemma SingleSteps(s: string)
    requires s != [] && s[0] != SQ
    ensures SingleLength(s) == Read(s) + SingleLength(s[Read(s)..])
    ensures Converted(s) == Write(s) + Converted(s[Read(s)..])
  {
  }

  lemma InSingleSteps(s: string)
    requires s != [] && s[0] != SQ
    ensures InSingle(s) == Write(s) + InSingle(s[Read(s)..])
  {
    hide Requote;
  }

  lemma SingleEnds(s: string)
    requires s == [] || s[0] == SQ
    ensures InSingle(s) == Converted(s) + Requote(s[SingleLength(s)..])
  {
  }

  lemma ReadsSome(s: string)
    requires s != []
    ensures 0 < Read(s) <= |s|
  {
  }

  lemma {:induction false} InSingleReads(s: string)
    ensures InSingle(s) == Converted(s) + Requote(s[SingleLength(s)..])
    decreases |s|
  {
    hide *;
    if s == [] || s[0] == SQ {
      SingleEnds(s);
    } else {
      SingleSteps(s);
      InSingleSteps(s);
      ReadsSome(s);
      var m, c := Read(s), Write(s);
      InSingleReads(s[m..]);
      var n := SingleLength(s[m..]);
      Cut(s, m, n);
      assert c + (Converted(s[m..]) + Requote(s[m + n..])) == c + Converted(s[m..]) + Requote(s[m + n..]);
    }
  }

  // ----- the intended segments -----

  /** The segments as the author of the document meant them: strings of either kind, in the form the
      first scanner gives them, and what is between. */
  ghost function Intended(buf: string, s: string): seq<Segment>
    decreases |s|
  {
    if s == [] then Flush(buf)
    else if s[0] == DQ then
      var k := StringLength(false, s[1..]);
      Flush(buf) + [Quoted([DQ] + s[1..][..k])] + Intended([], s[1..][k..])
    else if s[0] == SQ then
      var k := SingleLength(s[1..]);
      Flush(buf) + [Quoted([DQ] + Converted(s[1..]))] + Intended([], s[1..][k..])
    else Intended(buf + [s[0]], s[1..])
  }

  /** They make up the first scanner's output. */
  lemma {:induction false} IntendedIsTheOutput(buf: string, s: string)
    ensures Concat(Intended(buf, s)) == buf + Requote(s)
    decreases |s|
  {
    hide *;
    if s == [] {
      NothingIntended(buf);
    } else if s[0] == DQ {
      var rest, k := s[1..], StringLength(false, s[1..]);
      DoubleIntended(buf, s);
      InDoubleReads(rest);
      IntendedIsTheOutput([], rest[k..]);
      OutputOf(buf, rest[..k], Intended([], rest[k..]), Requote(rest[k..]));
    } else if s[0] == SQ {
      var rest, k := s[1..], SingleLength(s[1..]);
      SingleIntended(buf, s);
      InSingleReads(rest);
      IntendedIsTheOutput([], rest[k..]);
      OutputOf(buf, Converted(rest), Intended([], rest[k..]), Requote(rest[k..]));
    } else {
      PlainIntended(buf, s);
      IntendedIsTheOutput(buf + [s[0]], s[1..]);
      assert (buf + [s[0]]) + Requote(s[1..]) == buf + ([s[0]] + Requote(s[1..]));
    }
  }

  lemma NothingIntended(buf: string)
    ensures Concat(Intended(buf, [])) == buf + Requote([])
  {
    assert [Plain(buf)][1..] == [];
    assert buf + [] == buf;
  }

  lemma DoubleIntended(buf: string, s: string)
    requires s != [] && s[0] == DQ
    ensures var rest, k := s[1..], StringLength(false, s[1..]);
      && Intended(buf, s) == Flush(buf) + [Quoted([DQ] + rest[..k])] + Intended([], rest[k..])
      && Requote(s) == [DQ] + InDouble(rest)
  {
    hide InDouble, StringLength;
  }

  lemma SingleIntended(buf: string, s: string)
    requires s != [] && s[0] == SQ
    ensures var rest, k := s[1..], SingleLength(s[1..]);
      && Intended(buf, s) == Flush(buf) + [Quoted([DQ] + Converted(rest))] + Intended([], rest[k..])
      && Requote(s) == [DQ] + InSingle(rest)
  {
    hide InSingle, SingleLength, Converted;
  }

  lemma PlainIntended(buf: string, s: string)
    requires s != [] && s[0] != DQ && s[0] != SQ
    ensures Intended(buf, s) == Intended(buf + [s[0]], s[1..]) && Requote(s) == [s[0]] + Requote(s[1..])
  {
    hide InDouble, InSingle, StringLength, SingleLength, Converted;
  }

  lemma OutputOf(buf: string, text: string, rest: seq<Segment>, out: string)
    requires Concat(rest) == [] + out
    ensures Concat(Flush(buf) + [Quoted([DQ] + text)] + rest) == buf + ([DQ] + (text + out))
  {
    ConcatThree(buf, [DQ] + text, rest);
    assert buf + ([DQ] + text) + out == buf + ([DQ] + (text + out));
  }

  lemma ConcatThree(buf: string, text: string, rest: seq<Segment>)
    ensures Concat(Flush(buf) + [Quoted(text)] + rest) == buf + text + Concat(rest)
  {
    ConcatAppend(Flush(buf) + [Quoted(text)], rest);
    ConcatAppend(Flush(buf), [Quoted(text)]);
    assert [Quoted(text)][1..] == [];
    assert Concat([Quoted(text)]) == text;
  }

  // ----- when a converted string is read back whole -----

  /** A double quote inside single quotes must not follow an odd number of backslashes: the one that
      the first scanner puts in front of it would be taken by the last of them. (Backslashes that
      escape a single quote do not count; and a quote that ends the document can do no harm.) */
  ghost predicate BodyReadable(escaped: bool, s: string)
    decreases |s|
  {
    if s == [] then true
    else if s[0] == BS && |s| > 1 && s[1] == SQ then BodyReadable(false, s[2..])
    else if s[0] == DQ then (escaped ==> |s| == 1) && BodyReadable(false, s[1..])
    else if s[0] == SQ then true
    else BodyReadable(!escaped && s[0] == BS, s[1..])
  }

  ghost predicate Readable(s: string)
    decreases |s|
  {
    if s == [] then true
    else if s[0] == DQ then Readable(s[1..][StringLength(false, s[1..])..])
    else if s[0] == SQ then BodyReadable(false, s[1..]) && Readable(s[1..][SingleLength(s[1..])..])
    else Readable(s[1..])
  }

  /** What follows a string that is closed does not matter to its end. */
  lemma {:induction false} ClosedStays(escaped: bool, u: string, t: string)
    requires StringLength(escaped, u) < |u| || t == []
    ensures StringLength(escaped, u[..StringLength(escaped, u)] + t) == StringLength(escaped, u)
    decreases |u|
  {
    var k := StringLength(escaped, u);
    var w := u[..k] + t;
    if u == [] {
      assert w == [];
    } else if !escaped && u[0] == DQ {
      assert w[0] == DQ;
    } else {
      var next := !escaped && u[0] == BS;
      ClosedStays(next, u[1..], t);
      assert w[0] == u[0] && w[1..] == u[1..][..k - 1] + t;
    }
  }

  lemma {:induction false} ConvertedIsRead(escaped: bool, s: string, t: string)
    requires BodyReadable(escaped, s) && (escaped ==> s == [] || s[0] != SQ)
    requires t == [] || SingleLength(s) < |s|
    ensures StringLength(escaped, Converted(s) + t) == |Converted(s)|
    decreases |s|
  {
    if s == [] {
      assert Converted(s) + t == [];
    } else if s[0] == BS && |s| > 1 && s[1] == SQ {
      ConvertedIsRead(false, s[2..], t);
      Prefixed([SQ], Converted(s[2..]), t);
    } else if s[0] == DQ {
      ConvertedIsRead(false, s[1..], t);
      if escaped { assert s[1..] == [] && Converted(s[1..]) == []; }
      QuoteRead(escaped, Converted(s[1..]), t);
    } else if s[0] == SQ {
      assert (Converted(s) + t)[0] == DQ;
    } else {
      ConvertedIsRead(!escaped && s[0] == BS, s[1..], t);
      Prefixed([s[0]], Converted(s[1..]), t);
    }
  }

  lemma Prefixed(c: string, x: string, t: string)
    requires |c| == 1
    ensures c + x + t == c + (x + t) && (c + x + t)[0] == c[0] && (c + x + t)[1..] == x + t
  {
  }

  /** An escaped quote is read as two characters, or, after a backslash, closes the string. */
  lemma QuoteRead(escaped: bool, x: string, t: string)
    ensures StringLength(escaped, [BS, DQ] + x + t) == 2 + if escaped then 0 else StringLength(false, x + t)
  {
    var w := [BS, DQ] + x + t;
    assert w[0] == BS && w[1..] == [DQ] + (x + t) && w[1..][1..] == x + t;
  }

  lemma {:induction false} ConvertedIsMisread(escaped: bool, s: string, t: string)
    requires !BodyReadable(escaped, s)
    ensures StringLength(escaped, Converted(s) + t) < |Converted(s)|
    decreases |s|
  {
    if s[0] == BS && |s| > 1 && s[1] == SQ {
      ConvertedIsMisread(false, s[2..], t);
      Prefixed([SQ], Converted(s[2..]), t);
    } else if s[0] == DQ {
      QuoteRead(escaped, Converted(s[1..]), t);
      if escaped && |s| > 1 {
        assert Converted(s[1..]) != [];
      } else {
        ConvertedIsMisread(false, s[1..], t);
      }
    } else {
      ConvertedIsMisread(!escaped && s[0] == BS, s[1..], t);
      Prefixed([s[0]], Converted(s[1..]), t);
    }
  }

  // ----- agreement -----

  lemma SplitReadsString(buf: string, text: string, k: nat)
    requires k == StringLength(false, text)
    ensures SplitFrom(buf, [DQ] + text) == Flush(buf) + [Quoted([DQ] + text[..k])] + SplitFrom([], text[k..])
  {
    assert ([DQ] + text)[1..] == text;
    SplitStringReads([DQ], text);
    hide SplitString;
  }

  lemma AgreeDouble(buf: string, s: string)
    requires s != [] && s[0] == DQ
    ensures var rest := s[1..][StringLength(false, s[1..])..];
      SplitFrom(buf, Requote(s)) == Intended(buf, s) <==> SplitFrom([], Requote(rest)) == Intended([], rest)
  {
    var body := s[1..];
    var k := StringLength(false, body);
    var rest := body[k..];
    InDoubleReads(body);
    var out := Requote(rest);
    assert k == |body| ==> rest == [] && out == [];
    ClosedStays(false, body, out);
    var text := body[..k] + out;
    assert Requote(s) == [DQ] + text;
    assert text[..k] == body[..k] && text[k..] == out;
    hide Requote, InDouble, StringLength;
    SplitReadsString(buf, text, k);
    hide SplitFrom;
    var front := Flush(buf) + [Quoted([DQ] + body[..k])];
    assert Intended(buf, s) == front + Intended([], rest);
    hide Intended;
    Cancel(front, SplitFrom([], out), Intended([], rest));
  }

  lemma Cancel<T>(front: seq<T>, a: seq<T>, b: seq<T>)
    ensures front + a == front + b <==> a == b
  {
    assert (front + a)[|front|..] == a && (front + b)[|front|..] == b;
  }

  lemma AgreeSingle(buf: string, s: string)
    requires s != [] && s[0] == SQ
    ensures var rest := s[1..][SingleLength(s[1..])..];
      SplitFrom(buf, Requote(s)) == Intended(buf, s) <==>
        BodyReadable(false, s[1..]) && SplitFrom([], Requote(rest)) == Intended([], rest)
  {
    var body := s[1..];
    var rest := body[SingleLength(body)..];
    var out, conv := Requote(rest), Converted(body);
    InSingleReads(body);
    assert SingleLength(body) == |body| ==> rest == [] && out == [];
    var text := conv + out;
    var k := StringLength(false, text);
    assert Requote(s) == [DQ] + text;
    if BodyReadable(false, body) { ConvertedIsRead(false, body, out); } else { ConvertedIsMisread(false, body, out); }
    hide Requote, InSingle, StringLength, SingleLength, Converted, BodyReadable;
    SplitReadsString(buf, text, k);
    hide SplitFrom;
    var flushed := Flush(buf);
    assert Intended(buf, s) == flushed + [Quoted([DQ] + conv)] + Intended([], rest);
    hide Intended;
    if k == |conv| {
      assert text[..k] == conv && text[k..] == out;
      Cancel(flushed + [Quoted([DQ] + conv)], SplitFrom([], out), Intended([], rest));
    } else {
      Differ(flushed, Quoted([DQ] + text[..k]), SplitFrom([], text[k..]), Quoted([DQ] + conv), Intended([], rest));
    }
  }

  lemma Differ(front: seq<Segment>, x: Segment, a: seq<Segment>, y: Segment, b: seq<Segment>)
    requires |x.content| != |y.content|
    ensures front + [x] + a != front + [y] + b
  {
    assert (front + [x] + a)[|front|] == x && (front + [y] + b)[|front|] == y;
  }

  /** The second scanner finds exactly the intended strings in the first one's output if and only if
      the document is readable. */
  lemma {:induction false} ScannersAgreeExactly(buf: string, s: string)
    ensures SplitFrom(buf, Requote(s)) == Intended(buf, s) <==> Readable(s)
    decreases |s|
  {
    if s == [] {
    } else if s[0] == DQ {
      ScannersAgreeExactly([], s[1..][StringLength(false, s[1..])..]);
      AgreeDouble(buf, s);
      hide StringLength, Requote, SplitFrom, Intended;
    } else if s[0] == SQ {
      ScannersAgreeExactly([], s[1..][SingleLength(s[1..])..]);
      AgreeSingle(buf, s);
      hide SingleLength, Requote, SplitFrom, Intended;
    } else {
      ScannersAgreeExactly(buf + [s[0]], s[1..]);
      assert Requote(s) == [s[0]] + Requote(s[1..]);
      assert ([s[0]] + Requote(s[1..]))[1..] == Requote(s[1..]);
    }
  }

  /** The shortest document on which they disagree: '\"x' becomes "\\"x", and the second scanner sees
      the string end before the x. */
  lemma ScannersDisagree()
    ensures var s := [SQ, BS, DQ, 'x', SQ]; Split(Requote(s)) != Intended([], s)
  {
    var s := [SQ, BS, DQ, 'x', SQ];
    var body := s[1..];
    assert body == [BS, DQ, 'x', SQ] && body[1..] == [DQ, 'x', SQ];
    assert !BodyReadable(true, body[1..]);
    assert !BodyReadable(false, body);
    assert !Readable(s);
    hide Requote, SplitFrom, Intended, Readable;
    ScannersAgreeExactly([], s);
  }
}
