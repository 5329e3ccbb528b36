/** Reading the answer of checkMetadataConsistency: the command cursor is read to its end or killed,
    and the shard and field lists of an issue are sorted and cleared of repetitions in place. */
module MetadataCursor {
  import opened Text
  import opened Sorting

  // ----- repetitions -----

  /** Neighbours that are equal become one. */
  function Dedup<T(==)>(s: seq<T>): (r: seq<T>)
    ensures |r| <= |s| && (s != [] ==> r != [] && r[|r| - 1] == s[|s| - 1])
  {
    if s == [] then []
    else
      var front := Dedup(s[..|s| - 1]);
      if front != [] && front[|front| - 1] == s[|s| - 1] then front else front + [s[|s| - 1]]
  }

  /** The result for the first `i` elements. */
  function Front<T(==)>(s: seq<T>, i: nat): seq<T>
    requires i <= |s|
  {
    Dedup(s[..i])
  }

  lemma FrontStep<T>(s: seq<T>, i: nat, d: seq<T>)
    requires i < |s| && d == Front(s, i) && d != []
    ensures d[|d| - 1] == s[i] ==> Front(s, i + 1) == d
    ensures d[|d| - 1] != s[i] ==> Front(s, i + 1) == d + [s[i]]
  {
    assert s[..i + 1][..i] == s[..i] && s[..i + 1][i] == s[i];
  }

  lemma FrontOne<T>(s: seq<T>)
    ensures s != [] ==> Front(s, 1) == [s[0]]
    ensures |s| < 2 ==> Dedup(s) == s
    ensures Front(s, |s|) == Dedup(s)
  {
    assert s[..|s|] == s;
    if s != [] {
      assert s[..1] == [s[0]] && s[..1][..0] == [];
      assert Dedup(s[..1][..0]) == [];
      if |s| == 1 { assert s == s[..1]; }
    }
  }

  /** `deduplicateStrings`: the result is the first `n` elements of the same array, which is written
      while it is being read. */
  method Deduplicate<T(==)>(values: array<T>) returns (n: nat)
    modifies values
    ensures n <= values.Length && values[..n] == Dedup(old(values[..]))
  {
    hide Dedup, Front;
    ghost var s := values[..];
    FrontOne(s);
    if values.Length < 2 { return values.Length; }
    n := 1;
    var i := 1;
    ghost var d := [s[0]];
    while i < values.Length
      invariant 1 <= n == |d| <= i <= values.Length == |s| && d == Front(s, i)
      invariant Holds(values, n, d) && Unread(values, i, s)
    {
      var value := values[i];
      FrontStep(s, i, d);
      if value != values[n - 1] {
        values[n] := value;
        d := d + [value];
        n := n + 1;
      }
      i := i + 1;
    }
    assert values[..n] == d;
  }

  /** The front of the array is the result so far. */
  ghost predicate Holds<T>(values: array<T>, n: nat, d: seq<T>)
    reads values
  {
    n == |d| <= values.Length && forall k :: 0 <= k < n ==> values[k] == d[k]
  }

  /** The rest is still as it was. */
  ghost predicate Unread<T>(values: array<T>, i: nat, s: seq<T>)
    reads values
  {
    |s| == values.Length && forall k :: i <= k < values.Length ==> values[k] == s[k]
  }

  lemma {:induction false} DedupMembers(s: seq<string>)
    ensures forall x :: x in Dedup(s) <==> x in s
  {
    if s != [] {
      var front, last := s[..|s| - 1], s[|s| - 1];
      DedupMembers(front);
      assert s == front + [last];
      assert forall x :: x in s <==> x in front || x == last;
      var d := Dedup(front);
      if d != [] && d[|d| - 1] == last { assert last in d; }
    }
  }

  ghost predicate Distinct(s: seq<string>) { forall i, j :: 0 <= i < j < |s| ==> s[i] != s[j] }

  lemma {:induction false} DedupOfSorted(s: seq<string>)
    requires Sorted(s, Self)
    ensures Sorted(Dedup(s), Self) && Distinct(Dedup(s))
  {
    if s != [] {
      var front, last := s[..|s| - 1], s[|s| - 1];
      assert s == front + [last];
      DedupOfSorted(front);
      DedupMembers(front);
      var d := Dedup(front);
      hide LexLe;
      forall i | 0 <= i < |d|
        ensures LexLe(d[i], last)
      {
        assert d[i] in front;
        var k :| 0 <= k < |front| && front[k] == d[i];
        assert s[k] == d[i] && LexLe(Self(s[k]), Self(s[|s| - 1]));
      }
      if d == [] || d[|d| - 1] != last {
        forall i | 0 <= i < |d|
          ensures d[i] != last
        {
          if d[i] == last && i < |d| - 1 {
            assert LexLe(Self(d[i]), Self(d[|d| - 1]));
            LexAntisymmetric(last, d[|d| - 1]);
          }
        }
      }
    }
  }

  lemma {:induction false} DistinctIsSet(s: seq<string>)
    requires Distinct(s)
    ensures multiset(s) == multiset(set x | x in s)
  {
    if s != [] {
      var rest := s[1..];
      assert s == [s[0]] + rest;
      DistinctIsSet(rest);
      assert s[0] !in rest;
      assert (set x | x in s) == (set x | x in rest) + {s[0]};
    }
  }

  /** Sorting first makes the result the members in order, each once, so two shards that list the
      same fields in any order and with any repetitions yield the same issue. */
  lemma SortedDedupIsCanonical(s: seq<string>)
    ensures Dedup(SortStrings(s)) == SortedKeys(set x | x in s)
  {
    var t := SortStrings(s);
    DedupOfSorted(t);
    DedupMembers(t);
    var d := Dedup(t);
    assert forall x :: x in t <==> x in multiset(t);
    assert forall x :: x in s <==> x in multiset(s);
    assert (set x | x in d) == (set x | x in s);
    DistinctIsSet(d);
    hide Dedup, SortStrings, SortedKeys;
    SortedUnique(d, SortedKeys(set x | x in s), Self);
  }

  // ----- the command cursor -----

  type Issue = nat

  /** A decoded cursor response; `issues` is nothing when one of its issues cannot be decoded. */
  datatype Batch = Undecodable | Decoded(issues: seq<Issue>)

  datatype Response = Response(id: int, namespace: string, batch: Batch)

  datatype Command = Check | GetMore(id: int, collection: string) | Kill(collection: string, id: int)

  class Server {
    var left: nat                    // batches the cursor still has
    ghost var asked: seq<Command>
    ghost var told: seq<Response>

    constructor ()
      ensures asked == [] && told == []
    {
      left := *;
      asked, told := [], [];
    }

    /** Runs a command and decodes the response; a cursor that has nothing more has id 0. */
    method Run(command: Command) returns (ok: bool, r: Response)
      modifies this
      ensures asked == old(asked) + [command]
      ensures told == if ok then old(told) + [r] else old(told)
      ensures ok && r.id != 0 && command.GetMore? ==> left < old(left)
    {
      ok, r := *, *;
      if command.GetMore? {
        if left > 0 { left := left - 1; } else { r := r.(id := 0); }
      }
      asked := asked + [command];
      if ok { told := told + [r]; }
    }

    /** A kill command, whose answer nobody looks at. */
    method RunKill(collection: string, id: int)
      modifies this`asked
      ensures asked == old(asked) + [Kill(collection, id)]
    {
      asked := asked + [Kill(collection, id)];
    }
  }

  /** `metadataCursorCollection`: the collection part, or nothing when the namespace is invalid. */
  function CursorCollection(database: string, namespace: string): (collection: string)
    ensures collection != "" ==> namespace == database + "." + collection
    ensures collection == "" ==> forall c :: c != "" ==> namespace != database + "." + c
  {
    var prefix := database + ".";
    if prefix <= namespace && |namespace| != |prefix| then namespace[|prefix|..] else ""
  }

  /** The response names a cursor of the database. */
  ghost predicate Good(database: string, r: Response) {
    exists collection :: collection != "" && r.namespace == database + "." + collection
  }

  /** The response is in order, and its cursor has more. */
  ghost predicate Continues(database: string, r: Response) { Good(database, r) && r.batch.Decoded? && r.id != 0 }

  /** The context has ended when the command after `k` responses is due. */
  ghost predicate Cancelled(context: seq<bool>, k: nat) { 0 < k <= |context| && context[k - 1] }

  ghost function Issues(told: seq<Response>): seq<Issue> {
    if told == [] then []
    else Issues(told[..|told| - 1]) + if told[|told| - 1].batch.Decoded? then told[|told| - 1].batch.issues else []
  }

  /** The command loop: after the first command every further one asks for the cursor that the
      response before it named, if that was in order and left something, and the context is alive. */
  ghost predicate Script(asked: seq<Command>, told: seq<Response>, database: string, collection: string, context: seq<bool>) {
    && asked != [] && asked[0] == Check && |told| <= |asked| <= |told| + 1
    && forall k: nat :: 1 <= k < |asked| ==> Follows(asked, told, database, collection, context, k)
  }

  /** Command `k` asks for the rest of what response `k - 1` began. */
  ghost predicate Follows(asked: seq<Command>, told: seq<Response>, database: string, collection: string, context: seq<bool>, k: nat)
    requires 1 <= k < |asked|
  {
    k <= |told| && asked[k] == GetMore(told[k - 1].id, collection) && Continues(database, told[k - 1]) && !Cancelled(context, k)
  }

  /** The loop ends well exactly with a last response in order that leaves nothing; and it ends otherwise only
      with a command that failed, a response out of order, or a context that has ended. */
  ghost predicate Ends(asked: seq<Command>, told: seq<Response>, database: string, context: seq<bool>, ok: bool) {
    && (ok <==> |told| == |asked| > 0 && Good(database, told[|told| - 1]) && told[|told| - 1].batch.Decoded? && told[|told| - 1].id == 0)
    && (!ok ==> |told| < |asked| || told == [] || !Good(database, told[|told| - 1]) || told[|told| - 1].batch.Undecodable?
                || Cancelled(context, |told|))
  }

  /** The cursor that is open as far as the program knows: the one of the last valid response. */
  ghost function OpenCursor(database: string, told: seq<Response>): int {
    if told == [] then 0
    else if |told| == 1 || Good(database, told[|told| - 1]) then told[|told| - 1].id
    else told[|told| - 2].id
  }

  /** `collectMetadataIndexConsistency`, as far as the cursor goes. */
  method CollectIssues(server: Server, database: string, context: seq<bool>) returns (ok: bool, issues: seq<Issue>)
    requires server.asked == [] && server.told == []
    modifies server
    // a complete answer is the issues of all batches, and its cursor is exhausted
    ensures ok ==> server.told != [] && issues == Issues(server.told) && OpenCursor(database, server.told) == 0
                   && (forall k :: 0 <= k < |server.told| ==> Good(database, server.told[k]) && server.told[k].batch.Decoded?)
    // a cursor that is still open at the end is killed, and no other is
    ensures var told := server.told;
      var collection := if told == [] then "" else CursorCollection(database, told[0].namespace);
      var kill := OpenCursor(database, told) != 0 && collection != "";
      var asked := if kill && server.asked != [] then server.asked[..|server.asked| - 1] else server.asked;
      && (kill ==> server.asked != [] && server.asked[|server.asked| - 1] == Kill(collection, OpenCursor(database, told)))
      && Script(asked, told, database, collection, context) && Ends(asked, told, database, context, ok)
  {
    hide Issues, CursorCollection, Script, Ends, OpenCursor, Good;
    var cursorId, collection;
    ok, issues, cursorId, collection := ReadCursor(server, database, context);
    if cursorId != 0 && collection != "" {
      ghost var asked := server.asked;
      server.RunKill(collection, cursorId);
      assert server.asked[..|asked|] == asked;
    }
  }

  /** The body before the deferred kill: what it read, and the cursor it knows of. */
  method ReadCursor(server: Server, database: string, context: seq<bool>)
    returns (ok: bool, issues: seq<Issue>, cursorId: int, collection: string)
    requires server.asked == [] && server.told == []
    modifies server
    ensures collection == if server.told == [] then "" else CursorCollection(database, server.told[0].namespace)
    ensures cursorId == OpenCursor(database, server.told)
    ensures Script(server.asked, server.told, database, collection, context)
    ensures Ends(server.asked, server.told, database, context, ok)
    ensures ok ==> server.told != [] && issues == Issues(server.told) && cursorId == 0
                   && (forall k :: 0 <= k < |server.told| ==> Good(database, server.told[k]) && server.told[k].batch.Decoded?)
  {
    hide Issues, CursorCollection, Script, Good, OpenCursor;
    ok, issues, cursorId, collection := false, [], 0, "";
    var answered, response := server.Run(Check);
    Started(server.asked, server.told, database, context);
    if !answered { return; }
    cursorId := response.id;
    collection := CursorCollection(database, response.namespace);
    GoodMeans(database, response);
    if collection == "" { return; }
    if response.batch.Undecodable? { return; }
    issues := response.batch.issues;
    var step := 0;
    while cursorId != 0
      invariant server.told != [] && server.told[0] == response && step == |server.told| - 1
      invariant InProgress(server.asked, server.told, database, collection, context, issues, cursorId)
      decreases cursorId != 0, server.left
    {
      // the context may have ended
      InProgressMeans(server.asked, server.told, database, collection, context, issues, cursorId);
      if step < |context| && context[step] { return; }
      step := step + 1;
      ghost var asked, told := server.asked, server.told;
      var more, next := server.Run(GetMore(cursorId, collection));
      Continued(asked, told, database, collection, context, issues, cursorId, more, next);
      if !more { return; }
      assert server.told[..|told|] == told;
      GoodMeans(database, next);
      if CursorCollection(database, next.namespace) == "" { return; }
      cursorId := next.id;
      if next.batch.Undecodable? { return; }
      issues := issues + next.batch.issues;
    }
    InProgressMeans(server.asked, server.told, database, collection, context, issues, cursorId);
    ok := true;
  }

  lemma GoodMeans(database: string, r: Response)
    ensures Good(database, r) <==> CursorCollection(database, r.namespace) != ""
  {
    if CursorCollection(database, r.namespace) != "" {
      assert r.namespace == database + "." + CursorCollection(database, r.namespace);
    }
    hide CursorCollection;
  }

  /** Between two commands: every response so far was valid and is accounted for. */
  ghost predicate InProgress(asked: seq<Command>, told: seq<Response>, database: string, collection: string, context: seq<bool>,
                             issues: seq<Issue>, cursorId: int) {
    && told != [] && |asked| == |told| && Script(asked, told, database, collection, context)
    && cursorId == told[|told| - 1].id && issues == Issues(told)
    && forall k :: 0 <= k < |told| ==> Good(database, told[k]) && told[k].batch.Decoded?
  }

  lemma InProgressMeans(asked: seq<Command>, told: seq<Response>, database: string, collection: string, context: seq<bool>,
                        issues: seq<Issue>, cursorId: int)
    requires InProgress(asked, told, database, collection, context, issues, cursorId)
    ensures |asked| == |told| && told != [] && cursorId == told[|told| - 1].id
    ensures Script(asked, told, database, collection, context) && cursorId == OpenCursor(database, told) && issues == Issues(told)
    ensures forall k :: 0 <= k < |told| ==> Good(database, told[k]) && told[k].batch.Decoded?
  {
    hide Good;
  }

  lemma Started(asked: seq<Command>, told: seq<Response>, database: string, context: seq<bool>)
    requires asked == [Check] && |told| <= 1
    ensures forall collection :: Script(asked, told, database, collection, context)
    ensures OpenCursor(database, told) == if told == [] then 0 else told[0].id
    ensures told != [] && Good(database, told[0]) && told[0].batch.Decoded? ==>
              InProgress(asked, told, database, CursorCollection(database, told[0].namespace), context, told[0].batch.issues, told[0].id)
  {
    hide CursorCollection, Good;
    if told != [] {
      assert told[..0] == [] && Issues(told[..0]) == [];
      if told[0].batch.Decoded? { assert [] + told[0].batch.issues == told[0].batch.issues; }
    }
  }

  lemma Continued(asked: seq<Command>, told: seq<Response>, database: string, collection: string, context: seq<bool>,
                  issues: seq<Issue>, cursorId: int, more: bool, next: Response)
    requires InProgress(asked, told, database, collection, context, issues, cursorId)
    requires cursorId != 0 && !Cancelled(context, |told|)
    ensures var asked', told' := asked + [GetMore(cursorId, collection)], if more then told + [next] else told;
      && Script(asked', told', database, collection, context)
      && OpenCursor(database, told') == (if more && Good(database, next) then next.id else cursorId)
      && (more && Good(database, next) && next.batch.Decoded? ==>
            InProgress(asked', told', database, collection, context, issues + next.batch.issues, next.id))
  {
    hide CursorCollection, Good;
    var asked', told' := asked + [GetMore(cursorId, collection)], if more then told + [next] else told;
    ScriptGoesOn(asked, told, database, collection, context, told');
    OpenNext(database, told, next);
    hide Script, OpenCursor;
    if more {
      assert told'[..|told|] == told;
    }
  }

  lemma ScriptGoesOn(asked: seq<Command>, told: seq<Response>, database: string, collection: string, context: seq<bool>, more: seq<Response>)
    requires Script(asked, told, database, collection, context) && |asked| == |told| && told <= more && |more| <= |told| + 1
    requires Continues(database, told[|told| - 1]) && !Cancelled(context, |told|)
    ensures Script(asked + [GetMore(told[|told| - 1].id, collection)], more, database, collection, context)
  {
    hide Continues, Cancelled;
    var all := asked + [GetMore(told[|told| - 1].id, collection)];
    assert all[0] == asked[0];
    forall k: nat | 1 <= k < |all|
      ensures Follows(all, more, database, collection, context, k)
    {
      assert more[k - 1] == told[k - 1];
      if k < |asked| {
        assert Follows(asked, told, database, collection, context, k) && all[k] == asked[k];
      } else {
        assert k == |told|;
      }
    }
  }

  lemma OpenNext(database: string, told: seq<Response>, next: Response)
    requires told != [] && Good(database, told[|told| - 1])
    ensures OpenCursor(database, told) == told[|told| - 1].id
    ensures OpenCursor(database, told + [next]) == if Good(database, next) then next.id else told[|told| - 1].id
  {
    hide Good;
  }
}
