/** Deleting or updating in batches: ids are read from a cursor, written batch by batch, and a cursor
    that fails is opened again only while nothing has been written. */
module BulkRun {

  const MAX_BATCH_SIZE := 50000
  const DEFAULT_MAX_RETRIES := 3

  type Id = nat

  /** A write call: the ids it was given, whether it succeeded, and what it reported. */
  datatype Write = Write(ids: seq<Id>, ok: bool, deleted: nat, matched: nat, modified: nat)

  /** Where the context is looked at. */
  datatype Where = AtStart | AtDocument | AtBatch

  /** What the program asks of the world, and the answer. */
  datatype Event =
    | Noticed(at: Where, cancelled: bool)
    | Counted(ok: bool, total: nat)
    | Opened(ok: bool, retryable: bool)
    | Advanced(more: bool)
    | Decoded(ok: bool)
    | Ended(failed: bool, retryable: bool)
    | Wrote(ok: bool)
    | Waited(ok: bool)

  /** One opening of the cursor: the ids it yielded, the writes issued meanwhile, and all that happened. */
  datatype Pass = Pass(stream: seq<Id>, writes: seq<Write>, log: seq<Event>)

  /** What the observer is told after a batch. */
  datatype Report = Report(number: nat, processed: nat, deleted: nat, matched: nat, modified: nat)

  // ----- what a list of writes amounts to -----

  ghost function Ids(writes: seq<Write>): seq<Id> {
    if writes == [] then [] else Ids(writes[..|writes| - 1]) + writes[|writes| - 1].ids
  }

  ghost function Deleted(writes: seq<Write>): nat {
    if writes == [] then 0 else Deleted(writes[..|writes| - 1]) + writes[|writes| - 1].deleted
  }

  ghost function Matched(writes: seq<Write>): nat {
    if writes == [] then 0 else Matched(writes[..|writes| - 1]) + writes[|writes| - 1].matched
  }

  ghost function Modified(writes: seq<Write>): nat {
    if writes == [] then 0 else Modified(writes[..|writes| - 1]) + writes[|writes| - 1].modified
  }

  /** The reports of completed writes: numbers 1, 2, 3, … and the ids written so far. */
  ghost function Reports(writes: seq<Write>): seq<Report> {
    if writes == [] then []
    else
      var last := writes[|writes| - 1];
      Reports(writes[..|writes| - 1]) + [Report(|writes|, |Ids(writes)|, last.deleted, last.matched, last.modified)]
  }

  /** The writes that succeeded, when only the last one can have failed. */
  ghost function Completed(writes: seq<Write>): seq<Write> {
    if writes != [] && !writes[|writes| - 1].ok then writes[..|writes| - 1] else writes
  }

  /** All writes but the last are full and succeeded, and no write is empty or too large. */
  ghost predicate Orderly(writes: seq<Write>, batchSize: nat) {
    && (forall i :: 0 <= i < |writes| ==> 0 < |writes[i].ids| <= batchSize)
    && (forall i :: 0 <= i < |writes| - 1 ==> writes[i].ok && |writes[i].ids| == batchSize)
  }

  ghost predicate FullAndOk(writes: seq<Write>, batchSize: nat) {
    forall i :: 0 <= i < |writes| ==> writes[i].ok && |writes[i].ids| == batchSize
  }

  lemma Append(writes: seq<Write>, w: Write)
    ensures Ids(writes + [w]) == Ids(writes) + w.ids
    ensures Deleted(writes + [w]) == Deleted(writes) + w.deleted
    ensures Matched(writes + [w]) == Matched(writes) + w.matched
    ensures Modified(writes + [w]) == Modified(writes) + w.modified
    ensures Reports(writes + [w]) == Reports(writes) + [Report(|writes| + 1, |Ids(writes)| + |w.ids|, w.deleted, w.matched, w.modified)]
    ensures Completed(writes + [w]) == if w.ok then writes + [w] else writes
  {
    assert (writes + [w])[..|writes|] == writes;
    AppendIds(writes, w);
    AppendReport(writes, w);
    hide Ids, Reports;
  }

  lemma AppendIds(writes: seq<Write>, w: Write)
    ensures Ids(writes + [w]) == Ids(writes) + w.ids
  {
    assert (writes + [w])[..|writes|] == writes;
  }

  lemma AppendReport(writes: seq<Write>, w: Write)
    ensures Reports(writes + [w]) == Reports(writes) + [Report(|writes| + 1, |Ids(writes)| + |w.ids|, w.deleted, w.matched, w.modified)]
  {
    AppendIds(writes, w);
    hide Ids, Deleted, Matched, Modified, Completed;
    var all := writes + [w];
    assert all[..|all| - 1] == writes && all[|all| - 1] == w;
  }

  lemma {:induction false} FullIds(writes: seq<Write>, batchSize: nat)
    requires FullAndOk(writes, batchSize)
    ensures |Ids(writes)| == |writes| * batchSize && Completed(writes) == writes
  {
    if writes != [] {
      var init := writes[..|writes| - 1];
      FullIds(init, batchSize);
      assert |writes| * batchSize == |init| * batchSize + batchSize;
    }
  }

  // ----- the course of a pass -----

  ghost predicate Fails(e: Event) {
    match e
    case Noticed(_, cancelled) => cancelled
    case Ended(failed, _) => failed
    case Counted(ok, _) => !ok
    case Opened(ok, _) => !ok
    case Decoded(ok) => !ok
    case Wrote(ok) => !ok
    case Waited(ok) => !ok
    case Advanced(_) => false
  }

  /** What may come after an event that did not fail. */
  ghost predicate MayFollow(a: Event, b: Event, pause: int) {
    match a
    case Opened(_, _) => b.Advanced?
    case Advanced(more) => if more then b.Noticed? && b.at == AtDocument else b.Ended?
    case Noticed(at, _) => if at == AtDocument then b.Decoded? else at == AtBatch && b.Wrote?
    case Decoded(_) => b.Advanced? || (b.Noticed? && b.at == AtBatch)
    case Ended(_, _) => b.Noticed? && b.at == AtBatch
    case Wrote(_) => if pause > 0 then b.Waited? else b.Advanced?
    case Waited(_) => b.Advanced?
    case Counted(_, _) => false
  }

  /** A pass so far: it has opened the cursor, and nothing has failed. */
  ghost predicate Running(log: seq<Event>, pause: int) {
    && log != [] && log[0].Opened?
    && (forall k :: 0 <= k < |log| ==> !Fails(log[k]))
    && (forall k :: 0 < k < |log| ==> MayFollow(log[k - 1], log[k], pause))
  }

  /** The first failure ends a pass; without one it ends when the cursor has ended well, and after the
      last write and its pause, if there was something left to write. */
  ghost predicate Course(log: seq<Event>, pause: int, ok: bool) {
    && log != []
    && if ok then
         && Running(log, pause) && (exists again :: Ended(false, again) in log)
         && var last := log[|log| - 1]; last.Ended? || last.Waited? || (last.Wrote? && pause <= 0)
       else
         var front, last := log[..|log| - 1], log[|log| - 1];
         Fails(last) && if front == [] then last.Opened? else Running(front, pause) && MayFollow(front[|front| - 1], last, pause)
  }

  /** The pass failed in a way that may pass: its cursor could not be opened, or broke. */
  ghost predicate Transient(log: seq<Event>) {
    log != [] && var last := log[|log| - 1]; (last.Opened? && !last.ok && last.retryable) || (last.Ended? && last.failed && last.retryable)
  }

  lemma GoesOn(log: seq<Event>, e: Event, pause: int)
    requires Running(log, pause) && MayFollow(log[|log| - 1], e, pause)
    ensures if Fails(e) then Course(log + [e], pause, false) else Running(log + [e], pause)
  {
    hide MayFollow, Fails;
    assert (log + [e])[..|log|] == log;
  }

  // ----- the outside world -----

  /** The context, the server and the observer. Every answer is arbitrary; a cancellation stays. */
  class World {
    var cancelled: bool
    var left: nat                     // documents the open cursor still has
    ghost var preflight: seq<Event>   // what happened before the first pass
    ghost var earlier: seq<Pass>      // passes before the current one
    ghost var attempts: nat
    ghost var log: seq<Event>         // the current pass
    ghost var stream: seq<Id>
    ghost var writes: seq<Write>
    ghost var reports: seq<Report>
    ghost var retries: seq<nat>
    ghost var pauses: seq<bool>       // how the pauses before a retry ended

    constructor ()
      ensures attempts == 0 && preflight == [] && earlier == [] && log == [] && stream == [] && writes == []
      ensures reports == [] && retries == [] && pauses == []
    {
      cancelled, left := false, 0;
      attempts, preflight, earlier, log, stream, writes, reports, retries, pauses := 0, [], [], [], [], [], [], [], [];
    }

    method MayCancel()
      modifies this`cancelled
      ensures old(cancelled) ==> cancelled
    {
      var now: bool := *;
      cancelled := cancelled || now;
    }

    /** `contextError`. */
    method Check(ghost at: Where) returns (b: bool)
      modifies this`cancelled, this`log
      ensures b == cancelled && (old(cancelled) ==> b)
      ensures log == old(log) + [Noticed(at, b)]
    {
      MayCancel();
      b := cancelled;
      log := log + [Noticed(at, b)];
    }

    /** `waitWithContext`, after a batch. */
    method Wait() returns (ok: bool)
      modifies this`cancelled, this`log
      ensures old(cancelled) ==> cancelled && !ok
      ensures log == old(log) + [Waited(ok)]
    {
      MayCancel();
      ok := !cancelled;
      log := log + [Waited(ok)];
    }

    /** `waitWithContext`, before a retry. */
    method WaitToRetry() returns (ok: bool)
      modifies this`cancelled, this`pauses
      ensures old(cancelled) ==> cancelled && !ok
      ensures pauses == old(pauses) + [ok]
    {
      MayCancel();
      ok := !cancelled;
      pauses := pauses + [ok];
    }

    method Count() returns (ok: bool, total: nat)
      modifies this`cancelled, this`log
      ensures old(cancelled) ==> cancelled
      ensures log == old(log) + [Counted(ok, total)]
    {
      MayCancel();
      ok, total := *, *;
      log := log + [Counted(ok, total)];
    }

    /** `FindIDsCursor`. */
    method Open() returns (ok: bool, retryable: bool)
      modifies this`cancelled, this`left, this`preflight, this`earlier, this`attempts, this`log, this`stream, this`writes
      ensures old(cancelled) ==> cancelled
      ensures attempts == old(attempts) + 1 && log == [Opened(ok, retryable)] && stream == [] && writes == []
      ensures preflight == if old(attempts) == 0 then old(log) else old(preflight)
      ensures earlier == if old(attempts) == 0 then old(earlier) else old(earlier) + [Pass(old(stream), old(writes), old(log))]
    {
      MayCancel();
      ok, retryable, left := *, *, *;
      if attempts == 0 { preflight := log; } else { earlier := earlier + [Pass(stream, writes, log)]; }
      attempts, log, stream, writes := attempts + 1, [Opened(ok, retryable)], [], [];
    }

    /** `cur.Next` and, when it says yes, the document's id. */
    method Next() returns (more: bool, id: Id)
      modifies this`cancelled, this`left, this`log, this`stream
      ensures old(cancelled) ==> cancelled
      ensures log == old(log) + [Advanced(more)]
      ensures more ==> old(left) > 0 && left == old(left) - 1 && stream == old(stream) + [id]
      ensures !more ==> stream == old(stream) && left == old(left)
    {
      MayCancel();
      more, id := *, *;
      more := more && left > 0;
      if more { left, stream := left - 1, stream + [id]; }
      log := log + [Advanced(more)];
    }

    method Decode() returns (ok: bool)
      modifies this`log
      ensures log == old(log) + [Decoded(ok)]
    {
      ok := *;
      log := log + [Decoded(ok)];
    }

    /** `cur.Err`: when the cursor has nothing more it may have failed. */
    method Err() returns (failed: bool, retryable: bool)
      modifies this`log
      ensures log == old(log) + [Ended(failed, retryable)]
    {
      failed, retryable := *, *;
      log := log + [Ended(failed, retryable)];
    }

    /** The write call gets the buffer itself, of which the first `n` ids are meant. */
    method Exec(ids: array<Id>, n: nat) returns (ok: bool, deleted: nat, matched: nat, modified: nat)
      requires n <= ids.Length
      modifies this`cancelled, this`log, this`writes
      ensures old(cancelled) ==> cancelled
      ensures log == old(log) + [Wrote(ok)]
      ensures writes == old(writes) + [Write(ids[..n], ok, deleted, matched, modified)]
    {
      MayCancel();
      ok, deleted, matched, modified := *, *, *, *;
      log := log + [Wrote(ok)];
      writes := writes + [Write(ids[..n], ok, deleted, matched, modified)];
    }

    method OnBatch(r: Report)
      modifies this`reports
      ensures reports == old(reports) + [r]
    {
      reports := reports + [r];
    }

    method OnRetry(attempt: nat)
      modifies this`retries
      ensures retries == old(retries) + [attempt]
    {
      retries := retries + [attempt];
    }
  }

  class BulkResult {
    var matchedTotal: nat
    var batchCount: nat
    var processed: nat
    var deleted: nat
    var matched: nat
    var modified: nat

    constructor ()
      ensures matchedTotal == batchCount == processed == deleted == matched == modified == 0
    {
      matchedTotal, batchCount, processed, deleted, matched, modified := 0, 0, 0, 0, 0, 0;
    }

    /** The counters are those of the writes given. */
    ghost predicate Counts(writes: seq<Write>)
      reads this
    {
      && batchCount == |writes| && processed == |Ids(writes)|
      && deleted == Deleted(writes) && matched == Matched(writes) && modified == Modified(writes)
    }
  }

  datatype Options = Options(batchSize: int, maxRetries: int, pause: int, dryRun: bool, emptyFilter: bool, allowEmptyFilter: bool)

  // ----- the program -----

  /** One write more, of these ids. */
  ghost predicate OneMore(before: seq<Write>, after: seq<Write>, ids: seq<Id>) {
    |after| == |before| + 1 && after[..|before|] == before && after[|before|].ids == ids
  }

  /** What `executeBulkBatch` makes happen: the context is looked at, then there is one write, then a
      pause if one is wanted; the first failure ends it. */
  ghost predicate BatchCourse(before: seq<Event>, after: seq<Event>, pause: int, ok: bool) {
    if ok then after == before + [Noticed(AtBatch, false), Wrote(true)] + if pause > 0 then [Waited(true)] else []
    else
      || after == before + [Noticed(AtBatch, true)]
      || after == before + [Noticed(AtBatch, false), Wrote(false)]
      || (pause > 0 && after == before + [Noticed(AtBatch, false), Wrote(true), Waited(false)])
  }

  /** `executeBulkBatch`. Either the context has ended and nothing happens, or there is one write. */
  method ExecuteBatch(world: World, result: BulkResult, pause: int, ids: array<Id>, n: nat) returns (ok: bool)
    requires 0 < n <= ids.Length && result.Counts(world.writes) && world.reports == Reports(world.writes)
    requires Completed(world.writes) == world.writes
    modifies world`cancelled, world`log, world`writes, world`reports
    modifies result`batchCount, result`processed, result`deleted, result`matched, result`modified
    ensures BatchCourse(old(world.log), world.log, pause, ok)
    ensures world.log == old(world.log) + [Noticed(AtBatch, true)] ==> world.writes == old(world.writes)
    ensures world.log != old(world.log) + [Noticed(AtBatch, true)] ==> OneMore(old(world.writes), world.writes, old(ids[..n]))
    ensures ok ==> OneMore(old(world.writes), world.writes, old(ids[..n])) && Completed(world.writes) == world.writes
    ensures result.Counts(Completed(world.writes)) && world.reports == Reports(Completed(world.writes))
  {
    var ended := world.Check(AtBatch);
    if ended { return false; }
    ghost var before := world.writes;
    var done, deleted, matched, modified := world.Exec(ids, n);
    ghost var w := Write(ids[..n], done, deleted, matched, modified);
    Append(before, w);
    assert world.writes == before + [w] && world.writes[..|before|] == before;
    if !done { return false; }
    result.batchCount := result.batchCount + 1;
    result.processed := result.processed + n;
    result.deleted := result.deleted + deleted;
    result.matched := result.matched + matched;
    result.modified := result.modified + modified;
    world.OnBatch(Report(result.batchCount, result.processed, deleted, matched, modified));
    if pause > 0 {
      ok := world.Wait();
    } else {
      ok := true;
    }
  }

  lemma BatchGoesOn(before: seq<Event>, after: seq<Event>, pause: int, ok: bool)
    requires Running(before, pause) && BatchCourse(before, after, pause, ok)
    requires MayFollow(before[|before| - 1], Noticed(AtBatch, false), pause)
    ensures if ok then Running(after, pause) && WroteLast(after, pause) else Course(after, pause, false)
  {
    var checked := before + [Noticed(AtBatch, false)];
    var wrote := checked + [Wrote(true)];
    MayBeNoticed(before[|before| - 1], pause);
    GoesOn(before, Noticed(AtBatch, true), pause);
    GoesOn(before, Noticed(AtBatch, false), pause);
    GoesOn(checked, Wrote(false), pause);
    GoesOn(checked, Wrote(true), pause);
    if pause > 0 {
      GoesOn(wrote, Waited(true), pause);
      GoesOn(wrote, Waited(false), pause);
    }
    hide Running, Course;
    assert before + [Noticed(AtBatch, false), Wrote(true)] == wrote;
    assert before + [Noticed(AtBatch, false), Wrote(false)] == checked + [Wrote(false)];
    assert before + [Noticed(AtBatch, false), Wrote(true), Waited(false)] == wrote + [Waited(false)];
  }

  lemma MayBeNoticed(a: Event, pause: int)
    requires MayFollow(a, Noticed(AtBatch, false), pause)
    ensures MayFollow(a, Noticed(AtBatch, true), pause)
  {
  }

  /** A write, and its pause, are done. */
  ghost predicate WroteLast(log: seq<Event>, pause: int) {
    log != [] && var last := log[|log| - 1]; last == Waited(true) || (last == Wrote(true) && pause <= 0)
  }

  /** What holds of a pass when it has ended. Of what was read no more than one batch is unwritten. */
  ghost predicate PassSound(stream: seq<Id>, writes: seq<Write>, batchSize: nat) {
    Orderly(writes, batchSize) && Ids(writes) <= stream && |stream| <= |Ids(writes)| + batchSize
  }

  /** The check and the decoding of one document. */
  method TakeId(world: World, pause: int) returns (ok: bool)
    requires Running(world.log, pause) && world.log[|world.log| - 1] == Advanced(true)
    modifies world`cancelled, world`log
    ensures if ok then Running(world.log, pause) && world.log[|world.log| - 1] == Decoded(true) else Course(world.log, pause, false)
    ensures !ok ==> !Transient(world.log)
  {
    hide Running, Course;
    GoesOn(world.log, Noticed(AtDocument, true), pause);
    GoesOn(world.log, Noticed(AtDocument, false), pause);
    var ended := world.Check(AtDocument);
    if ended { return false; }
    GoesOn(world.log, Decoded(true), pause);
    GoesOn(world.log, Decoded(false), pause);
    ok := world.Decode();
  }

  /** `runBulkOnce`: one pass over the cursor, with one buffer for all batches. */
  method RunOnce(world: World, result: BulkResult, batchSize: nat, pause: int) returns (ok: bool, retryable: bool)
    requires batchSize > 0 && result.Counts([]) && world.reports == []
    modifies world`cancelled, world`left, world`preflight, world`earlier, world`attempts, world`log, world`stream, world`writes, world`reports
    modifies result`batchCount, result`processed, result`deleted, result`matched, result`modified
    ensures world.attempts == old(world.attempts) + 1
    ensures world.preflight == if old(world.attempts) == 0 then old(world.log) else old(world.preflight)
    ensures world.earlier == if old(world.attempts) == 0 then old(world.earlier)
                             else old(world.earlier) + [Pass(old(world.stream), old(world.writes), old(world.log))]
    ensures Course(world.log, pause, ok)
    ensures retryable <==> Transient(world.log)
    ensures PassSound(world.stream, world.writes, batchSize)
    ensures result.Counts(Completed(world.writes)) && world.reports == Reports(Completed(world.writes))
    ensures ok ==> Ids(world.writes) == world.stream && Completed(world.writes) == world.writes
    ensures retryable ==> Completed(world.writes) == world.writes
  {
    hide Ids, Reports, Deleted, Matched, Modified, Completed, FullAndOk, PassSound, Running, Course, Transient;
    NothingYet(batchSize);
    var wasOpened, transient := world.Open();
    PassEnds(world.writes, world.stream, [], batchSize);
    PassOpens(wasOpened, transient, pause);
    if !wasOpened { return false, transient; }
    ok, retryable := ReadAndWrite(world, result, batchSize, pause);
  }

  /** What follows once the cursor is open. */
  method ReadAndWrite(world: World, result: BulkResult, batchSize: nat, pause: int) returns (ok: bool, retryable: bool)
    requires batchSize > 0 && result.Counts([]) && world.reports == [] && world.stream == [] && world.writes == []
    requires Running(world.log, pause) && world.log[|world.log| - 1].Opened?
    modifies world`cancelled, world`left, world`log, world`stream, world`writes, world`reports
    modifies result`batchCount, result`processed, result`deleted, result`matched, result`modified
    ensures Course(world.log, pause, ok)
    ensures retryable <==> Transient(world.log)
    ensures PassSound(world.stream, world.writes, batchSize)
    ensures result.Counts(Completed(world.writes)) && world.reports == Reports(Completed(world.writes))
    ensures ok ==> Ids(world.writes) == world.stream && Completed(world.writes) == world.writes
    ensures retryable ==> Completed(world.writes) == world.writes
  {
    hide Ids, Reports, Deleted, Matched, Modified, Completed, FullAndOk, PassSound, OneMore, Reading, Running, Course, BatchCourse, WroteLast, Transient;
    NothingYet(batchSize);
    var ids := new Id[batchSize];
    var n := 0;
    assert ids[..n] == [];
    ghost var read := world.stream;
    var more, id := ReadNext(world, pause);
    NextRead(read, world.stream, world.writes, ids[..n], if more then [id] else []);
    while more
      invariant 0 <= n < batchSize && ids.Length == batchSize && fresh(ids)
      invariant Running(world.log, pause) && LastIs(world.log, Advanced(more))
      invariant FullAndOk(world.writes, batchSize)
      invariant result.Counts(world.writes) && world.reports == Reports(world.writes)
      invariant Reading(world.stream, world.writes, ids[..n], if more then [id] else [])
      decreases world.left, more
    {
      EndsHere(world.stream, world.writes, ids[..n], [id], batchSize);
      ghost var pending := ids[..n];
      var taken := TakeId(world, pause);
      if !taken { return false, false; }
      ids[n] := id;
      n := n + 1;
      assert ids[..n] == pending + [id];
      Taken(world.stream, world.writes, pending, id);
      if n >= batchSize {
        ghost var before, log := world.writes, world.log;
        var done := ExecuteBatch(world, result, pause, ids, n);
        BatchGoesOn(log, world.log, pause, done);
        if !done {
          Interrupted(before, world.writes, ids[..n], world.stream, batchSize);
          NotTransient(log, world.log, pause);
          return false, false;
        }
        BatchDone(world.stream, before, world.writes, ids[..n], batchSize);
        n := 0;
        assert ids[..n] == [];
      }
      read := world.stream;
      more, id := ReadNext(world, pause);
      NextRead(read, world.stream, world.writes, ids[..n], if more then [id] else []);
    }
    EndsHere(world.stream, world.writes, ids[..n], [], batchSize);
    ghost var reading := world.log;
    var failed, again := world.Err();
    CursorEnds(reading, failed, again, pause);
    if failed { return false, again; }
    if n > 0 {
      ghost var before, log := world.writes, world.log;
      var done := ExecuteBatch(world, result, pause, ids, n);
      Interrupted(before, world.writes, ids[..n], world.stream, batchSize);
      BatchGoesOn(log, world.log, pause, done);
      if !done {
        NotTransient(log, world.log, pause);
        return false, false;
      }
      BatchDone(world.stream, before, world.writes, ids[..n], batchSize);
      ReadAll(world.stream, world.writes);
      EndsWell(log, world.log, again, pause);
    } else {
      assert ids[..n] == [];
      ReadAll(world.stream, world.writes);
    }
    return true, false;
  }

  ghost predicate LastIs(log: seq<Event>, e: Event) { log != [] && log[|log| - 1] == e }

  /** `cur.Next`, which may come first or after a document or a batch. */
  method ReadNext(world: World, pause: int) returns (more: bool, id: Id)
    requires Running(world.log, pause)
    requires var last := world.log[|world.log| - 1]; last.Opened? || last.Decoded? || WroteLast(world.log, pause)
    modifies world`cancelled, world`left, world`log, world`stream
    ensures more ==> old(world.left) > 0 && world.left == old(world.left) - 1 && world.stream == old(world.stream) + [id]
    ensures !more ==> world.stream == old(world.stream) && world.left == old(world.left)
    ensures Running(world.log, pause) && LastIs(world.log, Advanced(more))
  {
    hide Running;
    GoesOn(world.log, Advanced(true), pause);
    GoesOn(world.log, Advanced(false), pause);
    more, id := world.Next();
  }

  lemma PassOpens(ok: bool, retryable: bool, pause: int)
    ensures if ok then Running([Opened(ok, retryable)], pause) else Course([Opened(ok, retryable)], pause, false)
    ensures Transient([Opened(ok, retryable)]) <==> !ok && retryable
  {
    assert [Opened(ok, retryable)][..0] == [];
  }

  lemma CursorEnds(log: seq<Event>, failed: bool, again: bool, pause: int)
    requires Running(log, pause) && LastIs(log, Advanced(false))
    ensures Course(log + [Ended(failed, again)], pause, !failed)
    ensures !failed ==> Running(log + [Ended(failed, again)], pause)
    ensures Transient(log + [Ended(failed, again)]) <==> failed && again
  {
    GoesOn(log, Ended(failed, again), pause);
    if !failed { assert Ended(false, again) in log + [Ended(failed, again)]; }
    hide Running;
  }

  lemma EndsWell(before: seq<Event>, after: seq<Event>, again: bool, pause: int)
    requires LastIs(before, Ended(false, again)) && BatchCourse(before, after, pause, true) && Running(after, pause)
    ensures Course(after, pause, true) && !Transient(after)
  {
    hide Running;
    assert after[|before| - 1] == Ended(false, again);
    assert Ended(false, again) in after;
  }

  lemma NotTransient(before: seq<Event>, after: seq<Event>, pause: int)
    requires BatchCourse(before, after, pause, false)
    ensures !Transient(after)
  {
  }

  lemma NothingYet(batchSize: nat)
    ensures Ids([]) == [] && Reports([]) == [] && Completed([]) == [] && FullAndOk([], batchSize)
    ensures Reading([], [], [], [])
  {
  }

  lemma PassEnds(writes: seq<Write>, stream: seq<Id>, rest: seq<Id>, batchSize: nat)
    requires batchSize > 0 && FullAndOk(writes, batchSize) && stream == Ids(writes) + rest && |rest| <= batchSize
    ensures PassSound(stream, writes, batchSize) && Completed(writes) == writes
  {
    hide Ids;
  }

  /** What the cursor has yielded: the ids written, those in the buffer, and the one just read. */
  ghost predicate Reading(stream: seq<Id>, writes: seq<Write>, pending: seq<Id>, next: seq<Id>) {
    stream == Ids(writes) + pending + next
  }

  lemma NextRead(before: seq<Id>, stream: seq<Id>, writes: seq<Write>, pending: seq<Id>, next: seq<Id>)
    requires Reading(before, writes, pending, []) && stream == before + next
    ensures Reading(stream, writes, pending, next)
  {
    hide Ids;
  }

  lemma Taken(stream: seq<Id>, writes: seq<Write>, pending: seq<Id>, id: Id)
    requires Reading(stream, writes, pending, [id])
    ensures Reading(stream, writes, pending + [id], [])
  {
    hide Ids;
    assert Ids(writes) + (pending + [id]) + [] == Ids(writes) + pending + [id];
  }

  lemma EndsHere(stream: seq<Id>, writes: seq<Write>, pending: seq<Id>, next: seq<Id>, batchSize: nat)
    requires batchSize > 0 && FullAndOk(writes, batchSize) && Reading(stream, writes, pending, next) && |pending + next| <= batchSize
    ensures PassSound(stream, writes, batchSize) && Completed(writes) == writes
  {
    assert stream == Ids(writes) + (pending + next) by { hide Ids; }
    PassEnds(writes, stream, pending + next, batchSize);
  }

  lemma ReadAll(stream: seq<Id>, writes: seq<Write>)
    requires Reading(stream, writes, [], [])
    ensures Ids(writes) == stream
  {
    hide Ids;
  }

  lemma Interrupted(before: seq<Write>, writes: seq<Write>, ids: seq<Id>, stream: seq<Id>, batchSize: nat)
    requires FullAndOk(before, batchSize) && 0 < |ids| <= batchSize && Reading(stream, before, ids, [])
    requires writes == before || OneMore(before, writes, ids)
    ensures PassSound(stream, writes, batchSize)
  {
    if writes != before {
      Append(before, writes[|before|]);
      assert writes == before + [writes[|before|]];
    }
  }

  lemma BatchDone(stream: seq<Id>, before: seq<Write>, writes: seq<Write>, ids: seq<Id>, batchSize: nat)
    requires OneMore(before, writes, ids) && FullAndOk(before, batchSize) && Completed(writes) == writes
    requires Reading(stream, before, ids, [])
    ensures Reading(stream, writes, [], [])
    ensures |ids| == batchSize ==> FullAndOk(writes, batchSize)
  {
    Append(before, writes[|before|]);
    assert writes == before + [writes[|before|]];
  }

  /** `shouldRetryBulkCursor`. */
  predicate ShouldRetry(retryable: bool, attempt: nat, maxRetries: nat, processed: nat) {
    retryable && attempt != maxRetries && processed == 0
  }

  ghost function MaxRetries(options: Options): nat
    requires options.maxRetries >= 0
  {
    if options.maxRetries == 0 then DEFAULT_MAX_RETRIES else options.maxRetries
  }

  datatype Outcome = Success | Partial | Invalid | Dangerous

  /** `validateBulkOptions`, as far as numbers and the empty filter go. */
  ghost function Validate(o: Options): Outcome {
    if o.batchSize <= 0 || o.batchSize > MAX_BATCH_SIZE || o.pause < 0 || o.maxRetries < 0 then Invalid
    else if o.emptyFilter && !o.dryRun && !o.allowEmptyFilter then Dangerous
    else Success
  }

  ghost predicate Untouched(passes: seq<Pass>) {
    forall i :: 0 <= i < |passes| ==> passes[i].writes == []
  }

  /** A pass is followed by another exactly when it failed in a way that may pass, retries are left, nothing
      was written, and the pause before the retry was not cut short. */
  ghost predicate Persistent(earlier: seq<Pass>, log: seq<Event>, retries: seq<nat>, pauses: seq<bool>, processed: nat,
                             maxRetries: nat, pause: int, ok: bool) {
    && Untouched(earlier) && |earlier| <= maxRetries && Course(log, pause, ok)
    && (forall i :: 0 <= i < |earlier| ==> Course(earlier[i].log, pause, false) && Transient(earlier[i].log))
    && (forall i :: 0 <= i < |retries| ==> retries[i] == i + 1)
    && |pauses| == |retries| && |earlier| <= |retries| <= |earlier| + 1
    && (forall i :: 0 <= i < |earlier| ==> pauses[i])
    && (|retries| == |earlier| + 1 ==> !pauses[|earlier|])
    && (|retries| == |earlier| + 1 <==> !ok && Transient(log) && |earlier| < maxRetries && processed == 0)
  }

  /** The attempts: each a pass, until one succeeds or may not be followed by another. */
  method RunAttempts(world: World, result: BulkResult, batchSize: nat, pause: int, maxRetries: nat) returns (ok: bool)
    requires batchSize > 0 && world.attempts == 0 && world.earlier == [] && world.writes == []
    requires world.reports == [] && world.retries == [] && world.pauses == [] && result.Counts([])
    modifies world, result`batchCount, result`processed, result`deleted, result`matched, result`modified
    ensures world.attempts == |world.earlier| + 1 && world.preflight == old(world.log)
    ensures Persistent(world.earlier, world.log, world.retries, world.pauses, result.processed, maxRetries, pause, ok)
    ensures PassSound(world.stream, world.writes, batchSize)
    ensures result.Counts(Completed(world.writes)) && world.reports == Reports(Completed(world.writes))
    ensures ok ==> Ids(world.writes) == world.stream && Completed(world.writes) == world.writes
  {
    hide Ids, Reports, Deleted, Matched, Modified, Completed, FullAndOk, PassSound, Course, Transient, Tried, Persistent;
    NothingYet(batchSize);
    NothingTried(pause);
    var attempt := 0;
    while attempt <= maxRetries
      invariant attempt <= maxRetries && world.attempts == attempt
      invariant result.Counts([]) && world.reports == [] && world.writes == []
      invariant if attempt == 0 then world.earlier == [] && world.log == old(world.log)
                else |world.earlier| == attempt - 1 && world.preflight == old(world.log)
      invariant Tried(if attempt == 0 then [] else world.earlier + [Pass(world.stream, world.writes, world.log)],
                      world.retries, world.pauses, attempt, pause)
      decreases maxRetries - attempt
    {
      var done, retryable := RunOnce(world, result, batchSize, pause);
      if done {
        StopsHere(world.earlier, world.log, world.retries, world.pauses, result.processed, attempt, maxRetries, pause, true);
        return true;
      }
      if !ShouldRetry(retryable, attempt, maxRetries, result.processed) {
        StopsHere(world.earlier, world.log, world.retries, world.pauses, result.processed, attempt, maxRetries, pause, false);
        return false;
      }
      if world.writes != [] { WrittenIsCounted(world.stream, world.writes, batchSize); }
      MayTryAgain(world.earlier, Pass(world.stream, world.writes, world.log), world.retries, world.pauses, attempt, maxRetries, pause);
      world.OnRetry(attempt + 1);
      var waited := world.WaitToRetry();
      if !waited { return false; }
      attempt := attempt + 1;
    }
    assert false;
  }

  /** So far each pass failed in a way that may pass, wrote nothing, and was followed by a pause. */
  ghost predicate Tried(passes: seq<Pass>, retries: seq<nat>, pauses: seq<bool>, n: nat, pause: int) {
    && |passes| == |retries| == |pauses| == n && Untouched(passes)
    && forall i :: 0 <= i < n ==> Course(passes[i].log, pause, false) && Transient(passes[i].log) && retries[i] == i + 1 && pauses[i]
  }

  lemma NothingTried(pause: int)
    ensures Tried([], [], [], 0, pause)
  {
  }

  lemma StopsHere(earlier: seq<Pass>, log: seq<Event>, retries: seq<nat>, pauses: seq<bool>, processed: nat, n: nat, maxRetries: nat,
                  pause: int, ok: bool)
    requires Tried(earlier, retries, pauses, n, pause) && n <= maxRetries && Course(log, pause, ok)
    requires ok || !Transient(log) || n == maxRetries || processed != 0
    ensures Persistent(earlier, log, retries, pauses, processed, maxRetries, pause, ok)
  {
    hide Course, Transient;
  }

  lemma MayTryAgain(earlier: seq<Pass>, pass: Pass, retries: seq<nat>, pauses: seq<bool>, n: nat, maxRetries: nat, pause: int)
    requires Tried(earlier, retries, pauses, n, pause) && n < maxRetries
    requires Course(pass.log, pause, false) && Transient(pass.log) && pass.writes == []
    ensures Persistent(earlier, pass.log, retries + [n + 1], pauses + [false], 0, maxRetries, pause, false)
    ensures Tried(earlier + [pass], retries + [n + 1], pauses + [true], n + 1, pause)
  {
    hide Course, Transient;
  }

  /** What happened before the first pass. */
  ghost function Preflight(world: World): seq<Event>
    reads world
  {
    if world.attempts == 0 then world.log else world.preflight
  }

  /** `runBulk` behind its validation. */
  method RunBulk(world: World, result: BulkResult, options: Options) returns (outcome: Outcome)
    requires world.attempts == 0 && world.earlier == [] && world.log == [] && world.stream == [] && world.writes == []
    requires world.reports == [] && world.retries == [] && world.pauses == []
    requires result.Counts([]) && result.matchedTotal == 0
    modifies world, result
    // validation asks nothing
    ensures Validate(options) != Success ==> outcome == Validate(options) && world.attempts == 0 && world.log == []
    // a run begins with a look at the context and the count; without matches, or dry, it ends there
    ensures Validate(options) == Success ==>
              || (Preflight(world) == [Noticed(AtStart, true)] && outcome == Partial && world.attempts == 0)
              || (exists n :: Preflight(world) == [Noticed(AtStart, false), Counted(false, n)] && outcome == Partial && world.attempts == 0)
              || (Preflight(world) == [Noticed(AtStart, false), Counted(true, result.matchedTotal)]
                  && if result.matchedTotal == 0 || options.dryRun then outcome == Success && world.attempts == 0
                     else (outcome == Success || outcome == Partial) && world.attempts == |world.earlier| + 1
                          && Persistent(world.earlier, world.log, world.retries, world.pauses, result.processed, MaxRetries(options),
                                        options.pause, outcome == Success))
    ensures world.attempts == 0 ==> world.writes == [] && world.earlier == [] && world.retries == [] && world.pauses == []
    // nothing is written twice: all writes belong to the last pass
    ensures Untouched(world.earlier)
    ensures options.batchSize > 0 ==> PassSound(world.stream, world.writes, options.batchSize)
    // what is counted and reported
    ensures result.Counts(Completed(world.writes)) && world.reports == Reports(Completed(world.writes))
    // success
    ensures outcome == Success ==> Ids(world.writes) == world.stream && Completed(world.writes) == world.writes
  {
    hide Ids, Reports, Deleted, Matched, Modified, Completed, FullAndOk, PassSound, Persistent;
    NothingYet(1);
    if options.batchSize > 0 { NothingYet(options.batchSize); PassEnds([], [], [], options.batchSize); }
    if options.batchSize <= 0 || options.batchSize > MAX_BATCH_SIZE || options.pause < 0 || options.maxRetries < 0 { return Invalid; }
    if options.emptyFilter && !options.dryRun && !options.allowEmptyFilter { return Dangerous; }
    var ended := world.Check(AtStart);
    if ended { return Partial; }
    var counted, total := world.Count();
    if !counted { return Partial; }
    result.matchedTotal := total;
    if total == 0 || options.dryRun { return Success; }
    var maxRetries := if options.maxRetries == 0 then DEFAULT_MAX_RETRIES else options.maxRetries;
    var ok := RunAttempts(world, result, options.batchSize, options.pause, maxRetries);
    WritesNothingEarlier(world.earlier, world.log, world.retries, world.pauses, result.processed, maxRetries, options.pause, ok);
    outcome := if ok then Success else Partial;
  }

  lemma WritesNothingEarlier(earlier: seq<Pass>, log: seq<Event>, retries: seq<nat>, pauses: seq<bool>, processed: nat, maxRetries: nat, pause: int, ok: bool)
    requires Persistent(earlier, log, retries, pauses, processed, maxRetries, pause, ok)
    ensures Untouched(earlier)
  {
    hide Course, Transient;
  }

  /** A write that succeeded has been counted: so a pass that counted nothing and did not end with a
      failed write issued no write at all. */
  lemma WrittenIsCounted(stream: seq<Id>, writes: seq<Write>, batchSize: nat)
    requires PassSound(stream, writes, batchSize) && writes != []
    ensures |Ids(writes)| > 0
  {
    var last := writes[|writes| - 1];
    assert |Ids(writes)| >= |last.ids| > 0;
  }

  // ----- how many batches -----

  /** In a successful run all batches but the last are full, so their number is the number of ids
      divided by the batch size and rounded up. */
  lemma BatchCountIsCeiling(stream: seq<Id>, writes: seq<Write>, batchSize: nat)
    requires batchSize > 0 && PassSound(stream, writes, batchSize) && Ids(writes) == stream
    ensures if stream == [] then writes == [] else (|writes| - 1) * batchSize < |stream| <= |writes| * batchSize
  {
    if writes != [] {
      var init, last := writes[..|writes| - 1], writes[|writes| - 1];
      FullIds(init, batchSize);
      assert |stream| == |Ids(init)| + |last.ids|;
      Distribute(|init|, batchSize);
      assert |writes| == |init| + 1;
    }
  }

  lemma Distribute(k: nat, size: nat)
    ensures (k + 1) * size == k * size + size
  {
  }

  /** The k-th report carries number k and the number of ids written by then. */
  lemma {:induction false} ReportsAreNumbered(writes: seq<Write>, k: nat)
    requires k < |writes|
    ensures |Reports(writes)| == |writes|
    ensures Reports(writes)[k].number == k + 1 && Reports(writes)[k].processed == |Ids(writes[..k + 1])|
    ensures Reports(writes)[k].deleted == writes[k].deleted && Reports(writes)[k].matched == writes[k].matched
            && Reports(writes)[k].modified == writes[k].modified
  {
    var init := writes[..|writes| - 1];
    if k < |init| {
      ReportsAreNumbered(init, k);
      assert init[..k + 1] == writes[..k + 1];
    } else {
      ReportsLength(init);
      assert writes[..k + 1] == writes;
    }
  }

  lemma {:induction false} ReportsLength(writes: seq<Write>)
    ensures |Reports(writes)| == |writes|
  {
    if writes != [] { ReportsLength(writes[..|writes| - 1]); }
  }

  /** No position of a cursor's stream is given to two writes: a write's ids are the stretch of the
      stream right behind those of the writes before it. */
  lemma {:induction false} EachPositionOnce(stream: seq<Id>, writes: seq<Write>, k: nat)
    requires Ids(writes) <= stream && k < |writes|
    ensures var from := |Ids(writes[..k])|;
      from + |writes[k].ids| <= |stream| && writes[k].ids == stream[from..from + |writes[k].ids|]
      && |Ids(writes[..k + 1])| == from + |writes[k].ids|
  {
    var init, last := writes[..|writes| - 1], writes[|writes| - 1];
    assert Ids(writes) == Ids(init) + last.ids;
    if k < |init| {
      assert Ids(init) <= stream;
      EachPositionOnce(stream, init, k);
      assert init[..k] == writes[..k] && init[..k + 1] == writes[..k + 1];
    } else {
      assert writes[..k] == init && writes[..k + 1] == writes;
    }
  }
}
