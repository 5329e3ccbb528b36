/** Resuming a batched index audit: the cursor a call hands out, what the next call accepts, and what
    a whole run of calls covers. Hashes and the signature are terms, so different contents have
    different hashes, and a signature can be made only with the key. */
module BatchCursor {
  import opened Text
  import opened Sorting
  import opened BatchPlanner

  const VERSION := 1
  const DEFAULT_MAX_COLLECTIONS := 500
  const MAX_BATCH_SIZE := 500

  // ----- the catalog's hash -----

  const MARK: char := 0xff as char

  /** The bytes that `indexAuditCatalogHash` feeds to the hash. */
  function Frame(refs: seq<Ref>): string {
    if refs == [] then []
    else refs[0].database + [NUL] + (refs[0].collection + [NUL] + (refs[0].kind + [MARK] + Frame(refs[1..])))
  }

  ghost predicate Framable(refs: seq<Ref>) {
    forall i :: 0 <= i < |refs| ==> NUL !in refs[i].database && NUL !in refs[i].collection && MARK !in refs[i].kind
  }

  /** The framing is injective, so equal catalog hashes mean equal catalogs. Names hold no NUL, and
      UTF-8 never has the byte 0xff. */
  lemma {:induction false} FrameInjective(a: seq<Ref>, b: seq<Ref>)
    requires Framable(a) && Framable(b) && Frame(a) == Frame(b)
    ensures a == b
  {
    if a == [] || b == [] {
    } else {
      var a2, b2 := a[0].kind + [MARK] + Frame(a[1..]), b[0].kind + [MARK] + Frame(b[1..]);
      var a1, b1 := a[0].collection + [NUL] + a2, b[0].collection + [NUL] + b2;
      FirstSeparator(a[0].database, a1, b[0].database, b1, NUL);
      FirstSeparator(a[0].collection, a2, b[0].collection, b2, NUL);
      FirstSeparator(a[0].kind, Frame(a[1..]), b[0].kind, Frame(b[1..]), MARK);
      FrameInjective(a[1..], b[1..]);
      assert a == [a[0]] + a[1..] && b == [b[0]] + b[1..];
    }
  }

  function CatalogHash(refs: seq<Ref>): string { "#" + Digest(Frame(refs)) }

  lemma CatalogHashInjective(a: seq<Ref>, b: seq<Ref>)
    requires Framable(a) && Framable(b) && CatalogHash(a) == CatalogHash(b)
    ensures a == b
  {
    assert CatalogHash(a)[1..] == Digest(Frame(a)) && CatalogHash(b)[1..] == Digest(Frame(b));
    DigestInjective(Frame(a), Frame(b));
    FrameInjective(a, b);
  }

  // ----- the scope's hash -----

  /** The options of an audit that a cursor is bound to. The limit is not among them. */
  datatype Scope = Scope(databases: seq<string>, allDatabases: bool, collections: seq<string>, checks: seq<string>,
                         includeSystemDB: bool, minObservation: int)

  /** `indexAuditBatchScopeHash`, whose encoding and hash are injective. */
  datatype ScopeHash = NoHash | HashOf(scope: Scope)

  function HashScope(s: Scope): ScopeHash {
    HashOf(s.(databases := SortStrings(s.databases), collections := SortStrings(s.collections), checks := SortStrings(s.checks)))
  }

  /** A scope is recognised however its lists are ordered, and no other scope is taken for it. */
  lemma ScopeHashExact(s: Scope, t: Scope)
    ensures HashScope(s) == HashScope(t) <==>
              && multiset(s.databases) == multiset(t.databases) && multiset(s.collections) == multiset(t.collections)
              && multiset(s.checks) == multiset(t.checks) && s.allDatabases == t.allDatabases
              && s.includeSystemDB == t.includeSystemDB && s.minObservation == t.minObservation
  {
    if multiset(s.databases) == multiset(t.databases) { SortStringsUnique(s.databases, t.databases); }
    if multiset(s.collections) == multiset(t.collections) { SortStringsUnique(s.collections, t.collections); }
    if multiset(s.checks) == multiset(t.checks) { SortStringsUnique(s.checks, t.checks); }
    hide SortStrings;
    if HashScope(s) == HashScope(t) {
      assert multiset(SortStrings(s.databases)) == multiset(SortStrings(t.databases));
      assert multiset(SortStrings(s.collections)) == multiset(SortStrings(t.collections));
      assert multiset(SortStrings(s.checks)) == multiset(SortStrings(t.checks));
    }
  }

  // ----- cursors -----

  type SigningKey = string

  datatype Payload = Payload(version: int, scopeHash: ScopeHash, catalogHash: string, processed: int, batchIndex: int)

  /** The signature field: a real one, nothing, or some other text. */
  datatype Signature = Mac(key: SigningKey, payload: Payload) | NoSignature | OtherText(text: string)

  datatype Cursor = Cursor(payload: Payload, signature: Signature)

  /** The cursor text of a call: blank, not decodable, or the encoding of a cursor. */
  datatype Raw = Blank | Garbage | Encoded(cursor: Cursor)

  datatype Error = InvalidOptions | CursorInvalid | ScopeChanged

  datatype Start = At(position: nat, batchIndex: int) | Refused(error: Error)

  predicate WellFormed(c: Cursor) {
    && c.payload.version == VERSION && !c.payload.scopeHash.NoHash? && c.payload.catalogHash != ""
    && c.payload.processed > 0 && c.payload.batchIndex > 0 && !c.signature.NoSignature?
  }

  function Sign(p: Payload, key: SigningKey): Cursor { Cursor(p, Mac(key, p)) }

  /** `indexAuditBatchStart`. */
  function BatchStart(raw: Raw, key: SigningKey, scope: ScopeHash, refs: seq<Ref>): Start {
    if raw.Blank? then At(0, 1)
    else if raw.Garbage? || !WellFormed(raw.cursor) then Refused(CursorInvalid)
    else if raw.cursor.signature != Mac(key, raw.cursor.payload) then Refused(CursorInvalid)
    else
      var p := raw.cursor.payload;
      if p.scopeHash != scope || p.catalogHash != CatalogHash(refs) then Refused(ScopeChanged)
      else if p.processed <= 0 || p.processed >= |refs| then Refused(CursorInvalid)
      else At(p.processed, p.batchIndex + 1)
  }

  /** With this cursor a call answers from `start`, with a batch of number `index`: a blank one begins, and
      any other must be what this program signs for this scope and catalog, inside the catalog. */
  ghost predicate Resumes(raw: Raw, key: SigningKey, scope: ScopeHash, refs: seq<Ref>, start: nat, index: int) {
    if raw.Blank? then start == 0 && index == 1
    else
      var p := Payload(VERSION, scope, CatalogHash(refs), start, index - 1);
      raw == Encoded(Cursor(p, Mac(key, p))) && 0 < start < |refs| && 1 < index
  }

  /** A cursor that this program has signed, for whatever scope and catalog. */
  ghost predicate Genuine(raw: Raw, key: SigningKey) {
    raw.Encoded? && raw.cursor.signature == Mac(key, raw.cursor.payload)
    && var p := raw.cursor.payload;
       p.version == VERSION && p.scopeHash.HashOf? && p.catalogHash != "" && p.processed > 0 && p.batchIndex > 0
  }

  /** Why a cursor is refused: it is not genuine, it belongs to another scope or catalog, or it points
      outside the catalog. */
  ghost function Refusal(raw: Raw, key: SigningKey, scope: ScopeHash, refs: seq<Ref>): Error {
    if Genuine(raw, key) && (raw.cursor.payload.scopeHash != scope || raw.cursor.payload.catalogHash != CatalogHash(refs)) then ScopeChanged
    else CursorInvalid
  }

  /** What `BatchStart` computes, in these terms. */
  lemma AcceptedExactly(raw: Raw, key: SigningKey, scope: ScopeHash, refs: seq<Ref>, n: nat, index: int)
    requires scope.HashOf?
    ensures BatchStart(raw, key, scope, refs) == At(n, index) <==> Resumes(raw, key, scope, refs, n, index)
    ensures BatchStart(raw, key, scope, refs).Refused? ==> BatchStart(raw, key, scope, refs).error == Refusal(raw, key, scope, refs)
  {
    assert CatalogHash(refs) != "";
    hide CatalogHash;
  }

  /** A cursor from another catalog is refused as such. */
  lemma ChangedCatalogIsRefused(key: SigningKey, scope: ScopeHash, before: seq<Ref>, now: seq<Ref>, raw: Raw, start: nat, index: int)
    requires Framable(before) && Framable(now) && before != now && scope.HashOf?
    requires Resumes(raw, key, scope, before, start, index) && !raw.Blank?
    ensures Refusal(raw, key, scope, now) == ScopeChanged && forall n, i :: !Resumes(raw, key, scope, now, n, i)
  {
    assert CatalogHash(before) != "";
    if CatalogHash(before) == CatalogHash(now) { CatalogHashInjective(before, now); }
    hide CatalogHash;
  }

  // ----- one call -----

  datatype Metadata = Metadata(index: int, databaseCount: nat, collectionCount: nat, processed: nat, total: nat,
                               remaining: nat, hasMore: bool, next: Raw)

  datatype Page = Page(batch: seq<Ref>, metadata: Metadata)

  datatype Answer = Ok(page: Page) | Err(error: Error)

  ghost function Limit(maxCollections: int): int {
    if maxCollections == 0 then DEFAULT_MAX_COLLECTIONS else maxCollections
  }

  /** What a page must be: the batch that begins at `start`, and numbers that describe it truly. */
  ghost predicate IsPage(page: Page, key: SigningKey, scope: ScopeHash, refs: seq<Ref>, limit: int, start: nat, index: int) {
    var n, m := |page.batch|, page.metadata;
    && start + n <= |refs| && page.batch == refs[start..start + n] && IsBatch(refs[start..], limit, n) && n > 0
    && m.index == index && m.collectionCount == n && m.processed == start + n && m.total == |refs|
    && m.remaining == |refs| - m.processed && (m.hasMore <==> m.remaining > 0)
    && m.databaseCount == |Stretches(page.batch)| && (Contiguous(refs) ==> m.databaseCount == |Databases(page.batch)|)
    && m.next == if m.hasMore then Encoded(Sign(Payload(VERSION, scope, CatalogHash(refs), m.processed, index), key)) else Blank
  }

  /** What a call must answer. */
  ghost predicate IsAnswer(a: Answer, maxCollections: int, raw: Raw, key: SigningKey, scope: ScopeHash, refs: seq<Ref>) {
    if maxCollections < 0 || Limit(maxCollections) > MAX_BATCH_SIZE || refs == [] then a == Err(InvalidOptions)
    else
      && (forall start: nat, index :: Resumes(raw, key, scope, refs, start, index) ==>
            a.Ok? && start < |refs| && IsPage(a.page, key, scope, refs, Limit(maxCollections), start, index))
      && ((forall start: nat, index :: !Resumes(raw, key, scope, refs, start, index)) ==> a == Err(Refusal(raw, key, scope, refs)))
  }

  lemma BatchIsNotEmpty(refs: seq<Ref>, limit: int, n: nat)
    requires IsBatch(refs, limit, n) && refs != [] && limit > 0
    ensures n > 0
  {
  }

  /** The batch that begins at `position`, and its metadata. */
  method DescribeBatch(key: SigningKey, scope: ScopeHash, refs: seq<Ref>, limit: int, position: nat, batchIndex: int) returns (page: Page)
    requires position < |refs| && limit > 0
    ensures IsPage(page, key, scope, refs, limit, position, batchIndex)
  {
    hide *;
    var batch := NextIndexAuditBatch(refs[position..], limit);
    // the program refuses an empty batch here, which cannot occur
    BatchIsNotEmpty(refs[position..], limit, |batch|);
    var processed := position + |batch|;
    var count := DatabaseCount(batch);
    var hasMore := processed < |refs|;
    var next := if hasMore then Encoded(Sign(Payload(VERSION, scope, CatalogHash(refs), processed, batchIndex), key)) else Blank;
    page := Page(batch, Metadata(batchIndex, count, |batch|, processed, |refs|, |refs| - processed, hasMore, next));
    PageFits(page, key, scope, refs, limit, position, batchIndex);
  }

  /** The part of `indexAuditBatch` that selects the batch and describes it; `refs` is the catalog. */
  method IndexAuditBatch(maxCollections: int, raw: Raw, key: SigningKey, scope: Scope, refs: seq<Ref>) returns (a: Answer)
    ensures IsAnswer(a, maxCollections, raw, key, HashScope(scope), refs)
  {
    hide CatalogHash, IsPage, BatchStart, Resumes, Refusal, SortStrings;
    if maxCollections < 0 { return Err(InvalidOptions); }
    var limit := if maxCollections == 0 then DEFAULT_MAX_COLLECTIONS else maxCollections;
    if limit > MAX_BATCH_SIZE { return Err(InvalidOptions); }
    if |refs| == 0 { return Err(InvalidOptions); }
    var scopeHash := HashScope(scope);
    StartMeans(raw, key, scopeHash, refs);
    var start := BatchStart(raw, key, scopeHash, refs);
    if start.Refused? { return Err(start.error); }
    assert Resumes(raw, key, scopeHash, refs, start.position, start.batchIndex);
    var page := DescribeBatch(key, scopeHash, refs, limit, start.position, start.batchIndex);
    return Ok(page);
  }

  lemma StartMeans(raw: Raw, key: SigningKey, scope: ScopeHash, refs: seq<Ref>)
    requires refs != [] && scope.HashOf?
    ensures match BatchStart(raw, key, scope, refs)
      case At(n, i) => n < |refs| && forall start: nat, index :: Resumes(raw, key, scope, refs, start, index) <==> start == n && index == i
      case Refused(error) => error == Refusal(raw, key, scope, refs) && forall start: nat, index :: !Resumes(raw, key, scope, refs, start, index)
  {
    var found := BatchStart(raw, key, scope, refs);
    forall start: nat, index
      ensures found == At(start, index) <==> Resumes(raw, key, scope, refs, start, index)
    {
      AcceptedExactly(raw, key, scope, refs, start, index);
    }
    AcceptedExactly(raw, key, scope, refs, 0, 0);
    if found.At? { ResumesInside(raw, key, scope, refs, found.position, found.batchIndex); }
    hide BatchStart, Resumes, Refusal;
  }

  lemma ResumesInside(raw: Raw, key: SigningKey, scope: ScopeHash, refs: seq<Ref>, start: nat, index: int)
    requires Resumes(raw, key, scope, refs, start, index) && refs != []
    ensures start < |refs|
  {
    hide CatalogHash;
  }

  lemma PageFits(page: Page, key: SigningKey, scope: ScopeHash, refs: seq<Ref>, limit: int, start: nat, index: int)
    requires start < |refs| && page.batch <= refs[start..] && page.batch != [] && IsBatch(refs[start..], limit, |page.batch|)
    requires var m, n := page.metadata, start + |page.batch|;
      && m.index == index && m.collectionCount == |page.batch| && m.processed == n && m.total == |refs| && m.remaining == |refs| - n
      && (m.hasMore <==> n < |refs|)
      && m.next == if m.hasMore then Encoded(Sign(Payload(VERSION, scope, CatalogHash(refs), n, index), key)) else Blank
    requires page.metadata.databaseCount == |Stretches(page.batch)|
    requires page.metadata.databaseCount == |Databases(page.batch)| <==> Contiguous(page.batch)
    ensures IsPage(page, key, scope, refs, limit, start, index)
  {
    var n := start + |page.batch|;
    assert refs[start..][..|page.batch|] == refs[start..n];
    ContiguousPart(refs, start, n);
    hide IsBatch, Contiguous, Databases, Stretches, CatalogHash;
  }

  lemma ContiguousPart(refs: seq<Ref>, i: nat, j: nat)
    requires i <= j <= |refs|
    ensures Contiguous(refs) ==> Contiguous(refs[i..j])
  {
    var part := refs[i..j];
    assert forall k :: 0 <= k < |part| ==> part[k] == refs[i + k];
  }

  // ----- whole runs -----

  /** A run over an unchanged catalog: each call gets the cursor of the call before, and a limit of
      its own. It stops when nothing remains, or with the limits. */
  ghost predicate IsRun(pages: seq<Page>, limits: seq<int>, raw: Raw, key: SigningKey, scope: ScopeHash, refs: seq<Ref>)
    decreases |limits|
  {
    if limits == [] then pages == []
    else
      && pages != []
      && IsAnswer(Ok(pages[0]), limits[0], raw, key, scope, refs)
      && (if pages[0].metadata.hasMore then IsRun(pages[1..], limits[1..], pages[0].metadata.next, key, scope, refs) else |pages| == 1)
  }

  ghost predicate Constant(limits: seq<int>, max: int) {
    forall i :: 0 <= i < |limits| ==> limits[i] == max
  }

  ghost predicate ValidLimits(limits: seq<int>) {
    forall i :: 0 <= i < |limits| ==> 0 <= limits[i] <= MAX_BATCH_SIZE
  }

  ghost function Concat(pages: seq<Page>): seq<Ref> {
    if pages == [] then [] else pages[0].batch + Concat(pages[1..])
  }

  /** A page of a run: non-empty, within its limit, numbered, with less remaining than before, and
      with a cursor exactly while something remains. */
  ghost predicate PageSound(page: Page, limit: int, before: int, index: int, refs: seq<Ref>) {
    && 0 < |page.batch| <= Limit(limit)
    && page.metadata.index == index
    && page.metadata.remaining < before
    && (page.metadata.hasMore <==> page.metadata.remaining > 0)
    && (page.metadata.next.Encoded? <==> page.metadata.hasMore)
    && (Contiguous(refs) ==> page.metadata.databaseCount == |Databases(page.batch)|)
  }

  ghost function Before(pages: seq<Page>, k: nat, first: int): int
    requires k < |pages|
  {
    if k == 0 then first else pages[k - 1].metadata.remaining
  }

  /** What the pages of a run look like when it resumes at `start` with index `index`. */
  ghost predicate Covers(pages: seq<Page>, limits: seq<int>, refs: seq<Ref>, start: nat, index: int) {
    var n := start + |Concat(pages)|;
    && |pages| <= |limits|
    && (forall k :: 0 <= k < |pages| ==> PageSound(pages[k], limits[k], Before(pages, k, |refs| - start), index + k, refs))
    && n <= |refs| && Concat(pages) == refs[start..n]
    && (|limits| >= |refs| - start || |pages| < |limits| ==> n == |refs|)
  }

  /** The cursor that a page issues is accepted, at exactly the position behind the page. */
  lemma IssuedCursorIsAccepted(page: Page, key: SigningKey, scope: ScopeHash, refs: seq<Ref>, limit: int, start: nat, index: int)
    requires IsPage(page, key, scope, refs, limit, start, index) && page.metadata.hasMore && index > 0 && !scope.NoHash?
    ensures Resumes(page.metadata.next, key, scope, refs, start + |page.batch|, index + 1)
  {
    assert CatalogHash(refs) != "";
    hide CatalogHash, IsBatch, Contiguous, Databases;
  }

  lemma {:induction false} RunCoversFrom(pages: seq<Page>, limits: seq<int>, raw: Raw, key: SigningKey, scope: ScopeHash, refs: seq<Ref>,
                                         start: nat, index: int)
    requires IsRun(pages, limits, raw, key, scope, refs) && ValidLimits(limits)
    requires Resumes(raw, key, scope, refs, start, index) && start < |refs| && index > 0 && !scope.NoHash?
    ensures Covers(pages, limits, refs, start, index)
    decreases |limits|
  {
    hide *;
    if limits == [] {
      NothingToCover(pages, limits, raw, key, scope, refs, start, index);
    } else {
      PageOfRun(pages, limits, raw, key, scope, refs, start, index);
      var page := pages[0];
      if page.metadata.hasMore {
        IssuedCursorIsAccepted(page, key, scope, refs, Limit(limits[0]), start, index);
        MoreRemains(page, key, scope, refs, Limit(limits[0]), start, index);
        RunCoversFrom(pages[1..], limits[1..], page.metadata.next, key, scope, refs, start + |page.batch|, index + 1);
        Prepend(pages, limits, refs, start, index);
      } else {
        LastPage(pages, limits, refs, start, index);
      }
    }
  }

  lemma NothingToCover(pages: seq<Page>, limits: seq<int>, raw: Raw, key: SigningKey, scope: ScopeHash, refs: seq<Ref>, start: nat, index: int)
    requires limits == [] && IsRun(pages, limits, raw, key, scope, refs) && start < |refs|
    ensures Covers(pages, limits, refs, start, index)
  {
    assert Concat(pages) == [];
    hide Concat;
  }

  /** The first page of a run, in the terms of `Covers`. */
  lemma PageOfRun(pages: seq<Page>, limits: seq<int>, raw: Raw, key: SigningKey, scope: ScopeHash, refs: seq<Ref>, start: nat, index: int)
    requires limits != [] && IsRun(pages, limits, raw, key, scope, refs) && ValidLimits(limits)
    requires Resumes(raw, key, scope, refs, start, index) && start < |refs|
    ensures pages != [] && IsPage(pages[0], key, scope, refs, Limit(limits[0]), start, index)
    ensures FirstPage(pages[0], limits[0], refs, start, index)
    ensures if pages[0].metadata.hasMore then IsRun(pages[1..], limits[1..], pages[0].metadata.next, key, scope, refs) else |pages| == 1
    ensures ValidLimits(limits[1..])
  {
    hide CatalogHash, Resumes, Contiguous, Databases, Stretches;
    assert 0 <= limits[0] <= MAX_BATCH_SIZE;
    assert IsAnswer(Ok(pages[0]), limits[0], raw, key, scope, refs);
    hide IsRun;
  }

  ghost predicate FirstPage(page: Page, limit: int, refs: seq<Ref>, start: nat, index: int) {
    && start + |page.batch| <= |refs| && page.batch == refs[start..start + |page.batch|]
    && page.metadata.remaining == |refs| - (start + |page.batch|)
    && PageSound(page, limit, |refs| - start, index, refs)
  }

  lemma LastPage(pages: seq<Page>, limits: seq<int>, refs: seq<Ref>, start: nat, index: int)
    requires |pages| == 1 && limits != [] && FirstPage(pages[0], limits[0], refs, start, index) && !pages[0].metadata.hasMore
    ensures Covers(pages, limits, refs, start, index)
  {
    hide Contiguous, Databases, Limit;
    var page := pages[0];
    assert pages[1..] == [] && Concat(pages[1..]) == [];
    assert Concat(pages) == page.batch;
    hide Concat;
    assert page.metadata.remaining == 0;
    assert page.batch == refs[start..start + |page.batch|];
  }

  lemma Prepend(pages: seq<Page>, limits: seq<int>, refs: seq<Ref>, start: nat, index: int)
    requires pages != [] && limits != [] && FirstPage(pages[0], limits[0], refs, start, index) && pages[0].metadata.hasMore
    requires Covers(pages[1..], limits[1..], refs, start + |pages[0].batch|, index + 1)
    ensures Covers(pages, limits, refs, start, index)
  {
    hide Contiguous, Databases, Limit;
    var rest := pages[1..];
    assert forall k :: 0 < k < |pages| ==> pages[k] == rest[k - 1] && limits[k] == limits[1..][k - 1];
    assert Concat(pages) == pages[0].batch + Concat(rest);
  }

  /** Any run from the beginning, with any limits that the program accepts: the batches are, one
      after the other, the catalog; each is non-empty and within its limit; what remains shrinks with
      every call; a cursor is issued exactly while something remains; and a run that is not cut
      short by its limits covers everything. */
  lemma RunCovers(pages: seq<Page>, limits: seq<int>, key: SigningKey, scope: Scope, refs: seq<Ref>)
    requires IsRun(pages, limits, Blank, key, HashScope(scope), refs) && ValidLimits(limits) && refs != []
    ensures Covers(pages, limits, refs, 0, 1)
    ensures |limits| >= |refs| ==> Concat(pages) == refs
  {
    RunCoversFrom(pages, limits, Blank, key, HashScope(scope), refs, 0, 1);
    hide IsRun;
    if |limits| >= |refs| { assert refs[0..|Concat(pages)|] == refs; }
  }

  /** And such runs exist: no call on the way is refused. */
  lemma {:induction false} RunExists(limits: seq<int>, raw: Raw, key: SigningKey, scope: ScopeHash, refs: seq<Ref>, start: nat, index: int)
    returns (pages: seq<Page>)
    requires ValidLimits(limits) && Resumes(raw, key, scope, refs, start, index) && start < |refs| && index > 0 && !scope.NoHash?
    ensures IsRun(pages, limits, raw, key, scope, refs)
    decreases |limits|
  {
    if limits == [] {
      pages := [];
    } else {
      var page := SomePage(limits[0], key, scope, refs, start, index);
      assert IsAnswer(Ok(page), limits[0], raw, key, scope, refs);
      if page.metadata.hasMore {
        IssuedCursorIsAccepted(page, key, scope, refs, Limit(limits[0]), start, index);
        hide IsAnswer, Resumes, CatalogHash;
        assert ValidLimits(limits[1..]);
        var rest := RunExists(limits[1..], page.metadata.next, key, scope, refs, start + |page.batch|, index + 1);
        pages := [page] + rest;
        assert pages[1..] == rest;
      } else {
        pages := [page];
      }
    }
  }

  lemma SomePage(maxCollections: int, key: SigningKey, scope: ScopeHash, refs: seq<Ref>, start: nat, index: int) returns (page: Page)
    requires 0 <= maxCollections <= MAX_BATCH_SIZE && start < |refs|
    ensures IsPage(page, key, scope, refs, Limit(maxCollections), start, index)
  {
    var n := BatchLength(refs[start..], Limit(maxCollections));
    var batch := refs[start..start + n];
    var done := start + n;
    var next := if done < |refs| then Encoded(Sign(Payload(VERSION, scope, CatalogHash(refs), done, index), key)) else Blank;
    assert batch[..n] == batch;
    StretchesAreDatabases(batch, n);
    ContiguousPart(refs, start, start + n);
    hide Contiguous, Databases, Stretches, CatalogHash, IsBatch;
    page := Page(batch, Metadata(index, |Stretches(batch)|, n, done, |refs|, |refs| - done, done < |refs|, next));
  }

  // ----- the fewest calls -----

  /** With one limit throughout, the pages of a run end where the greedy plan does, so by
      `FewestBatches` no plan that cuts at boundaries needs fewer calls. */
  lemma LimitsLast(pages: seq<Page>, limits: seq<int>, raw: Raw, key: SigningKey, scope: ScopeHash, refs: seq<Ref>, max: int)
    requires IsRun(pages, limits, raw, key, scope, refs) && Constant(limits, max) && pages != []
    ensures limits != [] && limits[0] == max && Constant(limits[1..], max)
  {
    hide IsAnswer;
  }

  lemma {:induction false} RunIsGreedy(pages: seq<Page>, limits: seq<int>, raw: Raw, key: SigningKey, scope: ScopeHash, refs: seq<Ref>,
                                       max: int, k: nat, index: int, j: nat)
    requires IsRun(pages, limits, raw, key, scope, refs) && 0 <= max <= MAX_BATCH_SIZE && Constant(limits, max)
    requires Resumes(raw, key, scope, refs, GreedyEnd(refs, Limit(max), k), index)
    requires GreedyEnd(refs, Limit(max), k) < |refs| && index > 0 && !scope.NoHash? && j < |pages|
    ensures pages[j].metadata.processed == GreedyEnd(refs, Limit(max), k + j + 1)
    decreases |limits|
  {
    hide *;
    var start := GreedyEnd(refs, Limit(max), k);
    LimitsLast(pages, limits, raw, key, scope, refs, max);
    var page := pages[0];
    GreedyPage(pages, limits, raw, key, scope, refs, max, k, index);
    if j > 0 {
      IssuedCursorIsAccepted(page, key, scope, refs, Limit(max), start, index);
      MoreRemains(page, key, scope, refs, Limit(max), start, index);
      RunIsGreedy(pages[1..], limits[1..], page.metadata.next, key, scope, refs, max, k + 1, index + 1, j - 1);
    }
  }

  lemma MoreRemains(page: Page, key: SigningKey, scope: ScopeHash, refs: seq<Ref>, limit: int, start: nat, index: int)
    requires IsPage(page, key, scope, refs, limit, start, index) && page.metadata.hasMore
    ensures page.metadata.processed == start + |page.batch| < |refs|
  {
    hide CatalogHash, IsBatch, Contiguous, Databases;
  }

  lemma GreedyPage(pages: seq<Page>, limits: seq<int>, raw: Raw, key: SigningKey, scope: ScopeHash, refs: seq<Ref>,
                   max: int, k: nat, index: int)
    requires limits != [] && limits[0] == max && IsRun(pages, limits, raw, key, scope, refs) && 0 <= max <= MAX_BATCH_SIZE
    requires Resumes(raw, key, scope, refs, GreedyEnd(refs, Limit(max), k), index) && GreedyEnd(refs, Limit(max), k) < |refs|
    ensures pages != [] && IsPage(pages[0], key, scope, refs, Limit(max), GreedyEnd(refs, Limit(max), k), index)
    ensures pages[0].metadata.processed == GreedyEnd(refs, Limit(max), k) + |pages[0].batch| == GreedyEnd(refs, Limit(max), k + 1)
    ensures if pages[0].metadata.hasMore then IsRun(pages[1..], limits[1..], pages[0].metadata.next, key, scope, refs) else |pages| == 1
  {
    var start := GreedyEnd(refs, Limit(max), k);
    hide CatalogHash, Resumes, Contiguous, Databases, Stretches, IsBatch;
    assert IsAnswer(Ok(pages[0]), limits[0], raw, key, scope, refs);
    BatchIsUnique(refs[start..], Limit(max), |pages[0].batch|, BatchLength(refs[start..], Limit(max)));
  }

  lemma RunStarts(key: SigningKey, scope: Scope, refs: seq<Ref>, max: int)
    requires 0 <= max
    ensures HashScope(scope).HashOf? && Limit(max) > 0
    ensures GreedyEnd(refs, Limit(max), 0) == 0 && Resumes(Blank, key, HashScope(scope), refs, 0, 1)
  {
  }

  /** The number of calls of a complete run is the least possible. */
  lemma FewestCalls(pages: seq<Page>, limits: seq<int>, key: SigningKey, scope: Scope, refs: seq<Ref>, max: int, ends: seq<nat>)
    requires IsRun(pages, limits, Blank, key, HashScope(scope), refs) && refs != [] && 0 <= max <= MAX_BATCH_SIZE
    requires Constant(limits, max)
    requires AllFit(refs, Limit(max)) && IsPlan(refs, Limit(max), ends)
    ensures |pages| <= |ends|
  {
    hide *;
    RunStarts(key, scope, refs, max);
    FewestBatches(refs, Limit(max), ends);
    var e := |ends|;
    if |pages| > e {
      assert e > 0;
      RunIsGreedy(pages, limits, Blank, key, HashScope(scope), refs, max, 0, 1, e - 1);
      StopsWhenDone(pages, limits, Blank, key, HashScope(scope), refs, e - 1);
    }
  }

  /** Only the last page of a run can say that nothing remains. */
  lemma {:induction false} StopsWhenDone(pages: seq<Page>, limits: seq<int>, raw: Raw, key: SigningKey, scope: ScopeHash, refs: seq<Ref>, j: nat)
    requires IsRun(pages, limits, raw, key, scope, refs) && j < |pages| - 1
    ensures pages[j].metadata.hasMore && pages[j].metadata.processed < |refs|
    decreases |limits|
  {
    hide CatalogHash, Resumes, Contiguous, Databases, Stretches, IsBatch;
    if j > 0 {
      StopsWhenDone(pages[1..], limits[1..], pages[0].metadata.next, key, scope, refs, j - 1);
    }
  }
}
