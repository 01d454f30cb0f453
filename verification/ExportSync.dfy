/**
 The gateway's export loop against the worker's document store: two independently written halves
 whose composition must be a round trip. Each ingest job is a fresh submission, so waiting for it
 is a direct call of the store.
 */
module ExportSync {
  import opened Wrappers
  import opened Types
  import opened Canonical
  import opened Partition
  import opened Documents
  import opened DocumentLaws

  /** What Novo answers to one page request; an empty cursor stands for a missing one. */
  datatype Reply = Unavailable | Reply(pages: seq<Page>, complete: bool, nextCursor: string)

  datatype Limits = Limits(maxRequests: nat, maxPages: nat, batchMaxBytes: nat)

  datatype SyncError = ExportUnavailable | ExportLimitExceeded | InvalidExport | JobFailed(error: DocumentError)

  datatype ExportSummary = ExportSummary(pageCount: nat, batchCount: nat, documentChecksum: Digest)

  /** The replies to requests 0, 1, 2, ...; what Novo does may depend on anything. */
  type Novo = nat -> Reply

  // ---------------------------------------------------------------- what a run exports

  ghost function PagesOf(reply: Reply): seq<Page> {
    if reply.Unavailable? then [] else reply.pages
  }

  ghost function Exported(novo: Novo, n: nat): seq<Page> {
    if n == 0 then [] else Exported(novo, n - 1) + PagesOf(novo(n - 1))
  }

  ghost function Batches(novo: Novo, n: nat, cap: nat): seq<seq<Page>> {
    if n == 0 then [] else Batches(novo, n - 1, cap) + Greedy(PagesOf(novo(n - 1)), cap)
  }

  /** Requests 0..n-1 were answered, and continued by cursors that are present and never repeat. */
  ghost predicate Continues(novo: Novo, n: nat) {
    && (forall i :: 0 <= i < n ==> novo(i).Reply? && !novo(i).complete && novo(i).nextCursor != "")
    && (forall i, j :: 0 <= i < j < n ==> novo(i).nextCursor != novo(j).nextCursor)
  }

  ghost predicate WithinLimits(pages: seq<Page>, limits: Limits) {
    && Distinct(PageIds(pages))
    && |pages| <= limits.maxPages
    && (forall k :: 0 <= k < |pages| ==> !Oversized(pages[k], limits.batchMaxBytes))
  }

  /** The gateway's own conditions on an export of n replies. */
  ghost predicate GoodExport(novo: Novo, n: nat, limits: Limits) {
    && 0 < n <= limits.maxRequests
    && Continues(novo, n - 1)
    && novo(n - 1).Reply? && novo(n - 1).complete
    && WithinLimits(Exported(novo, n), limits)
  }

  ghost predicate SomeOversized(pages: seq<Page>, limits: Limits) {
    exists k :: 0 <= k < |pages| && Oversized(pages[k], limits.batchMaxBytes)
  }

  /** What the gateway may answer to the reply that follows these pages, and when; or a job of the worker failed. */
  ghost predicate ReplyRefused(before: seq<Page>, reply: Reply, limits: Limits, error: SyncError) {
    match error
    case ExportUnavailable => reply.Unavailable?
    case InvalidExport => reply.Reply? && !Distinct(PageIds(before + reply.pages))
    case ExportLimitExceeded =>
      reply.Reply? && Distinct(PageIds(before + reply.pages))
      && (|before + reply.pages| > limits.maxPages || SomeOversized(reply.pages, limits))
    case JobFailed(_) =>
      reply.Reply? && Distinct(PageIds(before + reply.pages)) && |before + reply.pages| <= limits.maxPages
  }

  /** Why an export of which n replies were taken up is refused. */
  ghost predicate Refused(novo: Novo, n: nat, limits: Limits, error: SyncError) {
    || (error == ExportLimitExceeded && n == limits.maxRequests)
    || (n < limits.maxRequests && ReplyRefused(Exported(novo, n), novo(n), limits, error))
    || (error == InvalidExport && novo(n).Reply? && !novo(n).complete && !Continues(novo, n + 1))
    || (error.JobFailed? && n > 0 && GoodExport(novo, n, limits))
  }

  // ---------------------------------------------------------------- staging as a value

  ghost function BatchAt(scope: NotebookScope, batches: seq<seq<Page>>, i: nat): Batch
    requires i < |batches|
  {
    Batch(scope, i, PagesChecksum(batches[i]), batches[i])
  }

  ghost function StagedBytes(scope: NotebookScope, batches: seq<seq<Page>>): nat {
    if batches == [] then 0
    else StagedBytes(scope, batches[..|batches| - 1]) + BatchBytes(BatchAt(scope, batches, |batches| - 1))
  }

  ghost function Numbered(scope: NotebookScope, batches: seq<seq<Page>>): Directory {
    map i: nat | i < |batches| :: BatchAt(scope, batches, i)
  }

  /** The store after staging these batches into a scope that had none. */
  ghost function StagedStore(s: Store, scope: NotebookScope, batches: seq<seq<Page>>): Store {
    if batches == [] then s
    else s.(staging := s.staging[scope := Numbered(scope, batches)],
            bytesUsed := s.bytesUsed + StagedBytes(scope, batches))
  }

  ghost predicate Untouched(s: Store, scope: NotebookScope) {
    scope !in s.staging && scope !in s.final
  }

  ghost function FinalBytes(scope: NotebookScope, pages: seq<Page>, batchCount: nat): nat {
    DocumentBytes(Document(scope, PagesChecksum(pages), pages, batchCount))
  }

  /** Room for all batches and, beside them, for the final copy. */
  ghost predicate RoomFor(s: Store, scope: NotebookScope, batches: seq<seq<Page>>, pages: seq<Page>) {
    s.bytesUsed + StagedBytes(scope, batches) + FinalBytes(scope, pages, |batches|) <= s.maxBytes
  }

  lemma {:induction false} StageNext(s: Store, scope: NotebookScope, batches: seq<seq<Page>>, batch: seq<Page>)
    requires Untouched(s, scope)
    ensures StageBatch(StagedStore(s, scope, batches), scope, |batches|, PagesChecksum(batch), batch)
         == if s.bytesUsed + StagedBytes(scope, batches + [batch]) <= s.maxBytes
            then (StagedStore(s, scope, batches + [batch]), Ok(|batch|))
            else (StagedStore(s, scope, batches), Err(StorageQuotaExceeded))
  {
    hide PagesChecksum, BatchBytes;
    var all := batches + [batch];
    assert all[..|all| - 1] == batches;
    assert Numbered(scope, all) == Numbered(scope, batches)[|batches| := BatchAt(scope, all, |batches|)];
    assert StagingOf(StagedStore(s, scope, batches), scope) == Numbered(scope, batches);
    assert StagedBytes(scope, all) == StagedBytes(scope, batches) + BatchBytes(BatchAt(scope, all, |batches|));
    var staged := StagedStore(s, scope, batches);
    assert staged.staging[scope := Numbered(scope, all)] == s.staging[scope := Numbered(scope, all)];
  }

  lemma {:induction false} StagedBytesGrow(scope: NotebookScope, batches: seq<seq<Page>>, n: nat)
    requires n <= |batches|
    ensures StagedBytes(scope, batches[..n]) <= StagedBytes(scope, batches)
  {
    hide BatchBytes;
    if n < |batches| {
      StagedBytesGrow(scope, batches[..|batches| - 1], n);
      assert batches[..|batches| - 1][..n] == batches[..n];
    } else {
      assert batches[..n] == batches;
    }
  }

  lemma {:induction false} NumberedConcatenates(scope: NotebookScope, batches: seq<seq<Page>>, n: nat)
    requires n <= |batches|
    ensures forall i :: 0 <= i < n ==> i in Numbered(scope, batches)
    ensures Concatenated(Numbered(scope, batches), n) == Flatten(batches[..n])
  {
    hide PagesChecksum;
    if n > 0 {
      NumberedConcatenates(scope, batches, n - 1);
      assert batches[..n][..n - 1] == batches[..n - 1];
    }
  }

  lemma StagedStoreIsSound(s: Store, scope: NotebookScope, batches: seq<seq<Page>>)
    requires Sound(s) && Untouched(s, scope)
    ensures Sound(StagedStore(s, scope, batches))
  {
    hide PagesChecksum, BatchBytes, SoundDocument;
  }

  lemma StagedDirectory(s: Store, scope: NotebookScope, batches: seq<seq<Page>>)
    requires Untouched(s, scope)
    ensures StagingOf(StagedStore(s, scope, batches), scope) == Numbered(scope, batches)
    ensures Complete(Numbered(scope, batches), |batches|)
  {
    hide PagesChecksum, BatchBytes;
    assert Numbered(scope, batches).Keys == Numbers(|batches|);
  }

  /** Finalizing freshly staged batches under their own totals succeeds exactly when pages are distinct
      and there is room. */
  lemma {:induction false} FinalizeStaged(s: Store, scope: NotebookScope, batches: seq<seq<Page>>)
    requires Sound(s) && Untouched(s, scope)
    ensures var pages := Flatten(batches);
            Finalize(StagedStore(s, scope, batches), scope, PagesChecksum(pages), |pages|, |batches|).1.Ok?
            <==> Distinct(PageIds(pages)) && RoomFor(s, scope, batches, pages)
  {
    hide PagesChecksum, DocumentBytes, Finalize, Numbered, Complete, StagingOf, Distinct;
    var pages, staged := Flatten(batches), StagedStore(s, scope, batches);
    StagedStoreIsSound(s, scope, batches);
    StagedDirectory(s, scope, batches);
    NumberedConcatenates(scope, batches, |batches|);
    assert batches[..|batches|] == batches;
    FinalizeSucceedsExactly(staged, scope, PagesChecksum(pages), |pages|, |batches|);
  }

  // ---------------------------------------------------------------- exports and their batches

  lemma {:induction false} BatchesFlatten(novo: Novo, n: nat, limits: Limits)
    requires WithinLimits(Exported(novo, n), limits)
    ensures Flatten(Batches(novo, n, limits.batchMaxBytes)) == Exported(novo, n)
  {
    hide Oversized, Greedy, Distinct, WithinLimits, Flatten, Saturated;
    if n == 0 {
      assert Flatten([]) == [] by { FlattenNone(); }
    } else {
      ExportedPrefix(novo, n - 1, n);
      var before, pages := Exported(novo, n - 1), PagesOf(novo(n - 1));
      PrefixWithinLimits(before, pages, limits);
      BatchesFlatten(novo, n - 1, limits);
      GreedyPacks(pages, limits.batchMaxBytes);
      FlattenAppend(Batches(novo, n - 1, limits.batchMaxBytes), Greedy(pages, limits.batchMaxBytes));
    }
  }

  lemma FlattenNone()
    ensures Flatten([]) == []
  {
  }

  lemma {:induction false} ExportedPrefix(novo: Novo, m: nat, n: nat)
    requires m <= n
    ensures Exported(novo, m) <= Exported(novo, n)
  {
    if m < n {
      ExportedPrefix(novo, m, n - 1);
    }
  }

  lemma {:induction false} BatchesPrefix(novo: Novo, m: nat, n: nat, cap: nat)
    requires m <= n
    ensures Batches(novo, m, cap) <= Batches(novo, n, cap)
  {
    hide Greedy;
    if m < n {
      BatchesPrefix(novo, m, n - 1, cap);
    }
  }

  lemma PrefixWithinLimits(before: seq<Page>, pages: seq<Page>, limits: Limits)
    requires WithinLimits(before + pages, limits)
    ensures WithinLimits(before, limits)
    ensures Distinct(PageIds(pages)) && forall k :: 0 <= k < |pages| ==> !Oversized(pages[k], limits.batchMaxBytes)
    ensures forall i, j :: 0 <= i < |before| && 0 <= j < |pages| ==> before[i].pageId != pages[j].pageId
  {
    hide Oversized;
    var all := before + pages;
    forall i, j | 0 <= i < j < |before| ensures PageIds(before)[i] != PageIds(before)[j] {
      assert PageIds(all)[i] != PageIds(all)[j];
    }
    forall i, j | 0 <= i < j < |pages| ensures PageIds(pages)[i] != PageIds(pages)[j] {
      assert PageIds(all)[|before| + i] != PageIds(all)[|before| + j];
    }
    forall i, j | 0 <= i < |before| && 0 <= j < |pages| ensures before[i].pageId != pages[j].pageId {
      assert PageIds(all)[i] != PageIds(all)[|before| + j];
    }
    forall k | 0 <= k < |before| ensures !Oversized(before[k], limits.batchMaxBytes) {
      assert all[k] == before[k];
    }
    forall k | 0 <= k < |pages| ensures !Oversized(pages[k], limits.batchMaxBytes) {
      assert all[|before| + k] == pages[k];
    }
  }

  // ---------------------------------------------------------------- the gateway

  /** One reply: partition its pages and ingest the batches as they come, under consecutive numbers. */
  method IngestReply(store: DocumentStore, scope: NotebookScope, pages: seq<Page>, batchCount: nat, cap: nat,
                     ghost origin: Store, ghost staged: seq<seq<Page>>)
    returns (ingested: nat, failure: Option<SyncError>)
    requires Sound(store.State())
    requires Untouched(origin, scope) ==> store.State() == StagedStore(origin, scope, staged) && batchCount == |staged|
    modifies store
    ensures Sound(store.State())
    ensures failure.None? ==>
              ingested == |Greedy(pages, cap)| && forall k :: 0 <= k < |pages| ==> !Oversized(pages[k], cap)
    ensures Untouched(origin, scope) && failure.None? ==>
              store.State() == StagedStore(origin, scope, staged + Greedy(pages, cap))
    ensures && Untouched(origin, scope)
            && (forall k :: 0 <= k < |pages| ==> !Oversized(pages[k], cap))
            && origin.bytesUsed + StagedBytes(scope, staged + Greedy(pages, cap)) <= origin.maxBytes
            ==> failure.None?
    ensures failure.Some? ==>
              failure.value.JobFailed?
              || (failure.value == ExportLimitExceeded && exists k :: 0 <= k < |pages| && Oversized(pages[k], cap))
  {
    hide Sound, StageBatch, StagedStore, StagedBytes, Greedy, Oversized, IsPartition, Saturated, PagesChecksum;
    var batches, oversized := PartitionPageBatches(pages, cap);
    ingested := 0;
    assert staged + batches[..0] == staged;
    while ingested < |batches|
      invariant ingested <= |batches|
      invariant Sound(store.State())
      invariant Untouched(origin, scope) ==> store.State() == StagedStore(origin, scope, staged + batches[..ingested])
    {
      var batch := batches[ingested];
      ghost var before := staged + batches[..ingested];
      assert before + [batch] == staged + batches[..ingested + 1];
      StageKeepsSound(store.State(), scope, batchCount + ingested, PagesChecksum(batch), batch);
      if Untouched(origin, scope) {
        StageNext(origin, scope, before, batch);
      }
      var job := store.Stage(scope, batchCount + ingested, PagesChecksum(batch), batch);
      if job.Err? {
        if Untouched(origin, scope) {
          var all := staged + batches;
          assert all[..|staged| + ingested + 1] == before + [batch];
          StagedBytesGrow(scope, all, |staged| + ingested + 1);
        }
        return ingested, Some(JobFailed(job.error));
      }
      ingested := ingested + 1;
    }
    assert batches[..|batches|] == batches;
    failure := if oversized then Some(ExportLimitExceeded) else None;
  }

  /** Where a good export stands before request k, and what the reply to it must look like. */
  lemma {:induction false} GoodStep(s: Store, scope: NotebookScope, novo: Novo, n: nat, k: nat, limits: Limits)
    requires GoodExport(novo, n, limits) && k < n
    requires RoomFor(s, scope, Batches(novo, n, limits.batchMaxBytes), Exported(novo, n))
    ensures k < limits.maxRequests && novo(k).Reply?
    ensures WithinLimits(Exported(novo, k) + novo(k).pages, limits)
    ensures novo(k).complete <==> k + 1 == n
    ensures k + 1 < n ==> Continues(novo, k + 1)
    ensures s.bytesUsed + StagedBytes(scope, Batches(novo, k + 1, limits.batchMaxBytes)) <= s.maxBytes
  {
    hide Oversized, Distinct, StagedBytes, FinalBytes, Greedy;
    var cap := limits.batchMaxBytes;
    ExportedPrefix(novo, k + 1, n);
    var part := Exported(novo, k + 1);
    assert Exported(novo, n) == part + Exported(novo, n)[|part|..];
    PrefixWithinLimits(part, Exported(novo, n)[|part|..], limits);
    BatchesPrefix(novo, k + 1, n, cap);
    StagedBytesGrow(scope, Batches(novo, n, cap), |Batches(novo, k + 1, cap)|);
    assert Batches(novo, n, cap)[..|Batches(novo, k + 1, cap)|] == Batches(novo, k + 1, cap);
  }

  function Ids(pages: seq<Page>): set<string> {
    set i | 0 <= i < |pages| :: pages[i].pageId
  }

  /** The gateway's duplicate test, over the pages seen so far and the new ones. */
  lemma {:induction false} DuplicateTest(before: seq<Page>, pages: seq<Page>)
    requires Distinct(PageIds(before))
    ensures |Ids(pages)| == |pages| && Ids(pages) !! Ids(before) <==> Distinct(PageIds(before + pages))
    ensures Ids(before + pages) == Ids(before) + Ids(pages)
  {
    var all := before + pages;
    assert forall i :: 0 <= i < |before| ==> all[i] == before[i];
    assert forall i :: 0 <= i < |pages| ==> all[|before| + i] == pages[i];
    CountIds(pages);
    if Distinct(PageIds(all)) {
      JoinedDistinct(before, pages);
    }
    if Distinct(PageIds(pages)) && Ids(pages) !! Ids(before) {
      forall i, j | 0 <= i < j < |all| ensures PageIds(all)[i] != PageIds(all)[j] {
        if i >= |before| {
          assert PageIds(pages)[i - |before|] != PageIds(pages)[j - |before|];
        } else if j < |before| {
          assert PageIds(before)[i] != PageIds(before)[j];
        } else {
          assert before[i].pageId in Ids(before) && pages[j - |before|].pageId in Ids(pages);
        }
      }
    }
  }

  lemma CountIds(pages: seq<Page>)
    ensures |Ids(pages)| == |pages| <==> Distinct(PageIds(pages))
  {
    var ids := PageIds(pages);
    CountDistinct(ids);
    assert forall i :: 0 <= i < |pages| ==> ids[i] == pages[i].pageId;
    assert (set id | id in ids) == Ids(pages);
  }

  lemma JoinedDistinct(before: seq<Page>, pages: seq<Page>)
    requires Distinct(PageIds(before + pages))
    ensures Distinct(PageIds(pages)) && Ids(pages) !! Ids(before)
  {
    var all := before + pages;
    forall i, j | 0 <= i < j < |pages| ensures PageIds(pages)[i] != PageIds(pages)[j] {
      assert PageIds(all)[|before| + i] != PageIds(all)[|before| + j];
    }
    forall i, j | 0 <= i < |before| && 0 <= j < |pages| ensures before[i].pageId != pages[j].pageId {
      assert PageIds(all)[i] != PageIds(all)[|before| + j];
    }
  }

  /** The page-side loop variables after these pages were exported in these batches. */
  ghost predicate Tallied(pages: seq<Page>, batches: seq<seq<Page>>, limits: Limits,
                          ids: set<string>, pageCount: nat, batchCount: nat)
  {
    WithinLimits(pages, limits) && ids == Ids(pages) && pageCount == |pages| && batchCount == |batches|
  }

  /** One turn of the loop up to the cursor: duplicate test, page limit, checksum, ingest. */
  method HandleReply(store: DocumentStore, scope: NotebookScope, reply: Reply, limits: Limits,
                     checksum: CanonicalDocumentChecksum,
                     seenPageIds: set<string>, pageCount: nat, batchCount: nat,
                     ghost origin: Store, ghost before: seq<Page>, ghost staged: seq<seq<Page>>)
    returns (ids: set<string>, pageTotal: nat, batchTotal: nat, failure: Option<SyncError>)
    requires Sound(store.State()) && checksum.Valid() && checksum.added == before
    requires Tallied(before, staged, limits, seenPageIds, pageCount, batchCount)
    requires Untouched(origin, scope) ==> store.State() == StagedStore(origin, scope, staged)
    modifies store, checksum
    ensures Sound(store.State()) && checksum.Valid()
    ensures failure.None? ==>
              && reply.Reply? && checksum.added == before + reply.pages
              && Tallied(before + reply.pages, staged + Greedy(reply.pages, limits.batchMaxBytes), limits, ids,
                         pageTotal, batchTotal)
              && (Untouched(origin, scope) ==>
                    store.State() == StagedStore(origin, scope, staged + Greedy(reply.pages, limits.batchMaxBytes)))
    ensures && Untouched(origin, scope) && reply.Reply? && WithinLimits(before + reply.pages, limits)
            && origin.bytesUsed + StagedBytes(scope, staged + Greedy(reply.pages, limits.batchMaxBytes))
               <= origin.maxBytes
            ==> failure.None?
    ensures failure.Some? ==> ReplyRefused(before, reply, limits, failure.value)
  {
    hide Sound, StagedStore, StagedBytes, Greedy, Oversized, Distinct, Ids;
    ids, pageTotal, batchTotal := seenPageIds, pageCount, batchCount;
    if reply.Unavailable? {
      return ids, pageTotal, batchTotal, Some(ExportUnavailable);
    }
    var documents := reply.pages;
    var pageIds := Ids(documents);
    DuplicateTest(before, documents);
    if |pageIds| != |documents| || exists id :: id in pageIds && id in seenPageIds {
      return ids, pageTotal, batchTotal, Some(InvalidExport);
    }
    ids := ids + pageIds;
    if pageCount + |documents| > limits.maxPages {
      return ids, pageTotal, batchTotal, Some(ExportLimitExceeded);
    }
    pageTotal := pageCount + |documents|;
    checksum.Add(documents);
    if WithinLimits(before + documents, limits) {
      PrefixWithinLimits(before, documents, limits);
    }
    var ingested, ingestFailure := IngestReply(store, scope, documents, batchCount, limits.batchMaxBytes,
                                                 origin, staged);
    batchTotal := batchCount + ingested;
    failure := ingestFailure;
  }

  /** What the loop knows after k replies none of which completed the export. */
  ghost predicate Streaming(novo: Novo, k: nat, limits: Limits, cursors: set<string>) {
    && k <= limits.maxRequests
    && Continues(novo, k)
    && (forall c :: c in cursors <==> exists i :: 0 <= i < k && novo(i).nextCursor == c)
  }

  lemma {:induction false} NextCursor(novo: Novo, k: nat, limits: Limits, cursors: set<string>)
    requires Streaming(novo, k, limits, cursors) && k < limits.maxRequests
    requires novo(k).Reply? && !novo(k).complete
    ensures novo(k).nextCursor != "" && novo(k).nextCursor !in cursors ==>
              Streaming(novo, k + 1, limits, cursors + {novo(k).nextCursor})
    ensures Continues(novo, k + 1) ==> novo(k).nextCursor != "" && novo(k).nextCursor !in cursors
  {
    forall c
      ensures (exists i :: 0 <= i < k + 1 && novo(i).nextCursor == c) <==> c in cursors || c == novo(k).nextCursor {
      if c == novo(k).nextCursor {
        assert novo(k).nextCursor == c;
      }
    }
  }

  method ExportAndIngest(store: DocumentStore, scope: NotebookScope, novo: Novo, limits: Limits, ghost n: nat)
    returns (r: Result<ExportSummary, SyncError>, ghost requests: nat)
    requires Sound(store.State())
    modifies store
    ensures Sound(store.State())
    ensures r.Ok? ==>
              && GoodExport(novo, requests, limits)
              && Load(store.State(), scope) == Ok(Exported(novo, requests))
              && r.value == ExportSummary(|Exported(novo, requests)|, |Batches(novo, requests, limits.batchMaxBytes)|,
                                          PagesChecksum(Exported(novo, requests)))
              && (Untouched(old(store.State()), scope) ==>
                    RoomFor(old(store.State()), scope, Batches(novo, requests, limits.batchMaxBytes),
                            Exported(novo, requests)))
    ensures && Untouched(old(store.State()), scope) && GoodExport(novo, n, limits)
            && RoomFor(old(store.State()), scope, Batches(novo, n, limits.batchMaxBytes), Exported(novo, n))
            ==> r.Ok? && requests == n
    ensures r.Err? ==> Refused(novo, requests, limits, r.error)
  {
    hide Sound, StagedStore, StagedBytes, RoomFor, Finalize, Load, Greedy, PagesChecksum, GoodExport, WithinLimits;
    hide Continues;
    hide Exported, Batches, Streaming, Ids;
    ghost var origin, cap := store.State(), limits.batchMaxBytes;
    ghost var good := && Untouched(origin, scope) && GoodExport(novo, n, limits)
                      && RoomFor(origin, scope, Batches(novo, n, cap), Exported(novo, n));
    var seenCursors: set<string>, seenPageIds: set<string> := {}, {};
    var pageCount, batchCount := 0, 0;
    var checksum := new CanonicalDocumentChecksum();
    var pageRequests := 0;
    NothingYet(origin, scope, novo, limits);
    while true
      invariant Streaming(novo, pageRequests, limits, seenCursors)
      invariant Tallied(Exported(novo, pageRequests), Batches(novo, pageRequests, cap), limits, seenPageIds,
                        pageCount, batchCount)
      invariant fresh(checksum) && checksum.Valid() && checksum.added == Exported(novo, pageRequests)
      invariant Sound(store.State())
      invariant Untouched(origin, scope) ==>
                  store.State() == StagedStore(origin, scope, Batches(novo, pageRequests, cap))
      invariant good ==> pageRequests < n
      decreases limits.maxRequests - pageRequests
    {
      if good {
        GoodStep(origin, scope, novo, n, pageRequests, limits);
      }
      OneMore(novo, pageRequests, limits, seenCursors);
      if pageRequests + 1 > limits.maxRequests {
        return Err(ExportLimitExceeded), pageRequests;
      }
      var exported := novo(pageRequests);
      var failure: Option<SyncError>;
      seenPageIds, pageCount, batchCount, failure :=
        HandleReply(store, scope, exported, limits, checksum, seenPageIds, pageCount, batchCount,
                    origin, Exported(novo, pageRequests), Batches(novo, pageRequests, cap));
      if failure.Some? {
        return Err(failure.value), pageRequests;
      }
      if exported.complete {
        pageRequests := pageRequests + 1;
        break;
      }
      NextCursor(novo, pageRequests, limits, seenCursors);
      if exported.nextCursor == "" || exported.nextCursor in seenCursors {
        return Err(InvalidExport), pageRequests;
      }
      seenCursors := seenCursors + {exported.nextCursor};
      pageRequests := pageRequests + 1;
    }
    var documentChecksum := checksum.HexDigest();
    FinishExport(store.State(), origin, scope, novo, pageRequests, limits);
    var finalized := store.FinalizeDocument(scope, documentChecksum, pageCount, batchCount, None);
    if finalized.Err? {
      return Err(JobFailed(finalized.error)), pageRequests;
    }
    return Ok(ExportSummary(pageCount, batchCount, documentChecksum)), pageRequests;
  }

  /** Request k adds its reply; if that completes the export, k + 1 replies make a good one. */
  lemma OneMore(novo: Novo, k: nat, limits: Limits, cursors: set<string>)
    requires Streaming(novo, k, limits, cursors)
    ensures k <= limits.maxRequests
    ensures novo(k).Reply? ==> Exported(novo, k + 1) == Exported(novo, k) + novo(k).pages
    ensures novo(k).Reply? ==>
              Batches(novo, k + 1, limits.batchMaxBytes)
              == Batches(novo, k, limits.batchMaxBytes) + Greedy(novo(k).pages, limits.batchMaxBytes)
    ensures k < limits.maxRequests && novo(k).Reply? && novo(k).complete
            && WithinLimits(Exported(novo, k + 1), limits) ==>
              GoodExport(novo, k + 1, limits)
  {
    hide Greedy, WithinLimits;
  }

  lemma NothingYet(origin: Store, scope: NotebookScope, novo: Novo, limits: Limits)
    ensures Exported(novo, 0) == [] && Batches(novo, 0, limits.batchMaxBytes) == []
    ensures StagedStore(origin, scope, []) == origin
    ensures Tallied([], [], limits, {}, 0, 0) && Streaming(novo, 0, limits, {})
    ensures forall n :: GoodExport(novo, n, limits) ==> 0 < n
  {
    hide Oversized;
    assert Ids([]) == {};
  }

  /** Whatever the store held, a successful finalize makes the export loadable; on a fresh scope,
      room is all it takes. */
  lemma {:induction false} FinishExport(s: Store, origin: Store, scope: NotebookScope, novo: Novo, k: nat,
                                        limits: Limits)
    requires Sound(s) && WithinLimits(Exported(novo, k), limits)
    requires Untouched(origin, scope) ==> s == StagedStore(origin, scope, Batches(novo, k, limits.batchMaxBytes))
    ensures var pages, batches := Exported(novo, k), Batches(novo, k, limits.batchMaxBytes);
            var (s', r) := Finalize(s, scope, PagesChecksum(pages), |pages|, |batches|);
            && Sound(s')
            && (r.Ok? ==> Load(s', scope) == Ok(pages))
            && (Untouched(origin, scope) && Sound(origin) ==> (r.Ok? <==> RoomFor(origin, scope, batches, pages)))
  {
    hide Sound, StagedStore, RoomFor, Finalize, Load, Oversized, Greedy, PagesChecksum, Concatenated, Complete;
    var pages, batches := Exported(novo, k), Batches(novo, k, limits.batchMaxBytes);
    var (s', r) := Finalize(s, scope, PagesChecksum(pages), |pages|, |batches|);
    FinalizeKeepsSound(s, scope, PagesChecksum(pages), |pages|, |batches|, {});
    FinalizeAllOrNothing(s, scope, PagesChecksum(pages), |pages|, |batches|);
    if r.Ok? {
      ChecksumInjective(r.value.pages, pages);
    }
    if Untouched(origin, scope) && Sound(origin) {
      BatchesFlatten(novo, k, limits);
      FinalizeStaged(origin, scope, batches);
    }
  }
}
