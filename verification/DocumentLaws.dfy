/**
 Laws of the document store over single calls and whole runs: integrity, exact byte accounting,
 the quota, all-or-nothing finalization, and write-once content.
 */
module DocumentLaws {
  import opened Wrappers
  import opened Types
  import opened Canonical
  import opened Sums
  import opened Documents

  datatype Call =
    | StageCall(scope: NotebookScope, number: nat, checksum: Digest, pages: seq<Page>)
    | FinalizeCall(scope: NotebookScope, checksum: Digest, pageCount: nat, batchCount: nat)
    | CutFinalizeCall(scope: NotebookScope, checksum: Digest, pageCount: nat, batchCount: nat, gone: set<nat>)
    | PruneStagingCall(retained: set<NotebookScope>, stale: set<NotebookScope>)
    | PruneFinalCall(retained: set<NotebookScope>, stale: set<NotebookScope>)
    | CutPruneCall(goneStaging: set<NotebookScope>, torn: map<NotebookScope, set<nat>>, goneFinal: set<NotebookScope>)
    | Reopen

  function Torn(staging: map<NotebookScope, Directory>, gone: set<NotebookScope>, torn: map<NotebookScope, set<nat>>)
    : map<NotebookScope, Directory>
  {
    map k | k in staging && k !in gone :: if k in torn then staging[k] - torn[k] else staging[k]
  }

  /** A prune that raises part-way has deleted directories and single files, and has not measured again. */
  function CutPrune(s: Store, gone: set<NotebookScope>, torn: map<NotebookScope, set<nat>>,
                    goneFinal: set<NotebookScope>): Store
  {
    s.(staging := Torn(s.staging, gone, torn), final := s.final - goneFinal)
  }

  ghost function Apply(s: Store, call: Call): Store {
    match call
    case StageCall(scope, number, checksum, pages) => StageBatch(s, scope, number, checksum, pages).0
    case FinalizeCall(scope, checksum, pageCount, batchCount) => Finalize(s, scope, checksum, pageCount, batchCount).0
    case CutFinalizeCall(scope, checksum, pageCount, batchCount, gone) =>
      CutFinalize(s, scope, checksum, pageCount, batchCount, gone).0
    case PruneStagingCall(retained, stale) => PruneStaging(s, retained, stale)
    case PruneFinalCall(retained, stale) => PruneFinal(s, retained, stale)
    case CutPruneCall(gone, torn, goneFinal) => CutPrune(s, gone, torn, goneFinal)
    case Reopen => s.(bytesUsed := TreeSize(s))
  }

  ghost function Run(s: Store, calls: seq<Call>): Store {
    if calls == [] then s else Apply(Run(s, calls[..|calls| - 1]), calls[|calls| - 1])
  }

  // ---------------------------------------------------------------- integrity

  /** Every file is filed under its own scope and number and carries the checksum of its pages. */
  ghost predicate Sound(s: Store) {
    && (forall scope, n :: scope in s.staging && n in s.staging[scope] ==> Intact(s.staging[scope][n], scope, n))
    && (forall scope :: scope in s.final ==> SoundDocument(s.final[scope], scope))
  }

  ghost predicate SoundDocument(document: Document, scope: NotebookScope) {
    && document.scope == scope
    && document.checksum == PagesChecksum(document.pages)
    && Distinct(PageIds(document.pages))
  }

  /** A list has as many members as positions exactly when no entry repeats. */
  lemma {:induction false} CountDistinct<T>(ids: seq<T>)
    ensures |set id | id in ids| == |ids| <==> Distinct(ids)
    ensures |set id | id in ids| <= |ids|
  {
    var members := set id | id in ids;
    if ids == [] {
      assert members == {};
    } else {
      var init, last := ids[..|ids| - 1], ids[|ids| - 1];
      CountDistinct(init);
      var others := set id | id in init;
      assert ids == init + [last];
      assert members == others + {last};
      if last in init {
        var i :| 0 <= i < |init| && init[i] == last;
        assert ids[i] == ids[|ids| - 1];
      } else {
        DistinctAppend(init, last);
      }
    }
  }

  lemma DistinctAppend<T>(init: seq<T>, last: T)
    requires last !in init
    ensures Distinct(init + [last]) <==> Distinct(init)
  {
    if Distinct(init + [last]) {
      forall i, j | 0 <= i < j < |init| ensures init[i] != init[j] {
        assert (init + [last])[i] != (init + [last])[j];
      }
    }
  }

  /** Batch pages in batch order. */
  ghost function Concatenated(directory: Directory, count: nat): seq<Page>
    requires forall i :: 0 <= i < count ==> i in directory
  {
    if count == 0 then [] else Concatenated(directory, count - 1) + directory[count - 1].pages
  }

  lemma {:induction false} ReassembleSound(s: Store, scope: NotebookScope, count: nat)
    requires Sound(s) && forall i :: 0 <= i < count ==> i in StagingOf(s, scope)
    ensures Reassemble(StagingOf(s, scope), scope, count) == Ok(Concatenated(StagingOf(s, scope), count))
  {
    if count > 0 {
      ReassembleSound(s, scope, count - 1);
    }
  }

  // ---------------------------------------------------------------- finalization

  lemma {:induction false} VerifiedPages(s: Store, scope: NotebookScope, checksum: Digest, pageCount: nat,
                                         batchCount: nat)
    requires Sound(s)
    ensures Verified(s, scope, checksum, pageCount, batchCount).Ok? <==>
              && Complete(StagingOf(s, scope), batchCount)
              && var pages := Concatenated(StagingOf(s, scope), batchCount);
                 Distinct(PageIds(pages)) && |pages| == pageCount && PagesChecksum(pages) == checksum
    ensures Verified(s, scope, checksum, pageCount, batchCount).Ok? ==>
              Verified(s, scope, checksum, pageCount, batchCount).value == Concatenated(StagingOf(s, scope), batchCount)
  {
    hide PagesChecksum, Reassemble, Distinct, Concatenated, Sound;
    if Complete(StagingOf(s, scope), batchCount) {
      ReassembleSound(s, scope, batchCount);
      CountDistinct(PageIds(Concatenated(StagingOf(s, scope), batchCount)));
    }
  }

  /** Only the one scope is touched: its staging goes, and its final copy is there. */
  lemma {:induction false} FinalizeFrame(s: Store, scope: NotebookScope, checksum: Digest, pageCount: nat,
                                         batchCount: nat)
    requires Finalize(s, scope, checksum, pageCount, batchCount).1.Ok?
    ensures var (s', r) := Finalize(s, scope, checksum, pageCount, batchCount);
            && Verified(s, scope, checksum, pageCount, batchCount) == Ok(r.value.pages)
            && s'.staging == s.staging - {scope}
            && s'.final == (if scope in s.final then s.final else s.final[scope := r.value])
            && r.value.scope == scope && r.value.checksum == checksum
            && (scope in s.final ==> s.final[scope].checksum == checksum)
  {
    hide Verified, DocumentBytes, DirectoryBytes;
  }

  lemma {:induction false} StageKeepsSound(s: Store, scope: NotebookScope, number: nat, checksum: Digest,
                                           pages: seq<Page>)
    requires Sound(s)
    ensures Sound(StageBatch(s, scope, number, checksum, pages).0)
  {
    hide PagesChecksum, BatchBytes, SoundDocument;
  }

  lemma {:induction false} PromoteKeepsSound(s: Store, scope: NotebookScope, checksum: Digest, pageCount: nat,
                                             batchCount: nat)
    requires Sound(s)
    ensures Sound(Promote(s, scope, checksum, pageCount, batchCount).0)
  {
    hide PagesChecksum, Verified, Distinct, Concatenated, StagingOf, Intact, DocumentBytes;
    VerifiedPages(s, scope, checksum, pageCount, batchCount);
  }

  lemma SmallerIsSound(s: Store, s': Store)
    requires Sound(s)
    requires s'.staging.Keys <= s.staging.Keys && s'.final.Keys <= s.final.Keys
    requires forall k :: k in s'.final ==> s'.final[k] == s.final[k]
    requires forall k, n :: k in s'.staging && n in s'.staging[k] ==>
               n in s.staging[k] && s'.staging[k][n] == s.staging[k][n]
    ensures Sound(s')
  {
    hide Intact, SoundDocument;
  }

  lemma {:induction false} FinalizeKeepsSound(s: Store, scope: NotebookScope, checksum: Digest, pageCount: nat,
                                              batchCount: nat, gone: set<nat>)
    requires Sound(s)
    ensures Sound(Finalize(s, scope, checksum, pageCount, batchCount).0)
    ensures Sound(CutFinalize(s, scope, checksum, pageCount, batchCount, gone).0)
  {
    hide Sound, Promote;
    PromoteKeepsSound(s, scope, checksum, pageCount, batchCount);
    var s' := Promote(s, scope, checksum, pageCount, batchCount).0;
    SmallerIsSound(s', DropStaging(s', scope));
    SmallerIsSound(s', TearStaging(s', scope, gone));
  }

  lemma CutPruneKeepsSound(s: Store, gone: set<NotebookScope>, torn: map<NotebookScope, set<nat>>,
                           goneFinal: set<NotebookScope>)
    requires Sound(s)
    ensures Sound(CutPrune(s, gone, torn, goneFinal))
  {
    hide Sound;
    SmallerIsSound(s, CutPrune(s, gone, torn, goneFinal));
  }

  lemma PrunesKeepSound(s: Store, retained: set<NotebookScope>, stale: set<NotebookScope>)
    requires Sound(s)
    ensures Sound(PruneStaging(s, retained, stale)) && Sound(PruneFinal(s, retained, stale))
  {
    hide Sound, TreeSize, Kept;
    SmallerIsSound(s, PruneStaging(s, retained, stale));
    SmallerIsSound(s, PruneFinal(s, retained, stale));
  }

  lemma {:induction false} ApplyKeepsSound(s: Store, call: Call)
    requires Sound(s)
    ensures Sound(Apply(s, call))
  {
    hide Sound, StageBatch, Finalize, CutFinalize, CutPrune, PruneStaging, PruneFinal, TreeSize;
    match call {
      case StageCall(scope, number, checksum, pages) => StageKeepsSound(s, scope, number, checksum, pages);
      case FinalizeCall(scope, checksum, pageCount, batchCount) =>
        FinalizeKeepsSound(s, scope, checksum, pageCount, batchCount, {});
      case CutFinalizeCall(scope, checksum, pageCount, batchCount, gone) =>
        FinalizeKeepsSound(s, scope, checksum, pageCount, batchCount, gone);
      case CutPruneCall(gone, torn, goneFinal) => CutPruneKeepsSound(s, gone, torn, goneFinal);
      case PruneStagingCall(retained, stale) => PrunesKeepSound(s, retained, stale);
      case PruneFinalCall(retained, stale) => PrunesKeepSound(s, retained, stale);
      case Reopen => SmallerIsSound(s, Apply(s, call));
    }
  }

  lemma OthersUntouched(s: Store, s': Store, scope: NotebookScope)
    requires s'.staging == s.staging - {scope}
    requires s'.final - {scope} == s.final - {scope}
    ensures forall other :: other != scope ==>
              StagingOf(s', other) == StagingOf(s, other) && Load(s', other) == Load(s, other)
  {
    hide PagesChecksum;
    forall other | other != scope
      ensures StagingOf(s', other) == StagingOf(s, other) && Load(s', other) == Load(s, other) {
      assert other in s'.final <==> other in s'.final - {scope};
      assert other in s.final <==> other in s.final - {scope};
      assert other in s.final ==> (s'.final - {scope})[other] == (s.final - {scope})[other];
    }
  }

  /**
   Finalization is all or nothing. Rejected, it changes neither tree nor the counter. Accepted, the final
   copy is exactly the concatenation of batches 0..n-1 under the declared checksum and count, the staging
   directory is gone, no other scope is touched, and loading gives those pages back.
   */
  lemma {:induction false} FinalizeAllOrNothing(s: Store, scope: NotebookScope, checksum: Digest, pageCount: nat,
                                                batchCount: nat)
    requires Sound(s)
    ensures var (s', r) := Finalize(s, scope, checksum, pageCount, batchCount);
            && (r.Err? ==> s' == s)
            && (r.Ok? ==>
                  && Complete(StagingOf(s, scope), batchCount)
                  && Concatenated(StagingOf(s, scope), batchCount) == r.value.pages
                  && |r.value.pages| == pageCount && PagesChecksum(r.value.pages) == checksum
                  && scope !in s'.staging && scope in s'.final
                  && Load(s', scope) == Ok(r.value.pages)
                  && (forall other :: other != scope ==> StagingOf(s', other) == StagingOf(s, other)
                                                         && Load(s', other) == Load(s, other)))
  {
    hide PagesChecksum, Verified, Distinct, Concatenated, StagingOf, Sound, Load, DropStaging, HasRoom;
    var (s', r) := Finalize(s, scope, checksum, pageCount, batchCount);
    if r.Ok? {
      hide Finalize;
      FinalizeFrame(s, scope, checksum, pageCount, batchCount);
      OthersUntouched(s, s', scope);
      VerifiedPages(s, scope, checksum, pageCount, batchCount);
      FinalCopyLoads(s, s', scope, checksum, r.value);
    }
  }

  /** The copy under this checksum, old or new, holds these pages. */
  lemma FinalCopyLoads(s: Store, s': Store, scope: NotebookScope, checksum: Digest, document: Document)
    requires Sound(s) && document.scope == scope && document.checksum == checksum
             && PagesChecksum(document.pages) == checksum
    requires scope in s.final ==> s.final[scope].checksum == checksum
    requires s'.final == (if scope in s.final then s.final else s.final[scope := document])
    ensures Load(s', scope) == Ok(document.pages)
  {
    hide PagesChecksum;
    if scope in s.final {
      SameChecksumSamePages(s.final[scope].pages, document.pages);
    }
  }

  lemma SameChecksumSamePages(a: seq<Page>, b: seq<Page>)
    ensures PagesChecksum(a) == PagesChecksum(b) ==> a == b
  {
    if PagesChecksum(a) == PagesChecksum(b) {
      ChecksumInjective(a, b);
    }
  }

  /** What a finalize needs, and all it needs: the batches, distinct pages, matching totals,
      and room or an equal copy. */
  ghost predicate Finalizable(s: Store, scope: NotebookScope, checksum: Digest, pageCount: nat, batchCount: nat) {
    && Complete(StagingOf(s, scope), batchCount)
    && var pages := Concatenated(StagingOf(s, scope), batchCount);
       && Distinct(PageIds(pages)) && |pages| == pageCount && PagesChecksum(pages) == checksum
       && (if scope in s.final then s.final[scope].pages == pages
           else s.bytesUsed + DocumentBytes(Document(scope, checksum, pages, batchCount)) <= s.maxBytes)
  }

  lemma {:induction false} FinalizeSucceedsExactly(s: Store, scope: NotebookScope, checksum: Digest, pageCount: nat,
                                                   batchCount: nat)
    requires Sound(s)
    ensures Finalize(s, scope, checksum, pageCount, batchCount).1.Ok? <==>
              Finalizable(s, scope, checksum, pageCount, batchCount)
  {
    hide PagesChecksum, Verified, Distinct, Concatenated, DocumentBytes;
    VerifiedPages(s, scope, checksum, pageCount, batchCount);
    if Complete(StagingOf(s, scope), batchCount) && scope in s.final {
      SameChecksumSamePages(s.final[scope].pages, Concatenated(StagingOf(s, scope), batchCount));
    }
  }

  /** The batches are all there; their pages in order. */
  ghost predicate Whole(s: Store, scope: NotebookScope, batchCount: nat) {
    forall n: nat :: n in StagingOf(s, scope) <==> n < batchCount
  }

  /**
   Why a finalize is refused, in the order of the tests: batches missing or beyond the count, a page twice, a wrong
   count, a wrong checksum, another document under the same revision, no room.
   */
  lemma {:induction false} FinalizeErrors(s: Store, scope: NotebookScope, checksum: Digest, pageCount: nat,
                                          batchCount: nat)
    requires Sound(s)
    ensures var r := Finalize(s, scope, checksum, pageCount, batchCount).1;
            && (r == Err(IngestBatchesIncomplete) <==> !Whole(s, scope, batchCount))
            && (Whole(s, scope, batchCount) ==>
                  var pages := Concatenated(StagingOf(s, scope), batchCount);
                  var distinct, counted := Distinct(PageIds(pages)), |pages| == pageCount;
                  var right := distinct && counted && PagesChecksum(pages) == checksum;
                  && (r == Err(DuplicatePage) <==> !distinct)
                  && (r == Err(PageCountMismatch) <==> distinct && !counted)
                  && (r == Err(DocumentChecksumMismatch) <==> distinct && counted && PagesChecksum(pages) != checksum)
                  && (r == Err(ContentRevisionConflict) <==>
                        right && scope in s.final && s.final[scope].pages != pages)
                  && (r == Err(StorageQuotaExceeded) <==>
                        right && scope !in s.final
                        && s.bytesUsed + DocumentBytes(Document(scope, checksum, pages, batchCount)) > s.maxBytes))
  {
    hide PagesChecksum, Distinct, Concatenated, DocumentBytes, DropStaging, Reassemble;
    WholeIsComplete(s, scope, batchCount);
    if Complete(StagingOf(s, scope), batchCount) {
      var pages := Concatenated(StagingOf(s, scope), batchCount);
      ReassembleSound(s, scope, batchCount);
      CountDistinct(PageIds(pages));
      if scope in s.final {
        SameChecksumSamePages(s.final[scope].pages, pages);
      }
    }
  }

  lemma WholeIsComplete(s: Store, scope: NotebookScope, batchCount: nat)
    ensures Whole(s, scope, batchCount) <==> Complete(StagingOf(s, scope), batchCount)
  {
    var directory := StagingOf(s, scope);
    if Whole(s, scope, batchCount) {
      assert forall n :: n in directory.Keys <==> n in Numbers(batchCount);
    }
    if Complete(directory, batchCount) {
      assert forall n: nat :: n in directory <==> n in directory.Keys;
    }
  }

  /** A batch file that was changed on disk is noticed before anything is stored. */
  lemma {:induction false} DamagedBatchIsRefused(s: Store, scope: NotebookScope, checksum: Digest, pageCount: nat,
                                                 batchCount: nat, n: nat)
    requires Whole(s, scope, batchCount) && n < batchCount && n in StagingOf(s, scope)
    requires var batch := StagingOf(s, scope)[n];
             batch.scope != scope || batch.number != n || PagesChecksum(batch.pages) != batch.checksum
    ensures Finalize(s, scope, checksum, pageCount, batchCount) == (s, Err(DocumentStoreCorrupt))
  {
    hide PagesChecksum, Whole, DropStaging;
    WholeIsComplete(s, scope, batchCount);
    DamageSpreads(StagingOf(s, scope), scope, n, batchCount);
  }

  lemma {:induction false} DamageSpreads(directory: Directory, scope: NotebookScope, n: nat, count: nat)
    requires n < count && (forall i :: 0 <= i < count ==> i in directory) && !Intact(directory[n], scope, n)
    ensures Reassemble(directory, scope, count) == Err(DocumentStoreCorrupt)
    decreases count
  {
    hide Intact;
    if n < count - 1 {
      DamageSpreads(directory, scope, n, count - 1);
    } else {
      OnlyCorrupt(directory, scope, count - 1);
    }
  }

  lemma {:induction false} OnlyCorrupt(directory: Directory, scope: NotebookScope, count: nat)
    requires forall i :: 0 <= i < count ==> i in directory
    ensures Reassemble(directory, scope, count).Ok? || Reassemble(directory, scope, count) == Err(DocumentStoreCorrupt)
  {
    hide Intact;
    if count > 0 {
      OnlyCorrupt(directory, scope, count - 1);
    }
  }

  /**
   What loads is what was finalized, whatever happened to the file: a copy that kept the scope and the checksum of
   its document loads exactly that document's pages or not at all.
   */
  lemma {:induction false} ChangedCopyDoesNotLoad(s: Store, scope: NotebookScope, original: seq<Page>)
    requires scope in s.final && s.final[scope].checksum == PagesChecksum(original)
    ensures Load(s, scope)
         == if s.final[scope].scope == scope && s.final[scope].pages == original then Ok(original)
            else Err(DocumentStoreCorrupt)
    ensures forall other :: other !in s.final ==> Load(s, other) == Err(DocumentNotFinalized)
  {
    hide PagesChecksum;
    SameChecksumSamePages(s.final[scope].pages, original);
  }

  /**
   Resuming a finalize that was interrupted after its document was written, by an error or by a crash, with its
   staging directory removed, torn or whole: it succeeds if and only if no batch file had gone, and otherwise
   reports missing batches and changes nothing. The document stays loadable either way.
   */
  lemma {:induction false} ResumedFinalizeExactly(s: Store, t: Store, scope: NotebookScope, checksum: Digest,
                                                  pageCount: nat,
                                                  batchCount: nat, gone: set<nat>)
    requires Sound(s) && Finalize(s, scope, checksum, pageCount, batchCount).1.Ok?
    requires t.final == Finalize(s, scope, checksum, pageCount, batchCount).0.final
    requires StagingOf(t, scope) == StagingOf(s, scope) - gone
    ensures var (t', r) := Finalize(t, scope, checksum, pageCount, batchCount);
            && (r.Ok? <==> gone !! Numbers(batchCount))
            && (r.Err? ==> t' == t && r.error == IngestBatchesIncomplete)
            && Load(t', scope) == Ok(Finalize(s, scope, checksum, pageCount, batchCount).1.value.pages)
  {
    hide PagesChecksum, Distinct, Concatenated, Sound, Load, HasRoom, DropStaging, Reassemble, AllDistinct;
    hide DocumentBytes;
    var (s', r) := Finalize(s, scope, checksum, pageCount, batchCount);
    FinalizeFrame(s, scope, checksum, pageCount, batchCount);
    FinalizeAllOrNothing(s, scope, checksum, pageCount, batchCount);
    assert (StagingOf(s, scope) - gone).Keys == Numbers(batchCount) - gone;
    if gone !! Numbers(batchCount) {
      assert StagingOf(s, scope) - gone == StagingOf(s, scope);
    }
    KeepsFinal(t, scope, checksum, pageCount, batchCount);
    SameFinalLoads(s', Finalize(t, scope, checksum, pageCount, batchCount).0, scope);
  }

  lemma KeepsFinal(s: Store, scope: NotebookScope, checksum: Digest, pageCount: nat, batchCount: nat)
    requires scope in s.final
    ensures Finalize(s, scope, checksum, pageCount, batchCount).0.final == s.final
  {
    hide Verified;
  }

  lemma SameFinalLoads(s: Store, t: Store, scope: NotebookScope)
    ensures t.final == s.final ==> Load(t, scope) == Load(s, scope)
  {
  }

  /** In particular, the error that tears the directory while the worker stays up, or a crash in its place. */
  lemma {:induction false} TornFinalizeResumes(s: Store, scope: NotebookScope, checksum: Digest, pageCount: nat,
                                               batchCount: nat,
                                               gone: set<nat>, counter: int)
    requires Sound(s) && Finalize(s, scope, checksum, pageCount, batchCount).1.Ok?
    ensures var t := CutFinalize(s, scope, checksum, pageCount, batchCount, gone).0.(bytesUsed := counter);
            Finalize(t, scope, checksum, pageCount, batchCount).1.Ok? <==> gone !! Numbers(batchCount)
  {
    hide Verified, Sound, DocumentBytes, DirectoryBytes, Numbers;
    var t := CutFinalize(s, scope, checksum, pageCount, batchCount, gone).0.(bytesUsed := counter);
    var none: Directory := map[];
    assert none - gone == none;
    hide Finalize, CutFinalize;
    CutFinalizeFrame(s, scope, checksum, pageCount, batchCount, gone);
    ResumedFinalizeExactly(s, t, scope, checksum, pageCount, batchCount, gone);
  }

  lemma CutFinalizeFrame(s: Store, scope: NotebookScope, checksum: Digest, pageCount: nat, batchCount: nat,
                         gone: set<nat>)
    requires Finalize(s, scope, checksum, pageCount, batchCount).1.Ok?
    ensures var t := CutFinalize(s, scope, checksum, pageCount, batchCount, gone).0;
            && t.final == Finalize(s, scope, checksum, pageCount, batchCount).0.final
            && StagingOf(t, scope) == StagingOf(s, scope) - gone
  {
    hide Promote, DirectoryBytes;
    PromoteKeepsStaging(s, scope, checksum, pageCount, batchCount);
    var none: Directory := map[];
    assert none - gone == none;
  }

  lemma PromoteKeepsStaging(s: Store, scope: NotebookScope, checksum: Digest, pageCount: nat, batchCount: nat)
    ensures Promote(s, scope, checksum, pageCount, batchCount).0.staging == s.staging
  {
    hide Verified, DocumentBytes;
  }

  /** And a finalize repeated after it was completed succeeds again exactly for an export without batches. */
  lemma {:induction false} RepeatedFinalize(s: Store, scope: NotebookScope, checksum: Digest, pageCount: nat,
                                            batchCount: nat)
    requires Sound(s) && Finalize(s, scope, checksum, pageCount, batchCount).1.Ok?
    ensures var (s', r) := Finalize(s, scope, checksum, pageCount, batchCount);
            var (s'', r') := Finalize(s', scope, checksum, pageCount, batchCount);
            (r'.Ok? <==> batchCount == 0) && s'' == s' && Load(s'', scope) == Ok(r.value.pages)
  {
    hide Finalize, PagesChecksum, Sound, Load, Concatenated, StagingOf;
    var (s', r) := Finalize(s, scope, checksum, pageCount, batchCount);
    FinalizeAllOrNothing(s, scope, checksum, pageCount, batchCount);
    var all := StagingOf(s, scope).Keys;
    EverythingGone(s, s', scope);
    ResumedFinalizeExactly(s, s', scope, checksum, pageCount, batchCount, all);
    if batchCount > 0 {
      assert 0 in Numbers(batchCount);
    }
    NothingStaged(s', scope, checksum, pageCount, batchCount);
  }

  lemma EverythingGone(s: Store, s': Store, scope: NotebookScope)
    requires scope !in s'.staging
    ensures StagingOf(s', scope) == StagingOf(s, scope) - StagingOf(s, scope).Keys
  {
    assert StagingOf(s, scope) - StagingOf(s, scope).Keys == map[];
  }

  lemma NothingStaged(s: Store, scope: NotebookScope, checksum: Digest, pageCount: nat, batchCount: nat)
    requires scope !in s.staging && scope in s.final
    ensures Finalize(s, scope, checksum, pageCount, batchCount).0 == s
  {
    hide Verified;
  }

  lemma LoadIsFinal(s: Store, scope: NotebookScope)
    requires Sound(s) && scope in s.final
    ensures Load(s, scope) == Ok(s.final[scope].pages)
  {
  }

  // ---------------------------------------------------------------- write once

  /** The call removes the finalized copy of this scope. */
  predicate Discards(call: Call, scope: NotebookScope) {
    match call
    case PruneFinalCall(retained, stale) => !Kept(scope, retained, stale)
    case CutPruneCall(_, _, goneFinal) => scope in goneFinal
    case _ => false
  }

  lemma PromoteKeepsFinal(s: Store, scope: NotebookScope, checksum: Digest, pageCount: nat, batchCount: nat)
    ensures var s' := Promote(s, scope, checksum, pageCount, batchCount).0;
            forall k :: k in s.final ==> k in s'.final && s'.final[k] == s.final[k]
  {
    hide Verified, DocumentBytes;
  }

  lemma CallKeepsFinal(s: Store, call: Call, scope: NotebookScope)
    requires scope in s.final && !Discards(call, scope)
    ensures scope in Apply(s, call).final && Apply(s, call).final[scope] == s.final[scope]
  {
    hide PagesChecksum, Promote, BatchBytes, TreeSize, DirectoryBytes, Torn;
    match call {
      case FinalizeCall(other, checksum, pageCount, batchCount) =>
        PromoteKeepsFinal(s, other, checksum, pageCount, batchCount);
      case CutFinalizeCall(other, checksum, pageCount, batchCount, _) =>
        PromoteKeepsFinal(s, other, checksum, pageCount, batchCount);
      case _ =>
    }
  }

  /** Once finalized, a scope loads the same pages after any calls whatever, until a prune takes it. */
  lemma {:induction false} WriteOnce(s: Store, calls: seq<Call>, scope: NotebookScope)
    requires Sound(s) && scope in s.final
    requires forall i :: 0 <= i < |calls| ==> !Discards(calls[i], scope)
    ensures Sound(Run(s, calls)) && scope in Run(s, calls).final
    ensures Run(s, calls).final[scope] == s.final[scope]
    ensures Load(Run(s, calls), scope) == Ok(s.final[scope].pages)
  {
    hide Apply, Sound, Load, Discards;
    if calls == [] {
      LoadIsFinal(s, scope);
    } else {
      var before, call := Run(s, calls[..|calls| - 1]), calls[|calls| - 1];
      WriteOnce(s, calls[..|calls| - 1], scope);
      ApplyKeepsSound(before, call);
      CallKeepsFinal(before, call, scope);
      LoadIsFinal(Apply(before, call), scope);
    }
  }

  // ---------------------------------------------------------------- staging

  /**
   What staging answers, in every case, and what it does: the checksum is tested first, then a batch already
   there, then the room; only a batch that is new, in its own place, is stored.
   */
  lemma {:induction false} StageExactly(s: Store, scope: NotebookScope, number: nat, checksum: Digest, pages: seq<Page>)
    requires Sound(s)
    ensures var (s', r) := StageBatch(s, scope, number, checksum, pages);
            var there := number in StagingOf(s, scope);
            && (r == Err(ChecksumMismatch) <==> PagesChecksum(pages) != checksum)
            && (r == Err(IngestBatchConflict) <==>
                  PagesChecksum(pages) == checksum && there && StagingOf(s, scope)[number].pages != pages)
            && (r == Err(StorageQuotaExceeded) <==>
                  PagesChecksum(pages) == checksum && !there
                  && s.bytesUsed + BatchBytes(Batch(scope, number, checksum, pages)) > s.maxBytes)
            && (r.Err? ==> s' == s && r.error in {ChecksumMismatch, IngestBatchConflict, StorageQuotaExceeded})
            && (r.Ok? ==> r.value == |pages| && IsStaged(s', scope, number, pages) && (there ==> s' == s))
            && s'.final == s.final
            && (forall k, n :: (k, n) != (scope, number) ==>
                  (n in StagingOf(s', k) <==> n in StagingOf(s, k))
                  && (n in StagingOf(s, k) ==> StagingOf(s', k)[n] == StagingOf(s, k)[n]))
  {
    hide PagesChecksum, BatchBytes;
    if number in StagingOf(s, scope) {
      var batch := s.staging[scope][number];
      assert Intact(batch, scope, number);
      SameChecksumSamePages(batch.pages, pages);
    }
  }

  ghost predicate IsStaged(s: Store, scope: NotebookScope, number: nat, pages: seq<Page>) {
    number in StagingOf(s, scope) && StagingOf(s, scope)[number] == Batch(scope, number, PagesChecksum(pages), pages)
  }

  lemma {:induction false} CallKeepsBatch(s: Store, call: Call, scope: NotebookScope, number: nat)
    requires number in StagingOf(s, scope) && number in StagingOf(Apply(s, call), scope)
    ensures StagingOf(Apply(s, call), scope)[number] == StagingOf(s, scope)[number]
  {
    hide PagesChecksum, BatchBytes, Verified, DocumentBytes, DirectoryBytes, TreeSize;
    if call.CutPruneCall? && scope in Apply(s, call).staging && scope in call.torn {
      assert Apply(s, call).staging[scope] == s.staging[scope] - call.torn[scope];
    }
  }

  /** The batch is in staging before, between and after the calls. */
  ghost predicate StaysStaged(s: Store, calls: seq<Call>, scope: NotebookScope, number: nat) {
    forall i :: 0 <= i <= |calls| ==> number in StagingOf(Run(s, calls[..i]), scope)
  }

  lemma {:induction false} BatchStays(s: Store, calls: seq<Call>, scope: NotebookScope, number: nat)
    requires Sound(s) && StaysStaged(s, calls, scope, number)
    ensures Sound(Run(s, calls)) && number in StagingOf(s, scope) && number in StagingOf(Run(s, calls), scope)
    ensures StagingOf(Run(s, calls), scope)[number] == StagingOf(s, scope)[number]
  {
    hide Apply, Sound, StagingOf;
    assert calls[..0] == [] && calls[..|calls|] == calls;
    if calls != [] {
      var init := calls[..|calls| - 1];
      forall i | 0 <= i <= |init| ensures number in StagingOf(Run(s, init[..i]), scope) {
        assert init[..i] == calls[..i];
      }
      BatchStays(s, init, scope, number);
      ApplyKeepsSound(Run(s, init), calls[|calls| - 1]);
      CallKeepsBatch(Run(s, init), calls[|calls| - 1], scope, number);
    }
  }

  /**
   A batch staged once may be sent again. As long as it is in staging, after any calls and however full the store
   is, sending it again is answered with its page count, sending other pages under its number is refused as a
   conflict, and neither changes anything.
   */
  lemma {:induction false} RepeatedBatch(s: Store, scope: NotebookScope, number: nat, pages: seq<Page>,
                                         calls: seq<Call>, other: seq<Page>)
    requires Sound(s) && StageBatch(s, scope, number, PagesChecksum(pages), pages).1.Ok?
    requires StaysStaged(StageBatch(s, scope, number, PagesChecksum(pages), pages).0, calls, scope, number)
    ensures var t := Run(StageBatch(s, scope, number, PagesChecksum(pages), pages).0, calls);
            StageBatch(t, scope, number, PagesChecksum(other), other)
              == (t, if other == pages then Ok(|pages|) else Err(IngestBatchConflict))
  {
    hide PagesChecksum, StageBatch, Sound, StagingOf;
    var s1 := StageBatch(s, scope, number, PagesChecksum(pages), pages).0;
    StageExactly(s, scope, number, PagesChecksum(pages), pages);
    StageKeepsSound(s, scope, number, PagesChecksum(pages), pages);
    BatchStays(s1, calls, scope, number);
    StageExactly(Run(s1, calls), scope, number, PagesChecksum(other), other);
  }

  // ---------------------------------------------------------------- accounting

  ghost predicate Exact(s: Store) {
    s.bytesUsed == TreeSize(s)
  }

  lemma DirectoryInsert(directory: Directory, number: nat, batch: Batch)
    requires number !in directory
    ensures DirectoryBytes(map[]) == 0
    ensures DirectoryBytes(directory[number := batch]) == DirectoryBytes(directory) + BatchBytes(batch)
  {
    SumInsert(directory, BatchBytes, number, batch);
  }

  lemma {:induction false} StageAccounting(s: Store, scope: NotebookScope, number: nat, checksum: Digest,
                                           pages: seq<Page>)
    ensures var s' := StageBatch(s, scope, number, checksum, pages).0;
            TreeSize(s') - TreeSize(s) == s'.bytesUsed - s.bytesUsed
  {
    hide BatchBytes, PagesChecksum, DirectoryBytes, SumOf;
    var batch, directory := Batch(scope, number, checksum, pages), StagingOf(s, scope);
    if number !in directory {
      DirectoryInsert(directory, number, batch);
      if scope in s.staging {
        SumUpdate(s.staging, DirectoryBytes, scope, directory[number := batch]);
      } else {
        SumInsert(s.staging, DirectoryBytes, scope, directory[number := batch]);
      }
    }
  }

  lemma {:induction false} DropAccounting(s: Store, scope: NotebookScope)
    requires s.bytesUsed >= TreeSize(s)
    ensures var s' := DropStaging(s, scope);
            TreeSize(s') - TreeSize(s) == s'.bytesUsed - s.bytesUsed && s'.bytesUsed <= s.bytesUsed
  {
    hide DirectoryBytes, SumOf;
    if scope in s.staging {
      SumRemove(s.staging, DirectoryBytes, scope);
    }
  }

  lemma NewDocumentAccounting(s: Store, document: Document)
    requires document.scope !in s.final
    ensures var s' := s.(final := s.final[document.scope := document],
                         bytesUsed := s.bytesUsed + DocumentBytes(document));
            TreeSize(s') - TreeSize(s) == s'.bytesUsed - s.bytesUsed
  {
    SumInsert(s.final, DocumentBytes, document.scope, document);
  }

  lemma {:induction false} PromoteAccounting(s: Store, scope: NotebookScope, checksum: Digest, pageCount: nat,
                                             batchCount: nat)
    ensures var s' := Promote(s, scope, checksum, pageCount, batchCount).0;
            && TreeSize(s') - TreeSize(s) == s'.bytesUsed - s.bytesUsed
            && (s' == s || s'.bytesUsed <= s.maxBytes) && s'.maxBytes == s.maxBytes && s'.staging == s.staging
  {
    hide Verified, DocumentBytes, TreeSize;
    var verified := Verified(s, scope, checksum, pageCount, batchCount);
    if verified.Ok? && scope !in s.final {
      NewDocumentAccounting(s, Document(scope, checksum, verified.value, batchCount));
    }
  }

  lemma {:induction false} FinalizeAccounting(s: Store, scope: NotebookScope, checksum: Digest, pageCount: nat,
                                              batchCount: nat)
    requires s.bytesUsed >= TreeSize(s)
    ensures var s' := Finalize(s, scope, checksum, pageCount, batchCount).0;
            && TreeSize(s') - TreeSize(s) == s'.bytesUsed - s.bytesUsed
            && (s'.bytesUsed <= s.bytesUsed || s'.bytesUsed <= s.maxBytes) && s'.maxBytes == s.maxBytes
  {
    hide Promote, TreeSize, DirectoryBytes;
    PromoteAccounting(s, scope, checksum, pageCount, batchCount);
    DropAccounting(Promote(s, scope, checksum, pageCount, batchCount).0, scope);
  }

  /** A staged batch is never empty on disk. */
  lemma BatchHasBytes(batch: Batch)
    ensures BatchBytes(batch) > 0
  {
  }

  predicate RemovesFiles(directory: Directory, gone: set<nat>) {
    exists n :: n in directory && n in gone
  }

  lemma {:induction false} TornDirectory(directory: Directory, gone: set<nat>)
    ensures DirectoryBytes(directory - gone) <= DirectoryBytes(directory)
    ensures RemovesFiles(directory, gone) <==> DirectoryBytes(directory - gone) < DirectoryBytes(directory)
  {
    hide BatchBytes, SumOf;
    SumShrinks(directory, directory - gone, BatchBytes);
    if n :| n in directory && n in gone {
      BatchHasBytes(directory[n]);
      assert Loses(directory, directory - gone, BatchBytes);
    }
  }

  lemma {:induction false} TearAccounting(s: Store, scope: NotebookScope, gone: set<nat>)
    ensures TreeSize(TearStaging(s, scope, gone)) <= TreeSize(s)
    ensures scope in s.staging && RemovesFiles(s.staging[scope], gone) <==>
              TreeSize(TearStaging(s, scope, gone)) < TreeSize(s)
  {
    hide DirectoryBytes, SumOf, RemovesFiles;
    if scope in s.staging {
      TornDirectory(s.staging[scope], gone);
      SumUpdate(s.staging, DirectoryBytes, scope, s.staging[scope] - gone);
    }
  }

  /** A finalize whose removal raises: what is stored shrinks by the batches gone, and the counter does not. */
  lemma {:induction false} CutFinalizeAccounting(s: Store, scope: NotebookScope, checksum: Digest, pageCount: nat,
                                                 batchCount: nat,
                                                 gone: set<nat>)
    ensures var call := CutFinalizeCall(scope, checksum, pageCount, batchCount, gone);
            var s' := Apply(s, call);
            && TreeSize(s') - TreeSize(s) <= s'.bytesUsed - s.bytesUsed
            && (Miscounts(s, call) <==> TreeSize(s') - TreeSize(s) < s'.bytesUsed - s.bytesUsed)
            && (s'.bytesUsed <= s.bytesUsed || s'.bytesUsed <= s.maxBytes) && s'.maxBytes == s.maxBytes
  {
    hide Promote, TreeSize, RemovesFiles;
    PromoteAccounting(s, scope, checksum, pageCount, batchCount);
    TearAccounting(Promote(s, scope, checksum, pageCount, batchCount).0, scope, gone);
  }

  lemma MeasureIgnoresCounter(s: Store)
    ensures forall n :: TreeSize(s.(bytesUsed := n)) == TreeSize(s)
  {
  }

  lemma {:induction false} PruneShrinks(s: Store, staging: map<NotebookScope, Directory>,
                                        final: map<NotebookScope, Document>)
    requires staging.Keys <= s.staging.Keys && forall k :: k in staging ==>
               DirectoryBytes(staging[k]) <= DirectoryBytes(s.staging[k])
    requires final.Keys <= s.final.Keys && forall k :: k in final ==>
               DocumentBytes(final[k]) <= DocumentBytes(s.final[k])
    ensures TreeSize(s.(staging := staging, final := final)) <= TreeSize(s)
    ensures Loses(s.staging, staging, DirectoryBytes) || Loses(s.final, final, DocumentBytes)
       <==> TreeSize(s.(staging := staging, final := final)) < TreeSize(s)
  {
    hide SumOf, Loses;
    SumShrinks(s.staging, staging, DirectoryBytes);
    SumShrinks(s.final, final, DocumentBytes);
  }

  // ---------------------------------------------------------------- the counter over whole runs

  /** The counter never says less than is stored, and never more than the quota. */
  ghost predicate Covered(s: Store) {
    TreeSize(s) <= s.bytesUsed <= s.maxBytes
  }

  /** The call raises after a file was deleted, without setting the counter right. */
  ghost predicate Miscounts(s: Store, call: Call) {
    match call
    case CutFinalizeCall(scope, checksum, pageCount, batchCount, gone) =>
      && Promote(s, scope, checksum, pageCount, batchCount).1.Ok?
      && scope in s.staging && RemovesFiles(s.staging[scope], gone)
    case CutPruneCall(gone, torn, goneFinal) =>
      TearsFiles(s.staging, gone, torn) || exists k :: k in s.final && k in goneFinal
    case _ => false
  }

  /** The whole directory goes, or these of its files. */
  predicate LosesFiles(directory: Directory, whole: bool, gone: set<nat>) {
    if whole then directory.Keys != {} else RemovesFiles(directory, gone)
  }

  ghost predicate TearsFiles(staging: map<NotebookScope, Directory>, gone: set<NotebookScope>,
                             torn: map<NotebookScope, set<nat>>)
  {
    exists k :: k in staging && LosesFiles(staging[k], k in gone, if k in torn then torn[k] else {})
  }

  lemma DocumentHasBytes(document: Document)
    ensures DocumentBytes(document) > 0
  {
  }

  lemma {:induction false} DirectoryHasBytes(directory: Directory)
    ensures DirectoryBytes(directory) > 0 <==> directory.Keys != {}
  {
    hide BatchBytes, SumOf;
    var none: Directory := map[];
    assert DirectoryBytes(none) == 0 by { DirectoryInsertNone(); }
    SumShrinks(directory, none, BatchBytes);
    if n :| n in directory {
      BatchHasBytes(directory[n]);
    }
  }

  lemma DirectoryInsertNone()
    ensures DirectoryBytes(map[]) == 0
  {
  }

  lemma {:induction false} TornAccounting(staging: map<NotebookScope, Directory>, gone: set<NotebookScope>,
                                          torn: map<NotebookScope, set<nat>>)
    ensures var staging' := Torn(staging, gone, torn);
            && (forall k :: k in staging' ==> k in staging && DirectoryBytes(staging'[k]) <= DirectoryBytes(staging[k]))
            && (Loses(staging, staging', DirectoryBytes) <==> TearsFiles(staging, gone, torn))
  {
    hide DirectoryBytes, RemovesFiles;
    var staging' := Torn(staging, gone, torn);
    forall k | k in staging
      ensures k in staging' ==> DirectoryBytes(staging'[k]) <= DirectoryBytes(staging[k])
      ensures LosesFiles(staging[k], k in gone, if k in torn then torn[k] else {})
         <==> DirectoryBytes(staging[k]) > 0
              && (k !in staging' || DirectoryBytes(staging'[k]) < DirectoryBytes(staging[k]))
    {
      DirectoryHasBytes(staging[k]);
      if k in torn {
        TornDirectory(staging[k], torn[k]);
      } else {
        TornDirectory(staging[k], {});
        NothingRemoved(staging[k]);
      }
    }
  }

  lemma NothingRemoved(directory: Directory)
    ensures !RemovesFiles(directory, {}) && directory - {} == directory
  {
  }

  lemma {:induction false} GoneFinalAccounting(final: map<NotebookScope, Document>, gone: set<NotebookScope>)
    ensures Loses(final, final - gone, DocumentBytes) <==> exists k :: k in final && k in gone
  {
    hide DocumentBytes;
    forall k | k in final ensures DocumentBytes(final[k]) > 0 {
      DocumentHasBytes(final[k]);
    }
  }

  lemma {:induction false} CutPruneAccounting(s: Store, gone: set<NotebookScope>, torn: map<NotebookScope, set<nat>>,
                                              goneFinal: set<NotebookScope>)
    ensures var s' := CutPrune(s, gone, torn, goneFinal);
            && TreeSize(s') <= TreeSize(s) && s'.bytesUsed == s.bytesUsed && s'.maxBytes == s.maxBytes
            && (Miscounts(s, CutPruneCall(gone, torn, goneFinal)) <==> TreeSize(s') < TreeSize(s))
  {
    hide TreeSize, Torn, TearsFiles, Loses, DirectoryBytes, DocumentBytes;
    TornAccounting(s.staging, gone, torn);
    GoneFinalAccounting(s.final, goneFinal);
    TornKeys(s.staging, gone, torn);
    PruneShrinks(s, Torn(s.staging, gone, torn), s.final - goneFinal);
  }

  lemma TornKeys(staging: map<NotebookScope, Directory>, gone: set<NotebookScope>, torn: map<NotebookScope, set<nat>>)
    ensures Torn(staging, gone, torn).Keys == staging.Keys - gone
  {
  }

  lemma {:induction false} MeasuredPrune(s: Store, s': Store)
    requires s'.staging.Keys <= s.staging.Keys && forall k :: k in s'.staging ==> s'.staging[k] == s.staging[k]
    requires s'.final.Keys <= s.final.Keys && forall k :: k in s'.final ==> s'.final[k] == s.final[k]
    requires s' == s || s' == s.(staging := s'.staging, final := s'.final,
                                 bytesUsed := TreeSize(s.(staging := s'.staging, final := s'.final)))
    ensures s' == s || (Exact(s') && TreeSize(s') <= TreeSize(s) && s'.maxBytes == s.maxBytes)
  {
    hide TreeSize, DirectoryBytes, DocumentBytes, Loses;
    PruneShrinks(s, s'.staging, s'.final);
    MeasureIgnoresCounter(s.(staging := s'.staging, final := s'.final));
  }

  lemma FinalizeKeepsNatural(s: Store, scope: NotebookScope, checksum: Digest, pageCount: nat, batchCount: nat,
                             gone: set<nat>)
    requires s.bytesUsed >= 0
    ensures Finalize(s, scope, checksum, pageCount, batchCount).0.bytesUsed >= 0
    ensures CutFinalize(s, scope, checksum, pageCount, batchCount, gone).0.bytesUsed >= 0
  {
    hide DocumentBytes, DirectoryBytes, Verified, Remove;
  }

  /** No call takes the counter below zero, even one that has lost track of what is stored. */
  lemma {:induction false} CounterStaysNatural(s: Store, call: Call)
    requires s.bytesUsed >= 0
    ensures Apply(s, call).bytesUsed >= 0
  {
    hide TreeSize, BatchBytes, Finalize, CutFinalize, PagesChecksum, Torn, Survivors;
    match call {
      case FinalizeCall(scope, checksum, pageCount, batchCount) =>
        FinalizeKeepsNatural(s, scope, checksum, pageCount, batchCount, {});
      case CutFinalizeCall(scope, checksum, pageCount, batchCount, gone) =>
        FinalizeKeepsNatural(s, scope, checksum, pageCount, batchCount, gone);
      case _ =>
    }
  }

  /** What any call does to the counter and to what is stored. */
  lemma {:induction false} CallAccounting(s: Store, call: Call)
    requires Covered(s)
    ensures var s' := Apply(s, call);
            && Covered(s') && s'.maxBytes == s.maxBytes
            && (Exact(s) ==> (Exact(s') <==> !Miscounts(s, call)))
  {
    hide TreeSize, StageBatch, Finalize, CutFinalize, CutPrune, Kept;
    match call {
      case StageCall(scope, number, checksum, pages) =>
        StageAccounting(s, scope, number, checksum, pages);
        StageKeepsQuota(s, scope, number, checksum, pages);
      case FinalizeCall(scope, checksum, pageCount, batchCount) =>
        FinalizeAccounting(s, scope, checksum, pageCount, batchCount);
      case CutFinalizeCall(scope, checksum, pageCount, batchCount, gone) =>
        CutFinalizeAccounting(s, scope, checksum, pageCount, batchCount, gone);
      case PruneStagingCall(retained, stale) => MeasuredPrune(s, Apply(s, call));
      case PruneFinalCall(retained, stale) => MeasuredPrune(s, Apply(s, call));
      case CutPruneCall(gone, torn, goneFinal) => CutPruneAccounting(s, gone, torn, goneFinal);
      case Reopen => MeasureIgnoresCounter(s);
    }
  }

  lemma StageKeepsQuota(s: Store, scope: NotebookScope, number: nat, checksum: Digest, pages: seq<Page>)
    ensures var s' := StageBatch(s, scope, number, checksum, pages).0;
            s'.maxBytes == s.maxBytes && (s' == s || s'.bytesUsed <= s.maxBytes)
  {
    hide BatchBytes, PagesChecksum;
  }

  /** A call leaves an exact counter exact if and only if it did not raise after deleting a file. */
  lemma {:induction false} CallIsExact(s: Store, call: Call)
    requires Exact(s) && Covered(s)
    ensures Exact(Apply(s, call)) <==> !Miscounts(s, call)
  {
    hide Exact, Covered, Apply, Miscounts;
    CallAccounting(s, call);
  }

  ghost predicate NeverMiscounts(s: Store, calls: seq<Call>) {
    forall i :: 0 <= i < |calls| ==> !Miscounts(Run(s, calls[..i]), calls[i])
  }

  /**
   Whole runs, calls that raise part-way included: the counter never undercounts, stored bytes stay within the
   quota, and the counter is exact if no call raised after deleting a file.
   */
  lemma {:induction false} RunKeepsAccounts(s: Store, calls: seq<Call>)
    requires Covered(s)
    ensures Covered(Run(s, calls)) && TreeSize(Run(s, calls)) <= s.maxBytes && Run(s, calls).maxBytes == s.maxBytes
    ensures Exact(s) && NeverMiscounts(s, calls) ==> Exact(Run(s, calls))
  {
    hide Apply, TreeSize, Miscounts;
    if calls != [] {
      var init := calls[..|calls| - 1];
      RunKeepsAccounts(s, init);
      CallAccounting(Run(s, init), calls[|calls| - 1]);
      if NeverMiscounts(s, calls) {
        forall i | 0 <= i < |init| ensures !Miscounts(Run(s, init[..i]), init[i]) {
          assert init[..i] == calls[..i];
        }
      }
    }
  }
}
