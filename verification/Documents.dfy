/**
 The document store: checksummed staging of ingest batches and write-once finalization.
 `Store` is the state as a value, with one function per operation; `DocumentStore` is the object
 of the source, whose methods are proved against those functions. Modification times enter as the
 set of directories older than the cutoff.
 */
module Documents {
  import opened Wrappers
  import opened Types
  import opened Canonical
  import opened Sums
  import opened Decimals

  datatype DocumentError =
    | ChecksumMismatch
    | IngestBatchConflict
    | IngestBatchesIncomplete
    | DocumentStoreCorrupt
    | DuplicatePage
    | PageCountMismatch
    | DocumentChecksumMismatch
    | ContentRevisionConflict
    | StorageQuotaExceeded
    | DocumentNotFinalized
    | StagingNotRemoved

  datatype Batch = Batch(scope: NotebookScope, number: nat, checksum: Digest, pages: seq<Page>)

  datatype Document = Document(scope: NotebookScope, checksum: Digest, pages: seq<Page>, batchCount: nat)

  type Directory = map<nat, Batch>

  /** Both file trees, the cached byte counter and the quota. */
  datatype Store = Store(staging: map<NotebookScope, Directory>, final: map<NotebookScope, Document>,
                         bytesUsed: int, maxBytes: nat)

  // ---------------------------------------------------------------- file sizes

  function ScopeBytes(scope: NotebookScope): nat {
    |scope.notebookId| + |scope.contentRevision| + |scope.indexSchemaVersion|
  }

  /** Canonical length of a staged batch: the fixed keys, the scope, the number and the page array. */
  function BatchBytes(batch: Batch): nat {
    208 + ScopeBytes(batch.scope) + |Decimal(batch.number)| + ArrayBytes(batch.pages)
  }

  function DocumentBytes(document: Document): nat {
    223 + ScopeBytes(document.scope) + |Decimal(|document.pages|)| + |Decimal(document.batchCount)|
    + ArrayBytes(document.pages)
  }

  ghost function DirectoryBytes(directory: Directory): nat {
    SumOf(directory, BatchBytes)
  }

  ghost function TreeSize(s: Store): nat {
    SumOf(s.staging, DirectoryBytes) + SumOf(s.final, DocumentBytes)
  }

  // ---------------------------------------------------------------- operations

  predicate HasRoom(s: Store, additional: nat) {
    s.bytesUsed + additional <= s.maxBytes
  }

  function StagingOf(s: Store, scope: NotebookScope): Directory {
    if scope in s.staging then s.staging[scope] else map[]
  }

  function StageBatch(s: Store, scope: NotebookScope, number: nat, checksum: Digest, pages: seq<Page>)
    : (Store, Result<nat, DocumentError>)
  {
    var batch, directory := Batch(scope, number, checksum, pages), StagingOf(s, scope);
    if PagesChecksum(pages) != checksum then (s, Err(ChecksumMismatch))
    else if number in directory then
      (s, if directory[number] == batch then Ok(|pages|) else Err(IngestBatchConflict))
    else if !HasRoom(s, BatchBytes(batch)) then (s, Err(StorageQuotaExceeded))
    else
      (s.(staging := s.staging[scope := directory[number := batch]], bytesUsed := s.bytesUsed + BatchBytes(batch)),
       Ok(|pages|))
  }

  predicate Intact(batch: Batch, scope: NotebookScope, number: nat) {
    batch.scope == scope && batch.number == number && PagesChecksum(batch.pages) == batch.checksum
  }

  function Numbers(count: nat): (numbers: set<nat>)
    ensures forall i :: i in numbers <==> 0 <= i < count
  {
    if count == 0 then {} else Numbers(count - 1) + {count - 1}
  }

  /** Exactly the batches 0..count-1 are present. */
  predicate Complete(directory: Directory, count: nat) {
    directory.Keys == Numbers(count)
  }

  /** Batches 0..count-1 read back and concatenated. */
  function Reassemble(directory: Directory, scope: NotebookScope, count: nat): Result<seq<Page>, DocumentError>
    requires forall i :: 0 <= i < count ==> i in directory
  {
    if count == 0 then Ok([])
    else
      match Reassemble(directory, scope, count - 1)
      case Err(e) => Err(e)
      case Ok(pages) =>
        if Intact(directory[count - 1], scope, count - 1) then Ok(pages + directory[count - 1].pages)
        else Err(DocumentStoreCorrupt)
  }

  /** Everything `finalize` verifies before it touches the final copy. */
  function Verified(s: Store, scope: NotebookScope, checksum: Digest, pageCount: nat, batchCount: nat)
    : Result<seq<Page>, DocumentError>
  {
    if !Complete(StagingOf(s, scope), batchCount) then Err(IngestBatchesIncomplete)
    else
      match Reassemble(StagingOf(s, scope), scope, batchCount)
      case Err(e) => Err(e)
      case Ok(pages) =>
        if !AllDistinct(PageIds(pages)) then Err(DuplicatePage)
        else if |pages| != pageCount then Err(PageCountMismatch)
        else if PagesChecksum(pages) != checksum then Err(DocumentChecksumMismatch)
        else Ok(pages)
  }

  /** A list has as many members as positions. */
  predicate AllDistinct(ids: seq<string>) {
    |set id | id in ids| == |ids|
  }

  ghost function DropStaging(s: Store, scope: NotebookScope): Store {
    if scope !in s.staging then s
    else
      var left := s.bytesUsed - DirectoryBytes(s.staging[scope]);
      s.(staging := Remove(s.staging, scope), bytesUsed := if left < 0 then 0 else left)
  }

  /** The first part of a finalize: the checks, and the final copy unless an equal one is there. */
  function Promote(s: Store, scope: NotebookScope, checksum: Digest, pageCount: nat, batchCount: nat)
    : (Store, Result<Document, DocumentError>)
  {
    match Verified(s, scope, checksum, pageCount, batchCount)
    case Err(e) => (s, Err(e))
    case Ok(pages) =>
      var document := Document(scope, checksum, pages, batchCount);
      if scope in s.final then
        (s, if s.final[scope].checksum != checksum then Err(ContentRevisionConflict) else Ok(document))
      else if !HasRoom(s, DocumentBytes(document)) then (s, Err(StorageQuotaExceeded))
      else (s.(final := s.final[scope := document], bytesUsed := s.bytesUsed + DocumentBytes(document)), Ok(document))
  }

  ghost function Finalize(s: Store, scope: NotebookScope, checksum: Digest, pageCount: nat, batchCount: nat)
    : (Store, Result<Document, DocumentError>)
  {
    var (s', r) := Promote(s, scope, checksum, pageCount, batchCount);
    (if r.Ok? then DropStaging(s', scope) else s', r)
  }

  /** Some batch files are deleted and the directory stays. */
  function TearStaging(s: Store, scope: NotebookScope, gone: set<nat>): Store {
    if scope !in s.staging then s else s.(staging := s.staging[scope := s.staging[scope] - gone])
  }

  /** A finalize that raises while it removes the staging directory: the counter is not lowered. */
  function CutFinalize(s: Store, scope: NotebookScope, checksum: Digest, pageCount: nat, batchCount: nat,
                       gone: set<nat>)
    : (Store, Result<Document, DocumentError>)
  {
    var (s', r) := Promote(s, scope, checksum, pageCount, batchCount);
    if r.Err? || scope !in s'.staging then (s', r) else (TearStaging(s', scope, gone), Err(StagingNotRemoved))
  }

  function Load(s: Store, scope: NotebookScope): Result<seq<Page>, DocumentError> {
    if scope !in s.final then Err(DocumentNotFinalized)
    else
      var document := s.final[scope];
      if document.scope == scope && PagesChecksum(document.pages) == document.checksum then Ok(document.pages)
      else Err(DocumentStoreCorrupt)
  }

  predicate Kept(scope: NotebookScope, retained: set<NotebookScope>, stale: set<NotebookScope>) {
    scope in retained || scope !in stale
  }

  function Survivors<T>(root: map<NotebookScope, T>, retained: set<NotebookScope>, stale: set<NotebookScope>)
    : map<NotebookScope, T>
  {
    map k | k in root && Kept(k, retained, stale) :: root[k]
  }

  /** Removes stale staging directories outside the keep set; the counter is measured anew when something went. */
  ghost function PruneStaging(s: Store, retained: set<NotebookScope>, stale: set<NotebookScope>): Store {
    var s' := s.(staging := Survivors(s.staging, retained, stale));
    if s' == s then s else s'.(bytesUsed := TreeSize(s'))
  }

  ghost function PruneFinal(s: Store, retained: set<NotebookScope>, stale: set<NotebookScope>): Store {
    var s' := s.(final := Survivors(s.final, retained, stale));
    if s' == s then s else s'.(bytesUsed := TreeSize(s'))
  }

  // ---------------------------------------------------------------- the object

  class DocumentStore {
    var staging: map<NotebookScope, Directory>
    var final: map<NotebookScope, Document>
    var bytesUsed: int
    const maxBytes: nat

    ghost function State(): Store
      reads this
    {
      Store(staging, final, bytesUsed, maxBytes)
    }

    /** Opens the trees left on disk; the counter is measured from them. */
    constructor (staging: map<NotebookScope, Directory>, final: map<NotebookScope, Document>, maxBytes: nat)
      ensures State() == Store(staging, final, TreeSize(Store(staging, final, 0, maxBytes)), maxBytes)
    {
      this.staging := staging;
      this.final := final;
      this.maxBytes := maxBytes;
      this.bytesUsed := 0;
      new;
      var size := MeasureTree();
      bytesUsed := size;
    }

    static method MeasureDirectory(directory: Directory) returns (total: nat)
      ensures total == DirectoryBytes(directory)
    {
      total := 0;
      var rest := directory;
      while rest != map[]
        invariant total + DirectoryBytes(rest) == DirectoryBytes(directory)
        decreases |rest|
      {
        var k :| k in rest;
        SumRemove(rest, BatchBytes, k);
        total := total + BatchBytes(rest[k]);
        assert rest - {k} == Remove(rest, k);
        rest := rest - {k};
      }
    }

    method MeasureTree() returns (total: nat)
      ensures total == TreeSize(State())
    {
      total := 0;
      var directories := staging;
      while directories != map[]
        invariant total + SumOf(directories, DirectoryBytes) == SumOf(staging, DirectoryBytes)
        decreases |directories|
      {
        var k :| k in directories;
        SumRemove(directories, DirectoryBytes, k);
        var size := MeasureDirectory(directories[k]);
        total := total + size;
        assert directories - {k} == Remove(directories, k);
        directories := directories - {k};
      }
      ghost var staged := total;
      var documents := final;
      while documents != map[]
        invariant total + SumOf(documents, DocumentBytes) == staged + SumOf(final, DocumentBytes)
        decreases |documents|
      {
        var k :| k in documents;
        SumRemove(documents, DocumentBytes, k);
        total := total + DocumentBytes(documents[k]);
        assert documents - {k} == Remove(documents, k);
        documents := documents - {k};
      }
    }

    method Stage(scope: NotebookScope, number: nat, checksum: Digest, pages: seq<Page>)
      returns (r: Result<nat, DocumentError>)
      modifies this
      ensures (State(), r) == StageBatch(old(State()), scope, number, checksum, pages)
    {
      if PagesChecksum(pages) != checksum {
        return Err(ChecksumMismatch);
      }
      var payload := Batch(scope, number, checksum, pages);
      var directory: Directory := if scope in staging then staging[scope] else map[];
      if number in directory {
        if directory[number] != payload {
          return Err(IngestBatchConflict);
        }
        return Ok(|pages|);
      }
      if bytesUsed + BatchBytes(payload) > maxBytes {
        return Err(StorageQuotaExceeded);
      }
      staging := staging[scope := directory[number := payload]];
      bytesUsed := bytesUsed + BatchBytes(payload);
      return Ok(|pages|);
    }

    method ReadStaged(directory: Directory, scope: NotebookScope,
                      count: nat) returns (r: Result<seq<Page>, DocumentError>)
      requires forall i :: 0 <= i < count ==> i in directory
      ensures r == Reassemble(directory, scope, count)
    {
      var pages: seq<Page> := [];
      for number := 0 to count
        invariant Reassemble(directory, scope, number) == Ok(pages)
      {
        var stored := directory[number];
        if stored.scope != scope || stored.number != number || PagesChecksum(stored.pages) != stored.checksum {
          CorruptionIsFinal(directory, scope, number, count);
          return Err(DocumentStoreCorrupt);
        }
        pages := pages + stored.pages;
      }
      return Ok(pages);
    }

    static lemma {:induction false} CorruptionIsFinal(directory: Directory, scope: NotebookScope, number: nat,
                                                      count: nat)
      requires number < count && forall i :: 0 <= i < count ==> i in directory
      requires Reassemble(directory, scope, number).Ok? && !Intact(directory[number], scope, number)
      ensures Reassemble(directory, scope, count) == Err(DocumentStoreCorrupt)
    {
      if number + 1 < count {
        CorruptionIsFinal(directory, scope, number, count - 1);
      }
    }

    /** The first half of `finalize`: everything that can be rejected without looking at the final copy. */
    method VerifyStaged(scope: NotebookScope, checksum: Digest, pageCount: nat, batchCount: nat)
      returns (r: Result<seq<Page>, DocumentError>)
      ensures r == Verified(State(), scope, checksum, pageCount, batchCount)
    {
      var directory: Directory := if scope in staging then staging[scope] else map[];
      if directory.Keys != Numbers(batchCount) {
        return Err(IngestBatchesIncomplete);
      }
      r := ReadStaged(directory, scope, batchCount);
      if r.Err? {
        return;
      }
      var pageIds := PageIds(r.value);
      if |set id | id in pageIds| != |pageIds| {
        return Err(DuplicatePage);
      }
      if |r.value| != pageCount {
        return Err(PageCountMismatch);
      }
      if PagesChecksum(r.value) != checksum {
        return Err(DocumentChecksumMismatch);
      }
    }

    /** `torn` is what goes before the removal of the staging directory raises, if it does. */
    method FinalizeDocument(scope: NotebookScope, checksum: Digest, pageCount: nat, batchCount: nat,
                            torn: Option<set<nat>>)
      returns (r: Result<Document, DocumentError>)
      modifies this
      ensures torn.None? ==> (State(), r) == Finalize(old(State()), scope, checksum, pageCount, batchCount)
      ensures torn.Some? ==>
                (State(), r) == CutFinalize(old(State()), scope, checksum, pageCount, batchCount, torn.value)
    {
      hide Verified, DocumentBytes, DirectoryBytes, DropStaging;
      var verified := VerifyStaged(scope, checksum, pageCount, batchCount);
      if verified.Err? {
        return Err(verified.error);
      }
      var document := Document(scope, checksum, verified.value, batchCount);
      if scope in final {
        if final[scope].checksum != checksum {
          return Err(ContentRevisionConflict);
        }
      } else {
        if bytesUsed + DocumentBytes(document) > maxBytes {
          return Err(StorageQuotaExceeded);
        }
        final := final[scope := document];
        bytesUsed := bytesUsed + DocumentBytes(document);
      }
      if torn.Some? && scope in staging {
        staging := staging[scope := staging[scope] - torn.value];
        return Err(StagingNotRemoved);
      }
      if torn.None? {
        RemoveStaging(scope);
      }
      return Ok(document);
    }

    /** The finalized document is the canonical copy: its batches go, and their bytes are given back. */
    method RemoveStaging(scope: NotebookScope)
      modifies this
      ensures State() == DropStaging(old(State()), scope)
    {
      if scope in staging {
        var stagedBytes := MeasureDirectory(staging[scope]);
        assert staging - {scope} == Remove(staging, scope);
        staging := staging - {scope};
        bytesUsed := if bytesUsed - stagedBytes < 0 then 0 else bytesUsed - stagedBytes;
      }
    }

    method LoadPages(scope: NotebookScope) returns (r: Result<seq<Page>, DocumentError>)
      ensures r == Load(State(), scope)
    {
      if scope !in final {
        return Err(DocumentNotFinalized);
      }
      var document := final[scope];
      if document.scope != scope || document.checksum != PagesChecksum(document.pages) {
        return Err(DocumentStoreCorrupt);
      }
      return Ok(document.pages);
    }

    method PruneStagingRoot(retained: set<NotebookScope>, stale: set<NotebookScope>)
      modifies this
      ensures State() == PruneStaging(old(State()), retained, stale)
    {
      var before, candidates := staging, staging.Keys;
      while candidates != {}
        invariant candidates <= before.Keys
        invariant staging == map k | k in before && (k in candidates || Kept(k, retained, stale)) :: before[k]
        invariant final == old(final) && bytesUsed == old(bytesUsed)
        decreases candidates
      {
        var k :| k in candidates;
        if k !in retained && k in stale {
          staging := staging - {k};
        }
        candidates := candidates - {k};
      }
      assert staging == Survivors(before, retained, stale);
      if staging != before {
        var size := MeasureTree();
        bytesUsed := size;
      }
    }

    method PruneFinalRoot(retained: set<NotebookScope>, stale: set<NotebookScope>)
      modifies this
      ensures State() == PruneFinal(old(State()), retained, stale)
    {
      var before, candidates := final, final.Keys;
      while candidates != {}
        invariant candidates <= before.Keys
        invariant final == map k | k in before && (k in candidates || Kept(k, retained, stale)) :: before[k]
        invariant staging == old(staging) && bytesUsed == old(bytesUsed)
        decreases candidates
      {
        var k :| k in candidates;
        if k !in retained && k in stale {
          final := final - {k};
        }
        candidates := candidates - {k};
      }
      assert final == Survivors(before, retained, stale);
      if final != before {
        var size := MeasureTree();
        bytesUsed := size;
      }
    }
  }
}
