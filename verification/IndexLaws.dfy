/** Laws of the index repository over single calls and whole runs: accounting, quota, validity, immutability. */
module IndexLaws {
  import opened Wrappers
  import opened Types
  import opened Canonical
  import opened Sums
  import opened Documents
  import opened Indexes

  datatype Call =
    | BuildCall(document: Document, artifactId: string, m: Material, fault: Fault)
    | DiscardCall(id: string)
    | CommitCall(c: Candidate)
    | PruneCall(retained: set<string>, staleCandidates: set<string>, staleArtifacts: set<string>)
    | CutPruneCall(candidates: Damage, artifacts: Damage)
    | ReopenCall

  /** Directories that are gone, and what is left of directories that are torn. */
  datatype Damage = Damage(gone: set<string>, torn: map<string, Artifact>)

  function Damaged(root: map<string, Artifact>, d: Damage): map<string, Artifact> {
    map k | k in root && k !in d.gone :: if k in d.torn then d.torn[k] else root[k]
  }

  /** Deleting files makes no directory larger. */
  predicate Shrinking(root: map<string, Artifact>, d: Damage) {
    forall k :: k in d.torn && k in root ==> d.torn[k].bytes <= root[k].bytes
  }

  /** A prune that raises part-way has deleted something, and has not measured again. */
  function CutPrune(r: Repo, candidates: Damage, artifacts: Damage): Repo {
    r.(candidates := Damaged(r.candidates, candidates), artifacts := Damaged(r.artifacts, artifacts))
  }

  ghost function Apply(r: Repo, call: Call): Repo {
    match call
    case BuildCall(document, artifactId, m, fault) => Build(r, document, artifactId, m, fault).0
    case DiscardCall(id) => Discard(r, id)
    case CommitCall(c) => Commit(r, c).0
    case PruneCall(retained, staleCandidates, staleArtifacts) => Prune(r, retained, staleCandidates, staleArtifacts)
    case CutPruneCall(candidates, artifacts) => CutPrune(r, candidates, artifacts)
    case ReopenCall => r.(bytesUsed := RepoSize(r))
  }

  predicate NewId(r: Repo, id: string) {
    IsArtifactId(id) && id !in r.candidates && id !in r.artifacts
  }

  /** Artifact ids are new, header and manifest fit in the margin, and deletions only delete. */
  predicate Proper(r: Repo, call: Call) {
    match call
    case BuildCall(_, artifactId, m, _) => NewId(r, artifactId) && 0 < m.overheadBytes <= MARGIN
    case CutPruneCall(candidates, artifacts) => Shrinking(r.candidates, candidates) && Shrinking(r.artifacts, artifacts)
    case _ => true
  }

  ghost function Run(r: Repo, calls: seq<Call>): Repo
    decreases |calls|
  {
    if calls == [] then r else Run(Apply(r, calls[0]), calls[1..])
  }

  ghost predicate ProperRun(r: Repo, calls: seq<Call>)
    decreases |calls|
  {
    calls != [] ==> Proper(r, calls[0]) && ProperRun(Apply(r, calls[0]), calls[1..])
  }

  // ---------------------------------------------------------------- accounting

  ghost predicate Exact(r: Repo) {
    r.bytesUsed == RepoSize(r)
  }

  /** The counter never says less than is stored, and never more than the quota. */
  ghost predicate Covered(r: Repo) {
    RepoSize(r) <= r.bytesUsed <= r.maxBytes
  }

  /** The call raises after something was counted or deleted, without setting the counter right. */
  ghost predicate Miscounts(r: Repo, call: Call) {
    match call
    case BuildCall(document, artifactId, m, fault) =>
      fault == LateFault && m.rows == |ChunksOf(document.scope, document.pages, m.pieces)|
      && r.bytesUsed + m.chunkBytes + m.vectorBytes + MARGIN <= r.maxBytes
    case CutPruneCall(candidates, artifacts) =>
      || Loses(r.candidates, Damaged(r.candidates, candidates), ArtifactBytes)
      || Loses(r.artifacts, Damaged(r.artifacts, artifacts), ArtifactBytes)
    case _ => false
  }

  lemma {:induction false} ChunksBelong(scope: NotebookScope, pages: seq<Page>, pieces: seq<nat>)
    ensures !ForeignChunk(ChunksOf(scope, pages, pieces), scope.notebookId)
    ensures |ChunksOf(scope, pages, pieces)| >= |pages|
  {
    if pages != [] {
      ChunksBelong(scope, pages[..|pages| - 1], pieces);
    }
  }

  /** How many chunks the pages before this one have; a page without text has one. */
  function Offset(pieces: seq<nat>, page: nat): nat {
    if page == 0 then 0
    else Offset(pieces, page - 1) + (if page - 1 < |pieces| && pieces[page - 1] >= 1 then pieces[page - 1] else 1)
  }

  /** Piece k of page i, behind the pieces of the pages before: the page's own id, numbered, of the notebook. */
  ghost predicate PieceAt(chunks: seq<IndexChunk>, notebookId: string, pages: seq<Page>, pieces: seq<nat>, i: nat,
                          k: nat)
    requires i < |pages|
  {
    && Offset(pieces, i) + k < |chunks|
    && chunks[Offset(pieces, i) + k] == IndexChunk(pages[i].pageId, k, notebookId)
  }

  /** These are the pieces of the pages, in order, and there is no other chunk. */
  ghost predicate ArePieces(chunks: seq<IndexChunk>, notebookId: string, pages: seq<Page>, pieces: seq<nat>) {
    && |chunks| == Offset(pieces, |pages|)
    && forall i: nat, k: nat :: i < |pages| && Offset(pieces, i) + k < Offset(pieces, i + 1) ==>
         PieceAt(chunks, notebookId, pages, pieces, i, k)
  }

  /** Every chunk names one of these pages. */
  ghost predicate NamesPages(chunks: seq<IndexChunk>, pages: seq<Page>) {
    forall i :: 0 <= i < |chunks| ==> chunks[i].pageId in PageIds(pages)
  }

  lemma {:induction false} ChunksNamePages(scope: NotebookScope, pages: seq<Page>, pieces: seq<nat>)
    ensures NamesPages(ChunksOf(scope, pages, pieces), pages)
  {
    if pages != [] {
      var init, last := pages[..|pages| - 1], |pages| - 1;
      ChunksNamePages(scope, init, pieces);
      forall i | 0 <= i < last ensures PageIds(init)[i] in PageIds(pages) {
        assert PageIds(pages)[i] == PageIds(init)[i];
      }
      assert PageIds(pages)[last] == pages[last].pageId;
    }
  }

  lemma {:induction false} ChunksArePieces(scope: NotebookScope, pages: seq<Page>, pieces: seq<nat>)
    ensures ArePieces(ChunksOf(scope, pages, pieces), scope.notebookId, pages, pieces)
    decreases |pages|
  {
    if pages != [] {
      var n := |pages| - 1;
      var init, before := pages[..n], ChunksOf(scope, pages[..n], pieces);
      ChunksArePieces(scope, init, pieces);
      var chunks := ChunksOf(scope, pages, pieces);
      forall i: nat, k: nat | i < |pages| && Offset(pieces, i) + k < Offset(pieces, i + 1)
        ensures PieceAt(chunks, scope.notebookId, pages, pieces, i, k) {
        if i < n {
          assert PieceAt(before, scope.notebookId, init, pieces, i, k);
          assert chunks[Offset(pieces, i) + k] == before[Offset(pieces, i) + k];
        }
      }
    }
  }

  /** What a build writes always reads back. */
  lemma WrittenIsValid(document: Document, artifactId: string, m: Material)
    requires m.rows == |ChunksOf(document.scope, document.pages, m.pieces)|
    ensures Validated(Written(document, artifactId, m), document.scope, artifactId)
         == Ok(Written(document, artifactId, m))
  {
    hide ChunksOf, ForeignChunk;
    ChunksBelong(document.scope, document.pages, m.pieces);
  }

  lemma {:induction false} BuildAccounting(r: Repo, document: Document, artifactId: string, m: Material, fault: Fault)
    requires NewId(r, artifactId) && m.overheadBytes <= MARGIN
    ensures var call := BuildCall(document, artifactId, m, fault);
            var (r', result) := Build(r, document, artifactId, m, fault);
            && (Miscounts(r, call) ==>
                  RepoSize(r') == RepoSize(r)
                  && r'.bytesUsed == r.bytesUsed + m.chunkBytes + m.vectorBytes + m.overheadBytes)
            && (!Miscounts(r, call) ==> RepoSize(r') - RepoSize(r) == r'.bytesUsed - r.bytesUsed)
            && r'.maxBytes == r.maxBytes && (r.bytesUsed <= r.maxBytes ==> r'.bytesUsed <= r.maxBytes)
  {
    hide ChunksOf, Validated, SumOf;
    if m.rows == |ChunksOf(document.scope, document.pages, m.pieces)| {
      WrittenIsValid(document, artifactId, m);
    }
    SumInsert(r.candidates, ArtifactBytes, artifactId, Written(document, artifactId, m));
  }

  lemma {:induction false} DiscardAccounting(r: Repo, id: string)
    requires Covered(r)
    ensures var r' := Discard(r, id);
            RepoSize(r') - RepoSize(r) == r'.bytesUsed - r.bytesUsed && r'.bytesUsed <= r.bytesUsed
            && r'.maxBytes == r.maxBytes
  {
    if id in r.candidates {
      SumRemove(r.candidates, ArtifactBytes, id);
    }
  }

  lemma {:induction false} CommitAccounting(r: Repo, c: Candidate)
    requires Covered(r)
    ensures var r' := Commit(r, c).0;
            RepoSize(r') - RepoSize(r) == r'.bytesUsed - r.bytesUsed && r'.bytesUsed <= r.bytesUsed
            && r'.maxBytes == r.maxBytes
  {
    hide SumOf, Validated;
    var id := c.artifactId;
    if id in r.artifacts {
      hide RepoSize, Discard;
      DiscardAccounting(r, id);
    } else if id in r.candidates {
      SumRemove(r.candidates, ArtifactBytes, id);
      SumInsert(r.artifacts, ArtifactBytes, id, r.candidates[id]);
    }
  }

  lemma SmallerTrees(r: Repo, candidates: map<string, Artifact>, artifacts: map<string, Artifact>)
    requires candidates.Keys <= r.candidates.Keys && forall k :: k in candidates ==>
               candidates[k].bytes <= r.candidates[k].bytes
    requires artifacts.Keys <= r.artifacts.Keys && forall k :: k in artifacts ==>
               artifacts[k].bytes <= r.artifacts[k].bytes
    ensures RepoSize(r.(candidates := candidates, artifacts := artifacts)) <= RepoSize(r)
    ensures Loses(r.candidates, candidates, ArtifactBytes) || Loses(r.artifacts, artifacts, ArtifactBytes)
       <==> RepoSize(r.(candidates := candidates, artifacts := artifacts)) < RepoSize(r)
  {
    hide Loses;
    SumShrinks(r.candidates, candidates, ArtifactBytes);
    SumShrinks(r.artifacts, artifacts, ArtifactBytes);
  }

  lemma CutPruneAccounting(r: Repo, candidates: Damage, artifacts: Damage)
    requires Shrinking(r.candidates, candidates) && Shrinking(r.artifacts, artifacts)
    ensures var r' := CutPrune(r, candidates, artifacts);
            && RepoSize(r') <= RepoSize(r) && r'.bytesUsed == r.bytesUsed && r'.maxBytes == r.maxBytes
            && (Miscounts(r, CutPruneCall(candidates, artifacts)) <==> RepoSize(r') < RepoSize(r))
  {
    hide RepoSize, Loses;
    SmallerTrees(r, Damaged(r.candidates, candidates), Damaged(r.artifacts, artifacts));
  }

  lemma SizeIgnoresCounter(r: Repo, n: int)
    ensures RepoSize(r.(bytesUsed := n)) == RepoSize(r)
  {
  }

  lemma {:induction false} PruneAccounting(r: Repo, retained: set<string>, staleCandidates: set<string>,
                                           staleArtifacts: set<string>)
    ensures var r' := Prune(r, retained, staleCandidates, staleArtifacts);
            (r' == r || (Exact(r') && RepoSize(r') <= RepoSize(r))) && r'.maxBytes == r.maxBytes
  {
    hide SumOf, Retained;
    var candidates, artifacts := Remaining(r.candidates, {}, staleCandidates),
                                 Remaining(r.artifacts, retained, staleArtifacts);
    SmallerTrees(r, candidates, artifacts);
    var r' := r.(candidates := candidates, artifacts := artifacts);
    SizeIgnoresCounter(r', RepoSize(r'));
  }

  /** In every call the counter stays above what is stored and within the quota. */
  lemma {:induction false} ApplyKeepsCovered(r: Repo, call: Call)
    requires Covered(r) && Proper(r, call)
    ensures Covered(Apply(r, call)) && Apply(r, call).maxBytes == r.maxBytes
  {
    hide RepoSize, Build, Discard, Commit, Prune, CutPrune, Miscounts;
    match call {
      case BuildCall(document, artifactId, m, fault) => BuildAccounting(r, document, artifactId, m, fault);
      case DiscardCall(id) => DiscardAccounting(r, id);
      case CommitCall(c) => CommitAccounting(r, c);
      case PruneCall(retained, staleCandidates, staleArtifacts) =>
        PruneAccounting(r, retained, staleCandidates, staleArtifacts);
      case CutPruneCall(candidates, artifacts) => CutPruneAccounting(r, candidates, artifacts);
      case ReopenCall => SizeIgnoresCounter(r, RepoSize(r));
    }
  }

  /** The counter is exact after a call on an exact one, unless the call raised with its accounts open;
      then it is too high. */
  lemma {:induction false} CallIsExact(r: Repo, call: Call)
    requires Exact(r) && Covered(r) && Proper(r, call)
    ensures Exact(Apply(r, call)) <==> !Miscounts(r, call)
  {
    hide RepoSize, Build, Discard, Commit, Prune, CutPrune, Loses;
    match call {
      case BuildCall(document, artifactId, m, fault) => BuildAccounting(r, document, artifactId, m, fault);
      case DiscardCall(id) => DiscardAccounting(r, id);
      case CommitCall(c) => CommitAccounting(r, c);
      case PruneCall(retained, staleCandidates, staleArtifacts) =>
        PruneAccounting(r, retained, staleCandidates, staleArtifacts);
      case CutPruneCall(candidates, artifacts) => CutPruneAccounting(r, candidates, artifacts);
      case ReopenCall => SizeIgnoresCounter(r, RepoSize(r));
    }
  }

  ghost predicate NeverMiscounts(r: Repo, calls: seq<Call>)
    decreases |calls|
  {
    calls != [] ==> !Miscounts(r, calls[0]) && NeverMiscounts(Apply(r, calls[0]), calls[1..])
  }

  /** Whole runs: within the quota and never undercounted, and exact if no call raised with its accounts open. */
  lemma {:induction false} RunKeepsAccounts(r: Repo, calls: seq<Call>)
    requires Covered(r) && ProperRun(r, calls)
    ensures Covered(Run(r, calls)) && RepoSize(Run(r, calls)) <= r.maxBytes
    ensures Exact(r) && NeverMiscounts(r, calls) ==> Exact(Run(r, calls))
    decreases |calls|
  {
    hide Apply, RepoSize, Proper, Miscounts;
    if calls != [] {
      ApplyKeepsCovered(r, calls[0]);
      if Exact(r) {
        CallIsExact(r, calls[0]);
      }
      RunKeepsAccounts(Apply(r, calls[0]), calls[1..]);
    }
  }

  // ---------------------------------------------------------------- validity and immutability

  /**
   An index built from a finalized document and committed is loadable under exactly its scope: with the
   document's checksum, and as chunks the pieces of the document's pages, in order, all of its notebook.
   */
  lemma {:induction false} BuiltIndexLoads(r: Repo, document: Document, artifactId: string, m: Material, fault: Fault)
    requires NewId(r, artifactId) && Build(r, document, artifactId, m, fault).1.Ok?
    ensures var (r1, built) := Build(r, document, artifactId, m, fault);
            var (r2, committed) := Commit(r1, built.value);
            && committed.Ok? && artifactId !in r2.candidates
            && LoadActive(r2, document.scope, artifactId) == committed
            && committed.value.checksum == document.checksum
            && !ForeignChunk(committed.value.chunks, document.scope.notebookId)
            && ArePieces(committed.value.chunks, document.scope.notebookId, document.pages, m.pieces)
            && committed.value.chunkCount == |committed.value.chunks| == built.value.chunkCount
            && (forall scope :: scope != document.scope ==> LoadActive(r2, scope, artifactId) == Err(IndexCorrupt))
            && (forall id :: id != artifactId ==>
                  (id in r2.artifacts <==> id in r.artifacts)
                  && (id in r.artifacts ==> r2.artifacts[id] == r.artifacts[id]))
  {
    hide ChunksOf, ForeignChunk, IsArtifactId, ArePieces;
    WrittenIsValid(document, artifactId, m);
    ChunksBelong(document.scope, document.pages, m.pieces);
    ChunksArePieces(document.scope, document.pages, m.pieces);
  }

  /** Why a build fails, in the order of the tests; a build without fault fails for nothing else. */
  lemma {:induction false} BuildExactly(r: Repo, document: Document, artifactId: string, m: Material, fault: Fault)
    ensures var (r', result) := Build(r, document, artifactId, m, fault);
            var embedded := m.rows == Offset(m.pieces, |document.pages|);
            var fits := r.bytesUsed + m.chunkBytes + m.vectorBytes + 16 * 1024 <= r.maxBytes;
            && (result == Err(EmbeddingInvalid) <==> fault != EarlyFault && !embedded)
            && (result == Err(IndexQuotaExceeded) <==> fault != EarlyFault && embedded && !fits)
            && (result == Err(BackendFailed) <==>
                  fault == EarlyFault || (embedded && fits && (fault == WriteFault || fault == LateFault)))
            && (result.Ok? <==> fault == NoFault && embedded && fits)
            && (result.Ok? ==> result.value == Candidate(document.scope, artifactId, m.rows)
                               && r' == r.(candidates := r'.candidates,
                                           bytesUsed := r.bytesUsed + m.chunkBytes + m.vectorBytes + m.overheadBytes)
                               && artifactId in r'.candidates
                               && r'.candidates - {artifactId} == r.candidates - {artifactId})
            && (result.Err? ==> r'.candidates == r.candidates && r'.artifacts == r.artifacts)
  {
    hide ChunksOf, ForeignChunk, Validated;
    ChunksArePieces(document.scope, document.pages, m.pieces);
    if m.rows == |ChunksOf(document.scope, document.pages, m.pieces)| {
      WrittenIsValid(document, artifactId, m);
    }
  }

  /**
   A commit leaves no candidate under its name: it becomes the artifact, or an artifact that is there already stays.
   It fails to move exactly when there is neither; no other directory is touched.
   */
  lemma {:induction false} CommitExactly(r: Repo, c: Candidate)
    ensures var ((r', result), id) := (Commit(r, c), c.artifactId);
            && id !in r'.candidates
            && (result == Err(BackendFailed) <==> id !in r.artifacts && id !in r.candidates)
            && (id in r'.artifacts <==> id in r.artifacts || id in r.candidates)
            && (id in r'.artifacts ==>
                  r'.artifacts[id] == if id in r.artifacts then r.artifacts[id] else r.candidates[id])
            && (result.Ok? ==> result.value == r'.artifacts[id])
            && r'.candidates == r.candidates - {id} && r'.artifacts - {id} == r.artifacts - {id}
  {
    hide Validated;
    var id := c.artifactId;
    if id in r.artifacts {
      ValidationKeeps(r.artifacts[id], c.scope, id);
    } else if id in r.candidates {
      ValidationKeeps(r.candidates[id], c.scope, id);
    }
  }

  lemma ValidationKeeps(a: Artifact, scope: NotebookScope, id: string)
    ensures Validated(a, scope, id) != Err(BackendFailed)
    ensures Validated(a, scope, id).Ok? ==> Validated(a, scope, id).value == a
  {
    hide ForeignChunk;
  }

  /** An artifact loads exactly when it is there under a proper name, is of this scope and name, and is consistent. */
  lemma {:induction false} LoadsExactly(r: Repo, scope: NotebookScope, artifactId: string)
    ensures var loaded := LoadActive(r, scope, artifactId);
            && (loaded.Ok? <==>
                  && IsArtifactId(artifactId) && artifactId in r.artifacts
                  && var a := r.artifacts[artifactId];
                     && a.scope == scope && a.artifactId == artifactId
                     && a.rows == |a.chunks| == a.chunkCount
                     && forall i :: 0 <= i < |a.chunks| ==> a.chunks[i].notebookId == scope.notebookId)
            && (loaded.Ok? ==> loaded.value == r.artifacts[artifactId])
            && (loaded == Err(IndexNotReady) <==> !IsArtifactId(artifactId))
  {
    hide IsArtifactId;
  }

  /** Two different names can be told apart by the digits of a digest: 64 of them, each one of sixteen. */
  lemma NamesAreDigests(id: string)
    ensures IsArtifactId(id) <==> |id| == 64 && forall i :: 0 <= i < |id| ==> id[i] in "0123456789abcdef"
  {
    var digits := "0123456789abcdef";
    forall c: char ensures ('0' <= c <= '9' || 'a' <= c <= 'f') <==> c in digits {
      if '0' <= c <= '9' {
        assert digits[c as int - '0' as int] == c;
      } else if 'a' <= c <= 'f' {
        assert digits[10 + (c as int - 'a' as int)] == c;
      }
    }
  }

  /** No call takes the counter below zero. */
  lemma {:induction false} CounterStaysNatural(r: Repo, call: Call)
    requires r.bytesUsed >= 0
    ensures Apply(r, call).bytesUsed >= 0
  {
    hide RepoSize, ChunksOf, Validated, Remaining, Damaged;
  }

  /** The call deletes this artifact. */
  predicate Deletes(call: Call, id: string) {
    match call
    case PruneCall(retained, _, staleArtifacts) => !Retained(id, retained, staleArtifacts)
    case CutPruneCall(_, artifacts) => id in artifacts.gone || id in artifacts.torn
    case _ => false
  }

  /** Artifacts are immutable: through any calls, one that is not pruned stays exactly as it was committed. */
  lemma {:induction false} ArtifactsAreImmutable(r: Repo, calls: seq<Call>, id: string)
    requires id in r.artifacts && forall i :: 0 <= i < |calls| ==> !Deletes(calls[i], id)
    ensures id in Run(r, calls).artifacts && Run(r, calls).artifacts[id] == r.artifacts[id]
    decreases |calls|
  {
    hide Build, Deletes;
    if calls != [] {
      assert !Deletes(calls[0], id);
      CallKeepsArtifact(r, calls[0], id);
      forall i | 0 <= i < |calls| - 1 ensures !Deletes(calls[1..][i], id) {
        assert calls[1..][i] == calls[i + 1];
      }
      ArtifactsAreImmutable(Apply(r, calls[0]), calls[1..], id);
    }
  }

  lemma CallKeepsArtifact(r: Repo, call: Call, id: string)
    requires id in r.artifacts && !Deletes(call, id)
    ensures id in Apply(r, call).artifacts && Apply(r, call).artifacts[id] == r.artifacts[id]
  {
    hide ChunksOf, Validated, RepoSize;
  }
}
