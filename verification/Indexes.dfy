/**
 The index repository: candidate directories that are built and validated, artifacts they are moved to, a
 cached byte counter and a quota. `Repo` is the state as a value, with one function per operation, and
 `IndexRepository` the object. A build may raise at any point; the nonce in an artifact id makes it new.
 */
module Indexes {
  import opened Wrappers
  import opened Types
  import opened Canonical
  import opened Sums
  import opened Documents

  datatype IndexError =
    | BackendFailed
    | EmbeddingInvalid
    | IndexQuotaExceeded
    | IndexCorrupt
    | IndexNotReady

  datatype IndexChunk = IndexChunk(pageId: string, number: nat, notebookId: string)

  /** One directory: the manifest, the chunks, the rows of the matrix, and the bytes of its files. */
  datatype Artifact = Artifact(scope: NotebookScope, artifactId: string, checksum: Digest, chunkCount: nat,
                               chunks: seq<IndexChunk>, rows: nat, bytes: nat)

  datatype Candidate = Candidate(scope: NotebookScope, artifactId: string, chunkCount: nat)

  datatype Repo = Repo(candidates: map<string, Artifact>, artifacts: map<string, Artifact>,
                       bytesUsed: int, maxBytes: nat)

  /** What the backend and the file system contribute to a build. */
  datatype Material = Material(pieces: seq<nat>, rows: nat, chunkBytes: nat, vectorBytes: nat, overheadBytes: nat)

  /** Where a build raises, if it does: before the directory exists, before it is counted, or after. */
  datatype Fault = NoFault | EarlyFault | WriteFault | LateFault

  /** Room set aside for the matrix header and the manifest. */
  const MARGIN: nat := 16 * 1024

  function ArtifactBytes(a: Artifact): nat {
    a.bytes
  }

  ghost function RepoSize(r: Repo): nat {
    SumOf(r.candidates, ArtifactBytes) + SumOf(r.artifacts, ArtifactBytes)
  }

  predicate IsArtifactId(id: string) {
    |id| == 64 && forall i :: 0 <= i < |id| ==> '0' <= id[i] <= '9' || 'a' <= id[i] <= 'f'
  }

  // ---------------------------------------------------------------- building

  function PageChunks(page: Page, notebookId: string, count: nat): seq<IndexChunk> {
    seq(count, i requires 0 <= i < count => IndexChunk(page.pageId, i, notebookId))
  }

  /** A page without text still has one chunk. */
  function PieceCount(pieces: seq<nat>, i: nat): nat {
    if i < |pieces| && pieces[i] > 0 then pieces[i] else 1
  }

  function ChunksOf(scope: NotebookScope, pages: seq<Page>, pieces: seq<nat>): seq<IndexChunk> {
    if pages == [] then []
    else
      ChunksOf(scope, pages[..|pages| - 1], pieces)
      + PageChunks(pages[|pages| - 1], scope.notebookId, PieceCount(pieces, |pages| - 1))
  }

  predicate ForeignChunk(chunks: seq<IndexChunk>, notebookId: string) {
    exists i :: 0 <= i < |chunks| && chunks[i].notebookId != notebookId
  }

  /** Reading a directory back. */
  function Validated(a: Artifact, scope: NotebookScope, artifactId: string): Result<Artifact, IndexError> {
    if a.scope != scope || a.artifactId != artifactId then Err(IndexCorrupt)
    else if a.rows != |a.chunks| then Err(EmbeddingInvalid)
    else if a.chunkCount != |a.chunks| then Err(IndexCorrupt)
    else if ForeignChunk(a.chunks, scope.notebookId) then Err(IndexCorrupt)
    else Ok(a)
  }

  function Written(document: Document, artifactId: string, m: Material): Artifact {
    var chunks := ChunksOf(document.scope, document.pages, m.pieces);
    Artifact(document.scope, artifactId, document.checksum, |chunks|, chunks, m.rows,
             m.chunkBytes + m.vectorBytes + m.overheadBytes)
  }

  function Build(r: Repo, document: Document, artifactId: string, m: Material,
                 fault: Fault): (Repo, Result<Candidate, IndexError>)
  {
    var a := Written(document, artifactId, m);
    if fault == EarlyFault then (r, Err(BackendFailed))
    else if m.rows != |a.chunks| then (r, Err(EmbeddingInvalid))
    else if r.bytesUsed + m.chunkBytes + m.vectorBytes + MARGIN > r.maxBytes then (r, Err(IndexQuotaExceeded))
    else if fault == WriteFault then (r, Err(BackendFailed))
    else
      match Validated(a, document.scope, artifactId)
      case Err(e) => (r, Err(e))
      case Ok(_) =>
        var counted := r.(bytesUsed := r.bytesUsed + a.bytes);
        if fault == LateFault then (counted, Err(BackendFailed))
        else (counted.(candidates := r.candidates[artifactId := a]),
              Ok(Candidate(document.scope, artifactId, |a.chunks|)))
  }

  // ---------------------------------------------------------------- committing

  function Lowered(bytesUsed: int, size: nat): int {
    if bytesUsed - size < 0 then 0 else bytesUsed - size
  }

  ghost function Discard(r: Repo, artifactId: string): Repo {
    if artifactId !in r.candidates then r
    else r.(candidates := Remove(r.candidates, artifactId),
            bytesUsed := Lowered(r.bytesUsed, r.candidates[artifactId].bytes))
  }

  /** Moves the directory, unless its target exists already; then validates the target. */
  ghost function Commit(r: Repo, c: Candidate): (Repo, Result<Artifact, IndexError>) {
    var id := c.artifactId;
    if id in r.artifacts then (Discard(r, id), Validated(r.artifacts[id], c.scope, id))
    else if id !in r.candidates then (r, Err(BackendFailed))
    else
      (r.(candidates := Remove(r.candidates, id), artifacts := r.artifacts[id := r.candidates[id]]),
       Validated(r.candidates[id], c.scope, id))
  }

  function LoadActive(r: Repo, scope: NotebookScope, artifactId: string): Result<Artifact, IndexError> {
    if !IsArtifactId(artifactId) then Err(IndexNotReady)
    else if artifactId !in r.artifacts then Err(IndexCorrupt)
    else Validated(r.artifacts[artifactId], scope, artifactId)
  }

  predicate Retained(id: string, retained: set<string>, stale: set<string>) {
    (id in retained && IsArtifactId(id)) || id !in stale
  }

  function Remaining(root: map<string, Artifact>, retained: set<string>, stale: set<string>): map<string, Artifact> {
    map k | k in root && Retained(k, retained, stale) :: root[k]
  }

  /** Stale candidates all go, stale artifacts unless retained; the counter is measured anew when something went. */
  ghost function Prune(r: Repo, retained: set<string>, staleCandidates: set<string>,
                       staleArtifacts: set<string>): Repo
  {
    var r' := r.(candidates := Remaining(r.candidates, {}, staleCandidates),
                 artifacts := Remaining(r.artifacts, retained, staleArtifacts));
    if r' == r then r else r'.(bytesUsed := RepoSize(r'))
  }

  // ---------------------------------------------------------------- the object

  class IndexRepository {
    var candidates: map<string, Artifact>
    var artifacts: map<string, Artifact>
    var bytesUsed: int
    const maxBytes: nat

    ghost function State(): Repo
      reads this
    {
      Repo(candidates, artifacts, bytesUsed, maxBytes)
    }

    /** Opens what is left on disk; the counter is measured from it. */
    constructor (candidates: map<string, Artifact>, artifacts: map<string, Artifact>, maxBytes: nat)
      ensures State() == Repo(candidates, artifacts, RepoSize(Repo(candidates, artifacts, 0, maxBytes)), maxBytes)
    {
      this.candidates, this.artifacts, this.maxBytes := candidates, artifacts, maxBytes;
      this.bytesUsed := 0;
      new;
      var size := MeasureTree();
      bytesUsed := size;
    }

    static method Measure(root: map<string, Artifact>) returns (total: nat)
      ensures total == SumOf(root, ArtifactBytes)
    {
      total := 0;
      var rest := root;
      while rest != map[]
        invariant total + SumOf(rest, ArtifactBytes) == SumOf(root, ArtifactBytes)
        decreases |rest|
      {
        var k :| k in rest;
        SumRemove(rest, ArtifactBytes, k);
        total := total + rest[k].bytes;
        assert rest - {k} == Remove(rest, k);
        rest := rest - {k};
      }
    }

    method MeasureTree() returns (total: nat)
      ensures total == RepoSize(State())
    {
      var first := Measure(candidates);
      var second := Measure(artifacts);
      total := first + second;
    }

    /** The pieces of every page, each under its page's id and its number in the page. */
    static method ChunksForPages(scope: NotebookScope, pages: seq<Page>, pieces: seq<nat>)
      returns (chunks: seq<IndexChunk>)
      ensures chunks == ChunksOf(scope, pages, pieces)
    {
      chunks := [];
      for i := 0 to |pages|
        invariant chunks == ChunksOf(scope, pages[..i], pieces)
      {
        assert pages[..i + 1][..i] == pages[..i];
        var count := if i < |pieces| && pieces[i] > 0 then pieces[i] else 1;
        for number := 0 to count
          invariant chunks == ChunksOf(scope, pages[..i], pieces) + PageChunks(pages[i], scope.notebookId, number)
        {
          chunks := chunks + [IndexChunk(pages[i].pageId, number, scope.notebookId)];
        }
      }
      assert pages[..|pages|] == pages;
    }

    /** Capacity is checked against an estimate, the counter raised by what the directory really holds. */
    method BuildCandidate(document: Document, artifactId: string, m: Material, fault: Fault)
      returns (result: Result<Candidate, IndexError>)
      modifies this
      ensures (State(), result) == Build(old(State()), document, artifactId, m, fault)
    {
      hide ChunksOf;
      var chunks := ChunksForPages(document.scope, document.pages, m.pieces);
      if fault == EarlyFault {
        return Err(BackendFailed);
      }
      if m.rows != |chunks| {
        return Err(EmbeddingInvalid);
      }
      var estimated := m.chunkBytes + m.vectorBytes + MARGIN;
      if bytesUsed + estimated > maxBytes {
        return Err(IndexQuotaExceeded);
      }
      if fault == WriteFault {
        return Err(BackendFailed);
      }
      var directory := Artifact(document.scope, artifactId, document.checksum, |chunks|, chunks, m.rows,
                                m.chunkBytes + m.vectorBytes + m.overheadBytes);
      var loaded := Validated(directory, document.scope, artifactId);
      if loaded.Err? {
        return Err(loaded.error);
      }
      bytesUsed := bytesUsed + directory.bytes;
      if fault == LateFault {
        return Err(BackendFailed);
      }
      candidates := candidates[artifactId := directory];
      return Ok(Candidate(document.scope, artifactId, |chunks|));
    }

    method DiscardCandidate(artifactId: string)
      modifies this
      ensures State() == Discard(old(State()), artifactId)
    {
      if artifactId in candidates {
        var size := candidates[artifactId].bytes;
        assert candidates - {artifactId} == Remove(candidates, artifactId);
        candidates := candidates - {artifactId};
        bytesUsed := if bytesUsed - size < 0 then 0 else bytesUsed - size;
      }
    }

    method CommitCandidate(c: Candidate) returns (result: Result<Artifact, IndexError>)
      modifies this
      ensures (State(), result) == Commit(old(State()), c)
    {
      hide Validated;
      var id := c.artifactId;
      if id in artifacts {
        DiscardCandidate(id);
      } else if id in candidates {
        artifacts := artifacts[id := candidates[id]];
        assert candidates - {id} == Remove(candidates, id);
        candidates := candidates - {id};
      } else {
        return Err(BackendFailed);
      }
      return Validated(artifacts[id], c.scope, id);
    }

    method Load(scope: NotebookScope, artifactId: string) returns (result: Result<Artifact, IndexError>)
      ensures result == LoadActive(State(), scope, artifactId)
    {
      hide Validated;
      if !IsArtifactId(artifactId) {
        return Err(IndexNotReady);
      }
      if artifactId !in artifacts {
        return Err(IndexCorrupt);
      }
      return Validated(artifacts[artifactId], scope, artifactId);
    }

    static method PruneRoot(root: map<string, Artifact>, retained: set<string>, stale: set<string>)
      returns (left: map<string, Artifact>)
      ensures left == Remaining(root, retained, stale)
    {
      left := root;
      var names := root.Keys;
      while names != {}
        invariant names <= root.Keys
        invariant left == map k | k in root && (k in names || Retained(k, retained, stale)) :: root[k]
        decreases names
      {
        var name :| name in names;
        if !Retained(name, retained, stale) {
          left := left - {name};
        }
        names := names - {name};
      }
    }

    method PruneDirectories(retained: set<string>, staleCandidates: set<string>, staleArtifacts: set<string>)
      modifies this
      ensures State() == Prune(old(State()), retained, staleCandidates, staleArtifacts)
    {
      hide Remaining;
      var candidatesLeft := PruneRoot(candidates, {}, staleCandidates);
      var artifactsLeft := PruneRoot(artifacts, retained, staleArtifacts);
      if candidatesLeft != candidates || artifactsLeft != artifacts {
        candidates, artifacts := candidatesLeft, artifactsLeft;
        var size := MeasureTree();
        bytesUsed := size;
      }
    }
  }
}
