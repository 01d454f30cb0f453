/** The stored files as text: what staging and finalization count is the length of the canonical JSON they write. */
module Envelopes {
  import opened Types
  import opened Canonical
  import opened Decimals
  import opened Documents

  /** Identifiers are safe tokens, which canonical JSON does not escape. */
  function ScopeText(scope: NotebookScope): string {
    "{\"contentRevision\":\"" + scope.contentRevision
    + "\",\"indexSchemaVersion\":\"" + scope.indexSchemaVersion
    + "\",\"notebookId\":\"" + scope.notebookId + "\"}"
  }

  /** A staged batch, keys in order; checksum and page array are given as text. */
  function BatchText(scope: NotebookScope, number: nat, checksum: string, pages: string): string {
    "{\"batchChecksum\":\"" + checksum + "\",\"batchNumber\":" + Decimal(number) + ",\"pages\":" + pages
    + ",\"protocolVersion\":\"1\",\"scope\":" + ScopeText(scope) + "}"
  }

  function DocumentText(scope: NotebookScope, checksum: string, pageCount: nat, batchCount: nat, pages: string)
    : string
  {
    "{\"batchCount\":" + Decimal(batchCount) + ",\"documentChecksum\":\"" + checksum
    + "\",\"pageCount\":" + Decimal(pageCount) + ",\"pages\":" + pages
    + ",\"protocolVersion\":\"1\",\"scope\":" + ScopeText(scope) + "}"
  }

  const CHECKSUM_LENGTH: nat := |"sha256:"| + 64

  lemma ScopeTextLength(scope: NotebookScope)
    ensures |ScopeText(scope)| == 62 + ScopeBytes(scope)
  {
    assert |"{\"contentRevision\":\""| == 20;
    assert |"\",\"indexSchemaVersion\":\""| == 24;
    assert |"\",\"notebookId\":\""| == 16;
  }

  /** A staged batch counts as many bytes as its file has. */
  lemma BatchBytesAreWritten(batch: Batch, checksum: string, pages: string)
    requires |checksum| == CHECKSUM_LENGTH && |pages| == ArrayBytes(batch.pages)
    ensures BatchBytes(batch) == |BatchText(batch.scope, batch.number, checksum, pages)|
  {
    hide ScopeText, ArrayBytes, Decimal, ScopeBytes;
    ScopeTextLength(batch.scope);
  }

  /** And so does a finalized document. */
  lemma DocumentBytesAreWritten(document: Document, checksum: string, pages: string)
    requires |checksum| == CHECKSUM_LENGTH && |pages| == ArrayBytes(document.pages)
    ensures DocumentBytes(document)
         == |DocumentText(document.scope, checksum, |document.pages|, document.batchCount, pages)|
  {
    hide ScopeText, ArrayBytes, Decimal, ScopeBytes;
    ScopeTextLength(document.scope);
  }
}
