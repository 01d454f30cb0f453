/** The identity of an index: notebook, exact content revision and index schema. */
module Types {
  datatype NotebookScope = NotebookScope(notebookId: string, contentRevision: string, indexSchemaVersion: string)
}
