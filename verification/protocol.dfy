/** The synchronize call between a client and the server. */
module Protocol {
  import opened Results
  import opened CampOperations

  /** The status enum of a synchronize response. */
  datatype SyncStatus = AllGood | NeedUpdate | Retry

  /** `{status, updatedOps?, campId?}` as the server returns it. */
  datatype SynchronizeResponse = SynchronizeResponse(
    status: SyncStatus,
    updatedOps: Option<seq<CampOperation>>,
    campId: Option<string>)

  /** A JavaScript string used as a condition: only a present, non-empty
      string is truthy. */
  predicate Truthy(s: Option<string>) {
    s.Some? && s.value != ""
  }
}
