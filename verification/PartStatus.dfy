/** The eight durable job states of a source part (app/clickhouse_manifest.py:11-36). */
module PartStatus {

  datatype Status = Pending | Loading | Ready | LoadFailed | DeletePending | Deleting | DeleteFailed | Retired

  /** Primary key of the manifest: one row per path and identity. */
  datatype Key = Key(path: string, identity: string)

  /** `ACTIVE_LOAD_STATES` */
  predicate ActiveLoad(s: Status) { s in {Pending, Loading, Ready, LoadFailed} }

  /** `ACTIVE_DELETE_STATES` */
  predicate ActiveDelete(s: Status) { s in {DeletePending, Deleting, DeleteFailed} }

  /** The states `mark_ready` accepts. */
  predicate Loadable(s: Status) { s in {Loading, Pending, LoadFailed} }

  /** Where `mark_failed` sends a row. */
  function Failed(s: Status): Status { if ActiveDelete(s) then DeleteFailed else LoadFailed }

  /** Where `release_pending` sends a row. */
  function Released(s: Status): Status { if ActiveDelete(s) then DeletePending else Pending }

  /** A row is on its way in, on its way out, or retired; `mark_ready` takes any row on its way in that is not there yet; a failed or
      released job stays of its kind, in a state of its own. */
  lemma StatesPart(s: Status)
    ensures ActiveLoad(s) <==> !ActiveDelete(s) && s != Retired
    ensures ActiveDelete(s) <==> s == DeletePending || s == Deleting || s == DeleteFailed
    ensures Loadable(s) <==> ActiveLoad(s) && s != Ready
    ensures s != Retired ==> (ActiveDelete(Failed(s)) <==> ActiveDelete(s)) && (ActiveDelete(Released(s)) <==> ActiveDelete(s))
    ensures Failed(s) in {LoadFailed, DeleteFailed} && Released(s) in {Pending, DeletePending}
  {
  }
}
