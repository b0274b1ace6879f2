/** The bookkeeping of one reconcile or deregister pass over the two tables. */
module Pass {
  import opened Remote
  import opened Dispatch

  /**
   * The id table, the callback table, the pass's `successfulCount` and
   * `failedWebhooks`, and the remote calls the pass has issued so far.
   */
  datatype PassState = PassState(
    ids: map<string, string>,
    callbacks: map<string, Handler>,
    successCount: nat,
    failed: seq<string>,
    calls: seq<RemoteCall>)

  /** A pass begins with zero counts, no failures and no calls. */
  function Start(ids: map<string, string>, callbacks: map<string, Handler>): PassState {
    PassState(ids, callbacks, 0, [], [])
  }
}
