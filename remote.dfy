/**
 * The remote content-management API as the webhook service sees it: the
 * responses of `webhooks.add` / `webhooks.edit`, the outcome of one awaited
 * call, and the calls themselves (recorded in a log instead of being sent).
 */
module Remote {
  import opened Wrappers
  import TargetUrl

  /** One element of a response's `webhooks` array; `id` is None when null or undefined. */
  datatype Hook = Hook(id: Option<string>)

  /** A truthy response object: an optional `webhooks` array and an optional top-level `id`. */
  datatype Response = Response(webhooks: Option<seq<Hook>>, id: Option<string>)

  /** What one awaited remote call produced: a truthy response, a falsy one, or a thrown error. */
  datatype RemoteOutcome = Returned(response: Response) | Falsy | Throws

  /** A request sent to the remote API. */
  datatype RemoteCall =
    | Add(event: string, targetUrl: string, secret: string, name: string)
    | Edit(id: string, event: string, targetUrl: string, secret: string, name: string)
    | Delete(id: string)

  /**
   * The id taken from a truthy response, `response.webhooks?.[0]?.id ?? response.id`.
   * A response carrying neither yields `undefined`, which is stored as well; the
   * model writes that missing value as "" (falsy, like `undefined`).
   */
  function StoredId(response: Response): string {
    match response.webhooks
    case Some(hooks) =>
      if |hooks| > 0 && hooks[0].id.Some? then hooks[0].id.value else response.id.GetOr("")
    case None => response.id.GetOr("")
  }

  /** Whether `webhookIds[event]` is truthy: present and not empty. */
  predicate HasId(ids: map<string, string>, event: string) {
    event in ids && ids[event] != ""
  }

  /** `webhookIds[event]`, with an absent key read as "" (falsy, like `undefined`). */
  function IdOf(ids: map<string, string>, event: string): string {
    if event in ids then ids[event] else ""
  }

  /** The descriptive name sent with every add and edit. */
  function WebhookName(event: string): string {
    "Webhook for Event \"" + event + "\""
  }

  /** The request issued for `event` in a reconcile pass, given the id map at that moment. */
  function CallFor(target: string, secret: string, ids: map<string, string>, event: string): RemoteCall {
    if HasId(ids, event) then
      Edit(ids[event], event, TargetUrl.Url(target, event), secret, WebhookName(event))
    else
      Add(event, TargetUrl.Url(target, event), secret, WebhookName(event))
  }
}
