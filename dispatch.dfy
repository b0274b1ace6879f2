/**
 * Inbound event routing: the callback table, the default handler installed for
 * every reconciled event, and the tagged result of processing one delivery.
 */
module Dispatch {
  import opened Wrappers

  /** A `post` or `page` object of a payload; "" stands for a missing or empty `url`. */
  datatype Item = Item(url: string)

  /**
   * An inbound payload. `Nullish` is `null`/`undefined`, on which the destructuring
   * `const { post, page } = payload` throws; any other value yields its two fields.
   */
  datatype Payload = Nullish | Body(post: Option<Item>, page: Option<Item>)

  /** The registered callback `(payload) => this.handleEventCallback(event, payload)`. */
  datatype Handler = EventCallback(event: string)

  datatype Status = Success | Warning | Error

  datatype WebhookResponse = WebhookResponse(status: Status, message: string)

  /** What the default handler did: it threw, or it returned having purged `purge` (if any). */
  datatype HandlerOutcome = HandlerThrew | HandlerDone(purge: Option<string>)

  /** The result of processing one delivery: the response and the purge it caused, if any. */
  datatype Delivery = Delivery(response: WebhookResponse, purge: Option<string>)

  /** The event the default handler deliberately ignores. */
  const SiteChanged := "site.changed"

  /** Every callback in the table is the default handler bound to its own event. */
  ghost predicate Bound(callbacks: map<string, Handler>) {
    forall event :: event in callbacks ==> callbacks[event] == EventCallback(event)
  }

  /** `item && item.url`, read as a condition. */
  predicate HasUrl(item: Option<Item>) {
    item.Some? && item.value.url != ""
  }

  /** `item?.url`, with undefined read as "". */
  function UrlOf(item: Option<Item>): string {
    match item
    case Some(it) => it.url
    case None => ""
  }

  /** `post?.url || page?.url`. */
  function PurgeArgument(post: Option<Item>, page: Option<Item>): string {
    if UrlOf(post) != "" then UrlOf(post) else UrlOf(page)
  }

  /** The purge log entries one handler outcome contributes. */
  function PurgeLog(purge: Option<string>): seq<string> {
    match purge
    case Some(url) => [url]
    case None => []
  }

  /**
   * `handleEventCallback(event, payload)`: it throws on a nullish payload (before the
   * `site.changed` test), does nothing for `site.changed`, and otherwise purges exactly
   * when neither `post.url` nor `page.url` is truthy, always with a falsy argument.
   */
  function HandleEventCallback(event: string, payload: Payload): (h: HandlerOutcome)
    ensures h.HandlerThrew? <==> payload.Nullish?
    ensures event == SiteChanged ==> h.HandlerThrew? || h.purge == None
    ensures h.HandlerDone? && h.purge.Some? <==>
              payload.Body? && event != SiteChanged && !HasUrl(payload.post) && !HasUrl(payload.page)
    ensures h.HandlerDone? && h.purge.Some? ==> h.purge.value == ""
  {
    match payload
    case Nullish => HandlerThrew
    case Body(post, page) =>
      if event == SiteChanged then HandlerDone(None)
      else if !(HasUrl(post) || HasUrl(page)) then HandlerDone(Some(PurgeArgument(post, page)))
      else HandlerDone(None)
  }

  /**
   * `processWebhook(event, payload)`: `Warning` when no callback is registered,
   * `Error` when the callback throws, `Success` otherwise; a purge happens only on
   * a successful run of the callback, and only with a falsy argument.
   */
  function Process(callbacks: map<string, Handler>, event: string, payload: Payload): (d: Delivery)
    ensures d.response.status == Warning <==> event !in callbacks
    ensures d.response.status == Error <==>
              event in callbacks && HandleEventCallback(callbacks[event].event, payload).HandlerThrew?
    ensures d.response.status == Success <==>
              event in callbacks && HandleEventCallback(callbacks[event].event, payload).HandlerDone?
    ensures d.purge.Some? ==> d.response.status == Success && d.purge.value == ""
  {
    if event in callbacks then
      match HandleEventCallback(callbacks[event].event, payload)
      case HandlerThrew =>
        Delivery(WebhookResponse(Error, "Error processing event: " + event), None)
      case HandlerDone(purge) =>
        Delivery(WebhookResponse(Success, "Event \"" + event + "\" processed."), purge)
    else
      Delivery(WebhookResponse(Warning, "No callback registered for event: " + event), None)
  }

  /**
   * With the callbacks the reconcile pass installs, a delivery fails exactly on a
   * nullish payload, and it purges exactly when the event has a callback, the payload
   * is an object, the event is not `site.changed`, and neither URL is truthy.
   */
  lemma ProcessBound(callbacks: map<string, Handler>, event: string, payload: Payload)
    requires Bound(callbacks)
    ensures var d := Process(callbacks, event, payload);
      && (d.response.status == Error <==> event in callbacks && payload.Nullish?)
      && (d.response.status == Success <==> event in callbacks && payload.Body?)
      && (d.purge.Some? <==>
            event in callbacks && payload.Body? && event != SiteChanged
            && !HasUrl(payload.post) && !HasUrl(payload.page))
  {
    if event in callbacks {
      assert callbacks[event].event == event;
    }
  }
}
