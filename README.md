# Webhook lifecycle and dispatch — a Dafny model

This project models the core of a Ghost → BunnyCDN connector: the `WebhookService`
class that keeps the Ghost Admin API's webhook subscriptions in step with a list of
required events, remembers the remote webhook ids in a persisted table, and routes
inbound webhook deliveries to a per-event callback that may purge the CDN cache.

The model follows the TypeScript code as written:

- `TargetUrl` — the delivery URL `${target}/webhook/${event.replace(/\./g, '-')}`
  as a pure function, with its shape, injectivity on `-`‑free names, and the
  `a.b` / `a-b` collision.
- `Remote` — the API's responses (`webhooks?.[0]?.id ?? id`), the outcome of one
  awaited call (truthy response, falsy response, thrown error), and the calls sent.
- `Dispatch` — payloads, the default handler `handleEventCallback`, and
  `processWebhook` as a function returning the response record and the purge it caused.
- `Pass` — the bookkeeping of one pass: both tables, `successfulCount`,
  `failedWebhooks` and the calls issued.
- `Reconcile` — `initializeWebhooks` as a fold over the required events, with the
  properties of a whole pass proved against independent descriptions (`IdsAfter`,
  `Registered`, `FailedEvents`).
- `Deregister` — `deinitializeWebhooks` as a fold over the id table's keys, with the
  result proved in closed form (`Retained`, `Deleted`, `Undeleted`, `WithId`).
- `Service` — the class `WebhookService` with the two tables as fields and the
  source's methods, each proved to leave exactly the state the folds describe.

External effects are replaced as follows. The remote add/edit outcome of the i-th
required event is `outcomes[i]`. The set `throwing` names the keys whose remote delete
throws. The remote calls, the storage saves and the CDN purges are appended to ghost
logs (`calls`, `saves`, `purges`). The configuration values (`GHOST_WEBHOOK_SECRET`,
`GHOST_WEBHOOK_TARGET`, the required event list) and the loaded id table are
parameters. A missing id (a truthy response with neither `webhooks[0].id` nor `id`) is
stored as `""`. Like `undefined`, it is falsy, so the next pass takes the create branch
again. A missing or empty `url` is also written `""`. A `null`/`undefined` payload is
`Nullish`: destructuring it throws, so the callback fails.

The model keeps these places where the code departs from what one would expect:

- A response without an id still counts as a success, and the missing value is stored
  (`src/services/webhookService.ts:56-59`). It is not treated as a failure.
- A callback is registered after a falsy response too, although that event is counted
  as failed (line 84 is outside the `if/else`).
- A remote delete that throws leaves the id entry in place, because the `delete` at
  line 118 is inside the `try`. So deregistration does not always empty the table.
- Deregistration does not always empty the callback table either. It visits only the
  keys of the id table, so an event whose falsy response left it a callback but no id
  keeps that callback (`Deregister.DeregisterAll`).
- The callback table is never cleared before a pass. A pass only adds or replaces entries.
- No check prevents two required events from sharing a target URL. `TargetUrl.UrlCollision`
  shows two names that do.
- The purge runs exactly when no URL is present, and then always with a falsy argument.
  This inverted-looking guard is kept as written.

## Model

| member | source | states |
|---|---|---|
| `TargetUrl.Dashed` | src/services/webhookService.ts:46 | the segment is as long as the event, has no `.`, and keeps every character except `.`, which becomes `-` |
| `TargetUrl.UrlShape` | src/services/webhookService.ts:46 | the URL is the base, then `/webhook/`, then a dot-free segment as long as the event |
| `TargetUrl.DashedInjective` | src/services/webhookService.ts:46 | two event names without `-` with the same segment are equal |
| `TargetUrl.UrlInjective` | src/services/webhookService.ts:46 | under one base, distinct event names without `-` get distinct target URLs |
| `TargetUrl.UrlCollision` | src/services/webhookService.ts:46 | the distinct names `a.b` and `a-b` get the same target URL, so the mapping is not injective in general |
| `Dispatch.HandleEventCallback` | src/services/webhookService.ts:176-191 | throws exactly on a nullish payload (even for `site.changed`); never purges for `site.changed`; otherwise purges iff neither `post.url` nor `page.url` is truthy, and the purge argument is then always falsy |
| `Dispatch.Process` | src/services/webhookService.ts:142-157 | `Warning` iff no callback is registered, `Error` iff the callback throws, `Success` iff it returns; a purge happens only on `Success` and with a falsy argument |
| `Dispatch.ProcessBound` | src/services/webhookService.ts:142-157 | with the callbacks a pass installs, a delivery is `Error` iff the payload is nullish, and purges iff the event has a callback, is not `site.changed` and neither URL is truthy |
| `Reconcile.RunCalls` | src/services/webhookService.ts:44-90 | a pass sends exactly one add or edit per required event and only appends to the call log |
| `Reconcile.RunCallAtState` | src/services/webhookService.ts:48-72 | the call recorded for the j-th event is decided by the id table that the first j steps of the pass leave behind |
| `Reconcile.RunCallAt` | src/services/webhookService.ts:48-72 | the call for the j-th event is an edit carrying the id stored for it at that moment if that id is truthy, and an add otherwise |
| `Reconcile.FirstOccurrenceCall` | src/services/webhookService.ts:48-72 | at an event's first occurrence, the call is an add iff its stored id is absent or falsy, and otherwise an edit carrying exactly the stored id |
| `Reconcile.DuplicateTakesEdit` | src/services/webhookService.ts:48-75 | a later duplicate of an event whose previous occurrence received a non-empty id is an edit carrying that id |
| `Reconcile.SecondPassEdits` | src/services/webhookService.ts:48-75 | after a pass in which every response was truthy with an id, every call of a second pass over the same events is an edit (as long as its truthy responses carry ids) |
| `Reconcile.RunIds` | src/services/webhookService.ts:56-81 | after a pass each event's id is the one from its last truthy response (`webhooks[0].id`, else `id`, else missing); falsy responses and thrown errors leave the entry unchanged |
| `Reconcile.RunUntouched` | src/services/webhookService.ts:44-90 | keys not in the required list keep their entry, or their absence |
| `Reconcile.FailedEvents` | src/services/webhookService.ts:59-88 | the events without a truthy response, in order: every such event is in it, and together with the truthy responses they account for every event exactly once |
| `Reconcile.RunCounts` | src/services/webhookService.ts:44-90 | `successfulCount` grows by the number of truthy responses and `failedWebhooks` by the other events, so their sum grows by the number of events |
| `Reconcile.RunCallbacks` | src/services/webhookService.ts:84 | after a pass an event has a callback iff it had one or one of its calls did not throw (falsy included); each callback registered is the default handler for that event, and the others are unchanged |
| `Reconcile.FalsyStillRegisters` | src/services/webhookService.ts:73-84 | an event whose call returned a falsy response is counted as failed and still ends up with a callback |
| `Reconcile.RunKeepsBound` | src/services/webhookService.ts:164-167 | a pass keeps every callback bound to its own event |
| `Deregister.RunIds` | src/services/webhookService.ts:108-125 | the id table keeps exactly the unvisited keys and those with a truthy id whose delete threw, with unchanged ids |
| `Deregister.RunCallbacks` | src/services/webhookService.ts:124 | every visited key loses its callback; the other callbacks are unchanged |
| `Deregister.RunSuccesses` | src/services/webhookService.ts:111-113 | the success count grows by the number of deletes that returned |
| `Deregister.RunCalls` | src/services/webhookService.ts:110-117 | as many deletes are sent as visited keys hold a truthy id |
| `Deregister.RunCallsExact` | src/services/webhookService.ts:108-117 | the calls a pass appends are exactly `DeleteCalls` of the table it starts from: in key order, one delete per visited key with a truthy id, carrying that key's own id |
| `Deregister.DeleteCallsMembers` | src/services/webhookService.ts:110-112 | the delete list holds a delete of `ids[k]` for every listed key k with a truthy id, and nothing but such deletes |
| `Deregister.RunCallsTruthy` | src/services/webhookService.ts:111-117 | every call sent is a delete with a truthy id: a falsy id is removed without a call |
| `Deregister.RunFailed` | src/services/webhookService.ts:119-122 | `failedWebhooks` gains exactly the keys whose delete threw, each once |
| `Deregister.ListsDistinct` | src/services/webhookService.ts:108 | a key order that lists each key of the table exactly once has no duplicates and contains exactly the table's keys |
| `Deregister.DeregisterAll` | src/services/webhookService.ts:108-127 | starting from key set K: no key of K keeps a callback and other callbacks stay; the table retains exactly the keys whose delete threw; the success count is the number of deletes that returned; the calls are one delete of `ids[k]` per key k with a truthy id, in key order, and nothing else, so falsy ids are removed without a call and counted neither way |
| `Deregister.DeregisterAllTables` | src/services/webhookService.ts:108-125 | after deregistering all keys, no key of the id table keeps a callback, other callbacks are unchanged, and the id table keeps exactly the truthy-id keys whose delete threw, with their ids |
| `Deregister.DeregisterAllCounts` | src/services/webhookService.ts:111-122 | after deregistering all keys, the success count is the number of truthy-id keys whose delete returned, and the failures are exactly the truthy-id keys whose delete threw, each once |
| `Deregister.DeregisterAllCalls` | src/services/webhookService.ts:108-117 | after deregistering all keys, the call log is `DeleteCalls` of the table, as long as the number of truthy ids, and holds only deletes with truthy ids |
| `Deregister.DeregisterAllCallIds` | src/services/webhookService.ts:110-112 | after deregistering all keys, `ids[k]` is deleted for every key k with a truthy id, and every call is such a delete |
| `Service.WebhookService.constructor` | src/services/webhookService.ts:23-34 | the id table is the loaded one or empty, and the callback table is empty |
| `Service.WebhookService.InitializeWebhooks` | src/services/webhookService.ts:39-98 | the new tables, counters and calls are those of the reconcile fold from the old tables; one save of the final id table after the loop; counts sum to the number of events; an empty list changes nothing and counts zero |
| `Service.WebhookService.DeinitializeWebhooks` | src/services/webhookService.ts:103-133 | the new tables, counters and calls are those of the deregister fold over the table's keys; one save of the final id table after the loop |
| `Service.WebhookService.ProcessWebhook` | src/services/webhookService.ts:142-157 | returns the response of `Dispatch.Process`, logs its purge, and changes neither table |
| `Service.WebhookService.RegisterWebhook` | src/services/webhookService.ts:164-167 | the event's callback is replaced by the new one, and nothing else changes |
| `Service.WebhookService.DeregisterWebhook` | src/services/webhookService.ts:169-174 | the event's callback is removed; on an absent event, nothing changes |
| `Service.WebhookService.HandleEventCallback` | src/services/webhookService.ts:176-191 | reports whether the handler threw, and logs exactly the purge `Dispatch.HandleEventCallback` describes |

## Left out

- `src/config/config.ts` (environment loading, validation, `crypto.randomUUID()`): configuration plumbing. The secret, the delivery base and the required event list are parameters. `Config.RequiredWebhooks` is not defined in that file.
- `GhostAdminAPI`: a foreign network client. Its add, edit and delete are modelled only through their outcomes and the ghost call log.
- `Storage` load/save I/O on `/data/webhook_ids.json`: the constructor takes the loaded table, and each save is a snapshot in the ghost `saves` log. JSON serialisation would drop a stored `undefined` id, while the model keeps it as `""`. That is a difference in the file only, not in the in-memory table the service uses.
- `BunnyNetService.purgeCache`: an external call whose promise is not awaited. Each call is an entry in the ghost `purges` log, and its asynchronous failures cannot reach dispatch.
- Logging, `JSON.stringify` in debug messages, and the summary lines (including the `requiredWebhooks.length` denominator at line 132): output only. The two passes return their counters instead of logging them.
- async/await scheduling and concurrent dispatch during a pass: every pass is one sequential method.
- Keys inherited from `Object.prototype` (`constructor`, `toString`, …): the source reads both tables as plain objects, where such names look up truthy inherited members. The model uses maps, so such names behave like any other event name.
- Callbacks other than the default handler: `registerWebhook` is private, and the class registers only `handleEventCallback` closures. So a callback is modelled by the event it is bound to.
- The order of `Object.keys`: `DeinitializeWebhooks` takes the key order as a parameter that lists each key of the table exactly once.
