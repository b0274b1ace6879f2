/**
 * The stateful webhook service: the persisted id table, the in-memory callback
 * table, and the passes and dispatch that update them in place. The remote API,
 * the storage file and the CDN purge client are replaced by oracles (the outcome
 * parameters) and by ghost logs of what was sent, saved and purged.
 */
module Service {
  import opened Wrappers
  import opened Remote
  import opened Dispatch
  import opened Pass
  import TargetUrl
  import Reconcile
  import Deregister

  class WebhookService {
    /** The secret sent with every add and edit. */
    const secret: string
    /** The delivery base URL the target URLs are built from. */
    const target: string

    var webhookIds: map<string, string>
    var webhookCallbacks: map<string, Handler>

    /** Every call sent to the remote API, in order. */
    ghost var calls: seq<RemoteCall>
    /** Every snapshot of the id table handed to storage, in order. */
    ghost var saves: seq<map<string, string>>
    /** Every argument passed to the CDN purge, in order. */
    ghost var purges: seq<string>

    /** The only callbacks ever registered are the default handlers, each bound to its own event. */
    ghost predicate Valid()
      reads this
    {
      Bound(webhookCallbacks)
    }

    /** The id table is what storage loaded, or empty when nothing was loaded. */
    constructor (secret: string, target: string, loaded: Option<map<string, string>>)
      ensures Valid()
      ensures this.secret == secret && this.target == target
      ensures webhookIds == loaded.GetOr(map[]) && webhookCallbacks == map[]
      ensures calls == [] && saves == [] && purges == []
    {
      this.secret := secret;
      this.target := target;
      webhookIds := loaded.GetOr(map[]);
      webhookCallbacks := map[];
      calls, saves, purges := [], [], [];
    }

    /**
     * Reconcile pass over `requiredWebhooks`; `outcomes[i]` is what the add or edit
     * for `requiredWebhooks[i]` produced. Returns the pass's counters, which the
     * source only logs. The id table is saved once, after the loop.
     */
    method InitializeWebhooks(requiredWebhooks: seq<string>, outcomes: seq<RemoteOutcome>)
      returns (successfulCount: nat, failedWebhooks: seq<string>)
      requires Valid()
      requires |outcomes| == |requiredWebhooks|
      modifies this`webhookIds, this`webhookCallbacks, this`calls, this`saves
      ensures Valid()
      ensures var r := Reconcile.Run(target, secret, Start(old(webhookIds), old(webhookCallbacks)), requiredWebhooks, outcomes);
        && webhookIds == r.ids && webhookCallbacks == r.callbacks
        && successfulCount == r.successCount && failedWebhooks == r.failed
        && calls == old(calls) + r.calls
      ensures saves == old(saves) + [webhookIds]
      ensures successfulCount + |failedWebhooks| == |requiredWebhooks|
      ensures requiredWebhooks == [] ==> webhookIds == old(webhookIds) && successfulCount == 0 && failedWebhooks == []
    {
      successfulCount, failedWebhooks := 0, [];
      ghost var sent: seq<RemoteCall> := [];
      ghost var r := Reconcile.Run(target, secret, Start(webhookIds, webhookCallbacks), requiredWebhooks, outcomes);
      for i := 0 to |requiredWebhooks|
        invariant calls == old(calls) + sent
        invariant saves == old(saves)
        invariant Reconcile.Run(target, secret, PassState(webhookIds, webhookCallbacks, successfulCount, failedWebhooks, sent),
                                requiredWebhooks[i..], outcomes[i..]) == r
      {
        ghost var before := PassState(webhookIds, webhookCallbacks, successfulCount, failedWebhooks, sent);
        var event := requiredWebhooks[i];
        var targetUrl := TargetUrl.Url(target, event);
        var call: RemoteCall;
        if !HasId(webhookIds, event) {
          call := Add(event, targetUrl, secret, WebhookName(event));
        } else {
          call := Edit(webhookIds[event], event, targetUrl, secret, WebhookName(event));
        }
        calls, sent := calls + [call], sent + [call];
        Reconcile.StepShape(target, secret, before, event, outcomes[i]);
        match outcomes[i]
        case Throws =>
          failedWebhooks := failedWebhooks + [event];
        case Falsy =>
          failedWebhooks := failedWebhooks + [event];
          RegisterWebhook(event, EventCallback(event));
        case Returned(response) =>
          webhookIds := webhookIds[event := StoredId(response)];
          successfulCount := successfulCount + 1;
          RegisterWebhook(event, EventCallback(event));
        assert PassState(webhookIds, webhookCallbacks, successfulCount, failedWebhooks, sent)
            == Reconcile.Step(target, secret, before, event, outcomes[i]);
        assert requiredWebhooks[i..][1..] == requiredWebhooks[i + 1..];
        assert outcomes[i..][1..] == outcomes[i + 1..];
      }
      saves := saves + [webhookIds];
      Reconcile.RunCounts(target, secret, Start(old(webhookIds), old(webhookCallbacks)), requiredWebhooks, outcomes);
      Reconcile.RunKeepsBound(target, secret, Start(old(webhookIds), old(webhookCallbacks)), requiredWebhooks, outcomes);
    }

    /**
     * Deregister pass over `keys`, the keys of the id table in `Object.keys` order;
     * `throwing` holds the keys whose remote delete throws. Returns the pass's
     * counters, which the source only logs. The id table is saved once, after the loop.
     */
    method DeinitializeWebhooks(keys: seq<string>, throwing: set<string>)
      returns (successfulCount: nat, failedWebhooks: seq<string>)
      requires Valid()
      requires Deregister.Enumerates(keys, webhookIds)
      modifies this`webhookIds, this`webhookCallbacks, this`calls, this`saves
      ensures Valid()
      ensures var r := Deregister.Run(Start(old(webhookIds), old(webhookCallbacks)), keys, throwing);
        && webhookIds == r.ids && webhookCallbacks == r.callbacks
        && successfulCount == r.successCount && failedWebhooks == r.failed
        && calls == old(calls) + r.calls
      ensures saves == old(saves) + [webhookIds]
      ensures keys == [] ==> webhookIds == old(webhookIds) && successfulCount == 0 && failedWebhooks == []
    {
      successfulCount, failedWebhooks := 0, [];
      ghost var sent: seq<RemoteCall> := [];
      ghost var r := Deregister.Run(Start(webhookIds, webhookCallbacks), keys, throwing);
      for i := 0 to |keys|
        invariant calls == old(calls) + sent
        invariant saves == old(saves)
        invariant Deregister.Run(PassState(webhookIds, webhookCallbacks, successfulCount, failedWebhooks, sent),
                                 keys[i..], throwing) == r
      {
        ghost var before := PassState(webhookIds, webhookCallbacks, successfulCount, failedWebhooks, sent);
        var event := keys[i];
        var webhookId := IdOf(webhookIds, event);
        if webhookId != "" {
          calls, sent := calls + [Delete(webhookId)], sent + [Delete(webhookId)];
          if event in throwing {
            failedWebhooks := failedWebhooks + [event];
          } else {
            successfulCount := successfulCount + 1;
            webhookIds := webhookIds - {event};
          }
        } else {
          webhookIds := webhookIds - {event};
        }
        DeregisterWebhook(event);
        assert PassState(webhookIds, webhookCallbacks, successfulCount, failedWebhooks, sent)
            == Deregister.Step(before, event, throwing);
        assert keys[i..][1..] == keys[i + 1..];
      }
      saves := saves + [webhookIds];
      Deregister.RunCallbacks(Start(old(webhookIds), old(webhookCallbacks)), keys, throwing);
    }

    /** `processWebhook`: runs the event's callback, if any; neither table changes. */
    method ProcessWebhook(event: string, payload: Payload) returns (response: WebhookResponse)
      modifies this`purges
      ensures var d := Process(webhookCallbacks, event, payload);
        response == d.response && purges == old(purges) + PurgeLog(d.purge)
      ensures webhookIds == old(webhookIds) && webhookCallbacks == old(webhookCallbacks)
    {
      if event in webhookCallbacks {
        var threw := HandleEventCallback(webhookCallbacks[event].event, payload);
        if threw {
          response := WebhookResponse(Error, "Error processing event: " + event);
        } else {
          response := WebhookResponse(Success, "Event \"" + event + "\" processed.");
        }
      } else {
        response := WebhookResponse(Warning, "No callback registered for event: " + event);
      }
    }

    /** `registerWebhook`: the event's callback becomes `callback`, replacing any earlier one. */
    method RegisterWebhook(event: string, callback: Handler)
      modifies this`webhookCallbacks
      ensures webhookCallbacks == old(webhookCallbacks)[event := callback]
    {
      webhookCallbacks := webhookCallbacks[event := callback];
    }

    /** `deregisterWebhook`: the event loses its callback; an absent event is a no-op. */
    method DeregisterWebhook(event: string)
      modifies this`webhookCallbacks
      ensures webhookCallbacks == old(webhookCallbacks) - {event}
      ensures event !in old(webhookCallbacks) ==> webhookCallbacks == old(webhookCallbacks)
    {
      if event in webhookCallbacks {
        webhookCallbacks := webhookCallbacks - {event};
      }
    }

    /**
     * `handleEventCallback`: reports whether it threw, and appends its purge argument
     * (always falsy) to the purge log when it purges.
     */
    method HandleEventCallback(event: string, payload: Payload) returns (threw: bool)
      modifies this`purges
      ensures var h := Dispatch.HandleEventCallback(event, payload);
        threw == h.HandlerThrew? && purges == old(purges) + (if h.HandlerDone? then PurgeLog(h.purge) else [])
    {
      if payload.Nullish? {
        return true;
      }
      threw := false;
      var post, page := payload.post, payload.page;
      if event == SiteChanged {
        return;
      }
      if !(HasUrl(post) || HasUrl(page)) {
        var url := PurgeArgument(post, page);
        purges := purges + [url];
      }
    }
  }
}
