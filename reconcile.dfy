/**
 * `initializeWebhooks` as a fold over the required event list, with the
 * properties of a whole pass proved against independent descriptions.
 */
module Reconcile {
  import opened Wrappers
  import opened Remote
  import opened Dispatch
  import opened Pass

  /**
   * One event: the add or edit call is issued; a truthy response stores its id and
   * counts a success; a falsy response counts a failure; both register the callback.
   * A thrown error counts a failure and registers nothing.
   */
  function Step(target: string, secret: string, st: PassState, event: string, o: RemoteOutcome): PassState {
    var st1 := st.(calls := st.calls + [CallFor(target, secret, st.ids, event)]);
    match o
    case Throws =>
      st1.(failed := st1.failed + [event])
    case Falsy =>
      st1.(failed := st1.failed + [event], callbacks := st1.callbacks[event := EventCallback(event)])
    case Returned(response) =>
      st1.(ids := st1.ids[event := StoredId(response)], successCount := st1.successCount + 1,
           callbacks := st1.callbacks[event := EventCallback(event)])
  }

  /** The pass over `events`, where `outcomes[i]` is what the call for `events[i]` produced. */
  function Run(target: string, secret: string, st: PassState, events: seq<string>, outcomes: seq<RemoteOutcome>): PassState
    requires |outcomes| == |events|
    decreases |events|
  {
    if events == [] then st
    else Run(target, secret, Step(target, secret, st, events[0], outcomes[0]), events[1..], outcomes[1..])
  }

  /** The effect of one step on each component of the pass state. */
  lemma StepShape(target: string, secret: string, st: PassState, event: string, o: RemoteOutcome)
    ensures var s := Step(target, secret, st, event, o);
      && s.calls == st.calls + [CallFor(target, secret, st.ids, event)]
      && s.ids == (if o.Returned? then st.ids[event := StoredId(o.response)] else st.ids)
      && s.successCount == st.successCount + (if o.Returned? then 1 else 0)
      && s.failed == st.failed + (if o.Returned? then [] else [event])
      && s.callbacks == (if o.Throws? then st.callbacks else st.callbacks[event := EventCallback(event)])
  {
  }

  // ---------------------------------------------------------------------------
  // Reference descriptions of a pass

  /** The id of the last truthy response obtained for `event` in the pass, if any. */
  function LastReturned(events: seq<string>, outcomes: seq<RemoteOutcome>, event: string): Option<string>
    requires |outcomes| == |events|
    decreases |events|
  {
    if events == [] then None
    else
      var later := LastReturned(events[1..], outcomes[1..], event);
      if later.Some? then later
      else if events[0] == event && outcomes[0].Returned? then Some(StoredId(outcomes[0].response))
      else None
  }

  /** The id table after a pass: the last returned id where there is one, the old entry elsewhere. */
  function IdsAfter(ids: map<string, string>, events: seq<string>, outcomes: seq<RemoteOutcome>): map<string, string>
    requires |outcomes| == |events|
  {
    map k | k in ids.Keys + (set e | e in events) && (k in ids || LastReturned(events, outcomes, k).Some?) ::
      if LastReturned(events, outcomes, k).Some? then LastReturned(events, outcomes, k).value else ids[k]
  }

  /** Some call for `event` in the pass returned normally (truthy or falsy). */
  ghost predicate Registered(events: seq<string>, outcomes: seq<RemoteOutcome>, event: string)
    requires |outcomes| == |events|
  {
    exists i :: 0 <= i < |events| && events[i] == event && !outcomes[i].Throws?
  }

  /** The number of truthy responses. */
  function CountReturned(outcomes: seq<RemoteOutcome>): (n: nat)
    ensures n <= |outcomes|
  {
    if outcomes == [] then 0
    else (if outcomes[0].Returned? then 1 else 0) + CountReturned(outcomes[1..])
  }

  /** The events, in order, whose call did not produce a truthy response. */
  function FailedEvents(events: seq<string>, outcomes: seq<RemoteOutcome>): (f: seq<string>)
    requires |outcomes| == |events|
    ensures |f| + CountReturned(outcomes) == |events|
    ensures forall e :: e in f ==> e in events
    ensures forall i :: 0 <= i < |events| && !outcomes[i].Returned? ==> events[i] in f
    decreases |events|
  {
    if events == [] then []
    else
      (if outcomes[0].Returned? then [] else [events[0]]) + FailedEvents(events[1..], outcomes[1..])
  }

  /** Every response of the pass that is truthy carries a non-empty id. */
  predicate KeepsIds(outcomes: seq<RemoteOutcome>) {
    forall i :: 0 <= i < |outcomes| && outcomes[i].Returned? ==> StoredId(outcomes[i].response) != ""
  }

  // ---------------------------------------------------------------------------
  // Lemmas

  /** Running on the calls log only appends, one call per event. */
  lemma {:induction false} RunCalls(target: string, secret: string, st: PassState, events: seq<string>, outcomes: seq<RemoteOutcome>)
    requires |outcomes| == |events|
    ensures var r := Run(target, secret, st, events, outcomes);
      |r.calls| == |st.calls| + |events| && r.calls[..|st.calls|] == st.calls
    decreases |events|
  {
    if events != [] {
      var st1 := Step(target, secret, st, events[0], outcomes[0]);
      StepShape(target, secret, st, events[0], outcomes[0]);
      RunCalls(target, secret, st1, events[1..], outcomes[1..]);
      var r := Run(target, secret, st, events, outcomes);
      assert r.calls[..|st.calls|] == r.calls[..|st1.calls|][..|st.calls|];
    }
  }

  /** With no events, the reference id table is the old one. */
  lemma IdsAfterEmpty(ids: map<string, string>)
    ensures IdsAfter(ids, [], []) == ids
  {
    var m := IdsAfter(ids, [], []);
    assert m.Keys == ids.Keys;
  }

  /** Peeling the first event off the reference id table. */
  lemma IdsAfterCons(ids: map<string, string>, events: seq<string>, outcomes: seq<RemoteOutcome>)
    requires |outcomes| == |events| && events != []
    ensures var ids1 := if outcomes[0].Returned? then ids[events[0] := StoredId(outcomes[0].response)] else ids;
      IdsAfter(ids1, events[1..], outcomes[1..]) == IdsAfter(ids, events, outcomes)
  {
    var ids1 := if outcomes[0].Returned? then ids[events[0] := StoredId(outcomes[0].response)] else ids;
    var a, b := IdsAfter(ids1, events[1..], outcomes[1..]), IdsAfter(ids, events, outcomes);
    forall k
      ensures k in a <==> k in b
      ensures k in a ==> a[k] == b[k]
    {
      IdsAfterConsAt(ids, events, outcomes, k);
    }
    assert a == b;
  }

  /** `IdsAfterCons` for one key. */
  lemma IdsAfterConsAt(ids: map<string, string>, events: seq<string>, outcomes: seq<RemoteOutcome>, k: string)
    requires |outcomes| == |events| && events != []
    ensures var ids1 := if outcomes[0].Returned? then ids[events[0] := StoredId(outcomes[0].response)] else ids;
      var a, b := IdsAfter(ids1, events[1..], outcomes[1..]), IdsAfter(ids, events, outcomes);
      && (k in a <==> k in b)
      && (k in a ==> a[k] == b[k])
  {
    assert k in events <==> k == events[0] || k in events[1..];
    assert k in (set e | e in events) <==> k in events;
    assert k in (set e | e in events[1..]) <==> k in events[1..];
    if k !in events[1..] {
      LastReturnedOutside(events[1..], outcomes[1..], k);
    }
  }

  /**
   * Id bookkeeping: after a pass, each event's id is the one from its last truthy
   * response; an event whose calls were all falsy or threw, and every key not in
   * the list, keeps its entry (or its absence).
   */
  lemma {:induction false} RunIds(target: string, secret: string, st: PassState, events: seq<string>, outcomes: seq<RemoteOutcome>)
    requires |outcomes| == |events|
    ensures Run(target, secret, st, events, outcomes).ids == IdsAfter(st.ids, events, outcomes)
    decreases |events|
  {
    if events == [] {
      IdsAfterEmpty(st.ids);
    } else {
      var st1 := Step(target, secret, st, events[0], outcomes[0]);
      RunIds(target, secret, st1, events[1..], outcomes[1..]);
      IdsAfterCons(st.ids, events, outcomes);
    }
  }

  /** An event not in the list has no returned id. */
  lemma {:induction false} LastReturnedOutside(events: seq<string>, outcomes: seq<RemoteOutcome>, event: string)
    requires |outcomes| == |events| && event !in events
    ensures LastReturned(events, outcomes, event) == None
    decreases |events|
  {
    if events != [] {
      assert event !in events[1..];
      LastReturnedOutside(events[1..], outcomes[1..], event);
    }
  }

  /** Keys not in the required list are never touched by a pass. */
  lemma RunUntouched(target: string, secret: string, st: PassState, events: seq<string>, outcomes: seq<RemoteOutcome>, key: string)
    requires |outcomes| == |events| && key !in events
    ensures var r := Run(target, secret, st, events, outcomes);
      (key in r.ids <==> key in st.ids) && (key in st.ids ==> r.ids[key] == st.ids[key])
  {
    RunIds(target, secret, st, events, outcomes);
    LastReturnedOutside(events, outcomes, key);
  }

  /** The last truthy response at position i, with no later occurrence of the event, decides its id. */
  lemma {:induction false} LastReturnedAt(events: seq<string>, outcomes: seq<RemoteOutcome>, i: nat)
    requires |outcomes| == |events| && i < |events| && outcomes[i].Returned?
    requires forall m :: i < m < |events| ==> events[m] != events[i]
    ensures LastReturned(events, outcomes, events[i]) == Some(StoredId(outcomes[i].response))
    decreases |events|
  {
    if i == 0 {
      assert events[0] !in events[1..] by {
        forall m | 0 <= m < |events[1..]| ensures events[1..][m] != events[0] {
          assert events[1..][m] == events[m + 1];
        }
      }
      LastReturnedOutside(events[1..], outcomes[1..], events[0]);
    } else {
      LastReturnedAt(events[1..], outcomes[1..], i - 1);
    }
  }

  /**
   * Create versus edit: the call for `events[j]` is an edit carrying the id stored
   * for it at that moment (as given by the reference table of the prefix), if that id
   * is truthy, and an add otherwise.
   */
  lemma RunCallAt(target: string, secret: string, st: PassState, events: seq<string>, outcomes: seq<RemoteOutcome>, j: nat)
    requires |outcomes| == |events| && j < |events|
    ensures var r := Run(target, secret, st, events, outcomes);
      |st.calls| + j < |r.calls|
      && r.calls[|st.calls| + j] == CallFor(target, secret, IdsAfter(st.ids, events[..j], outcomes[..j]), events[j])
  {
    RunCallAtState(target, secret, st, events, outcomes, j);
    RunIds(target, secret, st, events[..j], outcomes[..j]);
  }

  /** The call for the j-th event is decided by the id table left by the first j events. */
  lemma {:induction false} RunCallAtState(target: string, secret: string, st: PassState, events: seq<string>, outcomes: seq<RemoteOutcome>, j: nat)
    requires |outcomes| == |events| && j < |events|
    ensures var r := Run(target, secret, st, events, outcomes);
      |st.calls| + j < |r.calls|
      && r.calls[|st.calls| + j] == CallFor(target, secret, Run(target, secret, st, events[..j], outcomes[..j]).ids, events[j])
    decreases |events|
  {
    if j == 0 {
      RunCallFirst(target, secret, st, events, outcomes);
      assert events[..0] == [] && outcomes[..0] == [];
    } else {
      var st1 := Step(target, secret, st, events[0], outcomes[0]);
      StepShape(target, secret, st, events[0], outcomes[0]);
      var r := Run(target, secret, st1, events[1..], outcomes[1..]);
      assert Run(target, secret, st, events, outcomes) == r;
      RunCallAtState(target, secret, st1, events[1..], outcomes[1..], j - 1);
      assert events[1..][j - 1] == events[j];
      assert events[..j][1..] == events[1..][..j - 1];
      assert outcomes[..j][1..] == outcomes[1..][..j - 1];
      assert Run(target, secret, st, events[..j], outcomes[..j]) == Run(target, secret, st1, events[1..][..j - 1], outcomes[1..][..j - 1]);
      assert r.calls[|st.calls| + j] == r.calls[|st1.calls| + (j - 1)];
    }
  }

  /** The first call of a pass is decided by the id table the pass starts from. */
  lemma RunCallFirst(target: string, secret: string, st: PassState, events: seq<string>, outcomes: seq<RemoteOutcome>)
    requires |outcomes| == |events| && events != []
    ensures var r := Run(target, secret, st, events, outcomes);
      |st.calls| < |r.calls| && r.calls[|st.calls|] == CallFor(target, secret, st.ids, events[0])
  {
    var st1 := Step(target, secret, st, events[0], outcomes[0]);
    StepShape(target, secret, st, events[0], outcomes[0]);
    var r := Run(target, secret, st1, events[1..], outcomes[1..]);
    assert Run(target, secret, st, events, outcomes) == r;
    RunCalls(target, secret, st1, events[1..], outcomes[1..]);
    assert r.calls[|st.calls|] == r.calls[..|st1.calls|][|st.calls|];
  }

  /** The first occurrence of an event is an add iff its stored id is absent or falsy, else an edit carrying it. */
  lemma FirstOccurrenceCall(target: string, secret: string, st: PassState, events: seq<string>, outcomes: seq<RemoteOutcome>, j: nat)
    requires |outcomes| == |events| && j < |events| && events[j] !in events[..j]
    ensures var r := Run(target, secret, st, events, outcomes);
      && |st.calls| + j < |r.calls|
      && (r.calls[|st.calls| + j].Add? <==> !HasId(st.ids, events[j]))
      && (HasId(st.ids, events[j]) ==> r.calls[|st.calls| + j].Edit? && r.calls[|st.calls| + j].id == st.ids[events[j]])
  {
    RunCallAt(target, secret, st, events, outcomes, j);
    LastReturnedOutside(events[..j], outcomes[..j], events[j]);
  }

  /**
   * A later duplicate of an event whose previous occurrence just received a non-empty
   * id takes the edit branch with exactly that id.
   */
  lemma DuplicateTakesEdit(target: string, secret: string, st: PassState, events: seq<string>, outcomes: seq<RemoteOutcome>, i: nat, j: nat)
    requires |outcomes| == |events| && i < j < |events| && events[i] == events[j]
    requires outcomes[i].Returned? && StoredId(outcomes[i].response) != ""
    requires forall m :: i < m < j ==> events[m] != events[j]
    ensures var r := Run(target, secret, st, events, outcomes);
      |st.calls| + j < |r.calls|
      && r.calls[|st.calls| + j] == CallFor(target, secret, map[events[j] := StoredId(outcomes[i].response)], events[j])
      && r.calls[|st.calls| + j].Edit? && r.calls[|st.calls| + j].id == StoredId(outcomes[i].response)
  {
    RunCallAt(target, secret, st, events, outcomes, j);
    LastReturnedAt(events[..j], outcomes[..j], i);
  }

  /** The success count grows by the number of truthy responses. */
  lemma {:induction false} RunSuccesses(target: string, secret: string, st: PassState, events: seq<string>, outcomes: seq<RemoteOutcome>)
    requires |outcomes| == |events|
    ensures Run(target, secret, st, events, outcomes).successCount == st.successCount + CountReturned(outcomes)
    decreases |events|
  {
    if events != [] {
      var st1 := Step(target, secret, st, events[0], outcomes[0]);
      StepShape(target, secret, st, events[0], outcomes[0]);
      RunSuccesses(target, secret, st1, events[1..], outcomes[1..]);
      assert Run(target, secret, st, events, outcomes) == Run(target, secret, st1, events[1..], outcomes[1..]);
    }
  }

  /** `failed` grows by the events without a truthy response, in order. */
  lemma {:induction false} RunFailed(target: string, secret: string, st: PassState, events: seq<string>, outcomes: seq<RemoteOutcome>)
    requires |outcomes| == |events|
    ensures Run(target, secret, st, events, outcomes).failed == st.failed + FailedEvents(events, outcomes)
    decreases |events|
  {
    if events != [] {
      var st1 := Step(target, secret, st, events[0], outcomes[0]);
      var added := if outcomes[0].Returned? then [] else [events[0]];
      StepShape(target, secret, st, events[0], outcomes[0]);
      RunFailed(target, secret, st1, events[1..], outcomes[1..]);
      assert Run(target, secret, st, events, outcomes) == Run(target, secret, st1, events[1..], outcomes[1..]);
      assert FailedEvents(events, outcomes) == added + FailedEvents(events[1..], outcomes[1..]);
      assert st1.failed == st.failed + added;
      assert (st.failed + added) + FailedEvents(events[1..], outcomes[1..])
          == st.failed + (added + FailedEvents(events[1..], outcomes[1..]));
    }
  }

  /**
   * Each event is counted exactly once: the success count grows by the number of
   * truthy responses, and `failed` grows by the other events, in order.
   */
  lemma RunCounts(target: string, secret: string, st: PassState, events: seq<string>, outcomes: seq<RemoteOutcome>)
    requires |outcomes| == |events|
    ensures var r := Run(target, secret, st, events, outcomes);
      && r.successCount == st.successCount + CountReturned(outcomes)
      && r.failed == st.failed + FailedEvents(events, outcomes)
      && r.successCount + |r.failed| == st.successCount + |st.failed| + |events|
  {
    RunSuccesses(target, secret, st, events, outcomes);
    RunFailed(target, secret, st, events, outcomes);
  }

  /**
   * Callbacks: after a pass, an event has a callback iff it had one before or one of
   * its calls did not throw (a falsy response included); each one registered in the
   * pass is the default handler bound to that event, and the others are unchanged.
   */
  lemma {:induction false} RunCallbacks(target: string, secret: string, st: PassState, events: seq<string>, outcomes: seq<RemoteOutcome>)
    requires |outcomes| == |events|
    ensures var r := Run(target, secret, st, events, outcomes);
      && (forall k :: k in r.callbacks <==> k in st.callbacks || Registered(events, outcomes, k))
      && (forall k :: Registered(events, outcomes, k) ==> r.callbacks[k] == EventCallback(k))
      && (forall k :: k in st.callbacks && !Registered(events, outcomes, k) ==> r.callbacks[k] == st.callbacks[k])
    decreases |events|
  {
    if events != [] {
      var st1 := Step(target, secret, st, events[0], outcomes[0]);
      RunCallbacks(target, secret, st1, events[1..], outcomes[1..]);
      forall k
        ensures Registered(events, outcomes, k) <==>
                  (events[0] == k && !outcomes[0].Throws?) || Registered(events[1..], outcomes[1..], k)
      {
        if Registered(events, outcomes, k) {
          var i :| 0 <= i < |events| && events[i] == k && !outcomes[i].Throws?;
          if i > 0 {
            assert events[1..][i - 1] == k && !outcomes[1..][i - 1].Throws?;
          }
        }
        if Registered(events[1..], outcomes[1..], k) {
          var i :| 0 <= i < |events[1..]| && events[1..][i] == k && !outcomes[1..][i].Throws?;
          assert events[i + 1] == k && !outcomes[i + 1].Throws?;
        }
        if events[0] == k && !outcomes[0].Throws? {
          assert 0 < |events| && events[0] == k && !outcomes[0].Throws?;
        }
      }
    }
  }

  /** A falsy response is counted as failed and yet leaves a callback registered. */
  lemma FalsyStillRegisters(target: string, secret: string, st: PassState, events: seq<string>, outcomes: seq<RemoteOutcome>, i: nat)
    requires |outcomes| == |events| && i < |events| && outcomes[i].Falsy?
    ensures var r := Run(target, secret, st, events, outcomes);
      && |st.failed| <= |r.failed| && events[i] in r.failed[|st.failed|..]
      && events[i] in r.callbacks && r.callbacks[events[i]] == EventCallback(events[i])
  {
    RunCounts(target, secret, st, events, outcomes);
    RunCallbacks(target, secret, st, events, outcomes);
    var r := Run(target, secret, st, events, outcomes);
    assert r.failed[|st.failed|..] == FailedEvents(events, outcomes);
    assert Registered(events, outcomes, events[i]);
  }

  /** A pass keeps every callback bound to its own event. */
  lemma RunKeepsBound(target: string, secret: string, st: PassState, events: seq<string>, outcomes: seq<RemoteOutcome>)
    requires |outcomes| == |events| && Bound(st.callbacks)
    ensures Bound(Run(target, secret, st, events, outcomes).callbacks)
  {
    RunCallbacks(target, secret, st, events, outcomes);
  }

  /** With every response truthy and carrying an id, each listed event ends with a truthy id. */
  lemma {:induction false} LastReturnedFound(events: seq<string>, outcomes: seq<RemoteOutcome>, event: string)
    requires |outcomes| == |events| && event in events
    requires KeepsIds(outcomes) && forall i :: 0 <= i < |outcomes| ==> outcomes[i].Returned?
    ensures LastReturned(events, outcomes, event).Some?
    ensures LastReturned(events, outcomes, event).value != ""
    decreases |events|
  {
    assert KeepsIds(outcomes[1..]) by {
      forall i | 0 <= i < |outcomes[1..]| && outcomes[1..][i].Returned?
        ensures StoredId(outcomes[1..][i].response) != ""
      {
        assert outcomes[1..][i] == outcomes[i + 1];
      }
    }
    LastReturnedNonEmpty(events[1..], outcomes[1..], event);
    if events[0] != event {
      assert event in events[1..];
      LastReturnedFound(events[1..], outcomes[1..], event);
    }
  }

  /** Under `KeepsIds`, a returned id is never empty. */
  lemma {:induction false} LastReturnedNonEmpty(events: seq<string>, outcomes: seq<RemoteOutcome>, event: string)
    requires |outcomes| == |events| && KeepsIds(outcomes)
    ensures LastReturned(events, outcomes, event).Some? ==> LastReturned(events, outcomes, event).value != ""
    decreases |events|
  {
    if events != [] {
      assert KeepsIds(outcomes[1..]) by {
        forall i | 0 <= i < |outcomes[1..]| && outcomes[1..][i].Returned?
          ensures StoredId(outcomes[1..][i].response) != ""
        {
          assert outcomes[1..][i] == outcomes[i + 1];
        }
      }
      LastReturnedNonEmpty(events[1..], outcomes[1..], event);
    }
  }

  /**
   * Re-running the pass performs updates, not duplicate creates: after a first pass in
   * which every call returned a truthy response with an id, every call of a second pass
   * over the same events is an edit, as long as its own truthy responses carry ids.
   */
  lemma SecondPassEdits(target: string, secret: string, ids: map<string, string>, callbacks: map<string, Handler>,
                        events: seq<string>, first: seq<RemoteOutcome>, second: seq<RemoteOutcome>, j: nat)
    requires |first| == |events| && |second| == |events| && j < |events|
    requires KeepsIds(first) && forall i :: 0 <= i < |first| ==> first[i].Returned?
    requires KeepsIds(second)
    ensures var r1 := Run(target, secret, Start(ids, callbacks), events, first);
      var r2 := Run(target, secret, Start(r1.ids, r1.callbacks), events, second);
      j < |r2.calls| && r2.calls[j].Edit?
  {
    var r1 := Run(target, secret, Start(ids, callbacks), events, first);
    RunIds(target, secret, Start(ids, callbacks), events, first);
    LastReturnedFound(events, first, events[j]);
    assert HasId(r1.ids, events[j]);
    RunCallAt(target, secret, Start(r1.ids, r1.callbacks), events, second, j);
    var pre := IdsAfter(r1.ids, events[..j], second[..j]);
    assert KeepsIds(second[..j]) by {
      forall i | 0 <= i < |second[..j]| && second[..j][i].Returned?
        ensures StoredId(second[..j][i].response) != ""
      {
        assert second[..j][i] == second[i];
      }
    }
    LastReturnedNonEmpty(events[..j], second[..j], events[j]);
    assert HasId(pre, events[j]);
  }
}
