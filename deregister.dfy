/**
 * `deinitializeWebhooks` as a fold over the keys of the id table, with the
 * outcome of a whole pass proved in closed form.
 */
module Deregister {
  import opened Remote
  import opened Dispatch
  import opened Pass

  /** `keys` is `Object.keys(webhookIds)`: it lists each key of the table exactly once. */
  predicate Enumerates(keys: seq<string>, ids: map<string, string>) {
    Lists(keys, ids.Keys)
  }

  /** `keys` lists each element of `ks` exactly once, and nothing else. */
  predicate Lists(keys: seq<string>, ks: set<string>)
    decreases |keys|
  {
    if keys == [] then ks == {}
    else keys[0] in ks && Lists(keys[1..], ks - {keys[0]})
  }

  /**
   * One key: a truthy id is deleted remotely; if that delete returns, it counts a
   * success and the entry is removed, and if it throws, it counts a failure and the
   * entry stays. A falsy id is removed without a call. The callback always goes.
   * `throwing` holds the keys whose remote delete throws.
   */
  function Step(st: PassState, key: string, throwing: set<string>): PassState {
    var id := IdOf(st.ids, key);
    var st1 :=
      if id == "" then st.(ids := st.ids - {key})
      else if key in throwing then st.(calls := st.calls + [Delete(id)], failed := st.failed + [key])
      else st.(ids := st.ids - {key}, successCount := st.successCount + 1, calls := st.calls + [Delete(id)]);
    st1.(callbacks := st1.callbacks - {key})
  }

  /** The pass over `keys`, in order. */
  function Run(st: PassState, keys: seq<string>, throwing: set<string>): PassState
    decreases |keys|
  {
    if keys == [] then st else Run(Step(st, keys[0], throwing), keys[1..], throwing)
  }

  // ---------------------------------------------------------------------------
  // Closed forms

  /** The entries a pass over `keys` leaves: unvisited keys, and truthy ids whose delete threw. */
  function Retained(ids: map<string, string>, keys: seq<string>, throwing: set<string>): map<string, string> {
    map k | k in ids && (k !in keys || (ids[k] != "" && k in throwing)) :: ids[k]
  }

  /** The visited keys holding a truthy id, i.e. those the pass sends a delete for. */
  function WithId(ids: map<string, string>, keys: seq<string>): set<string> {
    set k | k in keys && IdOf(ids, k) != ""
  }

  /** The visited keys whose delete returned normally. */
  function Deleted(ids: map<string, string>, keys: seq<string>, throwing: set<string>): set<string> {
    set k | k in keys && IdOf(ids, k) != "" && k !in throwing
  }

  /** The visited keys whose delete threw. */
  function Undeleted(ids: map<string, string>, keys: seq<string>, throwing: set<string>): set<string> {
    set k | k in keys && IdOf(ids, k) != "" && k in throwing
  }

  /** The deletes a pass over `keys` sends, in key order: one per key holding a truthy id, carrying that id. */
  function DeleteCalls(ids: map<string, string>, keys: seq<string>): seq<RemoteCall>
    decreases |keys|
  {
    if keys == [] then []
    else (if IdOf(ids, keys[0]) != "" then [Delete(IdOf(ids, keys[0]))] else []) + DeleteCalls(ids, keys[1..])
  }

  /** Every call in the log is a delete carrying a truthy id. */
  predicate TruthyDeletes(calls: seq<RemoteCall>) {
    forall i :: 0 <= i < |calls| ==> calls[i].Delete? && calls[i].id != ""
  }

  predicate Distinct(keys: seq<string>) {
    forall i, j :: 0 <= i < j < |keys| ==> keys[i] != keys[j]
  }

  // ---------------------------------------------------------------------------
  // Lemmas

  /** A list that lists a set exactly once is duplicate-free and has exactly the set's elements. */
  lemma {:induction false} ListsDistinct(keys: seq<string>, ks: set<string>)
    requires Lists(keys, ks)
    ensures Distinct(keys)
    ensures forall k :: k in keys <==> k in ks
    decreases |keys|
  {
    if keys != [] {
      ListsDistinct(keys[1..], ks - {keys[0]});
      forall k
        ensures k in keys <==> k in ks
      {
        assert k in keys <==> k == keys[0] || k in keys[1..];
      }
      forall i, j | 0 <= i < j < |keys|
        ensures keys[i] != keys[j]
      {
        assert keys[j] == keys[1..][j - 1];
        if i > 0 {
          assert keys[i] == keys[1..][i - 1];
        }
      }
    }
  }

  /** The rest of a distinct key list is distinct and does not contain its head. */
  lemma DistinctTail(keys: seq<string>)
    requires Distinct(keys) && keys != []
    ensures Distinct(keys[1..]) && keys[0] !in keys[1..]
  {
    forall m | 0 <= m < |keys[1..]|
      ensures keys[1..][m] != keys[0]
    {
      assert keys[1..][m] == keys[m + 1];
    }
  }

  /** A step changes the id table at its own key only. */
  lemma StepOthers(st: PassState, key: string, throwing: set<string>, k: string)
    requires k != key
    ensures var s := Step(st, key, throwing);
      && (k in s.ids <==> k in st.ids) && (k in st.ids ==> s.ids[k] == st.ids[k])
      && IdOf(s.ids, k) == IdOf(st.ids, k)
  {
  }

  /** Which entries survive a pass. */
  lemma {:induction false} RunIds(st: PassState, keys: seq<string>, throwing: set<string>)
    requires Distinct(keys)
    ensures Run(st, keys, throwing).ids == Retained(st.ids, keys, throwing)
    decreases |keys|
  {
    if keys == [] {
      assert Retained(st.ids, keys, throwing).Keys == st.ids.Keys;
    } else {
      var st1 := Step(st, keys[0], throwing);
      DistinctTail(keys);
      RunIds(st1, keys[1..], throwing);
      var a, b := Retained(st1.ids, keys[1..], throwing), Retained(st.ids, keys, throwing);
      forall k
        ensures k in a <==> k in b
        ensures k in a ==> a[k] == b[k]
      {
        assert k in keys <==> k == keys[0] || k in keys[1..];
        if k != keys[0] { StepOthers(st, keys[0], throwing, k); }
      }
      assert a == b;
    }
  }

  /** Every visited key loses its callback; the others keep theirs. */
  lemma {:induction false} RunCallbacks(st: PassState, keys: seq<string>, throwing: set<string>)
    ensures Run(st, keys, throwing).callbacks == st.callbacks - (set k | k in keys)
    decreases |keys|
  {
    if keys == [] {
      assert (set k | k in keys) == {};
    } else {
      var st1 := Step(st, keys[0], throwing);
      RunCallbacks(st1, keys[1..], throwing);
      assert (set k | k in keys) == {keys[0]} + (set k | k in keys[1..]);
    }
  }

  /** A step leaves the ids of all other keys alone, and a distinct key list splits at its head. */
  lemma SplitKeys(st: PassState, keys: seq<string>, throwing: set<string>)
    requires Distinct(keys) && keys != []
    ensures keys[0] !in keys[1..] && Distinct(keys[1..])
    ensures forall k :: k in keys <==> k == keys[0] || k in keys[1..]
    ensures forall k :: k != keys[0] ==> IdOf(Step(st, keys[0], throwing).ids, k) == IdOf(st.ids, k)
  {
    DistinctTail(keys);
    forall k | k != keys[0]
      ensures IdOf(Step(st, keys[0], throwing).ids, k) == IdOf(st.ids, k)
    {
      StepOthers(st, keys[0], throwing, k);
    }
  }

  /** Splitting the head key off `WithId`. */
  lemma SplitWithId(st: PassState, keys: seq<string>, throwing: set<string>)
    requires Distinct(keys) && keys != []
    ensures var h := keys[0];
      var rest := WithId(Step(st, h, throwing).ids, keys[1..]);
      h !in rest && WithId(st.ids, keys) == rest + (if IdOf(st.ids, h) != "" then {h} else {})
  {
    SplitKeys(st, keys, throwing);
  }

  /** Splitting the head key off `Deleted`. */
  lemma SplitDeleted(st: PassState, keys: seq<string>, throwing: set<string>)
    requires Distinct(keys) && keys != []
    ensures var h := keys[0];
      var rest := Deleted(Step(st, h, throwing).ids, keys[1..], throwing);
      h !in rest && Deleted(st.ids, keys, throwing) == rest + (if IdOf(st.ids, h) != "" && h !in throwing then {h} else {})
  {
    SplitKeys(st, keys, throwing);
  }

  /** Splitting the head key off `Undeleted`. */
  lemma SplitUndeleted(st: PassState, keys: seq<string>, throwing: set<string>)
    requires Distinct(keys) && keys != []
    ensures var h := keys[0];
      var rest := Undeleted(Step(st, h, throwing).ids, keys[1..], throwing);
      h !in rest && Undeleted(st.ids, keys, throwing) == rest + (if IdOf(st.ids, h) != "" && h in throwing then {h} else {})
  {
    SplitKeys(st, keys, throwing);
  }

  /** The effect of one step on the counters, the failures and the call log. */
  lemma StepShape(st: PassState, key: string, throwing: set<string>)
    ensures var s := Step(st, key, throwing);
      var id := IdOf(st.ids, key);
      && s.successCount == st.successCount + (if id != "" && key !in throwing then 1 else 0)
      && s.failed == st.failed + (if id != "" && key in throwing then [key] else [])
      && s.calls == st.calls + (if id != "" then [Delete(id)] else [])
  {
  }

  /** Cardinality of a set split into a rest and a possibly added element not in it. */
  lemma AddOne(whole: set<string>, rest: set<string>, h: string, b: bool)
    requires h !in rest && whole == rest + (if b then {h} else {})
    ensures |whole| == |rest| + (if b then 1 else 0)
  {
  }

  /** A sequence that starts with `base + added` splits after `base`. */
  lemma PrefixSplit<T>(whole: seq<T>, base: seq<T>, added: seq<T>)
    requires |base| + |added| <= |whole| && whole[..|base| + |added|] == base + added
    ensures whole[..|base|] == base
    ensures whole[|base|..] == added + whole[|base| + |added|..]
  {
    assert whole[..|base|] == whole[..|base| + |added|][..|base|];
    assert whole[|base|..] == whole[|base|..|base| + |added|] + whole[|base| + |added|..];
    assert whole[|base|..|base| + |added|] == whole[..|base| + |added|][|base|..];
  }

  lemma TruthyDeletesAppend(a: seq<RemoteCall>, b: seq<RemoteCall>)
    requires TruthyDeletes(a) && TruthyDeletes(b)
    ensures TruthyDeletes(a + b)
  {
    forall i | 0 <= i < |a + b|
      ensures (a + b)[i].Delete? && (a + b)[i].id != ""
    {
      if i < |a| { assert (a + b)[i] == a[i]; } else { assert (a + b)[i] == b[i - |a|]; }
    }
  }

  /** The success count grows by the number of deletes that returned. */
  lemma {:induction false} RunSuccesses(st: PassState, keys: seq<string>, throwing: set<string>)
    requires Distinct(keys)
    ensures Run(st, keys, throwing).successCount == st.successCount + |Deleted(st.ids, keys, throwing)|
    decreases |keys|
  {
    if keys == [] {
      assert Deleted(st.ids, keys, throwing) == {};
    } else {
      var st1 := Step(st, keys[0], throwing);
      var h := keys[0];
      DistinctTail(keys);
      SplitDeleted(st, keys, throwing);
      StepShape(st, h, throwing);
      RunSuccesses(st1, keys[1..], throwing);
      AddOne(Deleted(st.ids, keys, throwing), Deleted(st1.ids, keys[1..], throwing), h,
             IdOf(st.ids, h) != "" && h !in throwing);
    }
  }

  /** A pass only appends to the call log. */
  lemma {:induction false} RunCallsPrefix(st: PassState, keys: seq<string>, throwing: set<string>)
    ensures var r := Run(st, keys, throwing);
      |st.calls| <= |r.calls| && r.calls[..|st.calls|] == st.calls
    decreases |keys|
  {
    if keys != [] {
      var st1 := Step(st, keys[0], throwing);
      StepShape(st, keys[0], throwing);
      RunCallsPrefix(st1, keys[1..], throwing);
      var r := Run(st1, keys[1..], throwing);
      assert r.calls[..|st.calls|] == r.calls[..|st1.calls|][..|st.calls|];
    }
  }

  /** A delete is sent for exactly as many keys as hold a truthy id. */
  lemma {:induction false} RunCalls(st: PassState, keys: seq<string>, throwing: set<string>)
    requires Distinct(keys)
    ensures |Run(st, keys, throwing).calls| == |st.calls| + |WithId(st.ids, keys)|
    decreases |keys|
  {
    if keys == [] {
      assert WithId(st.ids, keys) == {};
    } else {
      var st1 := Step(st, keys[0], throwing);
      var h := keys[0];
      DistinctTail(keys);
      SplitWithId(st, keys, throwing);
      StepShape(st, h, throwing);
      RunCalls(st1, keys[1..], throwing);
      AddOne(WithId(st.ids, keys), WithId(st1.ids, keys[1..]), h, IdOf(st.ids, h) != "");
    }
  }

  /** No delete is ever sent with a falsy id. */
  lemma {:induction false} RunCallsTruthy(st: PassState, keys: seq<string>, throwing: set<string>)
    ensures var r := Run(st, keys, throwing);
      |st.calls| <= |r.calls| && TruthyDeletes(r.calls[|st.calls|..])
    decreases |keys|
  {
    if keys != [] {
      var st1 := Step(st, keys[0], throwing);
      var h := keys[0];
      StepShape(st, h, throwing);
      RunCallsTruthy(st1, keys[1..], throwing);
      RunCallsPrefix(st1, keys[1..], throwing);
      var r := Run(st1, keys[1..], throwing);
      var added := if IdOf(st.ids, h) != "" then [Delete(IdOf(st.ids, h))] else [];
      assert st1.calls == st.calls + added;
      PrefixSplit(r.calls, st.calls, added);
      TruthyDeletesAppend(added, r.calls[|st1.calls|..]);
    }
  }

  /** `DeleteCalls` reads the ids of the listed keys only. */
  lemma {:induction false} DeleteCallsFrame(a: map<string, string>, b: map<string, string>, keys: seq<string>)
    requires forall k :: k in keys ==> IdOf(a, k) == IdOf(b, k)
    ensures DeleteCalls(a, keys) == DeleteCalls(b, keys)
    decreases |keys|
  {
    if keys != [] {
      assert keys[0] in keys;
      forall k | k in keys[1..]
        ensures IdOf(a, k) == IdOf(b, k)
      {
        assert k in keys;
      }
      DeleteCallsFrame(a, b, keys[1..]);
    }
  }

  /**
   * The call log a pass appends is exactly `DeleteCalls` of the table it starts from:
   * for each visited key with a truthy id, in order, a delete of that key's own id.
   */
  lemma {:induction false} RunCallsExact(st: PassState, keys: seq<string>, throwing: set<string>)
    requires Distinct(keys)
    ensures Run(st, keys, throwing).calls == st.calls + DeleteCalls(st.ids, keys)
    decreases |keys|
  {
    if keys != [] {
      var st1 := Step(st, keys[0], throwing);
      var h := keys[0];
      SplitKeys(st, keys, throwing);
      StepShape(st, h, throwing);
      RunCallsExact(st1, keys[1..], throwing);
      forall k | k in keys[1..]
        ensures IdOf(st1.ids, k) == IdOf(st.ids, k)
      {
        assert k != h;
      }
      DeleteCallsFrame(st1.ids, st.ids, keys[1..]);
      var added := if IdOf(st.ids, h) != "" then [Delete(IdOf(st.ids, h))] else [];
      assert st1.calls == st.calls + added;
      assert DeleteCalls(st.ids, keys) == added + DeleteCalls(st.ids, keys[1..]);
      assert Run(st, keys, throwing) == Run(st1, keys[1..], throwing);
    }
  }

  /**
   * Both directions of what `DeleteCalls` contains: a delete of `ids[k]` for every listed
   * key k with a truthy id, and nothing but such deletes.
   */
  lemma {:induction false} DeleteCallsMembers(ids: map<string, string>, keys: seq<string>)
    ensures forall k :: k in keys && IdOf(ids, k) != "" ==> Delete(IdOf(ids, k)) in DeleteCalls(ids, keys)
    ensures forall c :: c in DeleteCalls(ids, keys) ==> exists k :: k in keys && IdOf(ids, k) != "" && c == Delete(IdOf(ids, k))
    decreases |keys|
  {
    if keys != [] {
      DeleteCallsMembers(ids, keys[1..]);
      var h := keys[0];
      var added := if IdOf(ids, h) != "" then [Delete(IdOf(ids, h))] else [];
      var rest := DeleteCalls(ids, keys[1..]);
      assert DeleteCalls(ids, keys) == added + rest;
      forall k | k in keys && IdOf(ids, k) != ""
        ensures Delete(IdOf(ids, k)) in DeleteCalls(ids, keys)
      {
        if k == h {
          assert Delete(IdOf(ids, k)) in added;
        } else {
          assert k in keys[1..];
          assert Delete(IdOf(ids, k)) in rest;
        }
      }
      forall c | c in DeleteCalls(ids, keys)
        ensures exists k :: k in keys && IdOf(ids, k) != "" && c == Delete(IdOf(ids, k))
      {
        if c in added {
          assert h in keys && IdOf(ids, h) != "" && c == Delete(IdOf(ids, h));
        } else {
          assert c in rest;
          var k :| k in keys[1..] && IdOf(ids, k) != "" && c == Delete(IdOf(ids, k));
          assert k in keys;
        }
      }
    }
  }

  /** The failed list gains exactly the keys whose delete threw, each once. */
  lemma {:induction false} RunFailed(st: PassState, keys: seq<string>, throwing: set<string>)
    requires Distinct(keys)
    ensures var r := Run(st, keys, throwing);
      && |r.failed| == |st.failed| + |Undeleted(st.ids, keys, throwing)|
      && r.failed[..|st.failed|] == st.failed
      && (forall k :: k in r.failed[|st.failed|..] <==> k in Undeleted(st.ids, keys, throwing))
    decreases |keys|
  {
    if keys == [] {
      assert Undeleted(st.ids, keys, throwing) == {};
    } else {
      var st1 := Step(st, keys[0], throwing);
      var h := keys[0];
      DistinctTail(keys);
      SplitUndeleted(st, keys, throwing);
      StepShape(st, h, throwing);
      RunFailed(st1, keys[1..], throwing);
      var b := IdOf(st.ids, h) != "" && h in throwing;
      AddOne(Undeleted(st.ids, keys, throwing), Undeleted(st1.ids, keys[1..], throwing), h, b);
      var r := Run(st1, keys[1..], throwing);
      var added := if b then [h] else [];
      assert Run(st, keys, throwing) == r;
      assert st1.failed == st.failed + added;
      assert |r.failed| == |st1.failed| + |Undeleted(st1.ids, keys[1..], throwing)|;
      assert r.failed[..|st1.failed|] == st1.failed;
      PrefixSplit(r.failed, st.failed, added);
      forall k
        ensures k in r.failed[|st.failed|..] <==> k in Undeleted(st.ids, keys, throwing)
      {
        assert k in added + r.failed[|st1.failed|..] <==> k in added || k in r.failed[|st1.failed|..];
      }
    }
  }

  /**
   * Deregistering all keys K of the table: no key of K keeps a callback, the table keeps
   * exactly the keys whose delete threw (with their ids), the success count is the number
   * of deletes that returned, the failures are the keys whose delete threw, and the calls
   * are, in key order, one delete per key holding a truthy id, carrying that key's own id,
   * so a falsy id is removed without a call.
   */
  lemma DeregisterAll(ids: map<string, string>, callbacks: map<string, Handler>, keys: seq<string>, throwing: set<string>)
    requires Enumerates(keys, ids)
    ensures var r := Run(Start(ids, callbacks), keys, throwing);
      && (forall k :: k in ids ==> k !in r.callbacks)
      && (forall k :: k in callbacks && k !in ids ==> k in r.callbacks && r.callbacks[k] == callbacks[k])
      && (forall k :: k in r.ids <==> k in ids && ids[k] != "" && k in throwing)
      && (forall k :: k in r.ids ==> r.ids[k] == ids[k])
      && r.successCount == |set k | k in ids && ids[k] != "" && k !in throwing|
      && |r.failed| == |set k | k in ids && ids[k] != "" && k in throwing|
      && (forall k :: k in r.failed <==> k in ids && ids[k] != "" && k in throwing)
      && r.calls == DeleteCalls(ids, keys)
      && |r.calls| == |set k | k in ids && ids[k] != ""|
      && TruthyDeletes(r.calls)
      && (forall k :: k in ids && ids[k] != "" ==> Delete(ids[k]) in r.calls)
      && (forall c :: c in r.calls ==> exists k :: k in ids && ids[k] != "" && c == Delete(ids[k]))
  {
    DeregisterAllTables(ids, callbacks, keys, throwing);
    DeregisterAllCounts(ids, callbacks, keys, throwing);
    DeregisterAllCalls(ids, callbacks, keys, throwing);
    DeregisterAllCallIds(ids, callbacks, keys, throwing);
  }

  /** The tables after deregistering all keys of the id table. */
  lemma DeregisterAllTables(ids: map<string, string>, callbacks: map<string, Handler>, keys: seq<string>, throwing: set<string>)
    requires Enumerates(keys, ids)
    ensures var r := Run(Start(ids, callbacks), keys, throwing);
      && (forall k :: k in ids ==> k !in r.callbacks)
      && (forall k :: k in callbacks && k !in ids ==> k in r.callbacks && r.callbacks[k] == callbacks[k])
      && (forall k :: k in r.ids <==> k in ids && ids[k] != "" && k in throwing)
      && (forall k :: k in r.ids ==> r.ids[k] == ids[k])
  {
    var st := Start(ids, callbacks);
    ListsDistinct(keys, ids.Keys);
    RunIds(st, keys, throwing);
    RunCallbacks(st, keys, throwing);
  }

  /** The counters after deregistering all keys of the id table. */
  lemma DeregisterAllCounts(ids: map<string, string>, callbacks: map<string, Handler>, keys: seq<string>, throwing: set<string>)
    requires Enumerates(keys, ids)
    ensures var r := Run(Start(ids, callbacks), keys, throwing);
      && r.successCount == |set k | k in ids && ids[k] != "" && k !in throwing|
      && |r.failed| == |set k | k in ids && ids[k] != "" && k in throwing|
      && (forall k :: k in r.failed <==> k in ids && ids[k] != "" && k in throwing)
  {
    var st := Start(ids, callbacks);
    ListsDistinct(keys, ids.Keys);
    RunSuccesses(st, keys, throwing);
    RunFailed(st, keys, throwing);
    var r := Run(st, keys, throwing);
    assert Deleted(ids, keys, throwing) == set k | k in ids && ids[k] != "" && k !in throwing;
    assert Undeleted(ids, keys, throwing) == set k | k in ids && ids[k] != "" && k in throwing;
    assert r.failed[0..] == r.failed;
  }

  /** The call log of deregistering all keys of the id table, and its length. */
  lemma DeregisterAllCalls(ids: map<string, string>, callbacks: map<string, Handler>, keys: seq<string>, throwing: set<string>)
    requires Enumerates(keys, ids)
    ensures var r := Run(Start(ids, callbacks), keys, throwing);
      && r.calls == DeleteCalls(ids, keys)
      && |r.calls| == |set k | k in ids && ids[k] != ""|
      && TruthyDeletes(r.calls)
  {
    var st := Start(ids, callbacks);
    ListsDistinct(keys, ids.Keys);
    RunCalls(st, keys, throwing);
    RunCallsTruthy(st, keys, throwing);
    RunCallsExact(st, keys, throwing);
    var r := Run(st, keys, throwing);
    assert WithId(ids, keys) == set k | k in ids && ids[k] != "";
    assert r.calls[0..] == r.calls;
  }

  /** Deregistering all keys deletes `ids[k]` for every key with a truthy id, and nothing else. */
  lemma DeregisterAllCallIds(ids: map<string, string>, callbacks: map<string, Handler>, keys: seq<string>, throwing: set<string>)
    requires Enumerates(keys, ids)
    ensures var r := Run(Start(ids, callbacks), keys, throwing);
      && (forall k :: k in ids && ids[k] != "" ==> Delete(ids[k]) in r.calls)
      && (forall c :: c in r.calls ==> exists k :: k in ids && ids[k] != "" && c == Delete(ids[k]))
  {
    var st := Start(ids, callbacks);
    ListsDistinct(keys, ids.Keys);
    RunCallsExact(st, keys, throwing);
    DeleteCallsMembers(ids, keys);
    var r := Run(st, keys, throwing);
    assert r.calls == DeleteCalls(ids, keys);
    forall k | k in ids && ids[k] != ""
      ensures Delete(ids[k]) in r.calls
    {
      assert k in keys && IdOf(ids, k) == ids[k];
    }
    forall c | c in r.calls
      ensures exists k :: k in ids && ids[k] != "" && c == Delete(ids[k])
    {
      var k :| k in keys && IdOf(ids, k) != "" && c == Delete(IdOf(ids, k));
      assert k in ids && ids[k] != "" && c == Delete(ids[k]);
    }
  }
}
