/** The cache keys that a view query holds, over emissions, restarts and unmount. */
module ViewQuery {
  import opened Options

  datatype Call = Hold(key: string) | Release(key: string)

  /** Holds minus releases of a key. */
  function Balance(calls: seq<Call>, k: string): int {
    if calls == [] then 0
    else
      Balance(calls[..|calls| - 1], k) +
      match calls[|calls| - 1]
      case Hold(key) => if key == k then 1 else 0
      case Release(key) => if key == k then -1 else 0
  }

  lemma BalanceSnoc(calls: seq<Call>, c: Call, k: string)
    ensures Balance(calls + [c], k) == Balance(calls, k) + if c.key != k then 0 else if c.Hold? then 1 else -1
  {
    assert (calls + [c])[..|calls|] == calls;
  }

  /** How often a call was made. */
  function Times(calls: seq<Call>, c: Call): nat {
    multiset(calls)[c]
  }

  /** At no moment is a key released that is not held, or held twice. */
  ghost predicate NeverUnbalanced(calls: seq<Call>) {
    forall i, k | 0 <= i <= |calls| :: 0 <= BalanceAt(calls, i, k) <= 1
  }

  function BalanceAt(calls: seq<Call>, i: nat, k: string): int
    requires i <= |calls|
  {
    Balance(calls[..i], k)
  }

  lemma NeverUnbalancedSnoc(calls: seq<Call>, c: Call)
    requires NeverUnbalanced(calls) && Balance(calls, c.key) == if c.Hold? then 0 else 1
    ensures NeverUnbalanced(calls + [c])
  {
    forall i, k | 0 <= i <= |calls| + 1 ensures 0 <= BalanceAt(calls + [c], i, k) <= 1 {
      if i <= |calls| {
        assert (calls + [c])[..i] == calls[..i];
        assert 0 <= BalanceAt(calls, i, k) <= 1;
      } else {
        assert (calls + [c])[..i] == calls + [c];
        BalanceSnoc(calls, c, k);
        assert calls[..|calls|] == calls;
        assert 0 <= BalanceAt(calls, |calls|, k) <= 1;
      }
    }
  }

  function KeySet(keys: seq<string>): set<string> {
    set k | k in keys
  }

  datatype Event = Restart(defined: bool) | Emit(session: nat, keys: seq<string>) | Unmount

  class ViewQueryHolds {
    /** Shared by all sessions of one mounted hook. */
    var heldKeys: set<string>
    /** The live session, if there is one; sessions are numbered as they are created. */
    var live: Option<nat>
    var created: nat
    var calls: seq<Call>

    /** A key's balance is 1 if it is in `heldKeys` and 0 otherwise. */
    ghost predicate Valid()
      reads this
    {
      && (forall k :: Balance(calls, k) == if k in heldKeys then 1 else 0)
      && NeverUnbalanced(calls)
      && (live.Some? ==> live.value < created)
    }

    constructor ()
      ensures Valid() && heldKeys == {} && live == None && created == 0 && calls == []
    {
      heldKeys, live, created, calls := {}, None, 0, [];
    }

    method CallHold(k: string)
      requires Valid() && k !in heldKeys
      modifies `heldKeys, `calls
      ensures Valid() && heldKeys == old(heldKeys) + {k} && calls == old(calls) + [Hold(k)]
    {
      NeverUnbalancedSnoc(calls, Hold(k));
      forall j ensures Balance(calls + [Hold(k)], j) == if j in heldKeys + {k} then 1 else 0 {
        BalanceSnoc(calls, Hold(k), j);
      }
      calls := calls + [Hold(k)];
      heldKeys := heldKeys + {k};
    }

    method CallRelease(k: string)
      requires Valid() && k in heldKeys
      modifies `heldKeys, `calls
      ensures Valid() && heldKeys == old(heldKeys) - {k} && calls == old(calls) + [Release(k)]
    {
      NeverUnbalancedSnoc(calls, Release(k));
      forall j ensures Balance(calls + [Release(k)], j) == if j in heldKeys - {k} then 1 else 0 {
        BalanceSnoc(calls, Release(k), j);
      }
      calls := calls + [Release(k)];
      heldKeys := heldKeys - {k};
    }

    method ReleaseAllBut(keep: set<string>)
      requires Valid()
      modifies `heldKeys, `calls
      ensures Valid() && heldKeys == old(heldKeys) * keep
      ensures forall c :: Times(calls, c) == Times(old(calls), c) + if c.Release?
              && c.key in old(heldKeys) - keep then 1 else 0
    {
      var pending := heldKeys;
      while pending != {}
        invariant Valid() && pending <= heldKeys && heldKeys == old(heldKeys) * keep + pending
        invariant forall c :: Times(calls, c) ==
                    Times(old(calls), c) + if c.Release? && c.key in old(heldKeys) - keep - pending then 1 else 0
      {
        var uuid :| uuid in pending;
        pending := pending - {uuid};
        if uuid in keep { continue; }
        CallRelease(uuid);
      }
    }

    /** The held keys become the emitted ones. Keys that left are released once, keys that entered
        are held once, and no call is made for the overlap. */
    method ReconcileHolds(newKeys: seq<string>)
      requires Valid()
      modifies `heldKeys, `calls
      ensures Valid() && heldKeys == KeySet(newKeys)
      ensures forall c :: Times(calls, c) == Times(old(calls), c) +
                match c
                case Hold(k) => if k in KeySet(newKeys) - old(heldKeys) then 1 else 0
                case Release(k) => if k in old(heldKeys) - KeySet(newKeys) then 1 else 0
    {
      var newUuids := {};
      for i := 0 to |newKeys|
        invariant newUuids == KeySet(newKeys[..i])
      {
        assert KeySet(newKeys[..i + 1]) == KeySet(newKeys[..i]) + {newKeys[i]};
        newUuids := newUuids + {newKeys[i]};
      }
      assert newKeys[..|newKeys|] == newKeys;
      ReleaseAllBut(newUuids);
      ghost var kept, before := heldKeys, calls;
      for i := 0 to |newKeys|
        invariant Valid() && heldKeys == kept + KeySet(newKeys[..i])
        invariant forall c :: Times(calls, c) == Times(before, c) + if c.Hold?
                  && c.key in KeySet(newKeys[..i]) - kept then 1 else 0
      {
        assert KeySet(newKeys[..i + 1]) == KeySet(newKeys[..i]) + {newKeys[i]};
        if newKeys[i] in heldKeys { continue; }
        CallHold(newKeys[i]);
      }
    }

    /** The subscription effect runs again: its session goes, and a new one starts if there are parameters. */
    method OnRestart(defined: bool)
      requires Valid()
      modifies this
      ensures Valid() && heldKeys == old(heldKeys) && calls == old(calls)
      ensures created == old(created) + (if defined then 1 else 0)
              && live == if defined then Some(old(created)) else None
    {
      live := None;
      if defined {
        live := Some(created);
        created := created + 1;
      }
    }

    /** An emission of a session that is no longer live is ignored. */
    method OnEmit(session: nat, keys: seq<string>)
      requires Valid()
      modifies this
      ensures Valid() && live == old(live) && created == old(created)
      ensures heldKeys == if live == Some(session) then KeySet(keys) else old(heldKeys)
      ensures live != Some(session) ==> calls == old(calls)
    {
      if live == Some(session) {
        ReconcileHolds(keys);
      }
    }

    method OnUnmount()
      requires Valid()
      modifies this
      ensures Valid() && live == None && heldKeys == {} && created == old(created)
      ensures forall k :: Balance(calls, k) == 0
    {
      live := None;
      ReleaseAllBut({});
    }
  }

  // ---- Runs ----

  /** Which session is live, how many there have been, and what is held. */
  datatype Held = Held(live: Option<nat>, created: nat, keys: set<string>)

  function Step(h: Held, e: Event): Held {
    match e
    case Restart(defined) =>
      Held(if defined then Some(h.created) else None, h.created + if defined then 1 else 0, h.keys)
    case Emit(session, keys) => if h.live == Some(session) then h.(keys := KeySet(keys)) else h
    case Unmount => Held(None, h.created, {})
  }

  function Steps(events: seq<Event>): Held {
    if events == [] then Held(None, 0, {}) else Step(Steps(events[..|events| - 1]), events[|events| - 1])
  }

  /** Over every run, each key's holds minus its releases is 1 if the run leaves it held and 0 if
      not, and at no moment between is it anything else. */
  method RunHook(events: seq<Event>) returns (calls: seq<Call>)
    ensures forall k :: Balance(calls, k) == if k in Steps(events).keys then 1 else 0
    ensures NeverUnbalanced(calls)
  {
    var hook := new ViewQueryHolds();
    for i := 0 to |events|
      invariant fresh(hook) && hook.Valid()
      invariant Steps(events[..i]) == Held(hook.live, hook.created, hook.heldKeys)
    {
      assert events[..i + 1][..i] == events[..i];
      match events[i] {
        case Restart(defined) => hook.OnRestart(defined);
        case Emit(session, keys) => hook.OnEmit(session, keys);
        case Unmount => hook.OnUnmount();
      }
    }
    assert events[..|events|] == events;
    calls := hook.calls;
  }

  /** Emissions of a session that was restarted or unmounted change nothing, at any later time. */
  lemma {:induction false} DeadSessionsStayDead(events: seq<Event>, i: nat, session: nat, keys: seq<string>)
    requires i <= |events| && session < Steps(events[..i]).created && Steps(events[..i]).live != Some(session)
    ensures Step(Steps(events), Emit(session, keys)) == Steps(events)
    ensures session < Steps(events).created && Steps(events).live != Some(session)
    decreases |events|
  {
    if i == |events| {
      assert events[..i] == events;
    } else {
      var init := events[..|events| - 1];
      assert init[..i] == events[..i];
      DeadSessionsStayDead(init, i, session, keys);
    }
  }

  // ---- What a run leaves ----

  /** The i-th event started the session, and nothing has restarted or unmounted the hook since. */
  predicate LiveSince(events: seq<Event>, i: nat, session: nat) {
    && i < |events| && events[i] == Restart(true) && session == multiset(events[..i])[Restart(true)]
    && forall j | i < j < |events| :: events[j].Emit?
  }

  /** The live session is the one that was started last, if all events since are emissions; sessions are numbered
      as they are started. */
  lemma {:induction false} LiveIsLastStarted(events: seq<Event>, session: nat)
    ensures Steps(events).live == Some(session) <==> exists i: nat :: LiveSince(events, i, session)
    ensures Steps(events).created == multiset(events)[Restart(true)]
  {
    if events != [] {
      var init, e := events[..|events| - 1], events[|events| - 1];
      LiveIsLastStarted(init, session);
      assert events == init + [e];
      forall i: nat | i < |init| ensures LiveSince(events, i, session) <==> LiveSince(init, i, session) && e.Emit? {
        assert events[..i] == init[..i];
      }
      assert events[..|init|] == init;
      assert LiveSince(events, |init|, session) <==>
             e == Restart(true) && session == multiset(init)[Restart(true)];
    }
  }

  /** An emission of the session that is live at that moment. */
  predicate EmittedLive(events: seq<Event>, i: nat) {
    i < |events| && events[i].Emit? && Steps(events[..i]).live == Some(events[i].session)
  }

  /** No unmount and no such emission has come since. */
  predicate LastEmitted(events: seq<Event>, i: nat) {
    EmittedLive(events, i) && forall j | i < j < |events| :: !events[j].Unmount? && !EmittedLive(events, j)
  }

  predicate GivenBy(events: seq<Event>, i: nat, k: string) {
    LastEmitted(events, i) && k in events[i].keys
  }

  /** What is held is what a live session emitted last, restarted since or not, if it is not unmounted. */
  lemma {:induction false} HeldIsLastEmitted(events: seq<Event>, k: string)
    ensures k in Steps(events).keys <==> exists i: nat :: GivenBy(events, i, k)
  {
    if events != [] {
      var init, e := events[..|events| - 1], events[|events| - 1];
      HeldIsLastEmitted(init, k);
      assert events == init + [e] && events[..|init|] == init;
      forall i: nat | i < |init| ensures EmittedLive(events, i) <==> EmittedLive(init, i) {
        assert events[..i] == init[..i];
      }
      forall i: nat | i < |init|
        ensures GivenBy(events, i, k) <==> GivenBy(init, i, k) && !e.Unmount? && !EmittedLive(events, |init|)
      {
        GivenEarlier(init, e, i, k);
      }
      assert GivenBy(events, |init|, k) <==> EmittedLive(events, |init|) && k in e.keys;
    }
  }

  lemma GivenEarlier(init: seq<Event>, e: Event, i: nat, k: string)
    requires i < |init|
    ensures GivenBy(init + [e], i, k)
            <==> GivenBy(init, i, k) && !e.Unmount? && !EmittedLive(init + [e], |init|)
  {
    var events := init + [e];
    forall j: nat | j < |init| ensures EmittedLive(events, j) <==> EmittedLive(init, j) {
      assert events[..j] == init[..j];
    }
    assert events[|init|] == e && forall j | 0 <= j < |init| :: events[j] == init[j];
    if LastEmitted(events, i) {
      assert forall j | i < j < |init| :: !events[j].Unmount? && !EmittedLive(events, j);
      assert LastEmitted(init, i);
    }
  }
}
