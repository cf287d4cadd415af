/** What each event does to what a list-query session shows, at any moment of any run. */
module ListQueryProgress {
  import opened Options
  import opened ListQuery

  lemma AfterOneMore(params: Params, events: seq<Event>, e: Event)
    ensures After(params, events + [e]) == Step(After(params, events), e)
  {
    assert (events + [e])[..|events|] == events;
  }

  // ---- The client ids that a result reconciles ----

  /** The entry gives a server id to the client id. */
  predicate Gives(m: ItemMeta, clientId: string) {
    m.clientId == Some(clientId) && clientId != "" && clientId != m.id
  }

  predicate LastToGive(meta: seq<ItemMeta>, i: nat, clientId: string) {
    i < |meta| && Gives(meta[i], clientId) && forall j | i < j < |meta| :: !Gives(meta[j], clientId)
  }

  predicate MapsTo(reconciled: map<string, string>, clientId: string, id: string) {
    clientId in reconciled && reconciled[clientId] == id
  }

  ghost predicate GivenId(meta: seq<ItemMeta>, clientId: string, id: string) {
    exists i: nat :: LastToGive(meta, i, clientId) && meta[i].id == id
  }

  /** A client id is mapped to the server id that the last entry gives it. */
  ghost predicate Reconciles(meta: seq<ItemMeta>, reconciled: map<string, string>) {
    forall c, id :: MapsTo(reconciled, c, id) <==> GivenId(meta, c, id)
  }

  lemma LastToGiveSnoc(init: seq<ItemMeta>, m: ItemMeta, i: nat, c: string)
    requires i <= |init|
    ensures LastToGive(init + [m], i, c) <==> if i < |init| then LastToGive(init, i, c) && !Gives(m, c) else Gives(m, c)
  {
    var meta := init + [m];
    assert meta[|init|] == m && forall j | 0 <= j < |init| :: meta[j] == init[j];
  }

  lemma {:induction false} RemappedReconciles(meta: seq<ItemMeta>)
    ensures Reconciles(meta, Remapped(meta))
  {
    if meta != [] {
      var init, m := meta[..|meta| - 1], meta[|meta| - 1];
      RemappedReconciles(init);
      assert meta == init + [m];
      forall c, id ensures MapsTo(Remapped(meta), c, id) <==> GivenId(meta, c, id) {
        GivenIdSnoc(init, m, c, id);
        assert MapsTo(Remapped(init), c, id) <==> GivenId(init, c, id);
      }
    }
  }

  lemma GivenIdSnoc(init: seq<ItemMeta>, m: ItemMeta, c: string, id: string)
    ensures GivenId(init + [m], c, id) <==> if Gives(m, c) then m.id == id else GivenId(init, c, id)
  {
    forall i: nat | i <= |init|
      ensures LastToGive(init + [m], i, c)
              <==> if i < |init| then LastToGive(init, i, c) && !Gives(m, c) else Gives(m, c)
    {
      LastToGiveSnoc(init, m, i, c);
    }
    if Gives(m, c) {
      assert LastToGive(init + [m], |init|, c);
    }
    if i: nat :| LastToGive(init, i, c) && init[i].id == id {
      assert (init + [m])[i] == init[i];
      assert LastToGive(init + [m], i, c) <==> !Gives(m, c);
    }
    if i: nat :| LastToGive(init + [m], i, c) && (init + [m])[i].id == id {
      assert i < |init| ==> LastToGive(init, i, c);
    }
  }

  // ---- Results ----

  /** The result of the newest fetch of a live session is shown. It settles the session if it is not empty, and
      leaves it seeding if it is; a settled session keeps its status. */
  lemma NewestResult(params: Params, events: seq<Event>, version: nat, result: ListResult)
    requires var was := After(params, events); !was.cancelled && version in was.pending && version == was.fetchVersion
    ensures var was, now := After(params, events), After(params, events + [Resolved(version, result)]);
            && now.snapshot.items == result.data && now.snapshot.total == Some(result.total)
            && now.snapshot.hasLocalChanges == result.hasLocalChanges
            && Reconciles(result.meta, now.snapshot.reconciled)
            && (!was.settled && result.data != [] ==>
                  now.settled && now.snapshot.state == Ready && !now.snapshot.loading)
            && (!was.settled && result.data == [] ==>
                  !now.settled && now.snapshot.state == Seeding && now.snapshot.loading)
            && (was.settled ==>
                  now.settled && now.snapshot.state == was.snapshot.state && !now.snapshot.loading)
            && now.resolvedCacheKey
               == (if was.resolvedCacheKey.None? then Some(result.cacheKey) else was.resolvedCacheKey)
            && now.pending == was.pending - {version}
  {
    AfterOneMore(params, events, Resolved(version, result));
    RemappedReconciles(result.meta);
    RunKeepsInv(params, events);
  }

  /** Any other result changes nothing that is shown. */
  lemma OtherResult(params: Params, events: seq<Event>, version: nat, result: ListResult)
    requires var was := After(params, events); was.cancelled || version !in was.pending || version != was.fetchVersion
    ensures var was, now := After(params, events), After(params, events + [Resolved(version, result)]);
            && now.snapshot == was.snapshot && now.settled == was.settled
            && now.resolvedCacheKey == was.resolvedCacheKey && now.pending == was.pending - {version}
  {
    AfterOneMore(params, events, Resolved(version, result));
  }

  /** A failure of the newest fetch shows as failed seeding unless the session has settled; no other does. */
  lemma FailedFetch(params: Params, events: seq<Event>, version: nat, error: string)
    ensures var was, now := After(params, events), After(params, events + [Rejected(version, error)]);
            && (if !was.cancelled && version in was.pending && version == was.fetchVersion && !was.settled
                then now.settled && now.snapshot == was.snapshot.(state := SeedFailed(error), loading := false)
                else now.settled == was.settled && now.snapshot == was.snapshot)
            && now.pending == was.pending - {version}
  {
    AfterOneMore(params, events, Rejected(version, error));
  }

  // ---- Signals, parameters, callbacks ----

  /** A failed synchronisation shows as failed seeding before the session has settled, and as failed
      synchronisation afterwards, but never hides that seeding failed. */
  lemma FailedSignal(params: Params, events: seq<Event>, error: string)
    ensures var was, now := After(params, events), After(params, events + [Signalled(Failed(error))]);
            now.snapshot == if was.cancelled then was.snapshot
                            else if !was.settled then was.snapshot.(state := SeedFailed(error), loading := false)
                            else if was.snapshot.state.SeedFailed? then was.snapshot
                            else was.snapshot.(state := SyncFailed(error))
    ensures var was, now := After(params, events), After(params, events + [Signalled(Failed(error))]);
            now.pending == was.pending && (now.settled <==> was.settled || !was.cancelled)
  {
    AfterOneMore(params, events, Signalled(Failed(error)));
  }

  /** The newest fetch, under way, with these parameters. */
  predicate Fetches(s: State, params: Params, settles: bool) {
    s.fetchVersion in s.pending && s.pending[s.fetchVersion] == Fetch(params, settles) && s.params == params
  }

  lemma IssuedOne(s: State, settles: bool)
    requires forall v | v in s.pending :: v <= s.fetchVersion
    ensures var now := Issued(s, settles);
            && now.fetchVersion == s.fetchVersion + 1 && Fetches(now, s.params, settles)
            && now.pending - {now.fetchVersion} == s.pending
  {
  }

  /** An update fetches again, with the parameters as they are, and shows nothing yet. */
  lemma UpdateSignal(params: Params, events: seq<Event>)
    ensures var was, now := After(params, events), After(params, events + [Signalled(Refetch)]);
            && now.snapshot == was.snapshot && now.settled == was.settled
            && if was.cancelled then now == was
               else now.fetchVersion == was.fetchVersion + 1 && Fetches(now, was.params, true)
                    && now.pending - {now.fetchVersion} == was.pending
  {
    AfterOneMore(params, events, Signalled(Refetch));
    RunKeepsInv(params, events);
    IssuedOne(After(params, events), true);
  }

  /** New parameters fetch, the same ones do not. */
  lemma ParamsApplied(params: Params, events: seq<Event>, wanted: Params)
    ensures var was, now := After(params, events), After(params, events + [Apply(wanted)]);
            && now.snapshot == was.snapshot && now.settled == was.settled
            && if was.cancelled || was.params == wanted then now == was
               else now.fetchVersion == was.fetchVersion + 1 && Fetches(now, wanted, false)
                    && now.pending - {now.fetchVersion} == was.pending
  {
    AfterOneMore(params, events, Apply(wanted));
    RunKeepsInv(params, events);
    IssuedOne(After(params, events).(params := wanted), false);
  }

  /** The callback that is due after a signal's fetch makes a live session ready, whatever it has been given;
      one becomes due with each such fetch that comes back. */
  lemma CallbackSettles(params: Params, events: seq<Event>)
    ensures var was, now := After(params, events), After(params, events + [Callback]);
            if was.due > 0 && !was.cancelled && !was.settled
            then now.settled && now.snapshot == was.snapshot.(state := Ready, loading := false)
            else now.settled == was.settled && now.snapshot == was.snapshot
    ensures forall version, result :: var was, now := After(params, events),
                After(params, events + [Resolved(version, result)]);
              now.due == was.due + if version in was.pending && was.pending[version].settles then 1 else 0
  {
    AfterOneMore(params, events, Callback);
    forall version, result
      ensures var was, now := After(params, events), After(params, events + [Resolved(version, result)]);
              now.due == was.due + if version in was.pending && was.pending[version].settles then 1 else 0
    {
      AfterOneMore(params, events, Resolved(version, result));
    }
  }

  /** A session begins with one fetch under way and nothing to show. */
  lemma Begins(params: Params)
    ensures var s := After(params, []);
            && Fetches(s, params, false) && s.pending.Keys == {s.fetchVersion} && !s.cancelled && !s.settled
            && s.snapshot.items == [] && s.snapshot.loading && s.snapshot.state == Loading && s.snapshot.total == None
            && s.resolvedCacheKey == None && s.released == []
  {
  }

  /** `destroy` ends it and releases the key that it has resolved. */
  lemma Destroyed(params: Params, events: seq<Event>)
    ensures var was, now := After(params, events), After(params, events + [Destroy]);
            && now.cancelled && now.snapshot == was.snapshot
            && (was.resolvedCacheKey.Some? ==> now.released == was.released + [was.resolvedCacheKey.value])
            && (was.resolvedCacheKey.None? ==> now.released == was.released)
  {
    AfterOneMore(params, events, Destroy);
  }
}
