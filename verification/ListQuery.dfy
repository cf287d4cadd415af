/** The list-query session: asynchronous fetches, collection signals and parameter changes in any
    interleaving. */
module ListQuery {
  import opened Options

  /** Sort and filter are compared by reference: a value here stands for one object. */
  datatype Params = Params(sort: Option<string>, filter: Option<string>)

  datatype ItemMeta = ItemMeta(id: string, clientId: Option<string>)

  datatype ListResult = ListResult(
    data: seq<string>, meta: seq<ItemMeta>, total: nat, hasLocalChanges: bool, cacheKey: string)

  datatype Status = Loading | Seeding | Ready | SeedFailed(error: string) | SyncFailed(error: string)

  datatype Snapshot = Snapshot(
    items: seq<string>, loading: bool, total: Option<nat>, hasLocalChanges: bool, state: Status,
    reconciled: map<string, string>)

  const INITIAL_SNAPSHOT := Snapshot([], true, None, false, Loading, map[])

  /** A call of `list` that has not come back; a signal's fetch is followed by a settling callback. */
  datatype Fetch = Fetch(params: Params, settles: bool)

  datatype Signal = Refetch | Failed(error: string)

  datatype Event =
    | Apply(params: Params)
    | Signalled(signal: Signal)
    | Resolved(version: nat, result: ListResult)
    | Rejected(version: nat, error: string)
    | Callback
    | Destroy

  /** The session's fields, the snapshot, and what the runtime still has under way: fetches by
      version, and the number of settling callbacks that are due. */
  datatype State = State(
    cancelled: bool, settled: bool, fetchVersion: nat, resolvedCacheKey: Option<string>, params: Params,
    snapshot: Snapshot, pending: map<nat, Fetch>, due: nat, released: seq<string>)

  /** The last server id that the metadata gives a client id. */
  function Remapped(meta: seq<ItemMeta>): map<string, string> {
    if meta == [] then map[]
    else
      var init, m := Remapped(meta[..|meta| - 1]), meta[|meta| - 1];
      if m.clientId.Some? && m.clientId.value != "" && m.clientId.value != m.id
      then init[m.clientId.value := m.id]
      else init
  }

  // ---- One step ----

  function Issued(s: State, settles: bool): State {
    s.(fetchVersion := s.fetchVersion + 1, pending := s.pending[s.fetchVersion + 1 := Fetch(s.params, settles)])
  }

  /** The fetch is over, and its callback due if it has one. */
  function Returned(s: State, version: nat): State
    requires version in s.pending
  {
    s.(pending := s.pending - {version}, due := s.due + if s.pending[version].settles then 1 else 0)
  }

  function Settled(s: State): State {
    s.(settled := true, snapshot := s.snapshot.(state := Ready, loading := false))
  }

  predicate Current(s: State, version: nat) {
    !s.cancelled && version == s.fetchVersion
  }

  function Accepted(s: State, result: ListResult): State {
    var shown := s.(
      resolvedCacheKey := if s.resolvedCacheKey.None? then Some(result.cacheKey) else s.resolvedCacheKey,
      snapshot := s.snapshot.(
        items := result.data, total := Some(result.total), hasLocalChanges := result.hasLocalChanges,
        reconciled := Remapped(result.meta)));
    if s.settled then shown
    else if |result.data| > 0 then Settled(shown)
    else shown.(snapshot := shown.snapshot.(state := Seeding))
  }

  function SeedingFailed(s: State, error: string): State {
    s.(settled := true, snapshot := s.snapshot.(state := SeedFailed(error), loading := false))
  }

  function Step(s: State, e: Event): State {
    match e
    case Apply(params) => if s.cancelled || s.params == params then s else Issued(s.(params := params), false)
    case Signalled(Refetch) => if s.cancelled then s else Issued(s, true)
    case Signalled(Failed(error)) =>
      if s.cancelled then s
      else if !s.settled then SeedingFailed(s, error)
      else if s.snapshot.state.SeedFailed? then s
      else s.(snapshot := s.snapshot.(state := SyncFailed(error)))
    case Resolved(version, result) =>
      if version !in s.pending then s
      else if Current(s, version) then Accepted(Returned(s, version), result) else Returned(s, version)
    case Rejected(version, error) =>
      if version !in s.pending then s
      else if Current(s, version) && !s.settled then SeedingFailed(Returned(s, version), error)
          else Returned(s, version)
    case Callback =>
      if s.due == 0 then s
      else if s.cancelled || s.settled then s.(due := s.due - 1) else Settled(s.(due := s.due - 1))
    case Destroy =>
      var key := if s.resolvedCacheKey.Some? then [s.resolvedCacheKey.value] else [];
      s.(cancelled := true, released := s.released + key)
  }

  function Start(params: Params): State {
    Issued(State(false, false, 0, None, params, INITIAL_SNAPSHOT, map[], 0, []), false)
  }

  function After(params: Params, events: seq<Event>): State {
    if events == [] then Start(params) else Step(After(params, events[..|events| - 1]), events[|events| - 1])
  }

  // ---- What every interleaving keeps ----

  predicate InProgress(status: Status) {
    status.Loading? || status.Seeding?
  }

  ghost predicate Inv(s: State) {
    && (forall v | v in s.pending :: v <= s.fetchVersion)
    && (s.fetchVersion in s.pending ==> s.pending[s.fetchVersion].params == s.params)
    && (s.snapshot.loading <==> !s.settled)
    && (InProgress(s.snapshot.state) <==> !s.settled)
  }

  lemma StepKeepsInv(s: State, e: Event)
    requires Inv(s)
    ensures Inv(Step(s, e))
  {
  }

  lemma {:induction false} RunKeepsInv(params: Params, events: seq<Event>)
    ensures Inv(After(params, events))
  {
    if events != [] {
      RunKeepsInv(params, events[..|events| - 1]);
      StepKeepsInv(After(params, events[..|events| - 1]), events[|events| - 1]);
    }
  }

  /** The snapshot shows `loading` exactly while the status is loading or seeding, that is, until
      the session settles. */
  lemma LoadingUntilSettled(params: Params, events: seq<Event>)
    ensures var s := After(params, events);
            (s.snapshot.loading <==> InProgress(s.snapshot.state)) && (s.snapshot.loading <==> !s.settled)
  {
    RunKeepsInv(params, events);
  }

  /** A result that changes what is shown comes from the newest fetch, which was issued with the
      sort and filter that are current when it arrives. */
  lemma NoStaleResult(params: Params, events: seq<Event>, version: nat, result: ListResult)
    requires var s := After(params, events); Step(s, Resolved(version, result)).snapshot != s.snapshot
    ensures var s := After(params, events);
            && version == s.fetchVersion && !s.cancelled
            && version in s.pending && s.pending[version].params == s.params
            && Step(s, Resolved(version, result)).snapshot.items == result.data
  {
    RunKeepsInv(params, events);
  }

  /** Loading, then seeding, then ready or seed-failed; ready, then sync-failed. */
  predicate Forward(was: Status, now: Status) {
    match was
    case Loading => !now.SyncFailed?
    case Seeding => !now.SyncFailed? && !now.Loading?
    case Ready => now.Ready? || now.SyncFailed?
    case SeedFailed(_) => now == was
    case SyncFailed(_) => now.SyncFailed?
  }

  lemma StatusStep(s: State, e: Event)
    requires Inv(s)
    ensures Forward(s.snapshot.state, Step(s, e).snapshot.state)
  {
  }

  /** Between any two moments of a run, not only neighbouring ones; from loading or seeding a
      session may since have become ready and lost its synchronisation. */
  predicate Reaches(was: Status, now: Status) {
    Forward(was, now) || (InProgress(was) && now.SyncFailed?)
  }

  lemma {:induction false} StatusMovesForward(params: Params, events: seq<Event>, i: nat)
    requires i <= |events|
    ensures Reaches(After(params, events[..i]).snapshot.state, After(params, events).snapshot.state)
    decreases |events|
  {
    if i == |events| {
      assert events[..i] == events;
    } else {
      var init := events[..|events| - 1];
      assert init[..i] == events[..i];
      StatusMovesForward(params, init, i);
      RunKeepsInv(params, init);
      StatusStep(After(params, init), events[|events| - 1]);
    }
  }

  /** Whatever comes after `destroy`, the snapshot stays and no fetch is issued. */
  lemma {:induction false} NothingAfterDestroy(params: Params, events: seq<Event>, i: nat)
    requires i <= |events| && After(params, events[..i]).cancelled
    ensures var was, now := After(params, events[..i]), After(params, events);
            && now.cancelled && now.snapshot == was.snapshot && now.fetchVersion == was.fetchVersion
            && now.pending.Keys <= was.pending.Keys
    decreases |events|
  {
    if i == |events| {
      assert events[..i] == events;
    } else {
      var init := events[..|events| - 1];
      assert init[..i] == events[..i];
      NothingAfterDestroy(params, init, i);
    }
  }

  // ---- When "ready" means that data came ----

  /** A signal's fetch comes back outdated before any data has come to a live session that has not
      settled: its callback is due while the newest fetch is still under way. */
  predicate Superseded(s: State, e: Event) {
    && (e.Resolved? || e.Rejected?) && e.version in s.pending && s.pending[e.version].settles
    && e.version != s.fetchVersion && !s.cancelled && !s.settled && s.snapshot.total.None?
  }

  predicate EverSuperseded(params: Params, events: seq<Event>) {
    exists i | 0 <= i < |events| :: Superseded(After(params, events[..i]), events[i])
  }

  ghost predicate DataFirst(s: State) {
    && (s.due > 0 && !s.settled && !s.cancelled ==> s.snapshot.total.Some?)
    && (s.snapshot.state.Ready? ==> s.snapshot.total.Some?)
  }

  lemma StepKeepsDataFirst(s: State, e: Event)
    requires DataFirst(s) && !Superseded(s, e)
    ensures DataFirst(Step(s, e))
  {
  }

  lemma {:induction false} DataFirstUnlessSuperseded(params: Params, events: seq<Event>)
    requires !EverSuperseded(params, events)
    ensures DataFirst(After(params, events))
    decreases |events|
  {
    if events != [] {
      var init := events[..|events| - 1];
      forall i | 0 <= i < |init| ensures !Superseded(After(params, init[..i]), init[i]) {
        assert init[..i] == events[..i];
      }
      DataFirstUnlessSuperseded(params, init);
      StepKeepsDataFirst(After(params, init), events[|events| - 1]);
    }
  }

  /** In a run without a superseded fetch, a session that is ready has been given data. */
  lemma ReadyMeansData(params: Params, events: seq<Event>)
    requires !EverSuperseded(params, events)
    ensures After(params, events).snapshot.state.Ready? ==> After(params, events).snapshot.total.Some?
  {
    DataFirstUnlessSuperseded(params, events);
  }

  /** Any superseded fetch makes the session ready without data, if its callback runs next. */
  lemma ReadyWithoutData(params: Params, events: seq<Event>, e: Event)
    requires Superseded(After(params, events), e)
    ensures var s := After(params, events + [e] + [Callback]);
            s.snapshot.state.Ready? && s.snapshot.total.None?
  {
    var more := events + [e];
    assert more[..|events|] == events && (more + [Callback])[..|more|] == more;
  }

  /** Such a run: the newest fetch is still under way when the session becomes ready. */
  lemma SupersededFetchSettles(params: Params, result: ListResult)
    ensures var s := After(params, [Signalled(Refetch), Signalled(Refetch), Resolved(2, result), Callback]);
            s.snapshot.state == Ready && s.snapshot.items == [] && s.snapshot.total == None && 3 in s.pending
  {
    var events := [Signalled(Refetch), Signalled(Refetch), Resolved(2, result), Callback];
    assert events[..3][..2] == events[..2] && events[..2][..1] == events[..1] && events[..1][..0] == [];
    var s0 := Start(params);
    assert After(params, events[..1]) == Step(s0, events[0]);
    assert After(params, events[..2]) == Step(Step(s0, events[0]), events[1]);
    assert After(params, events[..3]) == Step(After(params, events[..2]), events[2]);
  }

  // ---- The session ----

  class ListQuerySession {
    var cancelled: bool
    var settled: bool
    var fetchVersion: nat
    var resolvedCacheKey: Option<string>
    var currentListParams: Params
    var snapshot: Snapshot
    /** What the runtime holds for the session. */
    var pending: map<nat, Fetch>
    var due: nat
    var released: seq<string>

    function View(): State
      reads this
    {
      State(cancelled, settled, fetchVersion, resolvedCacheKey, currentListParams, snapshot, pending, due, released)
    }

    constructor (params: Params)
      ensures View() == Start(params)
    {
      cancelled, settled, fetchVersion, resolvedCacheKey, currentListParams := false, false, 0, None, params;
      snapshot, pending, due, released := INITIAL_SNAPSHOT, map[], 0, [];
      new;
      IssueFetch(false);
    }

    method IssueFetch(settles: bool)
      modifies this
      ensures View() == Issued(old(View()), settles)
    {
      fetchVersion := fetchVersion + 1;
      pending := pending[fetchVersion := Fetch(currentListParams, settles)];
    }

    method ApplyParams(params: Params)
      modifies this
      ensures View() == Step(old(View()), Apply(params))
    {
      if cancelled { return; }
      if currentListParams.sort == params.sort && currentListParams.filter == params.filter { return; }
      currentListParams := params;
      IssueFetch(false);
    }

    method HandleSignal(signal: Signal)
      modifies this
      ensures View() == Step(old(View()), Signalled(signal))
    {
      if cancelled { return; }
      match signal {
        case Refetch =>
          IssueFetch(true);
        case Failed(error) =>
          if !settled {
            settled := true;
            snapshot := snapshot.(state := SeedFailed(error), loading := false);
          } else if !snapshot.state.SeedFailed? {
            snapshot := snapshot.(state := SyncFailed(error));
          }
      }
    }

    method FetchReturns(version: nat)
      requires version in pending
      modifies this
      ensures View() == Returned(old(View()), version)
    {
      if pending[version].settles { due := due + 1; }
      pending := pending - {version};
    }

    method FetchResolves(version: nat, result: ListResult)
      requires version in pending
      modifies this
      ensures View() == Step(old(View()), Resolved(version, result))
    {
      FetchReturns(version);
      if cancelled || version != fetchVersion { return; }
      if resolvedCacheKey.None? {
        resolvedCacheKey := Some(result.cacheKey);
      }
      var idRemaps := map[];
      for i := 0 to |result.meta|
        invariant idRemaps == Remapped(result.meta[..i])
      {
        var m := result.meta[i];
        assert result.meta[..i + 1][..i] == result.meta[..i];
        if m.clientId.Some? && m.clientId.value != "" && m.clientId.value != m.id {
          idRemaps := idRemaps[m.clientId.value := m.id];
        }
      }
      assert result.meta[..|result.meta|] == result.meta;
      snapshot := snapshot.(
        items := result.data, total := Some(result.total), hasLocalChanges := result.hasLocalChanges,
        reconciled := idRemaps);
      if !settled {
        if |result.data| > 0 {
          Settle();
        } else {
          snapshot := snapshot.(state := Seeding);
        }
      }
    }

    method FetchRejects(version: nat, error: string)
      requires version in pending
      modifies this
      ensures View() == Step(old(View()), Rejected(version, error))
    {
      FetchReturns(version);
      if cancelled || version != fetchVersion { return; }
      if !settled {
        settled := true;
        snapshot := snapshot.(state := SeedFailed(error), loading := false);
      }
    }

    method SettlingCallback()
      requires due > 0
      modifies this
      ensures View() == Step(old(View()), Callback)
    {
      due := due - 1;
      if !cancelled && !settled {
        Settle();
      }
    }

    method Settle()
      modifies this
      ensures View() == Settled(old(View()))
    {
      settled := true;
      snapshot := snapshot.(state := Ready, loading := false);
    }

    method DestroySession()
      modifies this
      ensures View() == Step(old(View()), Destroy)
    {
      cancelled := true;
      if resolvedCacheKey.Some? {
        released := released + [resolvedCacheKey.value];
      }
    }
  }

  /** A session through any sequence of events; what the runtime does not hold cannot come back. */
  method RunSession(params: Params, events: seq<Event>) returns (session: ListQuerySession)
    ensures fresh(session) && session.View() == After(params, events)
  {
    session := new ListQuerySession(params);
    for i := 0 to |events|
      invariant fresh(session) && session.View() == After(params, events[..i])
    {
      assert events[..i + 1][..i] == events[..i];
      match events[i] {
        case Apply(p) =>
          session.ApplyParams(p);
        case Signalled(signal) =>
          session.HandleSignal(signal);
        case Resolved(version, result) =>
          if version in session.pending { session.FetchResolves(version, result); }
        case Rejected(version, error) =>
          if version in session.pending { session.FetchRejects(version, error); }
        case Callback =>
          if session.due > 0 { session.SettlingCallback(); }
        case Destroy =>
          session.DestroySession();
      }
    }
    assert events[..|events|] == events;
  }
}
