/** Holds on cache keys: the query manager counts them per key, the cache manager records who holds a key. */
module QueryHolds {
  import opened Options
  import ListQuery

  /** `Listed` is a `list` or `getById` with `hold: true`, which goes to the cache manager directly;
      `WindowClosed` is the cleanup after a window that is gone. */
  datatype HoldEvent =
    | Listed(key: string, window: string)
    | Held(key: string, window: string)
    | Released(key: string, window: string)
    | AllReleased(window: string)
    | WindowClosed(window: string)

  type Counts = map<string, nat>
  type Holders = map<string, set<string>>

  function CountOf(counts: Counts, key: string): nat {
    if key in counts then counts[key] else 0
  }

  function HoldersOf(holders: Holders, key: string): set<string> {
    if key in holders then holders[key] else {}
  }

  // ---- What a run leaves of one key ----

  /** One count for all windows. */
  function CountAfter(events: seq<HoldEvent>, key: string): nat {
    if events == [] then 0
    else
      var n := CountAfter(events[..|events| - 1], key);
      match events[|events| - 1]
      case Held(k, _) => if k == key then n + 1 else n
      case Released(k, _) => if k == key && n > 0 then n - 1 else n
      case AllReleased(_) => 0
      case _ => n
  }

  /** The event makes the window a holder of the key. */
  predicate Takes(e: HoldEvent, count: nat, key: string, window: string) {
    e == Listed(key, window) || (e == Held(key, window) && count == 0)
  }

  /** The event ends the window's hold on the key. */
  predicate Drops(e: HoldEvent, count: nat, key: string, window: string) {
    || (e == Released(key, window) && count == 1)
    || (e == AllReleased(window) && count > 0)
    || e == WindowClosed(window)
  }

  /** The window has taken the key, and has not dropped it since. */
  predicate HoldsAfter(events: seq<HoldEvent>, key: string, window: string) {
    events != [] &&
    var init, e := events[..|events| - 1], events[|events| - 1];
    var n := CountAfter(init, key);
    Takes(e, n, key, window) || (!Drops(e, n, key, window) && HoldsAfter(init, key, window))
  }

  // ---- The two managers ----

  class HoldManagers {
    /** The query manager's reference counts. */
    var activeHolds: Counts
    /** The cache manager's holders. */
    var holdsByKey: Holders

    ghost predicate Valid()
      reads this
    {
      && (forall k | k in activeHolds :: activeHolds[k] > 0)
      && (forall k | k in holdsByKey :: holdsByKey[k] != {})
    }

    /** The fields are what the run leaves. */
    ghost predicate After(events: seq<HoldEvent>)
      reads this
    {
      && Valid()
      && (forall key :: CountOf(activeHolds, key) == CountAfter(events, key))
      && (forall key, window :: window in HoldersOf(holdsByKey, key) <==> HoldsAfter(events, key, window))
    }

    constructor ()
      ensures After([])
    {
      activeHolds, holdsByKey := map[], map[];
    }

    method CacheHold(key: string, window: string)
      requires Valid()
      modifies `holdsByKey
      ensures Valid()
      ensures forall k :: HoldersOf(holdsByKey, k)
                       == old(HoldersOf(holdsByKey, k)) + if k == key then {window} else {}
    {
      var windowSet := if key in holdsByKey then holdsByKey[key] else {};
      if window in windowSet { return; }
      holdsByKey := holdsByKey[key := windowSet + {window}];
    }

    method CacheRelease(key: string, window: string)
      requires Valid()
      modifies `holdsByKey
      ensures Valid()
      ensures forall k :: HoldersOf(holdsByKey, k)
                       == old(HoldersOf(holdsByKey, k)) - if k == key then {window} else {}
    {
      if key !in holdsByKey || window !in holdsByKey[key] { return; }
      if holdsByKey[key] == {window} {
        holdsByKey := holdsByKey - {key};
      } else {
        holdsByKey := holdsByKey[key := holdsByKey[key] - {window}];
      }
    }

    /** `acquireKey` with `hold`. */
    method AcquireKey(key: string, window: string, ghost events: seq<HoldEvent>)
      requires After(events)
      modifies this
      ensures After(events + [Listed(key, window)])
    {
      CacheHold(key, window);
      assert (events + [Listed(key, window)])[..|events|] == events;
    }

    method HoldForWindow(key: string, window: string, ghost events: seq<HoldEvent>)
      requires After(events)
      modifies this
      ensures After(events + [Held(key, window)])
    {
      assert (events + [Held(key, window)])[..|events|] == events;
      var current := if key in activeHolds then activeHolds[key] else 0;
      if current == 0 {
        CacheHold(key, window);
      }
      activeHolds := activeHolds[key := current + 1];
    }

    method ReleaseForWindow(key: string, window: string, ghost events: seq<HoldEvent>)
      requires After(events)
      modifies this
      ensures After(events + [Released(key, window)])
    {
      assert (events + [Released(key, window)])[..|events|] == events;
      var current := if key in activeHolds then activeHolds[key] else 0;
      if current <= 0 { return; }
      if current == 1 {
        activeHolds := activeHolds - {key};
        CacheRelease(key, window);
      } else {
        activeHolds := activeHolds[key := current - 1];
      }
    }

    method ReleaseAllForWindow(window: string, ghost events: seq<HoldEvent>)
      requires After(events)
      modifies this
      ensures After(events + [AllReleased(window)])
    {
      assert (events + [AllReleased(window)])[..|events|] == events;
      var pending := activeHolds.Keys;
      while pending != {}
        invariant Valid() && pending <= activeHolds.Keys && activeHolds == old(activeHolds)
        invariant forall k :: HoldersOf(holdsByKey, k)
                           == old(HoldersOf(holdsByKey, k)) - if k in activeHolds.Keys - pending then {window} else {}
      {
        var key :| key in pending;
        CacheRelease(key, window);
        pending := pending - {key};
      }
      activeHolds := map[];
    }

    method CacheReleaseAll(window: string)
      requires Valid()
      modifies `holdsByKey
      ensures Valid() && forall k :: HoldersOf(holdsByKey, k) == old(HoldersOf(holdsByKey, k)) - {window}
    {
      var pending := set k | k in holdsByKey && window in holdsByKey[k];
      while pending != {}
        invariant Valid()
        invariant forall k :: HoldersOf(holdsByKey, k)
                           == if k in pending then old(HoldersOf(holdsByKey, k))
                              else old(HoldersOf(holdsByKey, k)) - {window}
      {
        var key :| key in pending;
        CacheRelease(key, window);
        pending := pending - {key};
      }
    }

    method CloseWindow(window: string, ghost events: seq<HoldEvent>)
      requires After(events)
      modifies this
      ensures After(events + [WindowClosed(window)])
    {
      assert (events + [WindowClosed(window)])[..|events|] == events;
      CacheReleaseAll(window);
    }
  }

  /** Any run of holds, releases, lists and closed windows. */
  method RunHolds(events: seq<HoldEvent>) returns (managers: HoldManagers)
    ensures managers.After(events)
  {
    managers := new HoldManagers();
    assert events[..0] == [];
    for i := 0 to |events|
      invariant fresh(managers) && managers.After(events[..i])
    {
      assert events[..i + 1] == events[..i] + [events[i]];
      match events[i] {
        case Listed(key, window) => managers.AcquireKey(key, window, events[..i]);
        case Held(key, window) => managers.HoldForWindow(key, window, events[..i]);
        case Released(key, window) => managers.ReleaseForWindow(key, window, events[..i]);
        case AllReleased(window) => managers.ReleaseAllForWindow(window, events[..i]);
        case WindowClosed(window) => managers.CloseWindow(window, events[..i]);
      }
    }
    assert events[..|events|] == events;
  }

  // ---- What a run means ----

  /** Holds minus releases of a key, whoever made them. */
  function Net(events: seq<HoldEvent>, key: string): int {
    if events == [] then 0
    else
      Net(events[..|events| - 1], key) +
      match events[|events| - 1]
      case Held(k, _) => if k == key then 1 else 0
      case Released(k, _) => if k == key then -1 else 0
      case _ => 0
  }

  /** No window has released all its keys since the i-th event. */
  predicate NoneClearedFrom(events: seq<HoldEvent>, i: nat) {
    i <= |events| && forall j | i <= j < |events| :: !events[j].AllReleased?
  }

  /** A key's holds minus its releases since some moment after the counts were last cleared. */
  predicate NetFrom(events: seq<HoldEvent>, i: nat, key: string, n: int) {
    NoneClearedFrom(events, i) && Net(events[i..], key) == n
  }

  lemma NetFromSnoc(init: seq<HoldEvent>, e: HoldEvent, i: nat, key: string, n: int)
    requires i <= |init| && !e.AllReleased?
    ensures NetFrom(init + [e], i, key, n) <==> NetFrom(init, i, key, n - Net([e], key))
  {
    var events := init + [e];
    assert events[i..][..|events[i..]| - 1] == init[i..] && [e][..0] == [];
    assert NoneClearedFrom(events, i) <==> NoneClearedFrom(init, i) by {
      assert forall j | 0 <= j < |init| :: events[j] == init[j];
    }
  }

  lemma NetFromEnd(events: seq<HoldEvent>, key: string, n: int)
    ensures NetFrom(events, |events|, key, n) <==> n == 0
  {
    assert events[|events|..] == [];
  }

  /** The count is the largest number by which holds outweigh releases since any such moment: releases that
      find nothing to release do not count. */
  lemma {:induction false} CountIsLargestNet(events: seq<HoldEvent>, key: string)
    ensures exists i: nat :: NetFrom(events, i, key, CountAfter(events, key))
    ensures forall i: nat, n: int | NetFrom(events, i, key, n) :: n <= CountAfter(events, key)
  {
    forall n: int ensures NetFrom(events, |events|, key, n) <==> n == 0 {
      NetFromEnd(events, key, n);
    }
    assert NetFrom(events, |events|, key, 0);
    if events == [] {
      assert CountAfter(events, key) == 0;
    } else {
      var init, e := events[..|events| - 1], events[|events| - 1];
      CountIsLargestNet(init, key);
      assert events == init + [e] && [e][..0] == [];
      if e.AllReleased? {
        assert CountAfter(events, key) == 0;
        assert forall i: nat, n: int | NetFrom(events, i, key, n) :: i == |events|;
      } else {
        forall i: nat, n: int | i <= |init|
          ensures NetFrom(events, i, key, n) <==> NetFrom(init, i, key, n - Net([e], key))
        {
          NetFromSnoc(init, e, i, key, n);
        }
        var i: nat :| NetFrom(init, i, key, CountAfter(init, key));
        assert NetFrom(events, i, key, CountAfter(init, key) + Net([e], key));
        assert CountAfter(events, key) == CountAfter(init, key) + Net([e], key) || CountAfter(events, key) == 0;
      }
    }
  }

  /** What one more event does to a hold, in terms of the count before it. */
  lemma OneMoreEvent(events: seq<HoldEvent>, e: HoldEvent, key: string, window: string)
    ensures var n, held := CountAfter(events, key), HoldsAfter(events, key, window);
            HoldsAfter(events + [e], key, window) <==>
            match e
            case Listed(k, w) => held || (k == key && w == window)
            case Held(k, w) => held || (k == key && w == window && n == 0)
            case Released(k, w) => held && (k == key && n == 1 ==> w != window)
            case AllReleased(w) => held && (n > 0 ==> w != window)
            case WindowClosed(w) => held && w != window
  {
    assert (events + [e])[..|events|] == events;
  }

  predicate NoDropSince(events: seq<HoldEvent>, i: nat, key: string, window: string) {
    forall j | i < j < |events| :: !Drops(events[j], CountAfter(events[..j], key), key, window)
  }

  predicate TookAt(events: seq<HoldEvent>, i: nat, key: string, window: string) {
    && i < |events| && Takes(events[i], CountAfter(events[..i], key), key, window)
    && NoDropSince(events, i, key, window)
  }

  lemma {:induction false} LastTaken(events: seq<HoldEvent>, key: string, window: string) returns (i: nat)
    requires HoldsAfter(events, key, window)
    ensures TookAt(events, i, key, window)
  {
    var last := |events| - 1;
    var init := events[..last];
    if Takes(events[last], CountAfter(init, key), key, window) {
      i := last;
    } else {
      i := LastTaken(init, key, window);
      assert forall j | 0 <= j <= last :: init[..j] == events[..j];
      forall j | i < j < |events| ensures !Drops(events[j], CountAfter(events[..j], key), key, window) {
        if j < last { assert init[j] == events[j]; }
      }
    }
  }

  lemma {:induction false} HeldSince(events: seq<HoldEvent>, i: nat, key: string, window: string)
    requires TookAt(events, i, key, window)
    ensures HoldsAfter(events, key, window)
  {
    var last := |events| - 1;
    var init := events[..last];
    if i < last {
      assert forall j | 0 <= j <= last :: init[..j] == events[..j];
      assert NoDropSince(init, i, key, window);
      HeldSince(init, i, key, window);
    }
  }

  /** A window holds a key exactly when it took it at some moment and has not dropped it since. */
  lemma HoldsSinceTaken(events: seq<HoldEvent>, key: string, window: string)
    ensures HoldsAfter(events, key, window) <==> exists i: nat :: TookAt(events, i, key, window)
  {
    if HoldsAfter(events, key, window) {
      var i := LastTaken(events, key, window);
    }
    if i: nat :| TookAt(events, i, key, window) {
      HeldSince(events, i, key, window);
    }
  }

  // ---- When the counts mean what they say ----

  /** Only this window, and no hold but the counted ones. */
  predicate CountedBy(e: HoldEvent, key: string, window: string) {
    match e
    case Listed(k, _) => k != key
    case Held(k, w) => k == key ==> w == window
    case Released(k, w) => k == key ==> w == window
    case AllReleased(w) => w == window
    case WindowClosed(w) => w != window
  }

  /** One window whose holds are all counted holds the key exactly while the count is positive. */
  lemma {:induction false} CountedHolds(events: seq<HoldEvent>, key: string, window: string)
    requires forall e | e in events :: CountedBy(e, key, window)
    ensures HoldsAfter(events, key, window) <==> CountAfter(events, key) > 0
  {
    if events != [] {
      CountedHolds(events[..|events| - 1], key, window);
      assert CountedBy(events[|events| - 1], key, window);
    }
  }

  /** A key that is never held by count: only listed and released. */
  predicate NeverCounted(events: seq<HoldEvent>, key: string) {
    forall i | 0 <= i < |events| && events[i].Held? :: events[i].key != key
  }

  lemma {:induction false} NotCounted(events: seq<HoldEvent>, key: string)
    requires NeverCounted(events, key)
    ensures CountAfter(events, key) == 0
  {
    if events != [] {
      NotCounted(events[..|events| - 1], key);
    }
  }

  /** A hold that `list` placed is not counted, so no release ends it: the key is held by every window that
      listed it, until the window is closed. */
  lemma {:induction false} ListedStaysHeld(events: seq<HoldEvent>, key: string, window: string)
    requires NeverCounted(events, key) && WindowClosed(window) !in events
    ensures HoldsAfter(events, key, window) <==> Listed(key, window) in events
  {
    if events != [] {
      var init, e := events[..|events| - 1], events[|events| - 1];
      ListedStaysHeld(init, key, window);
      NotCounted(init, key);
      assert events == init + [e];
    }
  }

  /** Conversely, one counted hold and its release end the hold that a list query still needs. */
  lemma ListLosesItsHold(key: string, window: string)
    ensures HoldsAfter([Listed(key, window)], key, window)
    ensures !HoldsAfter([Listed(key, window), Held(key, window), Released(key, window)], key, window)
  {
    var events := [Listed(key, window), Held(key, window), Released(key, window)];
    assert events[..2][..1] == events[..1] && events[..1][..0] == [] && events[..1] == [Listed(key, window)];
  }

  /** The count is shared: of two windows that hold a key, the second is not recorded, and if the first
      releases before the second, it stays recorded for ever. */
  lemma SharedCountStrands(key: string, a: string, b: string)
    requires a != b
    ensures var both := [Held(key, a), Held(key, b)];
            HoldsAfter(both, key, a) && !HoldsAfter(both, key, b)
    ensures var done := [Held(key, a), Held(key, b), Released(key, a), Released(key, b)];
            CountAfter(done, key) == 0 && HoldsAfter(done, key, a) && !HoldsAfter(done, key, b)
  {
    var events := [Held(key, a), Held(key, b), Released(key, a), Released(key, b)];
    assert events[..3][..2] == events[..2] && events[..2][..1] == events[..1] && events[..1][..0] == [];
    assert events[..2] == [Held(key, a), Held(key, b)];
    assert CountAfter(events[..1], key) == 1 && CountAfter(events[..2], key) == 2 && CountAfter(events[..3], key) == 1;
    assert HoldsAfter(events[..1], key, a) && !HoldsAfter(events[..1], key, b);
    assert HoldsAfter(events[..2], key, a) && !HoldsAfter(events[..2], key, b);
    assert HoldsAfter(events[..3], key, a) && !HoldsAfter(events[..3], key, b);
  }

  // ---- A list-query session ----

  /** A fetch that succeeds has placed a hold; `destroy` releases the key that the session has resolved. */
  function EventsOf(s: ListQuery.State, e: ListQuery.Event, window: string): seq<HoldEvent> {
    match e
    case Resolved(version, result) => if version in s.pending then [Listed(result.cacheKey, window)] else []
    case Destroy => if s.resolvedCacheKey.Some? then [Released(s.resolvedCacheKey.value, window)] else []
    case _ => []
  }

  function SessionEvents(params: ListQuery.Params, events: seq<ListQuery.Event>, window: string): seq<HoldEvent> {
    if events == [] then []
    else
      var init, e := events[..|events| - 1], events[|events| - 1];
      SessionEvents(params, init, window) + EventsOf(ListQuery.After(params, init), e, window)
  }

  /** The i-th event of a session is a result that came with the key. */
  predicate GivenAt(params: ListQuery.Params, events: seq<ListQuery.Event>, i: nat, key: string) {
    && i < |events| && events[i].Resolved? && events[i].version in ListQuery.After(params, events[..i]).pending
    && events[i].result.cacheKey == key
  }

  predicate EverGiven(params: ListQuery.Params, events: seq<ListQuery.Event>, key: string) {
    exists i | 0 <= i < |events| :: GivenAt(params, events, i, key)
  }

  lemma {:induction false} SessionListed(params: ListQuery.Params, events: seq<ListQuery.Event>, window: string,
      key: string)
    ensures NeverCounted(SessionEvents(params, events, window), key)
    ensures WindowClosed(window) !in SessionEvents(params, events, window)
    ensures Listed(key, window) in SessionEvents(params, events, window) <==> EverGiven(params, events, key)
  {
    if events != [] {
      var init, e := events[..|events| - 1], events[|events| - 1];
      SessionListed(params, init, window, key);
      GivenSnoc(params, events, key);
      var more := EventsOf(ListQuery.After(params, init), e, window);
      assert Listed(key, window) in more <==> GivenAt(params, events, |events| - 1, key);
      assert forall h :: h in SessionEvents(params, events, window) <==>
                         h in SessionEvents(params, init, window) || h in more;
    }
  }

  lemma GivenSnoc(params: ListQuery.Params, events: seq<ListQuery.Event>, key: string)
    requires events != []
    ensures EverGiven(params, events, key) <==>
            GivenAt(params, events, |events| - 1, key) || EverGiven(params, events[..|events| - 1], key)
  {
    var init := events[..|events| - 1];
    forall i: nat | i < |init| ensures GivenAt(params, events, i, key) <==> GivenAt(params, init, i, key) {
      assert init[..i] == events[..i];
    }
  }

  /** Whatever becomes of a session, destroyed or not, its window holds exactly the keys that some result came
      with: the release has nothing to count down, whether the result came before it or after. */
  lemma SessionKeepsItsHold(params: ListQuery.Params, events: seq<ListQuery.Event>, window: string, key: string)
    ensures HoldsAfter(SessionEvents(params, events, window), key, window) <==> EverGiven(params, events, key)
  {
    SessionListed(params, events, window, key);
    ListedStaysHeld(SessionEvents(params, events, window), key, window);
  }
}
