/** Which cache keys may be evicted, and what repeated eviction leaves. */
module Eviction {
  import opened Options
  import opened StorageRecords
  import opened StableSort

  type CacheKeys = map<string, CacheKeyRecord>

  ghost predicate KeyedByKey(keys: CacheKeys) {
    forall k | k in keys :: keys[k].key == k
  }

  predicate HasChildren(keys: CacheKeys, k: string) {
    exists c | c in keys :: keys[c].parentKey == Some(k)
  }

  predicate Free(r: CacheKeyRecord) {
    r.holdCount <= 0 && !r.frozen && !r.inheritedFrozen
  }

  predicate Evictable(keys: CacheKeys, k: string) {
    k in keys && Free(keys[k]) && !HasChildren(keys, k)
  }

  /** Ephemeral before persistent, then least recently used. */
  predicate EvictedFirst(a: CacheKeyRecord, b: CacheKeyRecord) {
    if a.evictionPolicy != b.evictionPolicy then a.evictionPolicy.Ephemeral?
    else a.lastAccessedAt <= b.lastAccessedAt
  }

  function EvictionOrder(): Order<CacheKeyRecord> {
    (a, b) => EvictedFirst(a, b)
  }

  lemma EvictionOrderOrders(of: set<CacheKeyRecord>)
    ensures OrdersOn(EvictionOrder(), of)
  {
    forall a, b | a in of && b in of ensures Comparable(EvictionOrder(), a, b) {
    }
  }

  function EvictableKeys(keys: CacheKeys): set<string> {
    set k | k in keys && Evictable(keys, k)
  }

  method EvictableCacheKeys(keys: CacheKeys, limit: nat) returns (evicted: seq<CacheKeyRecord>)
    requires KeyedByKey(keys)
    ensures Evicts(keys, limit, evicted)
    ensures LeastRecentlyUsed(keys, false, limit, evicted)
  {
    var evictable := [];
    var pending := keys.Keys;
    ghost var done := {};
    while pending != {}
      invariant done !! pending && done + pending == keys.Keys
      invariant Lists(keys, EvictableKeys(keys) * done, evictable)
    {
      var k :| k in pending;
      if Free(keys[k]) && !HasChildren(keys, k) {
        evictable := evictable + [keys[k]];
      }
      done, pending := done + {k}, pending - {k};
    }
    assert EvictableKeys(keys) * done == EvictableKeys(keys);
    evicted := FirstOf(keys, EvictableKeys(keys), evictable, limit);
    EvictsLeastRecentlyUsed(keys, limit, evicted);
  }

  /** The first of some records in the order of eviction. */
  method FirstOf(keys: CacheKeys, ghost among: set<string>, records: seq<CacheKeyRecord>, limit: nat)
    returns (first: seq<CacheKeyRecord>)
    requires Lists(keys, among, records)
    ensures TakesFirst(keys, among, limit, first)
  {
    var sorted := StableSorted(records, EvictionOrder());
    SortedLists(keys, among, records);
    first := if limit < |sorted| then sorted[..limit] else sorted;
    LeastTaken(keys, among, sorted, limit);
  }

  /** The records of some keys, each once. */
  ghost predicate Lists(keys: CacheKeys, among: set<string>, records: seq<CacheKeyRecord>) {
    && (forall i | 0 <= i < |records| :: records[i].key in among && Holds(keys, records[i]))
    && (forall i, j | 0 <= i < j < |records| :: records[i].key != records[j].key)
    && (forall k | k in among :: k in keys && keys[k] in records)
  }

  predicate Holds(keys: CacheKeys, r: CacheKeyRecord) {
    r.key in keys && keys[r.key] == r
  }

  lemma SortedLists(keys: CacheKeys, among: set<string>, records: seq<CacheKeyRecord>)
    requires Lists(keys, among, records)
    ensures var sorted := StableSorted(records, EvictionOrder());
            Lists(keys, among, sorted) && Sorted(sorted, EvictionOrder())
  {
    var sorted := StableSorted(records, EvictionOrder());
    EvictionOrderOrders(Elements(records));
    StableSortedSorts(records, EvictionOrder(), Elements(records));
    StableSortedMultiset(records, EvictionOrder());
    NoRepeats(records);
    PermutedLists(keys, among, records, sorted);
  }

  lemma PermutedLists(keys: CacheKeys, among: set<string>, records: seq<CacheKeyRecord>, sorted: seq<CacheKeyRecord>)
    requires Lists(keys, among, records) && multiset(sorted) == multiset(records)
    requires forall r :: multiset(records)[r] <= 1
    ensures Lists(keys, among, sorted)
  {
    forall i | 0 <= i < |sorted| ensures sorted[i] in records {
      SameMember(sorted, records, sorted[i]);
    }
    forall k | k in among ensures keys[k] in sorted {
      SameMember(records, sorted, keys[k]);
    }
    forall i, j | 0 <= i < j < |sorted| ensures sorted[i] != sorted[j] {
      Repeated(sorted, i, j);
    }
  }

  lemma {:induction false} NoRepeats(records: seq<CacheKeyRecord>)
    requires forall i, j | 0 <= i < j < |records| :: records[i].key != records[j].key
    ensures forall r :: multiset(records)[r] <= 1
  {
    if records != [] {
      var init, last := records[..|records| - 1], records[|records| - 1];
      NoRepeats(init);
      assert records == init + [last];
      assert last !in init;
    }
  }

  lemma Repeated<T>(xs: seq<T>, i: nat, j: nat)
    requires i < j < |xs|
    ensures xs[i] == xs[j] ==> multiset(xs)[xs[i]] >= 2
  {
    assert xs == xs[..j] + [xs[j]] + xs[j + 1..];
    assert xs[i] in xs[..j];
    assert multiset(xs) == multiset(xs[..j]) + multiset{xs[j]} + multiset(xs[j + 1..]);
  }

  /** The `limit` first of some keys in the order of eviction, or all of them if there are fewer. */
  ghost predicate TakesFirst(keys: CacheKeys, among: set<string>, limit: nat, first: seq<CacheKeyRecord>) {
    && |first| <= limit && Sorted(first, EvictionOrder())
    && (forall i | 0 <= i < |first| :: first[i].key in among && Holds(keys, first[i]))
    && (forall i, j | 0 <= i < j < |first| :: first[i].key != first[j].key)
    && (forall k | k in among :: k in keys && (keys[k] in first || (|first| == limit && AfterAll(first, keys[k]))))
  }

  /** What the in-memory backend evicts. */
  ghost predicate Evicts(keys: CacheKeys, limit: nat, evicted: seq<CacheKeyRecord>) {
    TakesFirst(keys, EvictableKeys(keys), limit, evicted)
  }

  ghost predicate AfterAll(evicted: seq<CacheKeyRecord>, r: CacheKeyRecord) {
    forall i | 0 <= i < |evicted| :: EvictedFirst(evicted[i], r)
  }

  lemma LeastTaken(keys: CacheKeys, among: set<string>, sorted: seq<CacheKeyRecord>, limit: nat)
    requires Lists(keys, among, sorted) && Sorted(sorted, EvictionOrder())
    ensures TakesFirst(keys, among, limit, if limit < |sorted| then sorted[..limit] else sorted)
  {
    var first := if limit < |sorted| then sorted[..limit] else sorted;
    forall k | k in among && keys[k] !in first ensures |first| == limit && AfterAll(first, keys[k]) {
      var i :| 0 <= i < |sorted| && sorted[i] == keys[k];
      assert limit < |sorted|;
      assert forall j | 0 <= j < limit :: first[j] == sorted[j] && first[j] in first;
      assert forall j | 0 <= j < limit :: EvictionOrder()(sorted[j], sorted[i]);
    }
  }

  // ---- What that means for the records ----

  /** The first may go while the second stays. */
  predicate MayGoFirst(a: CacheKeyRecord, b: CacheKeyRecord) {
    && (a.evictionPolicy.Persistent? ==> b.evictionPolicy.Persistent?)
    && (a.evictionPolicy == b.evictionPolicy ==> a.lastAccessedAt <= b.lastAccessedAt)
  }

  /** Memory asks that no hold is left, SQL that the count is exactly zero. */
  predicate Unheld(exactly: bool, r: CacheKeyRecord) {
    if exactly then r.holdCount == 0 else r.holdCount <= 0
  }

  /** Nothing keeps the key frozen or has it as its parent. */
  predicate Leaf(keys: CacheKeys, r: CacheKeyRecord) {
    !r.frozen && !r.inheritedFrozen && forall c | c in keys :: keys[c].parentKey != Some(r.key)
  }

  /** Only unheld leaves are taken, in order, and none of those that are left should have gone first. */
  ghost predicate LeastRecentlyUsed(keys: CacheKeys, exactly: bool, limit: nat,
      evicted: seq<CacheKeyRecord>) {
    && |evicted| <= limit
    && (forall i | 0 <= i < |evicted| ::
          && evicted[i].key in keys && keys[evicted[i].key] == evicted[i]
          && Unheld(exactly, evicted[i]) && Leaf(keys, evicted[i]))
    && (forall i, j | 0 <= i < j < |evicted| ::
          evicted[i].key != evicted[j].key && MayGoFirst(evicted[i], evicted[j]))
    && (forall k | k in keys && Unheld(exactly, keys[k]) && Leaf(keys, keys[k]) && keys[k] !in evicted ::
          |evicted| == limit && forall i | 0 <= i < |evicted| :: MayGoFirst(evicted[i], keys[k]))
  }

  lemma TakesLeastRecentlyUsed(keys: CacheKeys, among: set<string>, exactly: bool, limit: nat,
      evicted: seq<CacheKeyRecord>)
    requires KeyedByKey(keys) && TakesFirst(keys, among, limit, evicted)
    requires forall k | k in keys :: k in among <==> Unheld(exactly, keys[k]) && Leaf(keys, keys[k])
    ensures LeastRecentlyUsed(keys, exactly, limit, evicted)
  {
    forall i, j | 0 <= i < j < |evicted| ensures MayGoFirst(evicted[i], evicted[j]) {
      assert EvictionOrder()(evicted[i], evicted[j]);
    }
    forall k | k in keys && Unheld(exactly, keys[k]) && Leaf(keys, keys[k]) && keys[k] !in evicted
      ensures |evicted| == limit && forall i | 0 <= i < |evicted| :: MayGoFirst(evicted[i], keys[k])
    {
      assert k in among;
    }
    forall i | 0 <= i < |evicted| ensures Unheld(exactly, evicted[i]) && Leaf(keys, evicted[i]) {
      assert Holds(keys, evicted[i]);
    }
  }

  lemma EvictsLeastRecentlyUsed(keys: CacheKeys, limit: nat, evicted: seq<CacheKeyRecord>)
    requires KeyedByKey(keys) && Evicts(keys, limit, evicted)
    ensures LeastRecentlyUsed(keys, false, limit, evicted)
  {
    forall k | k in keys ensures k in EvictableKeys(keys) <==> keys[k].holdCount <= 0 && Leaf(keys, keys[k]) {
    }
    TakesLeastRecentlyUsed(keys, EvictableKeys(keys), false, limit, evicted);
  }

  // ---- Deleting what was evicted ----

  function Evicted(keys: CacheKeys, evicted: seq<CacheKeyRecord>): CacheKeys {
    keys - set r | r in evicted :: r.key
  }

  /** No surviving key points at a parent that was just removed. */
  lemma NoOrphans(keys: CacheKeys, limit: nat, evicted: seq<CacheKeyRecord>, k: string)
    requires Evicts(keys, limit, evicted) && k in Evicted(keys, evicted) && keys[k].parentKey.Some?
    requires keys[k].parentKey.value in keys
    ensures keys[k].parentKey.value in Evicted(keys, evicted)
  {
    var p := keys[k].parentKey.value;
    assert HasChildren(keys, p);
    forall r | r in evicted ensures r.key != p {
      var i :| 0 <= i < |evicted| && evicted[i] == r;
    }
  }

  // ---- Repeated eviction ----

  /** Each record of the path is the parent of the next. */
  ghost predicate ChildPath(keys: CacheKeys, path: seq<string>) {
    && (forall i | 0 <= i < |path| :: path[i] in keys)
    && (forall i | 0 < i < |path| :: keys[path[i]].parentKey == Some(path[i - 1]))
  }

  ghost predicate Cycle(keys: CacheKeys, path: seq<string>) {
    path != [] && ChildPath(keys, path) && keys[path[0]].parentKey == Some(path[|path| - 1])
  }

  ghost predicate Acyclic(keys: CacheKeys) {
    forall path :: !Cycle(keys, path)
  }

  function Ends(path: seq<string>): set<string> {
    set k | k in path
  }

  lemma PathCloses(keys: CacheKeys, path: seq<string>, i: nat)
    requires ChildPath(keys, path) && i < |path| && keys[path[i]].parentKey == Some(path[|path| - 1])
    ensures Cycle(keys, path[i..])
  {
  }

  /** A finite forest has a leaf: a path of distinct children cannot be extended forever. */
  lemma {:induction false} LeafBelow(keys: CacheKeys, path: seq<string>) returns (leaf: string)
    requires Acyclic(keys) && path != [] && ChildPath(keys, path) && |Ends(path)| == |path|
    ensures leaf in keys && !HasChildren(keys, leaf)
    decreases |keys| - |path|
  {
    var last := path[|path| - 1];
    PathFits(keys, path);
    if c :| c in keys && keys[c].parentKey == Some(last) {
      forall i | 0 <= i < |path| ensures path[i] != c {
        if path[i] == c { PathCloses(keys, path, i); }
      }
      assert Ends(path + [c]) == Ends(path) + {c};
      assert ChildPath(keys, path + [c]);
      PathFits(keys, path + [c]);
      leaf := LeafBelow(keys, path + [c]);
    } else {
      leaf := last;
    }
  }

  lemma PathFits(keys: CacheKeys, path: seq<string>)
    requires ChildPath(keys, path) && |Ends(path)| == |path|
    ensures |path| <= |keys|
  {
    SubsetSize(Ends(path), keys.Keys);
  }

  ghost predicate AllFree(keys: CacheKeys) {
    forall k | k in keys :: Free(keys[k])
  }

  /** One round of eviction and deletion. */
  ghost predicate Round(before: CacheKeys, limit: nat, after: CacheKeys) {
    exists evicted: seq<CacheKeyRecord> :: Evicts(before, limit, evicted) && after == Evicted(before, evicted)
  }

  lemma RoundKeeps(before: CacheKeys, limit: nat, after: CacheKeys)
    requires Round(before, limit, after)
    ensures AllFree(before) ==> AllFree(after)
    ensures Acyclic(before) ==> Acyclic(after)
    ensures |after| <= |before|
  {
    SubsetSize(after.Keys, before.Keys);
    if Acyclic(before) {
      forall path ensures !Cycle(after, path) {
        if Cycle(after, path) { assert Cycle(before, path); }
      }
    }
  }

  /** A round with a positive limit takes at least one key. */
  lemma RoundTakes(before: CacheKeys, limit: nat, after: CacheKeys)
    requires Round(before, limit, after) && limit > 0 && AllFree(before) && Acyclic(before) && before != map[]
    ensures |after| < |before|
  {
    var evicted: seq<CacheKeyRecord> :| Evicts(before, limit, evicted) && after == Evicted(before, evicted);
    var k :| k in before;
    assert Ends([k]) == {k};
    var leaf := LeafBelow(before, [k]);
    assert Evictable(before, leaf);
    assert evicted != [] by {
      assert before[leaf] in evicted || |evicted| == limit;
    }
    var gone := evicted[0].key;
    assert evicted[0] in evicted;
    assert gone in before && gone !in after;
    SubsetSize(after.Keys, before.Keys - {gone});
    assert |before.Keys - {gone}| == |before.Keys| - 1;
  }

  /** Keys on a cycle always have a child left, so no round takes them. */
  lemma CycleStays(before: CacheKeys, limit: nat, after: CacheKeys, path: seq<string>)
    requires Round(before, limit, after) && Cycle(before, path)
    ensures Cycle(after, path)
  {
    var evicted: seq<CacheKeyRecord> :| Evicts(before, limit, evicted) && after == Evicted(before, evicted);
    forall i | 0 <= i < |path| ensures path[i] in after {
      var child := if i == |path| - 1 then path[0] else path[i + 1];
      assert before[child].parentKey == Some(path[i]);
      assert HasChildren(before, path[i]);
    }
  }

  /** A run of rounds. */
  ghost predicate Rounds(states: seq<CacheKeys>, limit: nat) {
    forall i | 0 < i < |states| :: Round(states[i - 1], limit, states[i])
  }

  lemma {:induction false} RoundsShrink(states: seq<CacheKeys>, limit: nat, i: nat)
    requires Rounds(states, limit) && limit > 0 && i < |states| && AllFree(states[0]) && Acyclic(states[0])
    ensures AllFree(states[i]) && Acyclic(states[i])
    ensures |states[i]| <= if i <= |states[0]| then |states[0]| - i else 0
  {
    if i > 0 {
      RoundsShrink(states, limit, i - 1);
      assert Round(states[i - 1], limit, states[i]);
      RoundKeeps(states[i - 1], limit, states[i]);
      if states[i - 1] != map[] { RoundTakes(states[i - 1], limit, states[i]); }
    }
  }

  lemma {:induction false} CycleStaysForever(states: seq<CacheKeys>, limit: nat, i: nat, path: seq<string>)
    requires Rounds(states, limit) && i < |states| && Cycle(states[0], path)
    ensures Cycle(states[i], path)
  {
    if i > 0 {
      CycleStaysForever(states, limit, i - 1, path);
      assert Round(states[i - 1], limit, states[i]);
      CycleStays(states[i - 1], limit, states[i], path);
    }
  }

  /** With nothing held or frozen and a positive limit, as many rounds as there are keys empty the
      store exactly when the parent relation has no cycle. */
  lemma RoundsEmptyTheStore(states: seq<CacheKeys>, limit: nat)
    requires Rounds(states, limit) && limit > 0 && states != [] && AllFree(states[0]) && |states| > |states[0]|
    ensures states[|states| - 1] == map[] <==> Acyclic(states[0])
  {
    var n := |states| - 1;
    if Acyclic(states[0]) {
      RoundsShrink(states, limit, n);
      assert |states[n]| == 0;
    } else {
      var path :| Cycle(states[0], path);
      CycleStaysForever(states, limit, n, path);
      assert path[0] in states[n];
    }
  }
}
