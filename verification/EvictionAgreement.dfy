/** The eviction query of the SQL backend, and when it evicts what the in-memory backend evicts. */
module EvictionAgreement {
  import opened Options
  import opened StorageRecords
  import opened StableSort
  import opened Eviction

  /** The query asks for a hold count of exactly zero. */
  predicate SqlFree(r: CacheKeyRecord) {
    r.holdCount == 0 && !r.frozen && !r.inheritedFrozen
  }

  function SqlEvictableKeys(keys: CacheKeys): set<string> {
    set k | k in keys && SqlFree(keys[k]) && !HasChildren(keys, k)
  }

  /** A result of the query: rows of equal rank may come in any order. */
  ghost predicate SqlEvicts(keys: CacheKeys, limit: nat, evicted: seq<CacheKeyRecord>) {
    TakesFirst(keys, SqlEvictableKeys(keys), limit, evicted)
  }

  method QueryEvictable(keys: CacheKeys, limit: nat) returns (evicted: seq<CacheKeyRecord>)
    requires KeyedByKey(keys)
    ensures SqlEvicts(keys, limit, evicted)
    ensures LeastRecentlyUsed(keys, true, limit, evicted)
  {
    var rows := [];
    var pending := SqlEvictableKeys(keys);
    ghost var done := {};
    while pending != {}
      invariant done !! pending && done + pending == SqlEvictableKeys(keys)
      invariant Lists(keys, done, rows)
    {
      var k :| k in pending;
      rows := rows + [keys[k]];
      done, pending := done + {k}, pending - {k};
    }
    evicted := FirstOf(keys, SqlEvictableKeys(keys), rows, limit);
    forall k | k in keys ensures k in SqlEvictableKeys(keys) <==> keys[k].holdCount == 0 && Leaf(keys, keys[k]) {
    }
    TakesLeastRecentlyUsed(keys, SqlEvictableKeys(keys), true, limit, evicted);
  }

  // ---- The same keys, up to those of equal rank ----

  function KeySet(records: seq<CacheKeyRecord>): set<string> {
    set r | r in records :: r.key
  }

  lemma {:induction false} DistinctKeys(records: seq<CacheKeyRecord>)
    requires forall i, j | 0 <= i < j < |records| :: records[i].key != records[j].key
    ensures |KeySet(records)| == |records|
  {
    if records != [] {
      var init, last := records[..|records| - 1], records[|records| - 1];
      DistinctKeys(init);
      assert records == init + [last];
      assert KeySet(records) == KeySet(init) + {last.key} && last.key !in KeySet(init);
    }
  }

  lemma TakenCount(keys: CacheKeys, among: set<string>, limit: nat, first: seq<CacheKeyRecord>)
    requires KeyedByKey(keys) && TakesFirst(keys, among, limit, first)
    ensures |first| == if limit < |among| then limit else |among|
  {
    DistinctKeys(first);
    forall k | k in KeySet(first) ensures k in among {
      var r :| r in first && r.key == k;
      var i :| 0 <= i < |first| && first[i] == r;
    }
    SubsetSize(KeySet(first), among);
    if |first| < limit {
      forall k | k in among ensures k in KeySet(first) {
        assert keys[k] in first;
        var i :| 0 <= i < |first| && first[i] == keys[k];
        assert first[i].key in among && Holds(keys, first[i]);
      }
      assert KeySet(first) == among;
    }
  }

  predicate SameRank(a: CacheKeyRecord, b: CacheKeyRecord) {
    EvictedFirst(a, b) && EvictedFirst(b, a)
  }

  /** Of the first i + 1 records of one result, one is missing from the first i of another. */
  lemma OneMissing(a: seq<CacheKeyRecord>, b: seq<CacheKeyRecord>, i: nat) returns (m: nat)
    requires i < |a| && i <= |b| && forall m, n | 0 <= m < n < |a| :: a[m].key != a[n].key
    requires forall m, n | 0 <= m < n < |b| :: b[m].key != b[n].key
    ensures m <= i && a[m].key !in KeySet(b[..i])
  {
    DistinctKeys(a[..i + 1]);
    DistinctKeys(b[..i]);
    if KeySet(a[..i + 1]) <= KeySet(b[..i]) {
      SubsetSize(KeySet(a[..i + 1]), KeySet(b[..i]));
    }
    var k :| k in KeySet(a[..i + 1]) && k !in KeySet(b[..i]);
    var r :| r in a[..i + 1] && r.key == k;
    m :| 0 <= m < i + 1 && a[m] == r;
  }

  lemma RankedNoLater(keys: CacheKeys, among: set<string>, limit: nat, a: seq<CacheKeyRecord>, b: seq<CacheKeyRecord>,
      i: nat)
    requires TakesFirst(keys, among, limit, a) && TakesFirst(keys, among, limit, b) && i < |a| && i < |b|
    ensures EvictedFirst(b[i], a[i])
  {
    var m := OneMissing(a, b, i);
    assert a[m].key in among && Holds(keys, a[m]);
    assert m < i ==> EvictionOrder()(a[m], a[i]);
    forall n | 0 <= n < i ensures b[n] != a[m] {
      assert b[..i][n] in b[..i];
    }
    if a[m] in b {
      var n :| 0 <= n < |b| && b[n] == a[m];
      assert i < n ==> EvictionOrder()(b[i], b[n]);
    } else {
      assert AfterAll(b, a[m]);
    }
  }

  /** Two results over the same keys agree in length and, place by place, in rank. */
  lemma SameRanks(keys: CacheKeys, among: set<string>, limit: nat, a: seq<CacheKeyRecord>, b: seq<CacheKeyRecord>)
    requires KeyedByKey(keys) && TakesFirst(keys, among, limit, a) && TakesFirst(keys, among, limit, b)
    ensures |a| == |b| && forall i | 0 <= i < |a| :: SameRank(a[i], b[i])
  {
    TakenCount(keys, among, limit, a);
    TakenCount(keys, among, limit, b);
    forall i | 0 <= i < |a| ensures SameRank(a[i], b[i]) {
      RankedNoLater(keys, among, limit, a, b, i);
      RankedNoLater(keys, among, limit, b, a, i);
    }
  }

  ghost predicate NoTies(keys: CacheKeys, among: set<string>) {
    forall k, l | k in among && l in among && k in keys && l in keys && SameRank(keys[k], keys[l]) :: k == l
  }

  lemma SameResult(keys: CacheKeys, among: set<string>, limit: nat, a: seq<CacheKeyRecord>, b: seq<CacheKeyRecord>)
    requires KeyedByKey(keys) && TakesFirst(keys, among, limit, a) && TakesFirst(keys, among, limit, b)
    requires NoTies(keys, among)
    ensures a == b
  {
    SameRanks(keys, among, limit, a, b);
    forall i | 0 <= i < |a| ensures a[i] == b[i] {
      assert SameRank(a[i], b[i]);
      assert a[i].key in among && Holds(keys, a[i]) && b[i].key in among && Holds(keys, b[i]);
    }
  }

  // ---- The two backends ----

  /** No hold count is below zero, where it would matter. */
  ghost predicate HeldOrZero(keys: CacheKeys) {
    forall k | k in keys && Evictable(keys, k) :: keys[k].holdCount == 0
  }

  lemma {:induction false} Enumerated(keys: CacheKeys, among: set<string>) returns (records: seq<CacheKeyRecord>)
    requires KeyedByKey(keys) && among <= keys.Keys
    ensures Lists(keys, among, records)
    decreases among
  {
    if among == {} {
      records := [];
    } else {
      var k :| k in among;
      records := Enumerated(keys, among - {k});
      records := records + [keys[k]];
    }
  }

  /** The backends evict alike, whatever the limit, exactly when no evictable key has a negative hold count. */
  lemma EvictionsAgree(keys: CacheKeys)
    requires KeyedByKey(keys)
    ensures (forall limit: nat, evicted :: Evicts(keys, limit, evicted) <==> SqlEvicts(keys, limit, evicted))
            <==> HeldOrZero(keys)
  {
    if HeldOrZero(keys) {
      assert EvictableKeys(keys) == SqlEvictableKeys(keys);
    } else {
      var k :| k in keys && Evictable(keys, k) && keys[k].holdCount != 0;
      var records := Enumerated(keys, EvictableKeys(keys));
      var sorted := StableSorted(records, EvictionOrder());
      SortedLists(keys, EvictableKeys(keys), records);
      LeastTaken(keys, EvictableKeys(keys), sorted, |sorted|);
      assert keys[k] in sorted && k !in SqlEvictableKeys(keys);
      assert Evicts(keys, |sorted|, sorted) && !SqlEvicts(keys, |sorted|, sorted);
    }
  }

  /** Then their choices have the same length and ranks, and are the same if no two evictable keys tie. */
  lemma EvictionAgreement(keys: CacheKeys, limit: nat, a: seq<CacheKeyRecord>, b: seq<CacheKeyRecord>)
    requires KeyedByKey(keys) && Evicts(keys, limit, a) && SqlEvicts(keys, limit, b) && HeldOrZero(keys)
    ensures |a| == |b| && forall i | 0 <= i < |a| :: SameRank(a[i], b[i])
    ensures NoTies(keys, EvictableKeys(keys)) ==> a == b
  {
    assert EvictableKeys(keys) == SqlEvictableKeys(keys);
    SameRanks(keys, EvictableKeys(keys), limit, a, b);
    if NoTies(keys, EvictableKeys(keys)) {
      SameResult(keys, EvictableKeys(keys), limit, a, b);
    }
  }
}
