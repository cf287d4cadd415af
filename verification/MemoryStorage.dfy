/** The in-memory backend: every record carries its own list of cache keys. */
module MemoryStorage {
  import opened Options
  import opened StorageRecords
  import opened Eviction

  // ---- Composite string keys ----

  function StorageKey(collection: string, id: string): string {
    collection + ":" + id
  }

  predicate NoColon(s: string) {
    forall i | 0 <= i < |s| :: s[i] != ':'
  }

  lemma StorageKeyInjective(a: EntityKey, b: EntityKey)
    requires NoColon(a.collection) && NoColon(b.collection)
    requires StorageKey(a.collection, a.id) == StorageKey(b.collection, b.id)
    ensures a == b
  {
    FirstColon(a);
    FirstColon(b);
    var s := StorageKey(a.collection, a.id);
    assert |a.collection| == |b.collection|;
    assert s[..|a.collection|] == a.collection && s[..|b.collection|] == b.collection;
    assert s[|a.collection| + 1..] == a.id && s[|b.collection| + 1..] == b.id;
  }

  lemma FirstColon(e: EntityKey)
    requires NoColon(e.collection)
    ensures var s := StorageKey(e.collection, e.id);
            s[|e.collection|] == ':' && forall i | 0 <= i < |e.collection| :: s[i] != ':'
  {
  }

  type ReadModels = map<string, ReadModelRecord>

  function EntryOf(r: ReadModelRecord): Entry<RowData> {
    Entry(r.data, SetOf(r.cacheKeys))
  }

  function EventEntry(r: CachedEventRecord): Entry<EventData> {
    Entry(r.data, SetOf(r.cacheKeys))
  }

  ghost predicate Keyed(m: ReadModels) {
    forall k | k in m :: k == StorageKey(m[k].collection, m[k].id) && NoColon(m[k].collection)
  }

  ghost function ViewOf(m: ReadModels): View {
    map e | e in (set k | k in m :: m[k].Entity()) :: RecordAt(m, e)
  }

  ghost function RecordAt(m: ReadModels, e: EntityKey): Entry<RowData> {
    var k := StorageKey(e.collection, e.id);
    if k in m then EntryOf(m[k]) else Entry(RowData(None, "", false, 0, None, None, None), {})
  }

  lemma ViewAt(m: ReadModels, e: EntityKey)
    requires Keyed(m) && NoColon(e.collection)
    ensures e in ViewOf(m) <==> StorageKey(e.collection, e.id) in m
    ensures e in ViewOf(m) ==> ViewOf(m)[e] == EntryOf(m[StorageKey(e.collection, e.id)])
    ensures StorageKey(e.collection, e.id) in m ==> m[StorageKey(e.collection, e.id)].Entity() == e
  {
    var k := StorageKey(e.collection, e.id);
    if k in m {
      StorageKeyInjective(m[k].Entity(), e);
    }
  }

  lemma ViewPut(m: ReadModels, r: ReadModelRecord)
    requires Keyed(m) && NoColon(r.collection)
    ensures var n := m[StorageKey(r.collection, r.id) := r];
            Keyed(n)
            && ViewOf(n) == ViewOf(m)[r.Entity() := EntryOf(r)]
  {
    var n := m[StorageKey(r.collection, r.id) := r];
    forall e: EntityKey | NoColon(e.collection)
      ensures e in ViewOf(n) <==> e in ViewOf(m) || e == r.Entity()
      ensures e in ViewOf(n) ==> ViewOf(n)[e] == if e == r.Entity() then EntryOf(r) else ViewOf(m)[e]
    {
      ViewAt(m, e);
      ViewAt(n, e);
      if StorageKey(e.collection, e.id) == StorageKey(r.collection, r.id) {
        StorageKeyInjective(e, r.Entity());
      }
    }
  }

  lemma ViewDrop(m: ReadModels, e: EntityKey)
    requires Keyed(m) && NoColon(e.collection)
    ensures var n := m - {StorageKey(e.collection, e.id)}; Keyed(n) && ViewOf(n) == ViewOf(m) - {e}
  {
    var n := m - {StorageKey(e.collection, e.id)};
    forall d: EntityKey | NoColon(d.collection)
      ensures d in ViewOf(n) <==> d in ViewOf(m) && d != e
      ensures d in ViewOf(n) ==> ViewOf(n)[d] == ViewOf(m)[d]
    {
      ViewAt(m, d);
      ViewAt(n, d);
      if StorageKey(e.collection, e.id) == StorageKey(d.collection, d.id) {
        StorageKeyInjective(e, d);
      }
    }
  }

  // ---- Counting ----

  predicate Counts(r: ReadModelRecord, c: string, key: Option<string>, filter: RowFilter) {
    r.collection == c && (key.None? || key.value in r.cacheKeys) && Passes(filter, r.id, r.data)
  }

  /** What a scan has counted when some map entries are still to come. */
  ghost function Found(m: ReadModels, pending: set<string>, c: string, key: Option<string>,
      filter: RowFilter): set<EntityKey> {
    set e | e in Matching(ViewOf(m), c, key, filter) && StorageKey(e.collection, e.id) !in pending
  }

  lemma FoundNone(m: ReadModels, c: string, key: Option<string>, filter: RowFilter)
    requires Keyed(m)
    ensures Found(m, m.Keys, c, key, filter) == {}
  {
    forall e | e in ViewOf(m) ensures StorageKey(e.collection, e.id) in m {
      ViewAt(m, e);
    }
  }

  lemma FoundStep(m: ReadModels, pending: set<string>, k: string, c: string, key: Option<string>, filter: RowFilter)
    requires Keyed(m) && k in pending && k in m
    ensures m[k].Entity() !in Found(m, pending, c, key, filter)
    ensures Found(m, pending - {k}, c, key, filter)
         == Found(m, pending, c, key, filter) + if Counts(m[k], c, key, filter) then {m[k].Entity()} else {}
  {
    var found, more := Found(m, pending, c, key, filter), Found(m, pending - {k}, c, key, filter);
    ViewAt(m, m[k].Entity());
    assert m[k].Entity() in Matching(ViewOf(m), c, key, filter) <==> Counts(m[k], c, key, filter);
    forall e | e in more && e !in found ensures e == m[k].Entity() {
      ViewAt(m, e);
      StorageKeyInjective(e, m[k].Entity());
    }
  }

  // ---- Key lists ----

  /** `Array.from(new Set([...keys, ...more]))` */
  function Merged(keys: seq<string>, more: seq<string>): (r: seq<string>)
    ensures SetOf(r) == SetOf(keys) + SetOf(more)
  {
    if more == [] then keys
    else
      var init, last := more[..|more| - 1], more[|more| - 1];
      var r := Merged(keys, init);
      assert more == init + [last];
      SetOfSnoc(init, last);
      SetOfSnoc(r, last);
      if last in r then r else r + [last]
  }

  /** `keys.filter((k) => k !== key)` */
  function Without(keys: seq<string>, key: string): (r: seq<string>)
    ensures SetOf(r) == SetOf(keys) - {key}
  {
    if keys == [] then []
    else
      var init, last := keys[..|keys| - 1], keys[|keys| - 1];
      var r := Without(init, key);
      assert keys == init + [last];
      SetOfSnoc(init, last);
      SetOfSnoc(r, last);
      if last == key then r else r + [last]
  }

  function Trimmed(m: ReadModels, key: string, pending: set<string>): ReadModels {
    map k | k in m && (k in pending || key !in m[k].cacheKeys || Without(m[k].cacheKeys, key) != []) ::
      if k in pending || key !in m[k].cacheKeys then m[k] else m[k].(cacheKeys := Without(m[k].cacheKeys, key))
  }

  lemma TrimmedStep(m: ReadModels, key: string, pending: set<string>, k: string)
    requires pending <= m.Keys && k in pending
    ensures k in Trimmed(m, key, pending) && Trimmed(m, key, pending)[k] == m[k]
    ensures Trimmed(m, key, pending - {k})
         == var now := Trimmed(m, key, pending);
            if key !in m[k].cacheKeys then now
            else if Without(m[k].cacheKeys, key) == [] then now - {k}
            else now[k := m[k].(cacheKeys := Without(m[k].cacheKeys, key))]
  {
  }

  lemma TrimmedView(m: ReadModels, key: string)
    requires Keyed(m)
    ensures Keyed(Trimmed(m, key, {})) && ViewOf(Trimmed(m, key, {})) == WithoutHeldKey(ViewOf(m), key)
  {
    var n, now, expected := Trimmed(m, key, {}), ViewOf(Trimmed(m, key, {})), WithoutHeldKey(ViewOf(m), key);
    forall e: EntityKey ensures SameAt(now, expected, e) {
      if NoColon(e.collection) {
        ViewAt(m, e);
        ViewAt(n, e);
        if StorageKey(e.collection, e.id) in m {
          TrimmedKeys(m[StorageKey(e.collection, e.id)].cacheKeys, key);
        }
      }
    }
    SameEverywhere(now, expected);
  }

  lemma TrimmedKeys(keys: seq<string>, key: string)
    ensures Without(keys, key) == [] <==> SetOf(keys) - {key} == {}
    ensures key !in keys ==> SetOf(keys) - {key} == SetOf(keys)
  {
    EmptyList(Without(keys, key));
  }

  lemma EmptyList(xs: seq<string>)
    ensures xs == [] <==> SetOf(xs) == {}
  {
    if xs != [] { assert xs[0] in SetOf(xs); }
  }

  type Events = map<string, CachedEventRecord>

  ghost function EventViewOf(m: Events): EventView {
    map id | id in m :: EventEntry(m[id])
  }

  function TrimmedEvents(m: Events, key: string, pending: set<string>): Events {
    map k | k in m && (k in pending || key !in m[k].cacheKeys || Without(m[k].cacheKeys, key) != []) ::
      if k in pending || key !in m[k].cacheKeys then m[k] else m[k].(cacheKeys := Without(m[k].cacheKeys, key))
  }

  lemma TrimmedEventView(m: Events, key: string)
    ensures EventViewOf(TrimmedEvents(m, key, {})) == WithoutHeldKey(EventViewOf(m), key)
  {
    var n := TrimmedEvents(m, key, {});
    forall id | id in m
      ensures id in n <==> id in WithoutHeldKey(EventViewOf(m), key)
      ensures id in n ==> EventEntry(n[id]) == WithoutHeldKey(EventViewOf(m), key)[id]
    {
      TrimmedKeys(m[id].cacheKeys, key);
    }
  }

  function EntitiesAt(m: ReadModels, keys: set<string>): set<EntityKey> {
    set k | k in keys && k in m :: m[k].Entity()
  }

  lemma {:induction false} ViewSize(m: ReadModels, keys: set<string>)
    requires Keyed(m) && keys <= m.Keys
    ensures |EntitiesAt(m, keys)| == |keys|
  {
    if keys != {} {
      var k :| k in keys;
      ViewSize(m, keys - {k});
      assert EntitiesAt(m, keys) == EntitiesAt(m, keys - {k}) + {m[k].Entity()};
    }
  }

  /** The revision pair of a record that a scan has passed. */
  predicate Revised(m: ReadModels, c: string, id: string, rev: string, pending: set<string>) {
    var k := StorageKey(c, id);
    k in m && k !in pending && m[k].collection == c && m[k].data.revision == Some(rev)
  }

  lemma RevisedStep(m: ReadModels, c: string, pending: set<string>, k: string)
    requires Keyed(m) && k in m && k in pending
    ensures forall id, rev :: Revised(m, c, id, rev, pending - {k}) <==>
              Revised(m, c, id, rev, pending) || (m[k].collection == c && m[k].id == id
                  && m[k].data.revision == Some(rev))
    ensures m[k].collection == c ==> forall rev :: !Revised(m, c, m[k].id, rev, pending)
  {
    forall id, rev
      ensures Revised(m, c, id, rev, pending - {k}) <==>
                Revised(m, c, id, rev, pending) || (m[k].collection == c && m[k].id == id
                    && m[k].data.revision == Some(rev))
    {
      if StorageKey(c, id) == k && m[k].collection == c {
        assert StorageKey(c, id)[|c| + 1..] == id && StorageKey(c, m[k].id)[|c| + 1..] == m[k].id;
      }
    }
  }

  lemma RevisedView(m: ReadModels, c: string, id: string, rev: string)
    requires Keyed(m) && NoColon(c)
    ensures (id, rev) in RevisionsIn(ViewOf(m), c) <==> Revised(m, c, id, rev, {})
  {
    ViewAt(m, EntityKey(c, id));
    if (id, rev) in RevisionsIn(ViewOf(m), c) {
      var e :| e in ViewOf(m) && e.collection == c && ViewOf(m)[e].data.revision.Some?
            && (e.id, ViewOf(m)[e].data.revision.value) == (id, rev);
      assert e == EntityKey(c, id);
    }
    if Revised(m, c, id, rev, {}) {
      var e := EntityKey(c, id);
      assert e in ViewOf(m) && ViewOf(m)[e].data.revision == Some(rev);
    }
  }

  // ---- The backend ----

  class InMemoryStorage {
    var cacheKeys: map<string, CacheKeyRecord>
    var cachedEvents: Events
    var readModels: ReadModels

    /** Collection names are SQL identifiers, hence without a colon. */
    ghost predicate Valid()
      reads this
    {
      && Keyed(readModels)
      && (forall id | id in cachedEvents :: cachedEvents[id].id == id)
      && (forall k | k in cacheKeys :: cacheKeys[k].key == k)
    }

    ghost function View(): View
      reads this
    {
      ViewOf(readModels)
    }

    ghost function EventView(): EventView
      reads this
    {
      EventViewOf(cachedEvents)
    }

    constructor ()
      ensures Valid() && View() == map[] && EventView() == map[] && cacheKeys == map[]
    {
      cacheKeys, cachedEvents, readModels := map[], map[], map[];
    }

    method SaveReadModels(records: seq<ReadModelRecord>)
      requires Valid() && forall r | r in records :: NoColon(r.collection)
      modifies `readModels
      ensures Valid() && View() == Saved(old(View()), records)
    {
      assert Saved(View(), []) == View();
      for i := 0 to |records|
        invariant Valid() && View() == Saved(old(View()), records[..i])
      {
        var r := records[i];
        ViewPut(readModels, r);
        SavedOne(old(View()), records[..i], r);
        assert records[..i + 1] == records[..i] + [r];
        readModels := readModels[StorageKey(r.collection, r.id) := r];
      }
      assert records[..|records|] == records;
    }

    method AddCacheKeysToReadModels(entries: seq<KeyAddition>)
      requires Valid() && forall a | a in entries :: NoColon(a.collection)
      modifies `readModels
      ensures Valid() && View() == Added(old(View()), entries)
    {
      NothingAdded(View());
      for i := 0 to |entries|
        invariant Valid() && View() == Added(old(View()), entries[..i])
      {
        var a := entries[i];
        AddedOne(old(View()), entries[..i], a);
        assert entries[..i + 1] == entries[..i] + [a];
        var key := StorageKey(a.collection, a.id);
        ViewAt(readModels, a.Entity());
        if key in readModels {
          var r := readModels[key];
          var merged := r.(cacheKeys := Merged(r.cacheKeys, a.cacheKeys));
          ViewPut(readModels, merged);
          readModels := readModels[key := merged];
        }
      }
      assert entries[..|entries|] == entries;
    }

    method DeleteReadModels(entries: seq<EntityKey>)
      requires Valid() && forall e | e in entries :: NoColon(e.collection)
      modifies `readModels
      ensures Valid() && View() == Deleted(old(View()), entries)
    {
      for i := 0 to |entries|
        invariant Valid() && View() == Deleted(old(View()), entries[..i])
      {
        ViewDrop(readModels, entries[i]);
        assert SetOf(entries[..i + 1]) == SetOf(entries[..i]) + {entries[i]};
        readModels := readModels - {StorageKey(entries[i].collection, entries[i].id)};
      }
      assert entries[..|entries|] == entries;
    }

    method MigrateReadModelIds(batch: seq<Migration>)
      requires Valid() && forall m | m in batch :: NoColon(m.collection)
      modifies `readModels
      ensures Valid() && View() == MigratedInTurn(old(View()), batch)
      ensures DistinctSources(batch) && !Chained(old(View()), batch) ==> View() == Migrated(old(View()), batch)
    {
      for i := 0 to |batch|
        invariant Valid() && View() == MigratedInTurn(old(View()), batch[..i])
      {
        var m := batch[i];
        assert batch[..i + 1][..i] == batch[..i];
        var fromKey, toKey := StorageKey(m.collection, m.fromId), StorageKey(m.collection, m.toId);
        ViewAt(readModels, m.Source());
        if fromKey in readModels {
          var existing := readModels[fromKey];
          var moved := existing.(id := m.toId, data := m.Applied(existing.data));
          ViewPut(readModels, moved);
          readModels := readModels[toKey := moved];
          if fromKey != toKey {
            ViewDrop(readModels, m.Source());
            readModels := readModels - {fromKey};
          } else {
            StorageKeyInjective(m.Source(), m.Target());
          }
        }
      }
      assert batch[..|batch|] == batch;
      if DistinctSources(batch) && !Chained(old(View()), batch) { InTurnIsAtOnce(old(View()), batch); }
    }

    /** Records that hold the key lose it, and go if it was their last. */
    method RemoveCacheKeyFromReadModels(key: string)
      requires Valid()
      modifies `readModels
      ensures Valid() && View() == WithoutHeldKey(old(View()), key)
    {
      var pending := readModels.Keys;
      while pending != {}
        invariant pending <= old(readModels).Keys && readModels == Trimmed(old(readModels), key, pending)
      {
        var k :| k in pending;
        TrimmedStep(old(readModels), key, pending, k);
        var r := readModels[k];
        if key in r.cacheKeys {
          var remaining := Without(r.cacheKeys, key);
          if remaining == [] {
            readModels := readModels - {k};
          } else {
            readModels := readModels[k := r.(cacheKeys := remaining)];
          }
        }
        pending := pending - {k};
      }
      TrimmedView(old(readModels), key);
    }

    method RemoveCacheKeyFromEvents(key: string)
      requires Valid()
      modifies `cachedEvents
      ensures Valid() && EventView() == WithoutHeldKey(old(EventView()), key)
    {
      var pending := cachedEvents.Keys;
      while pending != {}
        invariant pending <= old(cachedEvents).Keys && cachedEvents == TrimmedEvents(old(cachedEvents), key, pending)
      {
        var k :| k in pending;
        var r := cachedEvents[k];
        if key in r.cacheKeys {
          var remaining := Without(r.cacheKeys, key);
          if remaining == [] {
            cachedEvents := cachedEvents - {k};
          } else {
            cachedEvents := cachedEvents[k := r.(cacheKeys := remaining)];
          }
        }
        pending := pending - {k};
      }
      TrimmedEventView(old(cachedEvents), key);
    }

    method GetReadModelCount() returns (n: nat)
      requires Valid()
      ensures n == |View()|
    {
      ViewSize(readModels, readModels.Keys);
      assert View().Keys == EntitiesAt(readModels, readModels.Keys);
      n := |readModels|;
    }

    /** An empty cache key counts as none. */
    method CountReadModels(collection: string, cacheKey: Option<string>, filter: RowFilter) returns (count: nat)
      requires Valid() && NoColon(collection)
      ensures count == |Matching(View(), collection, if cacheKey == Some("") then None else cacheKey, filter)|
    {
      var key := if cacheKey == Some("") then None else cacheKey;
      count := 0;
      var pending := readModels.Keys;
      FoundNone(readModels, collection, key, filter);
      while pending != {}
        invariant pending <= readModels.Keys && count == |Found(readModels, pending, collection, key, filter)|
      {
        var k :| k in pending;
        FoundStep(readModels, pending, k, collection, key, filter);
        if Counts(readModels[k], collection, key, filter) {
          count := count + 1;
        }
        pending := pending - {k};
      }
      assert Found(readModels, {}, collection, key, filter) == Matching(View(), collection, key, filter);
    }

    method GetReadModelRevisions(collection: string) returns (results: seq<(string, string)>)
      requires Valid() && NoColon(collection)
      ensures SetOf(results) == RevisionsIn(View(), collection)
      ensures forall i, j | 0 <= i < j < |results| :: results[i].0 != results[j].0
    {
      results := [];
      var pending := readModels.Keys;
      while pending != {}
        invariant pending <= readModels.Keys
        invariant forall id, rev :: (id, rev) in results <==> Revised(readModels, collection, id, rev, pending)
        invariant forall i, j | 0 <= i < j < |results| :: results[i].0 != results[j].0
      {
        var k :| k in pending;
        var r := readModels[k];
        RevisedStep(readModels, collection, pending, k);
        if r.collection == collection && r.data.revision.Some? {
          forall i | 0 <= i < |results| ensures results[i].0 != r.id {
            assert (results[i].0, results[i].1) in results;
          }
          results := results + [(r.id, r.data.revision.value)];
        }
        pending := pending - {k};
      }
      forall p: (string, string) ensures p in RevisionsIn(View(), collection) <==> p in results {
        RevisedView(readModels, collection, p.0, p.1);
        assert p == (p.0, p.1);
      }
    }

    method GetEvictableCacheKeys(limit: nat) returns (evicted: seq<CacheKeyRecord>)
      requires Valid()
      ensures Evicts(cacheKeys, limit, evicted)
      ensures LeastRecentlyUsed(cacheKeys, false, limit, evicted)
    {
      evicted := EvictableCacheKeys(cacheKeys, limit);
    }

    method DeleteCacheKeyInternal(key: string)
      requires Valid()
      modifies this
      ensures Valid() && cacheKeys == old(cacheKeys) - {key}
      ensures View() == WithoutHeldKey(old(View()), key)
      ensures EventView() == WithoutHeldKey(old(EventView()), key)
    {
      cacheKeys := cacheKeys - {key};
      RemoveCacheKeyFromEvents(key);
      RemoveCacheKeyFromReadModels(key);
    }

    /** When every record holds a key, what is left holds a key outside the list, and exactly its
        keys outside the list. */
    method DeleteCacheKeys(keys: seq<string>)
      requires Valid()
      modifies this
      ensures Valid() && cacheKeys == old(cacheKeys) - SetOf(keys)
      ensures View() == WithoutHeldKeys(old(View()), keys)
      ensures EventView() == WithoutHeldKeys(old(EventView()), keys)
      ensures AllKeyed(old(View())) ==> View() == WithoutKeys(old(View()), SetOf(keys))
      ensures AllKeyed(old(EventView())) ==> EventView() == WithoutKeys(old(EventView()), SetOf(keys))
    {
      for i := 0 to |keys|
        invariant Valid() && cacheKeys == old(cacheKeys) - SetOf(keys[..i])
        invariant View() == WithoutHeldKeys(old(View()), keys[..i])
        invariant EventView() == WithoutHeldKeys(old(EventView()), keys[..i])
      {
        assert SetOf(keys[..i + 1]) == SetOf(keys[..i]) + {keys[i]};
        assert keys[..i + 1][..i] == keys[..i];
        DeleteCacheKeyInternal(keys[i]);
      }
      assert keys[..|keys|] == keys;
      if AllKeyed(old(View())) { HeldKeysAgreement(old(View()), keys); }
      if AllKeyed(old(EventView())) { HeldKeysAgreement(old(EventView()), keys); }
    }
  }

  lemma NothingAdded(view: View)
    ensures Added(view, []) == view
  {
    assert forall e | e in view :: view[e].cacheKeys + AddedKeys([], e) == view[e].cacheKeys;
  }
}
