/** Removing cache keys in SQL: what is left of records, events and parent/child junctions. */
module SqlKeyRemoval {
  import opened StorageRecords
  import opened SqlDatabase
  import opened SqliteTables

  // ---- One cache key ----

  predicate ParentAt(db: Database, parentOf: map<string, string>, j: string, p: Pair) {
    j in parentOf && parentOf[j] in db.tables && p.0 in db.tables[parentOf[j]].rows
  }

  ghost predicate ParentsExist(db: Database, parentOf: map<string, string>) {
    forall j, p | j in db.junctions && p in db.junctions[j] :: ParentAt(db, parentOf, j, p)
  }

  function JunctionTrimmed(db: Database, parentOf: map<string, string>, done: set<string>, key: string,
      j: string): Junction
    requires j in db.junctions
  {
    if j in parentOf && parentOf[j] in done && parentOf[j] in db.tables
    then WithoutParents(db.junctions[j], Doomed(db.tables[parentOf[j]], key))
    else db.junctions[j]
  }

  /** The key gone from some collections. */
  function CollectionsTrimmed(db: Database, parentOf: map<string, string>, done: set<string>, key: string): Database {
    Changed(db, done, RemoveChange(key)).(junctions := map j | j in db.junctions ::
        JunctionTrimmed(db, parentOf, done, key, j))
  }

  lemma JunctionTrimmedOne(db: Database, mid: Database, parentOf: map<string, string>, done: set<string>, key: string,
                           c: string, j: string)
    requires c !in done && j in db.junctions && mid == CollectionsTrimmed(db, parentOf, done, key)
    ensures JunctionTrimmed(mid, parentOf, {c}, key, j) == JunctionTrimmed(db, parentOf, done + {c}, key, j)
  {
  }

  lemma CollectionsTrimmedOne(db: Database, parentOf: map<string, string>, done: set<string>, key: string, c: string)
    requires c !in done
    ensures CollectionsTrimmed(CollectionsTrimmed(db, parentOf, done, key), parentOf, {c}, key)
         == CollectionsTrimmed(db, parentOf, done + {c}, key)
  {
    var mid := CollectionsTrimmed(db, parentOf, done, key);
    TablesTrimmedOne(db, mid, done, key, c);
    var twice, once := CollectionsTrimmed(mid, parentOf, {c}, key), CollectionsTrimmed(db, parentOf, done + {c}, key);
    forall j | j in db.junctions ensures twice.junctions[j] == once.junctions[j] {
      JunctionTrimmedOne(db, mid, parentOf, done, key, c, j);
    }
    assert twice.junctions == once.junctions;
  }

  lemma TablesTrimmedOne(db: Database, mid: Database, done: set<string>, key: string, c: string)
    requires c !in done && mid.tables == Changed(db, done, RemoveChange(key)).tables
    ensures Changed(mid, {c}, RemoveChange(key)).tables == Changed(db, done + {c}, RemoveChange(key)).tables
  {
  }

  function KeyDropped(db: Database, parentOf: map<string, string>, key: string): Database {
    CollectionsTrimmed(
      db.(cacheKeys := db.cacheKeys - {key}, events := KeyRemoved(db.events, key)), parentOf, db.tables.Keys, key)
  }

  function KeysDropped(db: Database, parentOf: map<string, string>, keys: seq<string>): Database {
    if keys == [] then db else KeyDropped(KeysDropped(db, parentOf, keys[..|keys| - 1]), parentOf, keys[|keys| - 1])
  }

  ghost predicate EveryRowKeyed<D>(t: Table<D>) {
    forall id | id in t.rows :: KeysOf(t, id) != {}
  }

  lemma DoomedKeys<D>(t: Table<D>, key: string, id: string)
    ensures id in Doomed(t, key) <==> KeysOf(t, id) == {key}
  {
    KeyListed(t, id, key);
    if p :| p in t.keys && p.1 == key && !(exists q | q in t.keys :: q.0 == p.0 && q.1 != key) && p.0 == id {
      forall k | k in KeysOf(t, id) ensures k == key {
        KeyListed(t, id, k);
        var q := (id, k);
        assert q in t.keys && q.0 == p.0;
      }
    }
    if KeysOf(t, id) == {key} {
      var p := (id, key);
      assert p in t.keys && p.0 == id && p.1 == key;
      assert forall q | q in t.keys && q.0 == p.0 :: q.1 in KeysOf(t, id);
    }
  }

  /** A row that has a key goes exactly when it is doomed: the removed key is its only one. */
  lemma DoomedRow<D>(t: Table<D>, key: string, id: string)
    requires id in t.rows && KeysOf(t, id) != {}
    ensures id in Doomed(t, key) <==> id !in KeyRemoved(t, key).rows
  {
    KeyRemovedRow(t, key, id);
    DoomedKeys(t, key, id);
  }

  lemma TrimmedJunction(db: Database, parentOf: map<string, string>, key: string, j: string)
    requires ParentsExist(db, parentOf) && j in db.junctions && forall c | c in db.tables :: EveryRowKeyed(db.tables[c])
    ensures JunctionOfSurvivors(
              db.junctions[j], JunctionTrimmed(db, parentOf, db.tables.Keys, key, j), KeyDropped(db, parentOf, key),
                  parentOf, j)
  {
    forall p | p in db.junctions[j]
      ensures p.0 in Doomed(db.tables[parentOf[j]], key) <==> p.0 !in KeyRemoved(db.tables[parentOf[j]], key).rows
    {
      DoomedRow(db.tables[parentOf[j]], key, p.0);
    }
  }

  /** No junction pair outlives its parent, and a parent that stays keeps all its pairs. */
  lemma KeyDroppedJunctions(db: Database, parentOf: map<string, string>, key: string)
    requires ParentsExist(db, parentOf) && forall c | c in db.tables :: EveryRowKeyed(db.tables[c])
    ensures ParentsExist(KeyDropped(db, parentOf, key), parentOf)
    ensures PairsOfSurvivors(db, KeyDropped(db, parentOf, key), parentOf)
  {
    var now := KeyDropped(db, parentOf, key);
    var dropped := db.(cacheKeys := db.cacheKeys - {key}, events := KeyRemoved(db.events, key));
    forall j | j in db.junctions
      ensures JunctionOfSurvivors(db.junctions[j], now.junctions[j], now, parentOf, j)
    {
      TrimmedJunction(db, parentOf, key, j);
      assert now.junctions[j] == JunctionTrimmed(dropped, parentOf, db.tables.Keys, key, j);
    }
  }

  ghost predicate PairsOfSurvivors(was: Database, now: Database, parentOf: map<string, string>) {
    && now.tables.Keys == was.tables.Keys && now.junctions.Keys == was.junctions.Keys
    && forall j | j in was.junctions :: JunctionOfSurvivors(was.junctions[j], now.junctions[j], now, parentOf, j)
  }

  ghost predicate JunctionOfSurvivors(was: Junction, now: Junction, db: Database, parentOf: map<string, string>,
      j: string) {
    && (forall p | p in now :: p in was && now[p] == was[p])
    && (forall p | p in was :: p in now <==>
          j in parentOf && parentOf[j] in db.tables
          && p.0 in db.tables[parentOf[j]].rows)
  }

  // ---- A list of cache keys ----

  ghost predicate AllRowsKeyed(db: Database) {
    EveryRowKeyed(db.events) && forall c | c in db.tables :: EveryRowKeyed(db.tables[c])
  }

  lemma KeyedView(db: Database)
    ensures AllRowsKeyed(db) <==> AllKeyed(ViewOf(db)) && AllKeyed(TableView(db.events))
  {
    forall c, id | c in db.tables && id in db.tables[c].rows
        ensures ViewOf(db)[EntityKey(c, id)].cacheKeys == KeysOf(db.tables[c], id) {
      ViewAt(db, EntityKey(c, id));
    }
    if AllKeyed(ViewOf(db)) {
      forall c, id | c in db.tables && id in db.tables[c].rows ensures KeysOf(db.tables[c], id) != {} {
        ViewAt(db, EntityKey(c, id));
      }
    }
    if AllKeyed(TableView(db.events)) {
      forall id | id in db.events.rows ensures KeysOf(db.events, id) != {} {
        assert id in TableView(db.events);
      }
    }
  }

  lemma KeyedAfterRemoval<K, D>(view: map<K, Entry<D>>, keys: set<string>)
    ensures AllKeyed(WithoutKeys(view, keys))
  {
  }

  lemma KeyDroppedFaithful(db: Database, parentOf: map<string, string>, key: string)
    requires AllLinked(db)
    ensures var now := KeyDropped(db, parentOf, key);
            AllLinked(now) && AllRowsKeyed(now) && ShowsWithout(now, db, {key})
  {
    var now := KeyDropped(db, parentOf, key);
    RemoveAgreement(db, key);
    KeyRemovedView(db.events, key);
    var changed := Changed(db, db.tables.Keys, RemoveChange(key));
    assert now.tables == changed.tables;
    assert Entities(now) == Entities(changed);
    assert ViewOf(now) == ViewOf(changed);
    KeyedAfterRemoval(ViewOf(db), {key});
    KeyedAfterRemoval(TableView(db.events), {key});
    KeyedView(now);
  }

  lemma SurvivorsTwice(was: Database, mid: Database, now: Database, parentOf: map<string, string>)
    requires PairsOfSurvivors(was, mid, parentOf) && PairsOfSurvivors(mid, now, parentOf)
    requires forall c | c in mid.tables :: now.tables[c].rows.Keys <= mid.tables[c].rows.Keys
    ensures PairsOfSurvivors(was, now, parentOf)
  {
    forall j | j in was.junctions ensures JunctionOfSurvivors(was.junctions[j], now.junctions[j], now, parentOf, j) {
      assert JunctionOfSurvivors(was.junctions[j], mid.junctions[j], mid, parentOf, j);
      assert JunctionOfSurvivors(mid.junctions[j], now.junctions[j], now, parentOf, j);
    }
  }

  lemma RowsShrink(db: Database, parentOf: map<string, string>, key: string)
    ensures var now := KeyDropped(db, parentOf, key);
            now.tables.Keys == db.tables.Keys && forall c | c in db.tables ::
                now.tables[c].rows.Keys <= db.tables[c].rows.Keys
  {
  }

  lemma SurvivorsOfNothing(db: Database, parentOf: map<string, string>)
    requires ParentsExist(db, parentOf)
    ensures PairsOfSurvivors(db, db, parentOf)
  {
    forall j | j in db.junctions ensures JunctionOfSurvivors(db.junctions[j], db.junctions[j], db, parentOf, j) {
      assert forall p | p in db.junctions[j] :: p.0 in db.tables[parentOf[j]].rows;
    }
  }

  /** What a client sees after some cache keys are gone. */
  ghost predicate ShowsWithout(now: Database, db: Database, keys: set<string>) {
    && ViewOf(now) == WithoutKeys(ViewOf(db), keys)
    && TableView(now.events) == WithoutKeys(TableView(db.events), keys)
    && now.cacheKeys == db.cacheKeys - keys
  }

  lemma ShowsWithoutNothing(db: Database)
    requires AllRowsKeyed(db)
    ensures ShowsWithout(db, db, {})
  {
    KeyedView(db);
    WithoutNoKeys(ViewOf(db));
    WithoutNoKeys(TableView(db.events));
  }

  lemma ShowsWithoutMore(now: Database, mid: Database, db: Database, keys: set<string>, key: string)
    requires ShowsWithout(mid, db, keys) && ShowsWithout(now, mid, {key})
    ensures ShowsWithout(now, db, keys + {key})
  {
    WithoutKeysTwice(ViewOf(db), keys, {key});
    WithoutKeysTwice(TableView(db.events), keys, {key});
  }

  /** Whatever the list, its order and its repeats: what is left holds a key outside the list. */
  lemma {:induction false} KeysDroppedFaithful(db: Database, parentOf: map<string, string>, keys: seq<string>)
    requires AllLinked(db) && AllRowsKeyed(db)
    ensures var now := KeysDropped(db, parentOf, keys);
            AllLinked(now) && AllRowsKeyed(now)
            && ShowsWithout(now, db, SetOf(keys))
  {
    if keys == [] {
      ShowsWithoutNothing(db);
      assert SetOf(keys) == {};
    } else {
      var init, last := keys[..|keys| - 1], keys[|keys| - 1];
      var mid := KeysDropped(db, parentOf, init);
      KeysDroppedFaithful(db, parentOf, init);
      KeyDroppedFaithful(mid, parentOf, last);
      ShowsWithoutMore(KeysDropped(db, parentOf, keys), mid, db, SetOf(init), last);
      assert keys == init + [last];
      assert SetOf(keys) == SetOf(init) + {last};
    }
  }

  /** No junction pair outlives its parent, and a parent that stays keeps all its pairs. */
  lemma {:induction false} KeysDroppedJunctions(db: Database, parentOf: map<string, string>, keys: seq<string>)
    requires AllLinked(db) && AllRowsKeyed(db) && ParentsExist(db, parentOf)
    ensures ParentsExist(KeysDropped(db, parentOf, keys), parentOf)
    ensures PairsOfSurvivors(db, KeysDropped(db, parentOf, keys), parentOf)
  {
    if keys == [] {
      SurvivorsOfNothing(db, parentOf);
    } else {
      var init, last := keys[..|keys| - 1], keys[|keys| - 1];
      var mid := KeysDropped(db, parentOf, init);
      KeysDroppedJunctions(db, parentOf, init);
      KeysDroppedFaithful(db, parentOf, init);
      KeyDroppedJunctions(mid, parentOf, last);
      RowsShrink(mid, parentOf, last);
      SurvivorsTwice(db, mid, KeysDropped(db, parentOf, keys), parentOf);
    }
  }
}
