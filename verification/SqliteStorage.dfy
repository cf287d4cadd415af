/** The SQL backend: each operation builds an ordered list of statements and runs it as one batch. */
module SqliteStorage {
  import opened Options
  import opened StorageRecords
  import opened SqlDatabase
  import opened SqliteTables
  import opened SqliteMigration
  import Rings = SqliteMigrationRings
  import opened SqlJunctions
  import opened SqlKeyRemoval
  import opened SqlBatches
  import Eviction
  import EvictionAgreement

  // ---- Counting ----

  function EntitiesFor(c: string, ids: set<string>): set<EntityKey> {
    set id | id in ids :: EntityKey(c, id)
  }

  lemma {:induction false} ImageOfIds(c: string, ids: set<string>)
    ensures |EntitiesFor(c, ids)| == |ids|
  {
    if ids != {} {
      var id :| id in ids;
      ImageOfIds(c, ids - {id});
      assert EntitiesFor(c, ids) == EntitiesFor(c, ids - {id}) + {EntityKey(c, id)};
    }
  }

  function EntitiesIn(db: Database, done: set<string>): set<EntityKey> {
    set c, id | c in done && c in db.tables && id in db.tables[c].rows :: EntityKey(c, id)
  }

  lemma EntitiesInOne(db: Database, done: set<string>, c: string)
    requires c in db.tables && c !in done
    ensures |EntitiesIn(db, done + {c})| == |EntitiesIn(db, done)| + |db.tables[c].rows|
  {
    var ids := db.tables[c].rows.Keys;
    assert EntitiesIn(db, done + {c}) == EntitiesIn(db, done) + EntitiesFor(c, ids);
    assert EntitiesIn(db, done) !! EntitiesFor(c, ids);
    ImageOfIds(c, ids);
  }

  // ---- What a batch makes of the view ----

  lemma SaveOutcome(db: Database, records: seq<ReadModelRecord>)
    requires forall r | r in records :: r.collection in db.tables
    ensures var now := SavedDatabase(db, records);
            AllLinked(db) ==>
              && (ViewOf(now) == Saved(ViewOf(db), records) <==> SaveCovers(ViewOf(db), records))
              && (SaveCovers(ViewOf(db), records) ==> AllLinked(now))
  {
    if AllLinked(db) {
      SaveAgreement(db, records);
    }
  }

  lemma MigrateOutcome(db: Database, batch: seq<Migration>)
    requires forall m | m in batch :: m.collection in db.tables
    ensures var now := MigratedDatabase(db, batch);
            AllLinked(db) && DistinctSources(batch) ==>
              && (AllRename(db, batch) ==> AllLinked(now) && ViewOf(now) == Migrated(ViewOf(db), batch))
              && (TargetsFree(ViewOf(db), batch) ==> AllRename(db, batch))
              && (AllRename(db, batch) ==> Rings.Arrangeable(ViewOf(db), batch))
  {
    if AllLinked(db) && DistinctSources(batch) {
      MigrateAgreement(db, batch);
      if AllRename(db, batch) { Rings.RenamedBatchIsArrangeable(db, batch); }
    }
  }

  // ---- The backend ----

  class SQLiteStorage {
    const collections: set<string>
    const junctionsByParent: map<string, seq<string>>
    const sql: LocalSqliteDb
    /** The collection on the parent side of each junction table. */
    ghost const parentOf: map<string, string>

    ghost predicate Fits(db: Database) {
      db.tables.Keys == collections && db.junctions.Keys == parentOf.Keys
    }

    ghost predicate Declared() {
      && (forall c, i | c in junctionsByParent && 0 <= i < |junctionsByParent[c]| ::
            junctionsByParent[c][i] in parentOf && parentOf[junctionsByParent[c][i]] == c)
      && (forall j | j in parentOf :: parentOf[j] in junctionsByParent && j in junctionsByParent[parentOf[j]])
    }

    ghost predicate Valid()
      reads sql
    {
      Fits(sql.db) && Declared()
    }

    ghost function View(): View
      reads sql
    {
      ViewOf(sql.db)
    }

    ghost function EventView(): EventView
      reads sql
    {
      TableView(sql.db.events)
    }

    constructor (collections: set<string>, junctionsByParent: map<string, seq<string>>, ghost parentOf: map<string,
        string>, sql: LocalSqliteDb)
      ensures this.collections == collections && this.junctionsByParent == junctionsByParent
      ensures this.parentOf == parentOf && this.sql == sql
    {
      this.collections, this.junctionsByParent, this.parentOf, this.sql :=
          collections, junctionsByParent, parentOf, sql;
    }

    method SaveReadModels(records: seq<ReadModelRecord>) returns (ok: bool)
      requires Valid() && forall r | r in records :: r.collection in collections
      modifies sql
      ensures ok && Valid() && sql.db == SavedDatabase(old(sql.db), records)
      ensures old(AllLinked(sql.db)) ==> (View() == Saved(old(View()), records) <==> SaveCovers(old(View()), records))
      ensures old(AllLinked(sql.db)) && SaveCovers(old(View()), records) ==> AllLinked(sql.db)
    {
      SaveOutcome(sql.db, records);
      var statements := SaveStatements(records, sql.db);
      ok := sql.ExecBatch(statements);
    }

    method AddCacheKeysToReadModels(entries: seq<KeyAddition>) returns (ok: bool)
      requires Valid() && forall a | a in entries :: a.collection in collections
      modifies sql
      ensures ok && Valid() && sql.db == AddedDatabase(old(sql.db), entries)
      ensures old(AllLinked(sql.db)) ==> (AllLinked(sql.db) <==> AddOk(old(View()), entries))
      ensures old(AllLinked(sql.db)) && AddOk(old(View()), entries) ==> View() == Added(old(View()), entries)
    {
      if AllLinked(sql.db) { AddAgreement(sql.db, entries); }
      var statements := AddStatements(entries, sql.db);
      ok := true;
      if statements != [] {
        ok := sql.ExecBatch(statements);
      }
    }

    method DeleteReadModels(entries: seq<EntityKey>) returns (ok: bool)
      requires Valid() && forall e | e in entries :: e.collection in collections
      modifies sql
      ensures ok && Valid() && sql.db == DeletedDatabase(old(sql.db), entries)
      ensures old(AllLinked(sql.db)) ==> AllLinked(sql.db) && View() == Deleted(old(View()), entries)
    {
      if AllLinked(sql.db) { DeleteAgreement(sql.db, entries); }
      var statements := DeleteStatements(entries, sql.db);
      ok := sql.ExecBatch(statements);
    }

    /** A batch whose renaming violates a key changes nothing; one that succeeds is the simultaneous
        renaming, in whatever order the engine updates rows. */
    method MigrateReadModelIds(batch: seq<Migration>) returns (ok: bool)
      requires Valid() && forall m | m in batch :: m.collection in collections
      modifies sql
      ensures Valid() && (ok <==> AllRename(old(sql.db), batch))
      ensures sql.db == if ok then MigratedDatabase(old(sql.db), batch) else old(sql.db)
      ensures old(AllLinked(sql.db)) && DistinctSources(batch) && ok ==>
                AllLinked(sql.db) && View() == Migrated(old(View()), batch)
      ensures old(AllLinked(sql.db)) && DistinctSources(batch) && TargetsFree(old(View()), batch) ==> ok
      ensures old(AllLinked(sql.db)) && DistinctSources(batch) && ok ==> Rings.Arrangeable(old(View()), batch)
    {
      MigrateOutcome(sql.db, batch);
      var statements := MigrateStatements(batch, sql.db);
      ok := sql.ExecBatch(statements);
    }

    method GetReadModelCount() returns (total: nat)
      requires Valid()
      ensures total == |View()|
    {
      total := 0;
      var pending := collections;
      ghost var done := {};
      while pending != {}
        invariant done !! pending && done + pending == collections
        invariant total == |EntitiesIn(sql.db, done)|
      {
        var c :| c in pending;
        EntitiesInOne(sql.db, done, c);
        total := total + |sql.db.tables[c].rows|;
        done, pending := done + {c}, pending - {c};
      }
      assert View().Keys == EntitiesIn(sql.db, collections);
    }

    method CountReadModels(collection: string, cacheKey: Option<string>, filter: RowFilter) returns (count: nat)
      requires Valid() && AllLinked(sql.db) && collection in collections
      ensures count == |Matching(View(), collection, cacheKey, filter)|
    {
      var t := sql.db.tables[collection];
      var ids := set id | id in t.rows && (cacheKey.None? || (id, cacheKey.value) in t.keys)
          && Passes(filter, id, t.rows[id]);
      count := |ids|;
      ImageOfIds(collection, ids);
      forall e: EntityKey ensures e in Matching(View(), collection, cacheKey, filter)
          <==> e in EntitiesFor(collection, ids) {
        ViewAt(sql.db, e);
        if e.collection == collection && cacheKey.Some? { KeyListed(t, e.id, cacheKey.value); }
        assert e == EntityKey(e.collection, e.id);
      }
      assert Matching(View(), collection, cacheKey, filter) == EntitiesFor(collection, ids);
    }

    method GetReadModelRevisions(collection: string) returns (results: set<(string, string)>)
      requires Valid() && collection in collections
      ensures results == RevisionsIn(View(), collection)
    {
      var rows := sql.db.tables[collection].rows;
      results := set id | id in rows && rows[id].revision.Some? :: (id, rows[id].revision.value);
      forall p: (string, string) ensures p in results <==> p in RevisionsIn(View(), collection) {
        ViewAt(sql.db, EntityKey(collection, p.0));
        if p in results {
          var e := EntityKey(collection, p.0);
          assert e in View() && View()[e].data.revision == Some(p.1);
        }
        if e :|
              e in View() && e.collection == collection && View()[e].data.revision.Some?
              && (e.id, View()[e].data.revision.value) == p {
          ViewAt(sql.db, e);
        }
      }
    }

    /** The columns of the key table include its primary key. */
    method GetEvictableCacheKeys(limit: nat) returns (evicted: seq<CacheKeyRecord>)
      requires Valid() && Eviction.KeyedByKey(sql.db.cacheKeys)
      ensures EvictionAgreement.SqlEvicts(sql.db.cacheKeys, limit, evicted)
      ensures Eviction.LeastRecentlyUsed(sql.db.cacheKeys, true, limit, evicted)
    {
      evicted := EvictionAgreement.QueryEvictable(sql.db.cacheKeys, limit);
    }

    method TrimJunctions(junctions: seq<string>, c: string, key: string,
        ghost db: Database) returns (statements: seq<Statement>)
      requires c in db.tables && forall i | 0 <= i < |junctions| :: junctions[i] in db.junctions
      ensures Run(statements, db) == Some(JunctionsTrimmed(db, SetOf(junctions), c, key))
    {
      statements := [];
      JunctionsTrimmedNone(db, c, key);
      assert SetOf(junctions[..0]) == {};
      for i := 0 to |junctions|
        invariant Run(statements, db) == Some(JunctionsTrimmed(db, SetOf(junctions[..i]), c, key))
      {
        JunctionsTrimmedOne(db, SetOf(junctions[..i]), c, key, junctions[i]);
        RunSnoc(statements, DeleteDoomedPairs(junctions[i], c, key), db);
        assert SetOf(junctions[..i + 1]) == SetOf(junctions[..i]) + {junctions[i]};
        statements := statements + [DeleteDoomedPairs(junctions[i], c, key)];
      }
      assert junctions[..|junctions|] == junctions;
    }

    method TrimCollection(c: string, key: string, ghost db: Database) returns (statements: seq<Statement>)
      requires Fits(db) && Declared() && c in collections
      ensures Run(statements, db) == Some(CollectionsTrimmed(db, parentOf, {c}, key))
    {
      var junctions := if c in junctionsByParent then junctionsByParent[c] else [];
      var pairs := TrimJunctions(junctions, c, key, db);
      ghost var trimmed := JunctionsTrimmed(db, SetOf(junctions), c, key);
      RunPair(DeleteKey(c, key), DeleteOrphans(c), trimmed);
      RunConcat(pairs, [DeleteKey(c, key), DeleteOrphans(c)], db);
      WithTableTwice(trimmed, c, KeyDeleted(db.tables[c], key), KeyRemoved(db.tables[c], key));
      CollectionTrimmed(db, parentOf, SetOf(junctions), c, key);
      statements := pairs + [DeleteKey(c, key), DeleteOrphans(c)];
    }

    method BuildRemoveCacheKeyFromReadModels(key: string, ghost db: Database) returns (statements: seq<Statement>)
      requires Fits(db) && Declared()
      ensures Run(statements, db) == Some(CollectionsTrimmed(db, parentOf, collections, key))
    {
      statements := [];
      var pending := collections;
      ghost var done := {};
      CollectionsTrimmedNone(db, parentOf, key);
      while pending != {}
        invariant done !! pending && done + pending == collections
        invariant Run(statements, db) == Some(CollectionsTrimmed(db, parentOf, done, key))
      {
        var c :| c in pending;
        var more := TrimCollection(c, key, CollectionsTrimmed(db, parentOf, done, key));
        RunConcat(statements, more, db);
        CollectionsTrimmedOne(db, parentOf, done, key, c);
        statements := statements + more;
        done, pending := done + {c}, pending - {c};
      }
    }

    method RemoveCacheKeyFromReadModels(key: string) returns (ok: bool)
      requires Valid()
      modifies sql
      ensures ok && Valid() && sql.db == CollectionsTrimmed(old(sql.db), parentOf, collections, key)
      ensures old(AllLinked(sql.db)) ==> AllLinked(sql.db) && View() == WithoutKeys(old(View()), {key})
    {
      var statements := BuildRemoveCacheKeyFromReadModels(key, sql.db);
      if AllLinked(sql.db) { RemoveAgreement(sql.db, key); }
      ghost var changed := Changed(sql.db, collections, RemoveChange(key));
      SameTables(changed, CollectionsTrimmed(sql.db, parentOf, collections, key));
      ok := true;
      if statements != [] {
        ok := sql.ExecBatch(statements);
      }
    }

    method BuildDeleteCacheKey(key: string, ghost db: Database) returns (statements: seq<Statement>)
      requires Fits(db) && Declared()
      ensures Run(statements, db) == Some(KeyDropped(db, parentOf, key))
    {
      var events := EventStatements(key, db);
      var more := BuildRemoveCacheKeyFromReadModels(key, EventsTrimmed(db, key));
      RunConcat(events, more, db);
      statements := events + more;
    }

    method BuildDeleteCacheKeys(keys: seq<string>, ghost db: Database) returns (statements: seq<Statement>)
      requires Fits(db) && Declared()
      ensures Run(statements, db) == Some(KeysDropped(db, parentOf, keys)) && Fits(KeysDropped(db, parentOf, keys))
    {
      statements := [];
      for i := 0 to |keys|
        invariant Run(statements, db) == Some(KeysDropped(db, parentOf, keys[..i]))
                  && Fits(KeysDropped(db, parentOf, keys[..i]))
      {
        var more := BuildDeleteCacheKey(keys[i], KeysDropped(db, parentOf, keys[..i]));
        RunConcat(statements, more, db);
        statements := statements + more;
        assert keys[..i + 1][..i] == keys[..i];
      }
      assert keys[..|keys|] == keys;
    }

    /** Also `deleteCacheKey`, which is the list of one. What is left holds a key outside the list
        and exactly its keys outside the list; junction pairs go with their parents, and only with them. */
    method DeleteCacheKeys(keys: seq<string>) returns (ok: bool)
      requires Valid()
      modifies sql
      ensures ok && Valid() && sql.db == KeysDropped(old(sql.db), parentOf, keys)
      ensures old(AllLinked(sql.db) && AllRowsKeyed(sql.db)) ==>
                AllLinked(sql.db) && AllRowsKeyed(sql.db) && ShowsWithout(sql.db, old(sql.db), SetOf(keys))
      ensures old(AllLinked(sql.db) && AllRowsKeyed(sql.db) && ParentsExist(sql.db, parentOf)) ==>
                ParentsExist(sql.db, parentOf) && PairsOfSurvivors(old(sql.db), sql.db, parentOf)
    {
      if AllLinked(sql.db) && AllRowsKeyed(sql.db) {
        KeysDroppedFaithful(sql.db, parentOf, keys);
        if ParentsExist(sql.db, parentOf) { KeysDroppedJunctions(sql.db, parentOf, keys); }
      }
      var statements := BuildDeleteCacheKeys(keys, sql.db);
      ok := sql.ExecBatch(statements);
    }

    /** The batched statements have the effect of the operations one after another exactly when
        no junction adds to a pair that a later operation of the batch removes. */
    method SyncJunctions(ops: seq<JunctionSyncOp>) returns (ok: bool)
      requires Valid() && forall op | op in ops :: op.junctionName in parentOf
      modifies sql
      ensures ok && Valid() && sql.db == SyncedInPhases(old(sql.db), ops)
      ensures sql.db == Synced(old(sql.db), ops) <==> OrderlyBatch(old(sql.db), ops)
      ensures OncePerParent(ops) ==> OrderlyBatch(old(sql.db), ops)
      ensures sql.db.tables == old(sql.db.tables) && sql.db.events == old(sql.db.events)
    {
      var statements := SyncStatements(ops, sql.db);
      PhasesAreSequential(sql.db, ops);
      ok := true;
      if statements != [] {
        ok := sql.ExecBatch(statements);
      }
    }
  }

  lemma SameTables(a: Database, b: Database)
    requires a.tables == b.tables
    ensures ViewOf(a) == ViewOf(b) && (AllLinked(a) <==> AllLinked(b))
  {
    assert Entities(a) == Entities(b);
  }
}
