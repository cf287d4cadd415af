/** Over every run of operations the two backends show the same records. */
module StorageAgreement {
  import opened Options
  import opened StorageRecords
  import M = MemoryStorage
  import Q = SqliteStorage
  import R = SqlKeyRemoval
  import T = SqliteTables

  datatype Op =
    | Save(records: seq<ReadModelRecord>)
    | AddKeys(additions: seq<KeyAddition>)
    | Delete(entities: seq<EntityKey>)
    | Migrate(batch: seq<Migration>)
    | RemoveKey(key: string)
    | DeleteKeys(keys: seq<string>)

  /** What a client of a backend sees. */
  datatype Shown = Shown(readModels: View, events: EventView)

  function Step(s: Shown, op: Op): Shown {
    match op
    case Save(records) => s.(readModels := Saved(s.readModels, records))
    case AddKeys(additions) => s.(readModels := Added(s.readModels, additions))
    case Delete(entities) => s.(readModels := Deleted(s.readModels, entities))
    case Migrate(batch) => s.(readModels := Migrated(s.readModels, batch))
    case RemoveKey(key) => s.(readModels := WithoutKeys(s.readModels, {key}))
    case DeleteKeys(keys) => Shown(WithoutKeys(s.readModels, SetOf(keys)), WithoutKeys(s.events, SetOf(keys)))
  }

  function Steps(s: Shown, ops: seq<Op>): Shown {
    if ops == [] then s else Step(Steps(s, ops[..|ops| - 1]), ops[|ops| - 1])
  }

  /** What agreement needs of an operation; the rest is left to chance. */
  ghost predicate OpOk(s: Shown, op: Op, collections: set<string>) {
    match op
    case Save(records) => SaveOk(s.readModels, records) && forall r | r in records :: r.collection in collections
    case AddKeys(additions) => AddOk(s.readModels, additions)
         && forall a | a in additions :: a.collection in collections
    case Delete(entities) => forall e | e in entities :: e.collection in collections
    case Migrate(batch) => MigrateOk(s.readModels, batch) && forall m | m in batch :: m.collection in collections
    case RemoveKey(_) => true
    case DeleteKeys(_) => true
  }

  ghost predicate RunOk(s: Shown, ops: seq<Op>, collections: set<string>) {
    forall i | 0 <= i < |ops| :: OpOk(Steps(s, ops[..i]), ops[i], collections)
  }

  ghost predicate Keyed(s: Shown) {
    AllKeyed(s.readModels) && AllKeyed(s.events)
  }

  /** No operation leaves a record without a cache key. */
  lemma StepKeyed(s: Shown, op: Op, collections: set<string>)
    requires Keyed(s) && OpOk(s, op, collections)
    ensures Keyed(Step(s, op))
  {
    match op {
      case Save(records) => SavedKeyed(s.readModels, records);
      case AddKeys(additions) =>
        forall e | e in s.readModels ensures s.readModels[e].cacheKeys + AddedKeys(additions, e) != {} {
          var k :| k in s.readModels[e].cacheKeys;
          assert k in s.readModels[e].cacheKeys + AddedKeys(additions, e);
        }
      case Delete(_) =>
      case Migrate(batch) =>
        forall e | e in Migrated(s.readModels, batch) ensures Migrated(s.readModels, batch)[e].cacheKeys != {} {
          MoverFound(s.readModels, batch, e);
        }
      case RemoveKey(_) =>
      case DeleteKeys(_) =>
    }
  }

  lemma SavedKeyed(view: View, records: seq<ReadModelRecord>)
    requires AllKeyed(view) && forall r | r in records :: r.cacheKeys != []
    ensures AllKeyed(Saved(view, records))
  {
    forall e | e in Saved(view, records) ensures Saved(view, records)[e].cacheKeys != {} {
      LastSavedNone(records, e);
      if LastSaved(records, e).Some? {
        var r := LastSaved(records, e).value;
        assert r.cacheKeys[0] in SetOf(r.cacheKeys);
      }
    }
  }

  lemma {:induction false} StepsKeyed(s: Shown, ops: seq<Op>, collections: set<string>)
    requires Keyed(s) && RunOk(s, ops, collections)
    ensures Keyed(Steps(s, ops))
  {
    if ops != [] {
      var n := |ops| - 1;
      forall i | 0 <= i < n ensures OpOk(Steps(s, ops[..n][..i]), ops[..n][i], collections) {
        assert ops[..n][..i] == ops[..i];
      }
      StepsKeyed(s, ops[..n], collections);
      StepKeyed(Steps(s, ops[..n]), ops[n], collections);
    }
  }

  // ---- Running ----

  ghost function MemoryShows(memory: M.InMemoryStorage): Shown
    reads memory
  {
    Shown(memory.View(), memory.EventView())
  }

  ghost function SqlShows(sqlite: Q.SQLiteStorage): Shown
    reads sqlite.sql
  {
    Shown(sqlite.View(), sqlite.EventView())
  }

  method StepMemory(memory: M.InMemoryStorage, op: Op, ghost collections: set<string>)
    requires memory.Valid() && Keyed(MemoryShows(memory)) && OpOk(MemoryShows(memory), op, collections)
    requires forall c | c in collections :: M.NoColon(c)
    modifies memory
    ensures memory.Valid() && MemoryShows(memory) == Step(old(MemoryShows(memory)), op)
  {
    match op {
      case Save(records) => memory.SaveReadModels(records);
      case AddKeys(additions) => memory.AddCacheKeysToReadModels(additions);
      case Delete(entities) => memory.DeleteReadModels(entities);
      case Migrate(batch) => memory.MigrateReadModelIds(batch);
      case RemoveKey(key) =>
        HeldKeyAgreement(memory.View(), key);
        memory.RemoveCacheKeyFromReadModels(key);
      case DeleteKeys(keys) => memory.DeleteCacheKeys(keys);
    }
  }

  method StepSql(sqlite: Q.SQLiteStorage, op: Op) returns (ok: bool)
    requires sqlite.Valid() && T.AllLinked(sqlite.sql.db) && Keyed(SqlShows(sqlite))
    requires OpOk(SqlShows(sqlite), op, sqlite.collections)
    modifies sqlite.sql
    ensures ok && sqlite.Valid() && T.AllLinked(sqlite.sql.db) && SqlShows(sqlite) == Step(old(SqlShows(sqlite)), op)
  {
    match op {
      case Save(records) => ok := sqlite.SaveReadModels(records);
      case AddKeys(additions) => ok := sqlite.AddCacheKeysToReadModels(additions);
      case Delete(entities) => ok := sqlite.DeleteReadModels(entities);
      case Migrate(batch) => ok := sqlite.MigrateReadModelIds(batch);
      case RemoveKey(key) => ok := sqlite.RemoveCacheKeyFromReadModels(key);
      case DeleteKeys(keys) =>
        R.KeyedView(sqlite.sql.db);
        ok := sqlite.DeleteCacheKeys(keys);
    }
  }

  /** One operation on both. */
  method StepBoth(memory: M.InMemoryStorage, sqlite: Q.SQLiteStorage, op: Op)
    requires memory.Valid() && sqlite.Valid() && T.AllLinked(sqlite.sql.db)
    requires forall c | c in sqlite.collections :: M.NoColon(c)
    requires MemoryShows(memory) == SqlShows(sqlite) && Keyed(SqlShows(sqlite))
    requires OpOk(SqlShows(sqlite), op, sqlite.collections)
    modifies memory, sqlite.sql
    ensures memory.Valid() && sqlite.Valid() && T.AllLinked(sqlite.sql.db)
    ensures MemoryShows(memory) == SqlShows(sqlite) == Step(old(SqlShows(sqlite)), op)
  {
    StepMemory(memory, op, sqlite.collections);
    var ok := StepSql(sqlite, op);
  }

  /** Both backends show the same records, with the same cache keys, after every run from a
      common start; so they give the same counts and revisions, by the contracts of those readers. */
  method RunBoth(memory: M.InMemoryStorage, sqlite: Q.SQLiteStorage, ops: seq<Op>)
    requires memory.Valid() && sqlite.Valid() && T.AllLinked(sqlite.sql.db)
    requires forall c | c in sqlite.collections :: M.NoColon(c)
    requires MemoryShows(memory) == SqlShows(sqlite) && Keyed(SqlShows(sqlite))
    requires RunOk(SqlShows(sqlite), ops, sqlite.collections)
    modifies memory, sqlite.sql
    ensures memory.Valid() && sqlite.Valid() && T.AllLinked(sqlite.sql.db)
    ensures MemoryShows(memory) == SqlShows(sqlite) == Steps(old(SqlShows(sqlite)), ops)
    ensures Keyed(SqlShows(sqlite))
  {
    ghost var start := SqlShows(sqlite);
    for i := 0 to |ops|
      invariant memory.Valid() && sqlite.Valid() && T.AllLinked(sqlite.sql.db)
      invariant MemoryShows(memory) == SqlShows(sqlite) == Steps(start, ops[..i]) && Keyed(SqlShows(sqlite))
    {
      assert OpOk(Steps(start, ops[..i]), ops[i], sqlite.collections);
      StepKeyed(SqlShows(sqlite), ops[i], sqlite.collections);
      assert ops[..i + 1][..i] == ops[..i];
      StepBoth(memory, sqlite, ops[i]);
    }
    assert ops[..|ops|] == ops;
  }

  /** The readers, after a run, with a filter that means the same to both. */
  method SameReadings(memory: M.InMemoryStorage, sqlite: Q.SQLiteStorage, collection: string, cacheKey: Option<string>,
      filter: RowFilter)
    returns (counts: (nat, nat), held: (nat, nat), revisions: (seq<(string, string)>, set<(string, string)>))
    requires memory.Valid() && sqlite.Valid() && T.AllLinked(sqlite.sql.db) && MemoryShows(memory) == SqlShows(sqlite)
    requires collection in sqlite.collections && M.NoColon(collection)
    ensures counts.0 == counts.1 == |memory.View()|
    ensures SetOf(revisions.0) == revisions.1
    ensures held.0 == held.1 <==>
              cacheKey != Some("")
              || forall e | e in Matching(memory.View(), collection, None, filter) :: "" in memory.View()[e].cacheKeys
  {
    EmptyKeyCount(memory.View(), collection, filter);
    var a := memory.GetReadModelCount();
    var b := sqlite.GetReadModelCount();
    var c := memory.CountReadModels(collection, cacheKey, filter);
    var d := sqlite.CountReadModels(collection, cacheKey, filter);
    var e := memory.GetReadModelRevisions(collection);
    var f := sqlite.GetReadModelRevisions(collection);
    counts, held, revisions := (a, b), (c, d), (e, f);
  }
}
