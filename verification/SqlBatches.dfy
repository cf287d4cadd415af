/** The ordered statement list of each operation, and what running it does. */
module SqlBatches {
  import opened Options
  import opened StorageRecords
  import opened SqlDatabase
  import opened SqliteTables
  import opened SqliteMigration
  import opened SqlJunctions
  import opened SqlKeyRemoval

  // ---- Statement lists ----

  lemma RunTwo(ss: seq<Statement>, s: Statement, t: Statement, db: Database)
    requires Run(ss, db).Some? && Exec(s, Run(ss, db).value).Some?
    ensures Run(ss + [s, t], db) == Exec(t, Exec(s, Run(ss, db).value).value)
  {
    assert ss + [s, t] == ss + [s] + [t];
    RunSnoc(ss, s, db);
    RunSnoc(ss + [s], t, db);
  }

  lemma {:induction false} RunConcat(a: seq<Statement>, b: seq<Statement>, db: Database)
    requires Run(a, db).Some?
    ensures Run(a + b, db) == Run(b, Run(a, db).value)
  {
    if b == [] {
      assert a + b == a;
    } else {
      RunConcat(a, b[..|b| - 1], db);
      assert (a + b)[..|a + b| - 1] == a + b[..|b| - 1];
    }
  }

  lemma SetOfConcat<T>(a: seq<T>, b: seq<T>)
    ensures SetOf(a + b) == SetOf(a) + SetOf(b)
  {
  }

  method KeyPairs(id: string, cacheKeys: seq<string>) returns (pairs: seq<Pair>)
    ensures SetOf(pairs) == set k | k in cacheKeys :: (id, k)
  {
    pairs := [];
    for i := 0 to |cacheKeys|
      invariant SetOf(pairs) == set k | k in cacheKeys[..i] :: (id, k)
    {
      assert cacheKeys[..i + 1] == cacheKeys[..i] + [cacheKeys[i]];
      SetOfConcat(pairs, [(id, cacheKeys[i])]);
      pairs := pairs + [(id, cacheKeys[i])];
    }
    assert cacheKeys[..|cacheKeys|] == cacheKeys;
  }

  method SavedPairs(group: seq<ReadModelRecord>) returns (pairs: seq<Pair>)
    ensures SetOf(pairs) == PairsOf(group)
  {
    pairs := [];
    for i := 0 to |group|
      invariant SetOf(pairs) == PairsOf(group[..i])
    {
      assert group[..i + 1] == group[..i] + [group[i]];
      var more := KeyPairs(group[i].id, group[i].cacheKeys);
      SetOfConcat(pairs, more);
      assert PairsOf(group[..i + 1]) == PairsOf(group[..i]) + SetOf(more);
      pairs := pairs + more;
    }
    assert group[..|group|] == group;
  }

  method AddedPairs(group: seq<KeyAddition>) returns (pairs: seq<Pair>)
    ensures SetOf(pairs) == PairsAdded(group)
  {
    pairs := [];
    for i := 0 to |group|
      invariant SetOf(pairs) == PairsAdded(group[..i])
    {
      assert group[..i + 1] == group[..i] + [group[i]];
      var more := KeyPairs(group[i].id, group[i].cacheKeys);
      SetOfConcat(pairs, more);
      assert PairsAdded(group[..i + 1]) == PairsAdded(group[..i]) + SetOf(more);
      pairs := pairs + more;
    }
    assert group[..|group|] == group;
  }

  /** One more table of a batch is done. */
  lemma TableDone(db: Database, done: set<string>, f: TableChange, c: string, ss: seq<Statement>, more: seq<Statement>)
    requires c in db.tables && c !in done && Run(ss, db) == Some(Changed(db, done, f))
    requires var now := Changed(db, done, f); Run(more, now) == Some(WithTable(now, c, f(c, now.tables[c])))
    ensures Run(ss + more, db) == Some(Changed(db, done + {c}, f))
  {
    RunConcat(ss, more, db);
    ChangedOne(db, done, f, c);
  }

  lemma WithTableTwice(db: Database, c: string, t: Table<RowData>, u: Table<RowData>)
    ensures WithTable(WithTable(db, c, t), c, u) == WithTable(db, c, u)
    ensures c in db.tables ==> WithTable(db, c, db.tables[c]) == db
  {
    if c in db.tables { assert db.tables[c := db.tables[c]] == db.tables; }
  }

  lemma RunPair(s: Statement, t: Statement, db: Database)
    requires Exec(s, db).Some?
    ensures Run([s, t], db) == Exec(t, Exec(s, db).value)
  {
    RunTwo([], s, t, db);
    assert [] + [s, t] == [s, t];
  }

  lemma RunSingle(s: Statement, db: Database)
    ensures Run([s], db) == Exec(s, db)
  {
    RunSnoc([], s, db);
    assert [] + [s] == [s];
  }

  // ---- The batch of each operation ----

  method SaveStatements(records: seq<ReadModelRecord>, ghost db: Database) returns (statements: seq<Statement>)
    requires forall r | r in records :: r.collection in db.tables
    ensures Run(statements, db) == Some(SavedDatabase(db, records))
  {
    ghost var f, done := SaveChange(records), {};
    var groups := Group(records, CollectionOf);
    statements := [];
    var pending := groups.Keys;
    ChangedNone(db, f);
    while pending != {}
      invariant done !! pending && done + pending == groups.Keys
      invariant Run(statements, db) == Some(Changed(db, done, f))
    {
      var c :| c in pending;
      var more := SaveGroup(c, groups[c], Changed(db, done, f));
      TableDone(db, done, f, c, statements, more);
      statements := statements + more;
      done, pending := done + {c}, pending - {c};
    }
  }

  method SaveGroup(c: string, group: seq<ReadModelRecord>, ghost db: Database) returns (statements: seq<Statement>)
    requires c in db.tables
    ensures Run(statements, db) == Some(WithTable(db, c, SavedTable(db.tables[c], group)))
  {
    var pairs := SavedPairs(group);
    var upsert := UpsertRows(c, RowsOf(group));
    if pairs == [] {
      statements := [upsert];
      RunSingle(upsert, db);
      assert db.tables[c].keys + PairsOf(group) == db.tables[c].keys;
    } else {
      statements := [upsert, InsertKeys(c, pairs)];
      RunPair(upsert, InsertKeys(c, pairs), db);
      WithTableTwice(db, c, Exec(upsert, db).value.tables[c], SavedTable(db.tables[c], group));
    }
  }

  method AddStatements(entries: seq<KeyAddition>, ghost db: Database) returns (statements: seq<Statement>)
    requires forall a | a in entries :: a.collection in db.tables
    ensures Run(statements, db) == Some(AddedDatabase(db, entries))
  {
    ghost var f, done := AddChange(entries), {};
    var groups := Group(entries, AdditionCollection);
    statements := [];
    var pending := groups.Keys;
    ChangedNone(db, f);
    while pending != {}
      invariant done !! pending && done + pending == groups.Keys
      invariant Run(statements, db) == Some(Changed(db, done, f))
    {
      var c :| c in pending;
      var more := AddGroup(c, groups[c], Changed(db, done, f));
      TableDone(db, done, f, c, statements, more);
      statements := statements + more;
      done, pending := done + {c}, pending - {c};
    }
  }

  method AddGroup(c: string, group: seq<KeyAddition>, ghost db: Database) returns (statements: seq<Statement>)
    requires c in db.tables
    ensures Run(statements, db) == Some(WithTable(db, c, AddedTable(db.tables[c], group)))
  {
    var pairs := AddedPairs(group);
    if pairs == [] {
      statements := [];
      assert db.tables[c].keys + PairsAdded(group) == db.tables[c].keys;
      WithTableTwice(db, c, db.tables[c], db.tables[c]);
    } else {
      statements := [InsertKeys(c, pairs)];
      RunSingle(InsertKeys(c, pairs), db);
    }
  }

  method DeleteStatements(entries: seq<EntityKey>, ghost db: Database) returns (statements: seq<Statement>)
    requires forall e | e in entries :: e.collection in db.tables
    ensures Run(statements, db) == Some(DeletedDatabase(db, entries))
  {
    ghost var f, done := DeleteChange(entries), {};
    var groups := Group(entries, EntityCollection);
    statements := [];
    var pending := groups.Keys;
    ChangedNone(db, f);
    while pending != {}
      invariant done !! pending && done + pending == groups.Keys
      invariant Run(statements, db) == Some(Changed(db, done, f))
    {
      var c :| c in pending;
      var more := DeleteGroup(c, groups[c], Changed(db, done, f));
      TableDone(db, done, f, c, statements, more);
      statements := statements + more;
      done, pending := done + {c}, pending - {c};
    }
  }

  method MigrateStatements(batch: seq<Migration>, ghost db: Database) returns (statements: seq<Statement>)
    requires forall m | m in batch :: m.collection in db.tables
    ensures Run(statements, db) == if AllRename(db, batch) then Some(MigratedDatabase(db, batch)) else None
  {
    ghost var f, done := MigrateChange(db.engine, batch), {};
    var groups := Group(batch, MigrationCollection);
    statements := [];
    var pending := groups.Keys;
    ChangedNone(db, f);
    while pending != {}
      invariant done !! pending && done + pending == groups.Keys
      invariant Run(statements, db) == if SomeRename(db, batch, done) then Some(Changed(db, done, f)) else None
    {
      var c :| c in pending;
      var more := [RenameRows(c, groups[c]), RenameKeys(c, groups[c])];
      if SomeRename(db, batch, done) {
        GroupMigrated(c, groups[c], Changed(db, done, f));
        if RenamedTable(db.engine, db.tables[c], groups[c]).Some? {
          TableDone(db, done, f, c, statements, more);
        } else {
          RunConcat(statements, more, db);
        }
      } else {
        assert (statements + more)[..|statements|] == statements;
        RunPrefixFails(statements + more, |statements|, db);
      }
      statements := statements + more;
      done, pending := done + {c}, pending - {c};
    }
  }

  lemma GroupMigrated(c: string, group: seq<Migration>, db: Database)
    requires c in db.tables
    ensures Run([RenameRows(c, group), RenameKeys(c, group)], db)
         == match RenamedTable(db.engine, db.tables[c],
             group) case Some(now) => Some(WithTable(db, c, now)) case None => None
  {
    RunSingle(RenameRows(c, group), db);
    RunSnoc([RenameRows(c, group)], RenameKeys(c, group), db);
    assert [RenameRows(c, group), RenameKeys(c, group)] == [RenameRows(c, group)] + [RenameKeys(c, group)];
    match RowsRenamed(db.tables[c].rows, db.engine.rows(group)) {
      case Some(rows) =>
        var t := db.tables[c].(rows := rows);
        if KeysRenamed(db.tables[c].keys, db.engine.pairs(group)).Some? {
          WithTableTwice(db, c, t, RenamedTable(db.engine, db.tables[c], group).value);
        }
      case None =>
    }
  }

  method DeleteGroup(c: string, group: seq<EntityKey>, ghost db: Database) returns (statements: seq<Statement>)
    requires c in db.tables
    ensures Run(statements, db) == Some(WithTable(db, c, WithoutIds(db.tables[c], SetOf(IdsOf(group)))))
  {
    var ids := IdsOf(group);
    statements := [DeleteKeysOf(c, ids), DeleteRows(c, ids)];
    RunPair(DeleteKeysOf(c, ids), DeleteRows(c, ids), db);
    WithTableTwice(db, c, Exec(DeleteKeysOf(c, ids), db).value.tables[c], WithoutIds(db.tables[c], SetOf(ids)));
  }

  // ---- The batch of a cache-key removal ----

  /** The pairs of doomed rows gone from some of the junctions. */
  function JunctionsTrimmed(db: Database, names: set<string>, c: string, key: string): Database
    requires c in db.tables
  {
    db.(junctions := map j | j in db.junctions ::
          if j in names then WithoutParents(db.junctions[j], Doomed(db.tables[c], key)) else db.junctions[j])
  }

  lemma JunctionsTrimmedOne(db: Database, names: set<string>, c: string, key: string, j: string)
    requires c in db.tables && j in db.junctions
    ensures Exec(DeleteDoomedPairs(j, c, key), JunctionsTrimmed(db, names, c, key))
            == Some(JunctionsTrimmed(db, names + {j}, c, key))
  {
    var a, b := JunctionsTrimmed(db, names, c, key), JunctionsTrimmed(db, names + {j}, c, key);
    var doomed := Doomed(db.tables[c], key);
    assert WithoutParents(WithoutParents(db.junctions[j], doomed), doomed) == WithoutParents(db.junctions[j], doomed);
    assert a.junctions[j := WithoutParents(a.junctions[j], doomed)] == b.junctions;
  }

  lemma JunctionsTrimmedNone(db: Database, c: string, key: string)
    requires c in db.tables
    ensures JunctionsTrimmed(db, {}, c, key) == db
  {
    assert JunctionsTrimmed(db, {}, c, key).junctions == db.junctions;
  }

  lemma CollectionTrimmed(db: Database, parentOf: map<string, string>, names: set<string>, c: string, key: string)
    requires c in db.tables && forall j | j in db.junctions :: j in names <==> j in parentOf && parentOf[j] == c
    ensures WithTable(JunctionsTrimmed(db, names, c, key), c, KeyRemoved(db.tables[c], key))
         == CollectionsTrimmed(db, parentOf, {c}, key)
  {
    var a := WithTable(JunctionsTrimmed(db, names, c, key), c, KeyRemoved(db.tables[c], key));
    var b := CollectionsTrimmed(db, parentOf, {c}, key);
    assert a.tables == b.tables;
    assert a.junctions == b.junctions;
  }

  lemma CollectionsTrimmedNone(db: Database, parentOf: map<string, string>, key: string)
    ensures CollectionsTrimmed(db, parentOf, {}, key) == db
  {
    assert CollectionsTrimmed(db, parentOf, {}, key).junctions == db.junctions;
    ChangedNone(db, RemoveChange(key));
  }

  function EventsTrimmed(db: Database, key: string): Database {
    db.(cacheKeys := db.cacheKeys - {key}, events := KeyRemoved(db.events, key))
  }

  /** The batch also selects the orphaned event ids, which changes nothing. */
  method EventStatements(key: string, ghost db: Database) returns (statements: seq<Statement>)
    ensures Run(statements, db) == Some(EventsTrimmed(db, key))
  {
    ghost var d := db.(cacheKeys := db.cacheKeys - {key});
    RunSingle(DeleteCacheKeyRow(key), db);
    RunPair(DeleteEventKey(key), DeleteOrphanEvents, d);
    RunConcat([DeleteCacheKeyRow(key)], [DeleteEventKey(key), DeleteOrphanEvents], db);
    statements := [DeleteCacheKeyRow(key)] + [DeleteEventKey(key), DeleteOrphanEvents];
  }

  // ---- The batch of a junction synchronisation ----

  type Junctions = map<string, Junction>

  function RemovedFrom(junctions: Junctions, ops: seq<JunctionSyncOp>): Junctions {
    map j | j in junctions :: RemovedAll(junctions[j], Select(ops, JunctionOf, j))
  }

  function RemovedBy(db: Database, ops: seq<JunctionSyncOp>): Database {
    db.(junctions := RemovedFrom(db.junctions, ops))
  }

  method RemoveStatement(op: JunctionSyncOp, ghost db: Database) returns (statements: seq<Statement>)
    requires op.junctionName in db.junctions
    ensures Run(statements, db) == Some(WithJunction(db, op.junctionName, Removed(db.junctions[op.junctionName], op)))
  {
    ghost var j := db.junctions[op.junctionName];
    if op.removeAll {
      statements := [DeleteParent(op.junctionName, op.parentId)];
      RunSingle(statements[0], db);
    } else if op.removeChildIds != [] {
      statements := [DeleteChildren(op.junctionName, op.parentId, op.removeChildIds)];
      RunSingle(statements[0], db);
    } else {
      statements := [];
      assert Removed(j, op) == j;
      assert db.junctions[op.junctionName := j] == db.junctions;
    }
  }

  lemma RemovedAllSnoc(j: Junction, ops: seq<JunctionSyncOp>, op: JunctionSyncOp, name: string)
    ensures name == op.junctionName ==>
              RemovedAll(j, Select(ops + [op], JunctionOf, name))
                  == Removed(RemovedAll(j, Select(ops, JunctionOf, name)), op)
    ensures name != op.junctionName ==>
              RemovedAll(j, Select(ops + [op], JunctionOf, name)) == RemovedAll(j, Select(ops, JunctionOf, name))
  {
    SelectSnoc(ops, op, JunctionOf, name);
    var group := Select(ops, JunctionOf, name);
    assert (group + [op])[..|group|] == group;
  }

  lemma RemovedBySnoc(js: Junctions, ops: seq<JunctionSyncOp>, op: JunctionSyncOp)
    requires op.junctionName in js
    ensures RemovedFrom(js, ops + [op])
         == RemovedFrom(js, ops)[op.junctionName := Removed(RemovedFrom(js, ops)[op.junctionName], op)]
  {
    var now := RemovedFrom(js, ops)[op.junctionName := Removed(RemovedFrom(js, ops)[op.junctionName], op)];
    forall j | j in js ensures RemovedFrom(js, ops + [op])[j] == now[j] {
      RemovedAllSnoc(js[j], ops, op, j);
    }
  }

  ghost predicate RowsByJunction(inserts: map<string, seq<JunctionRow>>, ops: seq<JunctionSyncOp>) {
    forall j :: RowsFor(inserts, j) == AllRows(Select(ops, JunctionOf, j))
  }

  function RowsFor(inserts: map<string, seq<JunctionRow>>, j: string): seq<JunctionRow> {
    if j in inserts then inserts[j] else []
  }

  lemma RowsByJunctionSnoc(inserts: map<string, seq<JunctionRow>>, ops: seq<JunctionSyncOp>, op: JunctionSyncOp)
    requires RowsByJunction(inserts, ops)
    ensures RowsByJunction(inserts[op.junctionName := RowsFor(inserts, op.junctionName) + RowsToAdd(op)], ops + [op])
    ensures op.add == [] ==> RowsByJunction(inserts, ops + [op])
  {
    var more := inserts[op.junctionName := RowsFor(inserts, op.junctionName) + RowsToAdd(op)];
    forall j
      ensures RowsFor(more, j) == AllRows(Select(ops + [op], JunctionOf, j))
      ensures op.add == [] ==> RowsFor(inserts, j) == AllRows(Select(ops + [op], JunctionOf, j))
    {
      SelectSnoc(ops, op, JunctionOf, j);
      var group := Select(ops, JunctionOf, j);
      assert (group + [op])[..|group|] == group;
    }
  }

  function InsertedInto(junctions: Junctions, inserts: map<string, seq<JunctionRow>>, done: set<string>): Junctions {
    map j | j in junctions :: if j in done then PairsInserted(junctions[j], RowsFor(inserts, j)) else junctions[j]
  }

  function InsertedBy(db: Database, inserts: map<string, seq<JunctionRow>>, done: set<string>): Database {
    db.(junctions := InsertedInto(db.junctions, inserts, done))
  }

  lemma InsertedByOne(db: Database, inserts: map<string, seq<JunctionRow>>, done: set<string>, j: string)
    requires j in db.junctions && j !in done
    ensures Exec(InsertPairs(j, RowsFor(inserts, j)), InsertedBy(db, inserts, done))
            == Some(InsertedBy(db, inserts, done + {j}))
  {
    var a, b := InsertedBy(db, inserts, done), InsertedBy(db, inserts, done + {j});
    assert a.junctions[j := PairsInserted(a.junctions[j], RowsFor(inserts, j))] == b.junctions;
  }

  ghost predicate OrderlyBatch(db: Database, ops: seq<JunctionSyncOp>) {
    forall j | j in db.junctions :: Orderly(Select(ops, JunctionOf, j))
  }

  /** All deletes, then all inserts. */
  function SyncedInPhases(db: Database, ops: seq<JunctionSyncOp>): Database {
    db.(junctions := PhasedJunctions(db.junctions, ops))
  }

  function PhasedJunctions(junctions: Junctions, ops: seq<JunctionSyncOp>): Junctions {
    map j | j in junctions :: InPhases(junctions[j], Select(ops, JunctionOf, j))
  }

  /** That is one operation after another exactly when the batch is orderly on every junction. */
  lemma PhasesAreSequential(db: Database, ops: seq<JunctionSyncOp>)
    ensures SyncedInPhases(db, ops) == Synced(db, ops) <==> OrderlyBatch(db, ops)
    ensures OncePerParent(ops) ==> OrderlyBatch(db, ops)
  {
    SyncedByJunction(db, ops);
    var a, b := SyncedInPhases(db, ops).junctions, Synced(db, ops).junctions;
    forall j | j in db.junctions
      ensures a[j] == b[j] <==> Orderly(Select(ops, JunctionOf, j))
      ensures OncePerParent(ops) ==> Orderly(Select(ops, JunctionOf, j))
    {
      JunctionInPhases(db.junctions[j], ops, j);
    }
    assert a == b <==> OrderlyBatch(db, ops);
  }

  lemma JunctionInPhases(j: Junction, ops: seq<JunctionSyncOp>, name: string)
    ensures var group := Select(ops, JunctionOf, name);
            (InPhases(j, group) == AppliedAll(j, group) <==> Orderly(group)) && (OncePerParent(ops) ==> Orderly(group))
  {
    DeletesFirst(j, Select(ops, JunctionOf, name));
    if OncePerParent(ops) {
      SelectedOncePerParent(ops, name);
      OncePerParentOrderly(Select(ops, JunctionOf, name));
    }
  }

  lemma PhaseMet(j: Junction, ops: seq<JunctionSyncOp>, inserts: map<string, seq<JunctionRow>>, name: string)
    requires RowsFor(inserts, name) == AllRows(Select(ops, JunctionOf, name))
    ensures (if name in inserts.Keys then PairsInserted(RemovedAll(j, Select(ops, JunctionOf, name)),
              RowsFor(inserts, name))
             else RemovedAll(j, Select(ops, JunctionOf, name)))
         == InPhases(j, Select(ops, JunctionOf, name))
  {
  }

  lemma PhasesMet(js: Junctions, ops: seq<JunctionSyncOp>, inserts: map<string, seq<JunctionRow>>)
    requires RowsByJunction(inserts, ops)
    ensures InsertedInto(RemovedFrom(js, ops), inserts, inserts.Keys) == PhasedJunctions(js, ops)
  {
    var a, b := InsertedInto(RemovedFrom(js, ops), inserts, inserts.Keys), PhasedJunctions(js, ops);
    forall j | j in js ensures a[j] == b[j] {
      assert RowsFor(inserts, j) == AllRows(Select(ops, JunctionOf, j));
      PhaseMet(js[j], ops, inserts, j);
    }
    assert a.Keys == js.Keys == b.Keys;
  }

  method RemovePhase(ops: seq<JunctionSyncOp>, ghost db: Database) returns (statements: seq<Statement>,
      inserts: map<string, seq<JunctionRow>>)
    requires forall op | op in ops :: op.junctionName in db.junctions
    ensures Run(statements, db) == Some(RemovedBy(db, ops))
    ensures RowsByJunction(inserts, ops) && inserts.Keys <= db.junctions.Keys
  {
    statements, inserts := [], map[];
    assert RemovedBy(db, []).junctions == db.junctions;
    for i := 0 to |ops|
      invariant Run(statements, db) == Some(RemovedBy(db, ops[..i]))
      invariant RowsByJunction(inserts, ops[..i]) && inserts.Keys <= db.junctions.Keys
    {
      var op := ops[i];
      assert ops[..i + 1] == ops[..i] + [op];
      var more := RemoveStatement(op, RemovedBy(db, ops[..i]));
      RunConcat(statements, more, db);
      RemovedBySnoc(db.junctions, ops[..i], op);
      RowsByJunctionSnoc(inserts, ops[..i], op);
      statements := statements + more;
      if op.add != [] {
        inserts := inserts[op.junctionName := RowsFor(inserts, op.junctionName) + RowsToAdd(op)];
      }
    }
    assert ops[..|ops|] == ops;
  }

  method InsertPhase(inserts: map<string, seq<JunctionRow>>, ghost db: Database) returns (statements: seq<Statement>)
    requires inserts.Keys <= db.junctions.Keys
    ensures Run(statements, db) == Some(InsertedBy(db, inserts, inserts.Keys))
  {
    statements := [];
    ghost var done := {};
    var pending := inserts.Keys;
    assert InsertedBy(db, inserts, {}).junctions == db.junctions;
    while pending != {}
      invariant done !! pending && done + pending == inserts.Keys
      invariant Run(statements, db) == Some(InsertedBy(db, inserts, done))
    {
      var j :| j in pending;
      InsertedByOne(db, inserts, done, j);
      if inserts[j] != [] {
        RunSnoc(statements, InsertPairs(j, inserts[j]), db);
        statements := statements + [InsertPairs(j, inserts[j])];
      } else {
        assert InsertedBy(db, inserts, done + {j}).junctions == InsertedBy(db, inserts, done).junctions;
      }
      done, pending := done + {j}, pending - {j};
    }
  }

  method SyncStatements(ops: seq<JunctionSyncOp>, ghost db: Database) returns (statements: seq<Statement>)
    requires forall op | op in ops :: op.junctionName in db.junctions
    ensures Run(statements, db) == Some(SyncedInPhases(db, ops))
  {
    var removes, inserts := RemovePhase(ops, db);
    var more := InsertPhase(inserts, RemovedBy(db, ops));
    RunConcat(removes, more, db);
    PhasesMet(db.junctions, ops, inserts);
    statements := removes + more;
  }
}
