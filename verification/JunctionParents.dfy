/** No operation looks at the junctions of the records that it deletes, renames or names as parents:
    which of them leave every junction pair with its parent. */
module JunctionParents {
  import opened Options
  import opened StorageRecords
  import opened SqlDatabase
  import opened SqliteTables
  import opened SqliteMigration
  import opened SqlJunctions
  import opened SqlKeyRemoval
  import opened SqlBatches

  /** A record that some junction pair has as its parent. */
  ghost predicate IsParent(db: Database, parentOf: map<string, string>, e: EntityKey) {
    exists j, p :: j in db.junctions && p in db.junctions[j] && j in parentOf && e == EntityKey(parentOf[j], p.0)
  }

  /** An operation on the records alone. */
  lemma RecordsChanged(db: Database, now: Database, parentOf: map<string, string>)
    requires ParentsExist(db, parentOf) && now.junctions == db.junctions
    ensures ParentsExist(now, parentOf) <==> forall e | IsParent(db, parentOf, e) :: e in ViewOf(now)
  {
    if ParentsExist(now, parentOf) {
      forall e | IsParent(db, parentOf, e) ensures e in ViewOf(now) {
        var j, p :| j in db.junctions && p in db.junctions[j] && j in parentOf && e == EntityKey(parentOf[j], p.0);
        assert ParentAt(now, parentOf, j, p);
        ViewAt(now, e);
      }
    }
    if forall e | IsParent(db, parentOf, e) :: e in ViewOf(now) {
      forall j, p | j in now.junctions && p in now.junctions[j]
        ensures ParentAt(now, parentOf, j, p)
      {
        assert ParentAt(db, parentOf, j, p);
        ViewAt(now, EntityKey(parentOf[j], p.0));
        assert IsParent(db, parentOf, EntityKey(parentOf[j], p.0));
      }
    }
  }

  lemma ParentShown(db: Database, parentOf: map<string, string>, e: EntityKey)
    requires ParentsExist(db, parentOf) && IsParent(db, parentOf, e)
    ensures e in ViewOf(db)
  {
    var j, p :| j in db.junctions && p in db.junctions[j] && j in parentOf && e == EntityKey(parentOf[j], p.0);
    ViewAt(db, e);
  }

  lemma SaveKeepsParents(db: Database, parentOf: map<string, string>, records: seq<ReadModelRecord>)
    requires ParentsExist(db, parentOf)
    ensures ParentsExist(SavedDatabase(db, records), parentOf)
  {
    var now := SavedDatabase(db, records);
    forall e | IsParent(db, parentOf, e) ensures e in ViewOf(now) {
      ParentShown(db, parentOf, e);
      ViewAt(db, e);
      ViewAt(now, e);
      SavedRow(db.tables[e.collection], records, e.collection, e.id);
    }
    RecordsChanged(db, now, parentOf);
  }

  lemma AddKeepsParents(db: Database, parentOf: map<string, string>, entries: seq<KeyAddition>)
    requires ParentsExist(db, parentOf)
    ensures ParentsExist(AddedDatabase(db, entries), parentOf)
  {
    var now := AddedDatabase(db, entries);
    forall e | IsParent(db, parentOf, e) ensures e in ViewOf(now) {
      ParentShown(db, parentOf, e);
      ViewAt(db, e);
      ViewAt(now, e);
    }
    RecordsChanged(db, now, parentOf);
  }

  /** Deleting keeps every parent exactly when it deletes none. */
  lemma DeleteKeepsParents(db: Database, parentOf: map<string, string>, es: seq<EntityKey>)
    requires ParentsExist(db, parentOf) && AllLinked(db)
    ensures ParentsExist(DeletedDatabase(db, es), parentOf) <==> forall e | e in es :: !IsParent(db, parentOf, e)
  {
    var now := DeletedDatabase(db, es);
    DeleteAgreement(db, es);
    RecordsChanged(db, now, parentOf);
    forall e | IsParent(db, parentOf, e) ensures e in ViewOf(now) <==> e !in es {
      ParentShown(db, parentOf, e);
    }
  }

  /** Renaming keeps every parent exactly when none is renamed, or another record takes its id. */
  lemma MigrateKeepsParents(db: Database, parentOf: map<string, string>, batch: seq<Migration>)
    requires ParentsExist(db, parentOf) && AllLinked(db) && DistinctSources(batch)
    requires AllRename(db, batch) && forall m | m in batch :: m.collection in db.tables
    ensures ParentsExist(MigratedDatabase(db, batch), parentOf)
            <==> forall m | m in batch && IsParent(db, parentOf, m.Source()) ::
                   exists n | n in batch :: n.Target() == m.Source() && n.Source() in ViewOf(db)
  {
    var now := MigratedDatabase(db, batch);
    MigrateAgreement(db, batch);
    RecordsChanged(db, now, parentOf);
    forall e | IsParent(db, parentOf, e)
      ensures e in ViewOf(now) <==>
              !IsSource(batch, e) || exists n | n in batch :: n.Target() == e && n.Source() in ViewOf(db)
    {
      ParentShown(db, parentOf, e);
      MigratedAt(ViewOf(db), batch, e);
      MoverFound(ViewOf(db), batch, e);
    }
  }

  // ---- Removing cache keys ----

  /** A junction pair whose parent has no cache key. */
  ghost predicate SomeParentUnkeyed(db: Database, parentOf: map<string, string>) {
    exists j, p :: j in db.junctions && p in db.junctions[j] && UnkeyedParent(db, parentOf, j, p)
  }

  predicate UnkeyedParent(db: Database, parentOf: map<string, string>, j: string, p: Pair) {
    j in parentOf && parentOf[j] in db.tables && KeysOf(db.tables[parentOf[j]], p.0) == {}
  }

  /** Junction pairs go with the rows whose last key is removed, but a row that had no key goes without them. */
  lemma PairAfterRemoval(db: Database, parentOf: map<string, string>, key: string, j: string, p: Pair)
    requires j in db.junctions && j in parentOf && parentOf[j] in db.tables && p in db.junctions[j]
    ensures var now, c := KeyDropped(db, parentOf, key), parentOf[j];
            && (p in now.junctions[j] <==> KeysOf(db.tables[c], p.0) != {key})
            && (p.0 in now.tables[c].rows <==> p.0 in db.tables[c].rows && KeysOf(db.tables[c], p.0) - {key} != {})
            && KeysOf(now.tables[c], p.0) == KeysOf(db.tables[c], p.0) - {key}
  {
    DoomedKeys(db.tables[parentOf[j]], key, p.0);
    KeyRemovedRow(db.tables[parentOf[j]], key, p.0);
  }

  lemma UnkeyedStays(db: Database, parentOf: map<string, string>, key: string)
    requires SomeParentUnkeyed(db, parentOf)
    ensures var now := KeyDropped(db, parentOf, key); SomeParentUnkeyed(now, parentOf) && !ParentsExist(now, parentOf)
  {
    var j, p :| j in db.junctions && p in db.junctions[j] && UnkeyedParent(db, parentOf, j, p);
    PairAfterRemoval(db, parentOf, key, j, p);
    assert UnkeyedParent(KeyDropped(db, parentOf, key), parentOf, j, p);
  }

  lemma KeyedStay(db: Database, parentOf: map<string, string>, key: string)
    requires ParentsExist(db, parentOf) && !SomeParentUnkeyed(db, parentOf)
    ensures var now := KeyDropped(db, parentOf, key); ParentsExist(now, parentOf) && !SomeParentUnkeyed(now, parentOf)
  {
    var now := KeyDropped(db, parentOf, key);
    forall j, p | j in now.junctions && p in now.junctions[j]
      ensures ParentAt(now, parentOf, j, p)
      ensures !UnkeyedParent(now, parentOf, j, p)
    {
      assert ParentAt(db, parentOf, j, p) && !UnkeyedParent(db, parentOf, j, p);
      PairAfterRemoval(db, parentOf, key, j, p);
    }
  }

  /** Removing cache keys keeps every parent exactly when each has a cache key to begin with. */
  lemma {:induction false} RemovalKeepsParents(db: Database, parentOf: map<string, string>, keys: seq<string>)
    requires ParentsExist(db, parentOf) && keys != []
    ensures ParentsExist(KeysDropped(db, parentOf, keys), parentOf) <==> !SomeParentUnkeyed(db, parentOf)
    ensures SomeParentUnkeyed(KeysDropped(db, parentOf, keys), parentOf) <==> SomeParentUnkeyed(db, parentOf)
  {
    var init, last := keys[..|keys| - 1], keys[|keys| - 1];
    var mid := KeysDropped(db, parentOf, init);
    if init != [] {
      RemovalKeepsParents(db, parentOf, init);
    }
    if SomeParentUnkeyed(db, parentOf) {
      UnkeyedStays(mid, parentOf, last);
    } else {
      KeyedStay(mid, parentOf, last);
    }
  }

  /** The same for the removal of one key from the records alone. */
  lemma TrimKeepsParents(db: Database, parentOf: map<string, string>, key: string)
    requires ParentsExist(db, parentOf)
    ensures ParentsExist(CollectionsTrimmed(db, parentOf, db.tables.Keys, key), parentOf)
            <==> !SomeParentUnkeyed(db, parentOf)
  {
    RemovalKeepsParents(db, parentOf, [key]);
    assert [key][..0] == [] && KeysDropped(db, parentOf, [key]) == KeyDropped(db, parentOf, key);
    TrimmedAlike(db, parentOf, key);
    SameParents(CollectionsTrimmed(db, parentOf, db.tables.Keys, key), KeyDropped(db, parentOf, key), parentOf);
  }

  lemma TrimmedAlike(db: Database, parentOf: map<string, string>, key: string)
    ensures var a, b := CollectionsTrimmed(db, parentOf, db.tables.Keys, key), KeyDropped(db, parentOf, key);
            a.tables == b.tables && a.junctions == b.junctions
  {
  }

  lemma SameParents(a: Database, b: Database, parentOf: map<string, string>)
    requires a.tables == b.tables && a.junctions == b.junctions
    ensures ParentsExist(a, parentOf) <==> ParentsExist(b, parentOf)
  {
    assert forall j, p :: ParentAt(a, parentOf, j, p) <==> ParentAt(b, parentOf, j, p);
  }

  // ---- Synchronising junctions ----

  lemma {:induction false} RowOfBatch(ops: seq<JunctionSyncOp>, r: JunctionRow)
    ensures r in AllRows(ops) <==> exists op | op in ops :: r in RowsToAdd(op)
  {
    if ops != [] {
      var init, last := ops[..|ops| - 1], ops[|ops| - 1];
      RowOfBatch(init, r);
      assert forall op :: op in ops <==> op in init || op == last;
    }
  }

  /** On one junction: a pair is there afterwards only if it was there before or is added, and certainly if added. */
  lemma PairInPhases(j: Junction, ops: seq<JunctionSyncOp>, p: Pair)
    ensures p in InPhases(j, ops) ==> p in j || exists op | op in ops :: op.add != [] && op.parentId == p.0
    ensures (exists op, c | op in ops && c in op.add :: p == (op.parentId, c.id)) ==> p in InPhases(j, ops)
  {
    InsertedPair(RemovedAll(j, ops), AllRows(ops), p);
    RemovedAllAt(j, ops, p);
    if r :| r in AllRows(ops) && (r.parent, r.child) == p {
      RowOfBatch(ops, r);
      var op :| op in ops && r in RowsToAdd(op);
    }
    if op, c :| op in ops && c in op.add && p == (op.parentId, c.id) {
      var i :| 0 <= i < |op.add| && op.add[i] == c;
      assert RowsToAdd(op)[i] in RowsToAdd(op);
      RowOfBatch(ops, RowsToAdd(op)[i]);
    }
  }

  /** Synchronising keeps every parent exactly when each parent that is given a child exists. */
  lemma SyncKeepsParents(db: Database, parentOf: map<string, string>, ops: seq<JunctionSyncOp>)
    requires ParentsExist(db, parentOf)
    requires forall op | op in ops ::
               op.junctionName in db.junctions && op.junctionName in parentOf && parentOf[op.junctionName] in db.tables
    ensures ParentsExist(SyncedInPhases(db, ops), parentOf)
            <==> forall op | op in ops && op.add != [] ::
                   op.parentId in db.tables[parentOf[op.junctionName]].rows
  {
    var now := SyncedInPhases(db, ops);
    if ParentsExist(now, parentOf) {
      forall op | op in ops && op.add != [] ensures op.parentId in db.tables[parentOf[op.junctionName]].rows {
        var j, p := op.junctionName, (op.parentId, op.add[0].id);
        SelectMembers(ops, JunctionOf, j, op);
        PairInPhases(db.junctions[j], Select(ops, JunctionOf, j), p);
        assert op.add[0] in op.add;
        assert ParentAt(now, parentOf, j, p);
      }
    }
    if forall op | op in ops && op.add != [] :: op.parentId in db.tables[parentOf[op.junctionName]].rows {
      forall j, p | j in now.junctions && p in now.junctions[j]
        ensures ParentAt(now, parentOf, j, p)
      {
        var group := Select(ops, JunctionOf, j);
        PairInPhases(db.junctions[j], group, p);
        if p in db.junctions[j] {
          assert ParentAt(db, parentOf, j, p);
        } else {
          var op :| op in group && op.add != [] && op.parentId == p.0;
          SelectMembers(ops, JunctionOf, j, op);
        }
      }
    }
  }
}
