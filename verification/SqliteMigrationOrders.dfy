/** Id migration in SQL, whichever order the engine takes: when the updates succeed in every order. */
module SqliteMigrationOrders {
  import opened Options
  import opened StorageRecords
  import opened SqlDatabase
  import opened SqliteTables
  import opened SqliteMigration

  // ---- An order that begins with given entries ----

  lemma {:induction false} FirstsKeep(a: seq<Migration>, b: seq<Migration>)
    ensures |FirstOfEach(a)| <= |FirstOfEach(a + b)| && FirstOfEach(a + b)[..|FirstOfEach(a)|] == FirstOfEach(a)
  {
    if b == [] {
      assert a + b == a;
    } else {
      FirstsKeep(a, b[..|b| - 1]);
      assert (a + b)[..|a + b| - 1] == a + b[..|b| - 1];
    }
  }

  /** The engine may begin with any entries of the group that have distinct sources. */
  lemma OrderFrom(lead: seq<Migration>, group: seq<Migration>) returns (order: seq<Migration>)
    requires FirstOfEach(lead) == lead && group != [] && forall m | m in lead :: m in group
    ensures Picks(order, group) && |lead| <= |order| && order[..|lead|] == lead
  {
    order := FirstOfEach(lead + group);
    FirstsPicked(lead + group);
    FirstsKeep(lead, group);
    assert forall m | m in group :: m in lead + group;
  }

  lemma FirstsOfTwo(m: Migration, n: Migration)
    ensures FirstOfEach([m]) == [m]
    ensures m.Source() != n.Source() ==> FirstOfEach([m, n]) == [m, n]
  {
    assert [m][..0] == [] && FirstOfEach([]) == [];
    assert [m, n][..1] == [m];
    assert IsSource([m], n.Source()) ==> m.Source() == n.Source();
  }

  // ---- Rows ----

  /** Every order of the rows succeeds. */
  ghost predicate RowsAlwaysRenamed(was: map<string, RowData>, group: seq<Migration>) {
    forall order | Picks(order, group) :: RowsRenamed(was, order).Some?
  }

  /** An order of the rows that fails, when a target is not free. */
  lemma RowsFailing(was: map<string, RowData>, group: seq<Migration>, c: string) returns (order: seq<Migration>)
    requires OfCollection(group, c) && !RowsFree(was, group)
    ensures Picks(order, group) && RowsRenamed(was, order).None?
  {
    if m :| m in group && m.fromId in was && m.toId != m.fromId && m.toId in was {
      FirstsOfTwo(m, m);
      order := OrderFrom([m], group);
      TakenFails(was, order);
    } else {
      var m, n :| m in group && n in group && m.fromId in was && n.fromId in was && m.toId == n.toId
                  && m.fromId != n.fromId;
      FirstsOfTwo(m, n);
      order := OrderFrom([m, n], group);
      SharedFails(was, order);
    }
  }

  lemma BeginningFails(was: map<string, RowData>, order: seq<Migration>, i: nat)
    requires i <= |order| && RowsRenamed(was, order[..i]).None?
    ensures RowsRenamed(was, order).None?
  {
    if RowsRenamed(was, order).Some? {
      RowsPrefix(was, order, i);
    }
  }

  lemma TakenFails(was: map<string, RowData>, order: seq<Migration>)
    requires |order| >= 1 && order[0].fromId in was && order[0].toId != order[0].fromId && order[0].toId in was
    ensures RowsRenamed(was, order).None?
  {
    assert order[..1][..0] == [];
    BeginningFails(was, order, 1);
  }

  lemma SharedFails(was: map<string, RowData>, order: seq<Migration>)
    requires |order| >= 2 && order[0].fromId in was && order[1].fromId in was
    requires order[0].toId == order[1].toId && order[0].fromId != order[1].fromId
    ensures RowsRenamed(was, order).None?
  {
    assert order[..2][..1] == order[..1] && order[..1][..0] == [];
    var m, n := order[0], order[1];
    assert order[..2][1] == n && order[..0] == [];
    match RowsRenamed(was, order[..1]) {
      case Some(rows) =>
        RowsSnoc(was, order, 0);
        assert rows == (was - {m.fromId})[m.toId := m.Applied(was[m.fromId])] && n.toId in rows - {n.fromId};
      case None =>
    }
    BeginningFails(was, order, 2);
  }

  /** The rows of a group are updated in every order exactly when every target is free. */
  lemma RowsRenamedInEveryOrder(was: map<string, RowData>, group: seq<Migration>, c: string)
    requires OfCollection(group, c)
    ensures RowsAlwaysRenamed(was, group) <==> RowsFree(was, group)
  {
    if RowsFree(was, group) {
      forall order | Picks(order, group) ensures RowsRenamed(was, order).Some? {
        FreeRowsRenamed(was, order, |order|, c);
        assert order[..|order|] == order;
      }
    } else {
      var order := RowsFailing(was, group, c);
    }
  }

  /** Between the two the order decides: moving b out of the way first makes room for a. */
  lemma OrderDecides(was: map<string, RowData>, m: Migration, n: Migration)
    requires m.collection == n.collection && m.fromId in was && n.fromId in was
    requires m.toId == n.fromId && m.fromId != n.fromId && n.toId !in was
    ensures Picks([n, m], [n, m]) && RowsRenamed(was, [n, m]).Some?
    ensures Picks([m, n], [n, m]) && RowsRenamed(was, [m, n]).None?
  {
    assert [n, m][..1] == [n] && [n][..0] == [];
    assert RowsRenamed(was, [n]) == Some((was - {n.fromId})[n.toId := n.Applied(was[n.fromId])]);
    forall x | x in [n, m] ensures IsSource([n, m], x.Source()) && IsSource([m, n], x.Source()) {
      assert x in [m, n];
    }
    TakenFails(was, [m, n]);
  }

  // ---- Pairs ----

  ghost predicate KeysAlwaysRenamed(was: set<Pair>, group: seq<Migration>) {
    forall order | Picks(order, group) :: KeysRenamed(was, order).Some?
  }

  lemma {:induction false} KeysPrefix(was: set<Pair>, order: seq<Migration>, i: nat)
    requires i <= |order| && KeysRenamed(was, order).Some?
    ensures KeysRenamed(was, order[..i]).Some?
    decreases |order| - i
  {
    if i == |order| {
      assert order[..i] == order;
    } else {
      KeysPrefix(was, order, i + 1);
      KeysSnoc(was, order, i);
    }
  }

  lemma KeysBeginningFails(was: set<Pair>, order: seq<Migration>, i: nat)
    requires i <= |order| && KeysRenamed(was, order[..i]).None?
    ensures KeysRenamed(was, order).None?
  {
    if KeysRenamed(was, order).Some? {
      KeysPrefix(was, order, i);
    }
  }

  lemma PairTakenFails(was: set<Pair>, order: seq<Migration>, k: string)
    requires |order| >= 1 && PairTaken(was, order[0], k)
    ensures KeysRenamed(was, order).None?
  {
    KeysSnoc(was, order, 0);
    assert order[..0] == [];
    MovedAt(was, was, order[0], order[0].toId, k);
    assert (order[0].toId, k) in LeftBy(was, was, order[0]) * MovedBy(was, order[0]);
    KeysBeginningFails(was, order, 1);
  }

  lemma PairSharedFails(was: set<Pair>, order: seq<Migration>, k: string)
    requires |order| >= 2 && PairShared(was, order[0], order[1], k) && !PairTaken(was, order[0], k)
    ensures KeysRenamed(was, order).None?
  {
    KeysSnoc(was, order, 0);
    KeysSnoc(was, order, 1);
    assert order[..0] == [];
    MovedAt(was, was, order[0], order[0].toId, k);
    match KeysRenamed(was, order[..1]) {
      case Some(keys) =>
        MovedAt(was, keys, order[1], order[1].toId, k);
        assert (order[1].toId, k) in LeftBy(was, keys, order[1]) * MovedBy(was, order[1]);
      case None =>
    }
    KeysBeginningFails(was, order, 2);
  }

  lemma KeysFailing(was: set<Pair>, group: seq<Migration>, c: string) returns (order: seq<Migration>)
    requires OfCollection(group, c) && !KeysFree(was, group)
    ensures Picks(order, group) && KeysRenamed(was, order).None?
  {
    if m, k :| m in group && PairTaken(was, m, k) {
      FirstsOfTwo(m, m);
      order := OrderFrom([m], group);
      PairTakenFails(was, order, k);
    } else {
      var m, n, k :| m in group && n in group && PairShared(was, m, n, k);
      FirstsOfTwo(m, n);
      order := OrderFrom([m, n], group);
      PairSharedFails(was, order, k);
    }
  }

  /** The pairs of a group are updated in every order exactly when none is in the way of another. */
  lemma KeysRenamedInEveryOrder(was: set<Pair>, group: seq<Migration>, c: string)
    requires OfCollection(group, c)
    ensures KeysAlwaysRenamed(was, group) <==> KeysFree(was, group)
  {
    if KeysFree(was, group) {
      forall order | Picks(order, group) ensures KeysRenamed(was, order).Some? {
        SourcesAreIds(order, c);
        FreeKeysRenamed(was, order, |order|);
        assert order[..|order|] == order;
      }
    } else {
      var order := KeysFailing(was, group, c);
    }
  }

  // ---- The database, under every engine ----

  function WithEngine(db: Database, engine: Engine): Database {
    db.(engine := engine)
  }

  ghost predicate SucceedsUnder(db: Database, batch: seq<Migration>, engine: Engine) {
    AllRename(WithEngine(db, engine), batch)
  }

  lemma EngineWith(group: seq<Migration>, order: seq<Migration>) returns (engine: Engine)
    requires Picks(order, group)
    ensures engine.rows(group) == order
  {
    var f := (b: seq<Migration>) => if b == group then order else FirstOfEach(b);
    forall b ensures Picks(f(b), b) {
      FirstsPicked(b);
    }
    FirstsArePicked();
    engine := Engine(f, FirstOfEach);
  }

  lemma FreeUnderEvery(db: Database, batch: seq<Migration>, engine: Engine)
    requires AllLinked(db) && TargetsFree(ViewOf(db), batch) && forall m | m in batch :: m.collection in db.tables
    ensures SucceedsUnder(db, batch, engine)
  {
    LinkedShown(db);
    forall c | c in db.tables
      ensures RenamedTable(engine, db.tables[c], Select(batch, MigrationCollection, c)).Some?
    {
      var t, group := db.tables[c], Select(batch, MigrationCollection, c);
      forall m | m in group ensures m.collection == c {
        SelectMembers(batch, MigrationCollection, c, m);
      }
      FreeRows(t.rows, ViewOf(db), batch, c);
      KeysFollowRows(t, ViewOf(db), group, c);
      RowsRenamedInEveryOrder(t.rows, group, c);
      KeysRenamedInEveryOrder(t.keys, group, c);
      assert Picks(engine.rows(group), group) && Picks(engine.pairs(group), group);
    }
  }

  /** Two entries that get in each other's way, or one that is in the way of a record. */
  ghost predicate InTheWay(view: View, m: Migration, n: Migration) {
    && m.Source() in view && n.Source() in view
    && ((m == n && m.Target() != m.Source() && m.Target() in view)
        || (m.Target() == n.Target() && m.Source() != n.Source()))
  }

  lemma FailsUnderSome(db: Database, batch: seq<Migration>, m: Migration, n: Migration) returns (engine: Engine)
    requires AllLinked(db) && m in batch && n in batch && InTheWay(ViewOf(db), m, n)
    requires forall m | m in batch :: m.collection in db.tables
    ensures !SucceedsUnder(db, batch, engine)
  {
    var c := m.collection;
    var t, group := db.tables[c], Select(batch, MigrationCollection, c);
    LinkedShown(db);
    forall x ensures x in group <==> x in batch && x.collection == c {
      SelectMembers(batch, MigrationCollection, c, x);
    }
    assert m in group && n in group;
    assert RowShown(t.rows, ViewOf(db), c, m.fromId) && RowShown(t.rows, ViewOf(db), c, n.fromId);
    assert RowShown(t.rows, ViewOf(db), c, m.toId);
    assert !RowsFree(t.rows, group);
    var order := RowsFailing(t.rows, group, c);
    engine := EngineWith(group, order);
    assert c in Collections(batch, MigrationCollection);
    assert RenamedTable(engine, t, group).None?;
  }

  /** The batch succeeds under every engine exactly when every target is free. */
  lemma MigrationSucceedsInEveryOrder(db: Database, batch: seq<Migration>)
    requires AllLinked(db) && forall m | m in batch :: m.collection in db.tables
    ensures (forall engine :: SucceedsUnder(db, batch, engine)) <==> TargetsFree(ViewOf(db), batch)
  {
    var view := ViewOf(db);
    if TargetsFree(view, batch) {
      forall engine ensures SucceedsUnder(db, batch, engine) {
        FreeUnderEvery(db, batch, engine);
      }
    } else if m :| m in batch && m.Source() in view && m.Target() != m.Source() && m.Target() in view {
      var engine := FailsUnderSome(db, batch, m, m);
    } else {
      var m, n :| m in batch && n in batch && m.Source() in view && n.Source() in view && m.Target() == n.Target()
                  && m.Source() != n.Source();
      var engine := FailsUnderSome(db, batch, m, n);
    }
  }

  /** Succeeds, and shows what the in-memory loop shows. */
  ghost predicate AgreesUnder(db: Database, batch: seq<Migration>, engine: Engine) {
    && SucceedsUnder(db, batch, engine)
    && ViewOf(MigratedDatabase(WithEngine(db, engine), batch)) == MigratedInTurn(ViewOf(db), batch)
  }

  lemma ViewWithEngine(db: Database, engine: Engine)
    ensures ViewOf(WithEngine(db, engine)) == ViewOf(db) && (AllLinked(WithEngine(db, engine)) <==> AllLinked(db))
  {
  }

  /** Both backends migrate alike, whatever the engine, exactly when every target is free and no entry
      moves a record to a later entry's source. */
  lemma MigrationsAgree(db: Database, batch: seq<Migration>)
    requires AllLinked(db) && forall m | m in batch :: m.collection in db.tables
    requires DistinctSources(batch) && DistinctTargets(batch)
    ensures (forall engine :: AgreesUnder(db, batch, engine)) <==> MigrateOk(ViewOf(db), batch)
  {
    MigrationSucceedsInEveryOrder(db, batch);
    InTurnUnlessChained(ViewOf(db), batch);
    forall engine | SucceedsUnder(db, batch, engine)
      ensures ViewOf(MigratedDatabase(WithEngine(db, engine), batch)) == Migrated(ViewOf(db), batch)
    {
      ViewWithEngine(db, engine);
      MigrateAgreement(WithEngine(db, engine), batch);
    }
    if forall engine :: AgreesUnder(db, batch, engine) {
      forall engine ensures SucceedsUnder(db, batch, engine) {
        assert AgreesUnder(db, batch, engine);
      }
      assert AgreesUnder(db, batch, db.engine);
    }
  }
}
