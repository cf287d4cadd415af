/** Id migration in SQL: when the updates succeed in some order at least. */
module SqliteMigrationRings {
  import opened Options
  import opened StorageRecords
  import opened SqlDatabase
  import opened SqliteTables
  import opened SqliteMigration
  import opened SqliteMigrationOrders

  // ---- Entries that wait for each other ----

  /** The first entry moves a record to where the second has yet to take one away. */
  predicate Waits(view: View, m: Migration, n: Migration) {
    && m.Source() in view && n.Source() in view
    && m.Target() != m.Source() && m.Target() == n.Source()
  }

  predicate WaitsAt(view: View, path: seq<Migration>, i: nat) {
    i + 1 < |path| && Waits(view, path[i], path[i + 1])
  }

  ghost predicate WaitingPath(view: View, among: set<Migration>, path: seq<Migration>) {
    (forall m | m in path :: m in among) && forall i: nat | i < |path| - 1 :: WaitsAt(view, path, i)
  }

  /** Records that move to each other's places, around. */
  ghost predicate Ring(view: View, among: set<Migration>, ring: seq<Migration>) {
    ring != [] && WaitingPath(view, among, ring) && Waits(view, ring[|ring| - 1], ring[0])
  }

  ghost predicate Unringed(view: View, among: set<Migration>) {
    forall ring :: !Ring(view, among, ring)
  }

  lemma {:induction false} DistinctMembers(path: seq<Migration>)
    requires forall i, j | 0 <= i < j < |path| :: path[i] != path[j]
    ensures |SetOf(path)| == |path|
  {
    if path != [] {
      var init, last := path[..|path| - 1], path[|path| - 1];
      DistinctMembers(init);
      assert path == init + [last];
      SetOfSnoc(init, last);
      assert last !in init;
    }
  }

  lemma PathFits(view: View, among: set<Migration>, path: seq<Migration>)
    requires WaitingPath(view, among, path) && forall i, j | 0 <= i < j < |path| :: path[i] != path[j]
    ensures |path| <= |among|
  {
    DistinctMembers(path);
    SubsetSize(SetOf(path), among);
  }

  lemma Closed(view: View, among: set<Migration>, path: seq<Migration>, i: nat)
    requires WaitingPath(view, among, path) && i < |path| && Waits(view, path[|path| - 1], path[i])
    ensures Ring(view, among, path[i..])
  {
    var ring := path[i..];
    forall k: nat | k < |ring| - 1 ensures WaitsAt(view, ring, k) {
      assert WaitsAt(view, path, i + k);
    }
  }

  lemma Extended(view: View, among: set<Migration>, path: seq<Migration>, n: Migration)
    requires WaitingPath(view, among, path) && path != [] && n in among && Waits(view, path[|path| - 1], n)
    ensures WaitingPath(view, among, path + [n])
  {
    forall k: nat | k < |path| ensures WaitsAt(view, path + [n], k) {
      assert k < |path| - 1 ==> WaitsAt(view, path, k);
    }
  }

  /** Following the entries, without a ring, one comes to an entry that waits for none. */
  lemma {:induction false} WaitsForNone(view: View, among: set<Migration>, path: seq<Migration>) returns (m: Migration)
    requires Unringed(view, among) && path != [] && WaitingPath(view, among, path)
    requires forall i, j | 0 <= i < j < |path| :: path[i] != path[j]
    ensures m in among && forall n | n in among :: !Waits(view, m, n)
    decreases |among| - |path|
  {
    PathFits(view, among, path);
    m := path[|path| - 1];
    if n :| n in among && Waits(view, m, n) {
      forall i | 0 <= i < |path| ensures path[i] != n {
        if path[i] == n { Closed(view, among, path, i); }
      }
      Extended(view, among, path, n);
      PathFits(view, among, path + [n]);
      m := WaitsForNone(view, among, path + [n]);
    }
  }

  ghost predicate NoneWaitsOnLater(view: View, order: seq<Migration>) {
    forall i, k | 0 <= i < k < |order| :: !Waits(view, order[i], order[k])
  }

  /** An order in which every entry comes after the one that it waits for. */
  lemma {:induction false} Arranged(view: View, among: set<Migration>) returns (order: seq<Migration>)
    requires Unringed(view, among)
    ensures SetOf(order) == among && NoneWaitsOnLater(view, order)
    ensures forall i, k | 0 <= i < k < |order| :: order[i] != order[k]
    decreases among
  {
    if among == {} {
      order := [];
    } else {
      var some :| some in among;
      var first := WaitsForNone(view, among, [some]);
      forall ring ensures !Ring(view, among - {first}, ring) {
        assert !Ring(view, among, ring);
      }
      var rest := Arranged(view, among - {first});
      assert forall m :: m in rest <==> m in SetOf(rest);
      order := [first] + rest;
      assert forall m :: m in order <==> m == first || m in rest;
    }
  }

  // ---- Orders that succeed ----

  /** Entries in one collection that are told apart by their ids. */
  ghost predicate Told(rows: map<string, RowData>, view: View, order: seq<Migration>, c: string) {
    RowsShown(rows, view, c) && DistinctSources(order) && OfCollection(order, c)
  }

  lemma ToldAt(rows: map<string, RowData>, view: View, order: seq<Migration>, c: string, i: nat)
    requires Told(rows, view, order, c) && i < |order|
    ensures var m := order[i];
            && m in order && m.Source() == EntityKey(c, m.fromId) && m.Target() == EntityKey(c, m.toId)
            && (m.fromId in rows <==> m.Source() in view) && (m.toId in rows <==> m.Target() in view)
  {
    assert order[i] in order && order[i].collection == c;
    assert RowShown(rows, view, c, order[i].fromId) && RowShown(rows, view, c, order[i].toId);
  }

  /** An order that succeeds has every entry after the one that it waits for. */
  lemma SucceedingWaits(rows: map<string, RowData>, view: View, order: seq<Migration>, c: string)
    requires Told(rows, view, order, c) && RowsRenamed(rows, order).Some?
    ensures NoneWaitsOnLater(view, order)
  {
    forall i, k | 0 <= i < k < |order| ensures !Waits(view, order[i], order[k]) {
      ToldAt(rows, view, order, c, i);
      ToldAt(rows, view, order, c, k);
      SourcesAreIds(order, c);
      RowsPrefix(rows, order, i + 1);
      RowsSnoc(rows, order, i);
      if Waits(view, order[i], order[k]) {
        RowStays(rows, order, i, order[i].toId);
      }
    }
  }

  /** A target that is there has been left when its turn comes. */
  lemma TargetLeft(rows: map<string, RowData>, view: View, order: seq<Migration>, c: string, i: nat)
    requires Told(rows, view, order, c) && NewIdsDistinct(view, order) && NoneWaitsOnLater(view, order)
    requires i < |order| && order[i].fromId in rows && order[i].toId in rows && order[i].toId != order[i].fromId
    ensures exists j :: 0 <= j < i && order[j].fromId == order[i].toId
  {
    ToldAt(rows, view, order, c, i);
    var n :| n in order && n.Source() == order[i].Target();
    var k :| 0 <= k < |order| && order[k] == n;
    ToldAt(rows, view, order, c, k);
    assert Waits(view, order[i], order[k]);
    assert k < i;
  }

  lemma TargetFreeNow(rows: map<string, RowData>, view: View, order: seq<Migration>, c: string, i: nat)
    requires Told(rows, view, order, c) && NewIdsDistinct(view, order) && NoneWaitsOnLater(view, order)
    requires i < |order| && RowsRenamed(rows, order[..i]).Some? && order[i].fromId in rows
    ensures order[i].toId !in RowsRenamed(rows, order[..i]).value - {order[i].fromId}
  {
    var m, before := order[i], order[..i];
    ToldAt(rows, view, order, c, i);
    RenamedRowsShow(rows, view, order, i, c);
    MoverFound(view, before, m.Target());
    MigratedAt(view, before, m.Target());
    assert RowShown(RowsRenamed(rows, before).value, Migrated(view, before), c, m.toId);
    forall x | x in before && x.Source() in view ensures x.Target() != m.Target() {
      var j: nat :| j < i && before[j] == x;
      assert order[j] == x && x in order && x.Source() != m.Source();
    }
    if m.toId in rows && m.toId != m.fromId {
      TargetLeft(rows, view, order, c, i);
      var j :| 0 <= j < i && order[j].fromId == m.toId;
      ToldAt(rows, view, order, c, j);
      assert before[j] in before;
    }
  }

  lemma {:induction false} RowsInOrder(rows: map<string, RowData>, view: View, order: seq<Migration>, c: string, i: nat)
    requires Told(rows, view, order, c) && NewIdsDistinct(view, order) && NoneWaitsOnLater(view, order)
    requires i <= |order|
    ensures RowsRenamed(rows, order[..i]).Some?
  {
    if i == 0 {
      assert order[..0] == [];
    } else {
      RowsInOrder(rows, view, order, c, i - 1);
      if order[i - 1].fromId in rows { TargetFreeNow(rows, view, order, c, i - 1); }
      assert order[..i][..i - 1] == order[..i - 1];
    }
  }

  lemma PairFreeNow(t: Table<RowData>, view: View, order: seq<Migration>, c: string, i: nat)
    requires Shows(t, view, c) && Told(t.rows, view, order, c)
    requires NewIdsDistinct(view, order) && NoneWaitsOnLater(view, order)
    requires i < |order| && KeysRenamed(t.keys, order[..i]).Some?
    requires PairsAre(t.keys, KeysRenamed(t.keys, order[..i]).value, order, i)
    ensures LeftBy(t.keys, KeysRenamed(t.keys, order[..i]).value, order[i]) * MovedBy(t.keys, order[i]) == {}
  {
    var m, keys := order[i], KeysRenamed(t.keys, order[..i]).value;
    ToldAt(t.rows, view, order, c, i);
    SourcesAreIds(order, c);
    forall p | p in MovedBy(t.keys, m) ensures p !in LeftBy(t.keys, keys, m) {
      assert p == (p.0, p.1);
      MovedAt(t.keys, keys, m, p.0, p.1);
      assert KeyShown(t.keys, view, c, m.fromId, p.1) && KeyShown(t.keys, view, c, m.toId, p.1);
      if m.toId != m.fromId {
        forall j | 0 <= j < i && order[j].toId == m.toId ensures (order[j].fromId, p.1) !in t.keys {
          ToldAt(t.rows, view, order, c, j);
          assert KeyShown(t.keys, view, c, order[j].fromId, p.1);
        }
        assert !GivenBy(t.keys, order, i, m.toId, p.1);
        if (m.toId, p.1) in t.keys {
          TargetLeft(t.rows, view, order, c, i);
          assert TakenFrom(order, i, m.toId);
        }
      }
    }
  }

  lemma {:induction false} KeysInOrder(t: Table<RowData>, view: View, order: seq<Migration>, c: string, i: nat)
    requires Shows(t, view, c) && Told(t.rows, view, order, c)
    requires NewIdsDistinct(view, order) && NoneWaitsOnLater(view, order) && i <= |order|
    ensures KeysRenamed(t.keys, order[..i]).Some?
  {
    if i == 0 {
      assert order[..0] == [];
    } else {
      KeysInOrder(t, view, order, c, i - 1);
      SourcesAreIds(order, c);
      PairsRenamed(t.keys, order, i - 1);
      KeysSnoc(t.keys, order, i - 1);
      PairFreeNow(t, view, order, c, i - 1);
    }
  }

  lemma NextInRing(view: View, among: set<Migration>, ring: seq<Migration>, a: nat) returns (b: nat)
    requires Ring(view, among, ring) && a < |ring|
    ensures b < |ring| && Waits(view, ring[a], ring[b])
  {
    b := if a + 1 < |ring| then a + 1 else 0;
    assert a < |ring| - 1 ==> WaitsAt(view, ring, a);
  }

  /** The entry of a ring that comes first waits for a later one. */
  lemma RingWaits(view: View, order: seq<Migration>, ring: seq<Migration>)
    requires Ring(view, SetOf(order), ring)
    ensures !NoneWaitsOnLater(view, order)
  {
    assert forall m | m in ring :: m in SetOf(order);
    assert ring[0] in ring && ring[0] in order;
    var p := FirstAmong(order, ring);
    var a :| 0 <= a < |ring| && ring[a] == order[p];
    var b := NextInRing(view, SetOf(order), ring, a);
    assert ring[b] in ring && ring[b] in order;
    var k :| 0 <= k < |order| && order[k] == ring[b];
    assert order[k] in ring && Waits(view, order[p], order[k]);
  }

  lemma FirstAmong(order: seq<Migration>, ring: seq<Migration>) returns (p: nat)
    requires exists m :: m in order && m in ring
    ensures p < |order| && order[p] in ring && forall j | 0 <= j < p :: order[j] !in ring
  {
    p := 0;
    while order[p] !in ring
      invariant p < |order| && forall j | 0 <= j < p :: order[j] !in ring
      invariant exists j :: p <= j < |order| && order[j] in ring
      decreases |order| - p
    {
      p := p + 1;
    }
  }

  // ---- Some order ----

  /** Ids stay distinct, and no records move around in a ring. */
  ghost predicate Arrangeable(view: View, batch: seq<Migration>) {
    NewIdsDistinct(view, batch) && Unringed(view, SetOf(batch))
  }

  lemma ArrangedOrder(view: View, group: seq<Migration>) returns (order: seq<Migration>)
    requires DistinctSources(group) && Arrangeable(view, group)
    ensures Picks(order, group) && SetOf(order) == SetOf(group)
    ensures NewIdsDistinct(view, order) && NoneWaitsOnLater(view, order)
  {
    order := Arranged(view, SetOf(group));
    SameMembers(order, group);
    forall i, j | 0 <= i < j < |order| ensures order[i].Source() != order[j].Source() {
      assert order[i] in group && order[j] in group;
      var k :| 0 <= k < |group| && group[k] == order[i];
      var l :| 0 <= l < |group| && group[l] == order[j];
    }
    if order != [] {
      assert order[0] in order && order[0] in group;
    }
  }

  /** A table is updated in some order only if its entries can be arranged. */
  lemma RenamedIsArrangeable(rows: map<string, RowData>, view: View, group: seq<Migration>, c: string,
      order: seq<Migration>)
    requires Told(rows, view, group, c) && Picks(order, group) && RowsRenamed(rows, order).Some?
    ensures Arrangeable(view, group)
  {
    PickedAll(order, group);
    SameMembers(order, group);
    RenamedRowsFit(rows, view, order, c);
    FitsOneMover(rows, view, order, c);
    forall m | m in group && m.Source() in view && m.Target() in view ensures IsSource(group, m.Target()) {
      var i :| 0 <= i < |order| && order[i] == m;
      ToldAt(rows, view, order, c, i);
      var n :| n in order && n.fromId == m.toId;
      assert n in group && n.collection == c;
    }
    SucceedingWaits(rows, view, order, c);
    forall ring ensures !Ring(view, SetOf(group), ring) {
      if Ring(view, SetOf(order), ring) {
        RingWaits(view, order, ring);
      }
    }
  }

  /** In the order that is arranged, both updates of a table succeed. */
  lemma ArrangedRenames(t: Table<RowData>, view: View, group: seq<Migration>, c: string) returns (order: seq<Migration>)
    requires Shows(t, view, c) && Told(t.rows, view, group, c) && Arrangeable(view, group)
    ensures Picks(order, group) && RowsRenamed(t.rows, order).Some? && KeysRenamed(t.keys, order).Some?
  {
    order := ArrangedOrder(view, group);
    SameMembers(order, group);
    RowsInOrder(t.rows, view, order, c, |order|);
    KeysInOrder(t, view, order, c, |order|);
    assert order[..|order|] == order;
  }

  // ---- The database, under some engine ----

  lemma GroupTold(db: Database, batch: seq<Migration>, c: string)
    requires AllLinked(db) && DistinctSources(batch) && c in db.tables
    ensures var group := Select(batch, MigrationCollection, c);
            && Shows(db.tables[c], ViewOf(db), c) && Told(db.tables[c].rows, ViewOf(db), group, c)
            && forall m :: m in group <==> m in batch && m.collection == c
  {
    LinkedShown(db);
    SelectedDistinct(batch, c);
    forall m ensures m in Select(batch, MigrationCollection, c) <==> m in batch && m.collection == c {
      SelectMembers(batch, MigrationCollection, c, m);
    }
  }

  /** Records move within their collection. */
  lemma {:induction false} RingOfOne(view: View, among: set<Migration>, ring: seq<Migration>, i: nat)
    requires Ring(view, among, ring) && i < |ring|
    ensures ring[i].collection == ring[0].collection
  {
    if i > 0 {
      RingOfOne(view, among, ring, i - 1);
      assert WaitsAt(view, ring, i - 1);
    }
  }

  lemma RingInGroup(view: View, batch: seq<Migration>, group: seq<Migration>, c: string, ring: seq<Migration>)
    requires forall m :: m in group <==> m in batch && m.collection == c
    requires Ring(view, SetOf(batch), ring) && ring[0].collection == c
    ensures Ring(view, SetOf(group), ring)
  {
    forall m | m in ring ensures m in SetOf(group) {
      var i :| 0 <= i < |ring| && ring[i] == m;
      RingOfOne(view, SetOf(batch), ring, i);
      assert m in SetOf(batch);
    }
  }

  lemma RingInBatch(view: View, batch: seq<Migration>, group: seq<Migration>, ring: seq<Migration>)
    requires (forall m | m in group :: m in batch) && Ring(view, SetOf(group), ring)
    ensures Ring(view, SetOf(batch), ring)
  {
    forall m | m in ring ensures m in SetOf(batch) {
      assert m in SetOf(group);
    }
  }

  /** A batch can be arranged exactly when its part in each collection can. */
  lemma ArrangeableByCollection(db: Database, batch: seq<Migration>)
    requires AllLinked(db) && DistinctSources(batch) && forall m | m in batch :: m.collection in db.tables
    ensures Arrangeable(ViewOf(db), batch) <==>
            forall c | c in db.tables :: Arrangeable(ViewOf(db), Select(batch, MigrationCollection, c))
  {
    var view := ViewOf(db);
    if Arrangeable(view, batch) {
      forall c | c in db.tables ensures Arrangeable(view, Select(batch, MigrationCollection, c)) {
        GroupArrangeable(db, batch, c);
      }
    }
    if forall c | c in db.tables :: Arrangeable(view, Select(batch, MigrationCollection, c)) {
      GroupsDistinct(db, batch);
      forall ring: seq<Migration> ensures !Ring(view, SetOf(batch), ring) {
        if Ring(view, SetOf(batch), ring) {
          assert ring[0] in ring && ring[0] in SetOf(batch);
          GroupTold(db, batch, ring[0].collection);
          RingInGroup(view, batch, Select(batch, MigrationCollection, ring[0].collection), ring[0].collection, ring);
        }
      }
    }
  }

  lemma GroupArrangeable(db: Database, batch: seq<Migration>, c: string)
    requires AllLinked(db) && DistinctSources(batch) && c in db.tables && Arrangeable(ViewOf(db), batch)
    ensures Arrangeable(ViewOf(db), Select(batch, MigrationCollection, c))
  {
    var view, group := ViewOf(db), Select(batch, MigrationCollection, c);
    GroupTold(db, batch, c);
    forall m | m in group && m.Source() in view && m.Target() in view ensures IsSource(group, m.Target()) {
      var n :| n in batch && n.Source() == m.Target();
      assert n in group;
    }
    forall ring ensures !Ring(view, SetOf(group), ring) {
      if Ring(view, SetOf(group), ring) {
        RingInBatch(view, batch, group, ring);
      }
    }
  }

  lemma GroupsDistinct(db: Database, batch: seq<Migration>)
    requires AllLinked(db) && DistinctSources(batch) && forall m | m in batch :: m.collection in db.tables
    requires forall c | c in db.tables :: Arrangeable(ViewOf(db), Select(batch, MigrationCollection, c))
    ensures NewIdsDistinct(ViewOf(db), batch)
  {
    var view := ViewOf(db);
    forall m, n | m in batch && n in batch && m.Source() in view && n.Source() in view && m.Target() == n.Target()
      ensures m.Source() == n.Source()
    {
      GroupTold(db, batch, m.collection);
      var group := Select(batch, MigrationCollection, m.collection);
      assert OneMoverEach(view, group) && m in group && n in group;
    }
    forall m | m in batch && m.Source() in view && m.Target() in view ensures IsSource(batch, m.Target()) {
      GroupTold(db, batch, m.collection);
      var group := Select(batch, MigrationCollection, m.collection);
      assert m in group && IsSource(group, m.Target());
      var n :| n in group && n.Source() == m.Target();
      assert n in batch;
    }
  }

  /** An engine that takes each collection's entries in a given order. */
  lemma EngineOf(batch: seq<Migration>, orders: map<string, seq<Migration>>) returns (engine: Engine)
    requires forall c | c in orders :: Picks(orders[c], Select(batch, MigrationCollection, c))
    ensures forall c | c in orders && Select(batch, MigrationCollection, c) != [] ::
              var group := Select(batch, MigrationCollection, c);
              engine.rows(group) == orders[c] && engine.pairs(group) == orders[c]
  {
    var f := (b: seq<Migration>) =>
        if b != [] && b[0].collection in orders && b == Select(batch, MigrationCollection, b[0].collection)
        then orders[b[0].collection] else FirstOfEach(b);
    forall b ensures Picks(f(b), b) {
      FirstsPicked(b);
    }
    engine := Engine(f, f);
    forall c | c in orders && Select(batch, MigrationCollection, c) != []
      ensures Select(batch, MigrationCollection, c)[0].collection == c
    {
      SelectMembers(batch, MigrationCollection, c, Select(batch, MigrationCollection, c)[0]);
    }
  }

  /** With distinct sources, some engine performs the batch exactly when ids stay distinct and no records move
      around in a ring. */
  lemma MigrationSucceedsInSomeOrder(db: Database, batch: seq<Migration>)
    requires AllLinked(db) && DistinctSources(batch) && forall m | m in batch :: m.collection in db.tables
    ensures (exists engine :: SucceedsUnder(db, batch, engine)) <==> Arrangeable(ViewOf(db), batch)
  {
    ArrangeableByCollection(db, batch);
    if engine :| SucceedsUnder(db, batch, engine) {
      forall c | c in db.tables ensures Arrangeable(ViewOf(db), Select(batch, MigrationCollection, c)) {
        SucceededIsArrangeable(db, batch, engine, c);
      }
    }
    if Arrangeable(ViewOf(db), batch) {
      var engine := ArrangedEngine(db, batch);
    }
  }

  /** In particular, only a batch that can be arranged succeeds. */
  lemma RenamedBatchIsArrangeable(db: Database, batch: seq<Migration>)
    requires AllLinked(db) && DistinctSources(batch) && AllRename(db, batch)
    requires forall m | m in batch :: m.collection in db.tables
    ensures Arrangeable(ViewOf(db), batch)
  {
    assert WithEngine(db, db.engine) == db;
    assert SucceedsUnder(db, batch, db.engine);
    MigrationSucceedsInSomeOrder(db, batch);
  }

  lemma SucceededIsArrangeable(db: Database, batch: seq<Migration>, engine: Engine, c: string)
    requires AllLinked(db) && DistinctSources(batch) && SucceedsUnder(db, batch, engine) && c in db.tables
    ensures Arrangeable(ViewOf(db), Select(batch, MigrationCollection, c))
  {
    var group := Select(batch, MigrationCollection, c);
    GroupTold(db, batch, c);
    if c in Collections(batch, MigrationCollection) {
      assert RenamedTable(engine, db.tables[c], group).Some? && Picks(engine.rows(group), group);
      RenamedIsArrangeable(db.tables[c].rows, ViewOf(db), group, c, engine.rows(group));
    } else {
      SelectNone(batch, MigrationCollection, c);
      NothingToArrange(ViewOf(db));
    }
  }

  lemma NothingToArrange(view: View)
    ensures Arrangeable(view, [])
  {
    forall ring: seq<Migration> ensures !Ring(view, SetOf([]), ring) {
      if ring != [] { assert ring[0] in ring; }
    }
  }

  lemma ArrangedEngine(db: Database, batch: seq<Migration>) returns (engine: Engine)
    requires AllLinked(db) && DistinctSources(batch) && Arrangeable(ViewOf(db), batch)
    requires forall m | m in batch :: m.collection in db.tables
    ensures SucceedsUnder(db, batch, engine)
  {
    var orders: map<string, seq<Migration>> := map[];
    var pending := db.tables.Keys;
    while pending != {}
      invariant orders.Keys + pending == db.tables.Keys
      invariant forall c | c in orders :: Performs(db, batch, c, orders[c])
    {
      var c :| c in pending;
      GroupTold(db, batch, c);
      GroupArrangeable(db, batch, c);
      var order := ArrangedRenames(db.tables[c], ViewOf(db), Select(batch, MigrationCollection, c), c);
      assert Performs(db, batch, c, order);
      orders, pending := orders[c := order], pending - {c};
    }
    engine := EngineOf(batch, orders);
    forall c | c in Collections(batch, MigrationCollection) && c in db.tables
      ensures RenamedTable(engine, db.tables[c], Select(batch, MigrationCollection, c)).Some?
    {
      var m :| m in batch && m.collection == c;
      SelectMembers(batch, MigrationCollection, c, m);
      assert Performs(db, batch, c, orders[c]);
    }
  }

  /** The order performs the part of the batch in one collection. */
  ghost predicate Performs(db: Database, batch: seq<Migration>, c: string, order: seq<Migration>) {
    && c in db.tables && Picks(order, Select(batch, MigrationCollection, c))
    && RowsRenamed(db.tables[c].rows, order).Some? && KeysRenamed(db.tables[c].keys, order).Some?
  }
}
