/** Id migration in SQL: one update per table, whose outcome is the simultaneous renaming. */
module SqliteMigration {
  import opened Options
  import opened StorageRecords
  import opened SqlDatabase
  import opened SqliteTables

  function MigrationCollection(m: Migration): string {
    m.collection
  }

  function RenamedTable(engine: Engine, t: Table<RowData>, group: seq<Migration>): Option<Table<RowData>> {
    match RowsRenamed(t.rows, engine.rows(group))
    case None => None
    case Some(rows) =>
      match KeysRenamed(t.keys, engine.pairs(group))
      case None => None
      case Some(keys) => Some(Table(rows, keys))
  }

  // ---- The entries of one collection ----

  lemma {:induction false} SelectedMover(view: View, batch: seq<Migration>, e: EntityKey)
    ensures Mover(view, Select(batch, MigrationCollection, e.collection), e) == Mover(view, batch, e)
  {
    if batch != [] {
      SelectedMover(view, batch[..|batch| - 1], e);
    }
  }

  lemma SelectedMigrated(view: View, batch: seq<Migration>, e: EntityKey)
    ensures var group := Select(batch, MigrationCollection, e.collection);
            && (e in Migrated(view, group) <==> e in Migrated(view, batch))
            && (e in Migrated(view, batch) ==> Migrated(view, group)[e] == Migrated(view, batch)[e])
  {
    var group := Select(batch, MigrationCollection, e.collection);
    SelectedMover(view, batch, e);
    MoverFound(view, batch, e);
    MoverFound(view, group, e);
    forall m ensures m in group <==> m in batch && m.collection == e.collection {
      SelectMembers(batch, MigrationCollection, e.collection, m);
    }
  }

  lemma {:induction false} SelectedDistinct(batch: seq<Migration>, c: string)
    requires DistinctSources(batch)
    ensures DistinctSources(Select(batch, MigrationCollection, c))
  {
    if batch != [] {
      var init, last := batch[..|batch| - 1], batch[|batch| - 1];
      SelectedDistinct(init, c);
      if last.collection == c {
        var group := Select(init, MigrationCollection, c);
        forall m | m in group ensures m.Source() != last.Source() {
          SelectMembers(init, MigrationCollection, c, m);
          var i :| 0 <= i < |init| && init[i] == m;
          assert batch[i] == m;
        }
        DistinctSnoc(group, last);
      }
    }
  }

  lemma DistinctSnoc(group: seq<Migration>, last: Migration)
    requires DistinctSources(group) && forall m | m in group :: m.Source() != last.Source()
    ensures DistinctSources(group + [last])
  {
    assert forall i | 0 <= i < |group| :: (group + [last])[i] == group[i] && group[i] in group;
  }

  /** Whatever order the engine picks, it takes the entries of a batch with distinct sources. */
  lemma PickedAll(order: seq<Migration>, group: seq<Migration>)
    requires Picks(order, group) && DistinctSources(group)
    ensures SetOf(order) == SetOf(group)
  {
    forall m | m in group ensures m in order {
      var n :| n in order && n.Source() == m.Source();
      var i :| 0 <= i < |group| && group[i] == m;
      var j :| 0 <= j < |group| && group[j] == n;
    }
  }

  // ---- Rows ----

  ghost predicate OfCollection(group: seq<Migration>, c: string) {
    forall m | m in group :: m.collection == c
  }

  /** The ids after the update are distinct: no two rows get one id, and no row gets the id of one that stays. */
  ghost predicate Fits(was: map<string, RowData>, order: seq<Migration>) {
    && (forall m, n | m in order && n in order && m.fromId in was && n.fromId in was && m.toId == n.toId :: m == n)
    && (forall m | m in order && m.fromId in was && m.toId in was :: exists n :: n in order && n.fromId == m.toId)
  }

  lemma RowsSnoc(was: map<string, RowData>, order: seq<Migration>, i: nat)
    requires i < |order| && RowsRenamed(was, order[..i + 1]).Some?
    ensures RowsRenamed(was, order[..i]).Some?
    ensures var rows, now, m := RowsRenamed(was, order[..i]).value, RowsRenamed(was, order[..i + 1]).value, order[i];
            if m.fromId !in was then now == rows
            else m.toId !in rows - {m.fromId} && now == (rows - {m.fromId})[m.toId := m.Applied(was[m.fromId])]
  {
    assert order[..i + 1][..i] == order[..i];
  }

  lemma {:induction false} RowsPrefix(was: map<string, RowData>, order: seq<Migration>, i: nat)
    requires i <= |order| && RowsRenamed(was, order).Some?
    ensures RowsRenamed(was, order[..i]).Some?
    decreases |order| - i
  {
    if i == |order| {
      assert order[..i] == order;
    } else {
      RowsPrefix(was, order, i + 1);
      RowsSnoc(was, order, i);
    }
  }

  /** A row that no entry has taken yet is still there, and nothing has been put in its place. */
  lemma {:induction false} RowStays(was: map<string, RowData>, order: seq<Migration>, n: nat, id: string)
    requires n <= |order| && RowsRenamed(was, order[..n]).Some? && id in was
    requires forall j | 0 <= j < n :: order[j].fromId != id
    ensures id in RowsRenamed(was, order[..n]).value
    ensures forall j | 0 <= j < n && order[j].fromId in was :: order[j].toId != id
  {
    if n == 0 {
      assert order[..0] == [];
    } else {
      RowsSnoc(was, order, n - 1);
      RowStays(was, order, n - 1, id);
    }
  }

  lemma RowsStep(was: map<string, RowData>, view: View, order: seq<Migration>, i: nat, c: string)
    requires RowsShown(was, view, c) && DistinctSources(order) && OfCollection(order, c) && i < |order|
    requires RowsRenamed(was, order[..i + 1]).Some?
    requires RowsRenamed(was, order[..i]).Some?
             && RowsShown(RowsRenamed(was, order[..i]).value, Migrated(view, order[..i]), c)
    ensures RowsShown(RowsRenamed(was, order[..i + 1]).value, Migrated(view, order[..i + 1]), c)
  {
    var m, rows, now := order[i], RowsRenamed(was, order[..i]).value, RowsRenamed(was, order[..i + 1]).value;
    var before, more := order[..i], order[..i + 1];
    RowsSnoc(was, order, i);
    assert more == before + [m] && m in order && m.Source() == EntityKey(c, m.fromId)
           && m.Target() == EntityKey(c, m.toId);
    assert RowShown(was, view, c, m.fromId);
    forall j | 0 <= j < i ensures order[j].fromId != m.fromId {
      assert order[j] in order && order[j].Source() != m.Source();
    }
    if m.fromId in was { RowStays(was, order, i, m.fromId); }
    forall x | x in before && x.Source() in view ensures m.Source() in view ==> x.Target() != m.Source() {
      var j :| 0 <= j < i && order[j] == x;
      assert x in order && RowShown(was, view, c, x.fromId);
    }
    forall id ensures RowShown(now, Migrated(view, more), c, id) {
      assert RowShown(rows, Migrated(view, before), c, id);
      MoreMigratedAt(view, before, m, EntityKey(c, id));
    }
  }

  /** What one more entry makes of the simultaneous renaming. */
  lemma MoreMigratedAt(view: View, before: seq<Migration>, m: Migration, e: EntityKey)
    requires m.Source() in view ==> forall x | x in before && x.Source() in view :: x.Target() != m.Source()
    ensures var was, now := Migrated(view, before), Migrated(view, before + [m]);
            if m.Source() in view && e == m.Target() then
              e in now && now[e] == Entry(m.Applied(view[m.Source()].data), view[m.Source()].cacheKeys)
            else if m.Source() in view && e == m.Source() then e !in now
            else (e in now <==> e in was) && (e in now ==> now[e] == was[e])
  {
    var more := before + [m];
    assert more[..|before|] == before;
    MigratedAt(view, before, e);
    MigratedAt(view, more, e);
    MoverFound(view, before, e);
    assert IsSource(more, e) <==> IsSource(before, e) || m.Source() == e by {
      assert m in more && forall x :: x in more <==> x in before || x == m;
    }
  }

  /** An update of the rows that succeeds, in whatever order, is the simultaneous renaming. */
  lemma {:induction false} RenamedRowsShow(was: map<string, RowData>, view: View, order: seq<Migration>, i: nat,
      c: string)
    requires RowsShown(was, view, c) && DistinctSources(order) && OfCollection(order, c) && i <= |order|
    requires RowsRenamed(was, order[..i]).Some?
    ensures RowsShown(RowsRenamed(was, order[..i]).value, Migrated(view, order[..i]), c)
  {
    if i == 0 {
      assert order[..0] == [] && Migrated(view, []) == view;
    } else {
      RowsSnoc(was, order, i - 1);
      RenamedRowsShow(was, view, order, i - 1, c);
      RowsStep(was, view, order, i - 1, c);
    }
  }

  lemma TargetsDiffer(was: map<string, RowData>, view: View, order: seq<Migration>, j: nat, k: nat, c: string)
    requires RowsShown(was, view, c) && DistinctSources(order) && OfCollection(order, c)
             && RowsRenamed(was, order).Some?
    requires j < k < |order| && order[j].fromId in was && order[k].fromId in was
    ensures order[j].toId != order[k].toId
  {
    RowsPrefix(was, order, k + 1);
    RowsSnoc(was, order, k);
    TargetTaken(was, view, order, j, k, c);
  }

  lemma TakenIdIsLeft(was: map<string, RowData>, order: seq<Migration>, k: nat)
    requires RowsRenamed(was, order).Some? && k < |order| && order[k].fromId in was && order[k].toId in was
    ensures exists n :: n in order && n.fromId == order[k].toId
  {
    if forall n | n in order :: n.fromId != order[k].toId {
      RowsPrefix(was, order, k + 1);
      RowsSnoc(was, order, k);
      RowStays(was, order, k, order[k].toId);
    }
  }

  /** It succeeds only if the new ids are distinct. */
  lemma RenamedRowsFit(was: map<string, RowData>, view: View, order: seq<Migration>, c: string)
    requires RowsShown(was, view, c) && DistinctSources(order) && OfCollection(order, c)
             && RowsRenamed(was, order).Some?
    ensures Fits(was, order)
  {
    forall m, n | m in order && n in order && m.fromId in was && n.fromId in was && m.toId == n.toId ensures m == n {
      var j :| 0 <= j < |order| && order[j] == m;
      var k :| 0 <= k < |order| && order[k] == n;
      if j < k {
        TargetsDiffer(was, view, order, j, k, c);
      } else if k < j {
        TargetsDiffer(was, view, order, k, j, c);
      }
    }
    forall m | m in order && m.fromId in was && m.toId in was ensures exists n :: n in order && n.fromId == m.toId {
      var k :| 0 <= k < |order| && order[k] == m;
      TakenIdIsLeft(was, order, k);
    }
  }

  /** An id that an earlier entry has given away is taken, unless it is about to be left. */
  lemma TargetTaken(was: map<string, RowData>, view: View, order: seq<Migration>, j: nat, k: nat, c: string)
    requires RowsShown(was, view, c) && DistinctSources(order) && OfCollection(order, c)
    requires j < k < |order| && RowsRenamed(was, order[..k]).Some? && order[j].fromId in was && order[k].fromId in was
    ensures order[j].toId in RowsRenamed(was, order[..k]).value && order[j].toId != order[k].fromId
  {
    var m, e := order[j], EntityKey(c, order[j].toId);
    assert m in order[..k] && m in order && order[k] in order && RowShown(was, view, c, m.fromId);
    RenamedRowsShow(was, view, order, k, c);
    MoverFound(view, order[..k], e);
    MigratedAt(view, order[..k], e);
    assert RowShown(RowsRenamed(was, order[..k]).value, Migrated(view, order[..k]), c, m.toId);
    forall i | 0 <= i < k ensures order[i].fromId != order[k].fromId {
      assert order[i] in order && order[i].Source() != order[k].Source();
    }
    RowStays(was, order, k, order[k].fromId);
  }

  /** No row goes to an id that is taken, nor two of them to one id. */
  ghost predicate RowsFree(was: map<string, RowData>, group: seq<Migration>) {
    && (forall m | m in group && m.fromId in was :: m.toId == m.fromId || m.toId !in was)
    && (forall m, n | m in group && n in group && m.fromId in was && n.fromId in was && m.toId == n.toId ::
          m.fromId == n.fromId)
  }

  /** The rows of a collection as a view of their own. */
  function RowsView(was: map<string, RowData>, c: string): View {
    map e | e in (set id | id in was :: EntityKey(c, id)) :: Entry(was[e.id], {})
  }

  lemma RowsViewShown(was: map<string, RowData>, c: string)
    ensures RowsShown(was, RowsView(was, c), c)
  {
    forall id ensures RowShown(was, RowsView(was, c), c, id) {
      assert id in was ==> EntityKey(c, id) in RowsView(was, c);
    }
  }

  /** With free targets the update of the rows succeeds, in whatever order. */
  lemma {:induction false} FreeRowsRenamed(was: map<string, RowData>, order: seq<Migration>, i: nat, c: string)
    requires RowsFree(was, order) && DistinctSources(order) && OfCollection(order, c) && i <= |order|
    ensures RowsRenamed(was, order[..i]).Some?
  {
    if i == 0 {
      assert order[..0] == [];
    } else {
      FreeRowsRenamed(was, order, i - 1, c);
      if order[i - 1].fromId in was { FreeTarget(was, order, i - 1, c); }
      assert order[..i][..i - 1] == order[..i - 1];
    }
  }

  /** A new id is not taken when its turn comes. */
  lemma FreeTarget(was: map<string, RowData>, order: seq<Migration>, i: nat, c: string)
    requires RowsFree(was, order) && DistinctSources(order) && OfCollection(order, c) && i < |order|
    requires RowsRenamed(was, order[..i]).Some? && order[i].fromId in was
    ensures order[i].toId !in RowsRenamed(was, order[..i]).value - {order[i].fromId}
  {
    var m, before, view := order[i], order[..i], RowsView(was, c);
    RowsViewShown(was, c);
    RenamedRowsShow(was, view, order, i, c);
    MoverFound(view, before, m.Target());
    MigratedAt(view, before, m.Target());
    assert m in order && m.Target() == EntityKey(c, m.toId) && RowShown(was, view, c, m.toId);
    assert RowShown(RowsRenamed(was, before).value, Migrated(view, before), c, m.toId);
    forall x | x in before && x.Source() in view ensures x.Target() != m.Target() {
      var j: nat :| j < i && before[j] == x;
      assert x in order && x.Source() != m.Source() && RowShown(was, view, c, x.fromId);
    }
  }

  // ---- Pairs of row and cache key ----

  predicate TakenFrom(order: seq<Migration>, n: nat, id: string) {
    exists j :: 0 <= j < n && j < |order| && order[j].fromId == id
  }

  predicate GivenBy(was: set<Pair>, order: seq<Migration>, n: nat, id: string, k: string) {
    exists j :: 0 <= j < n && j < |order| && order[j].toId == id && (order[j].fromId, k) in was
  }

  /** The pairs after the first n entries. */
  ghost predicate PairsAre(was: set<Pair>, keys: set<Pair>, order: seq<Migration>, n: nat) {
    forall id, k :: (id, k) in keys <==> ((id, k) in was && !TakenFrom(order, n, id)) || GivenBy(was, order, n, id, k)
  }

  function LeftBy(was: set<Pair>, keys: set<Pair>, m: Migration): set<Pair> {
    set p | p in keys && !(p.0 == m.fromId && p in was)
  }

  function MovedBy(was: set<Pair>, m: Migration): set<Pair> {
    set p | p in was && p.0 == m.fromId :: (m.toId, p.1)
  }

  lemma MovedAt(was: set<Pair>, keys: set<Pair>, m: Migration, id: string, k: string)
    ensures (id, k) in MovedBy(was, m) <==> id == m.toId && (m.fromId, k) in was
    ensures (id, k) in LeftBy(was, keys, m) <==> (id, k) in keys && !(id == m.fromId && (id, k) in was)
  {
    if (m.fromId, k) in was { assert (m.fromId, k).0 == m.fromId && (m.fromId, k).1 == k; }
    if (id, k) in MovedBy(was, m) {
      var p :| p in was && p.0 == m.fromId && (m.toId, p.1) == (id, k);
      assert p == (m.fromId, k);
    }
    assert (id, k).0 == id;
  }

  lemma KeysSnoc(was: set<Pair>, order: seq<Migration>, i: nat)
    requires i < |order|
    ensures KeysRenamed(was, order[..i + 1])
         == match KeysRenamed(was, order[..i])
            case None => None
            case Some(keys) =>
              if LeftBy(was, keys, order[i]) * MovedBy(was, order[i]) != {} then None
              else Some(LeftBy(was, keys, order[i]) + MovedBy(was, order[i]))
  {
    assert order[..i + 1][..i] == order[..i];
  }

  /** A pair that no entry has taken yet is still there, and none has been put in its place. */
  lemma {:induction false} PairStays(was: set<Pair>, order: seq<Migration>, n: nat, id: string, k: string)
    requires n <= |order| && KeysRenamed(was, order[..n]).Some? && (id, k) in was && !TakenFrom(order, n, id)
    ensures (id, k) in KeysRenamed(was, order[..n]).value && !GivenBy(was, order, n, id, k)
  {
    if n == 0 {
      assert order[..0] == [];
    } else {
      KeysSnoc(was, order, n - 1);
      var m, keys := order[n - 1], KeysRenamed(was, order[..n - 1]).value;
      GivenOneMore(was, order, n - 1, id, k);
      PairStays(was, order, n - 1, id, k);
      MovedAt(was, keys, m, id, k);
      assert (id, k) in LeftBy(was, keys, m);
      assert (id, k) !in LeftBy(was, keys, m) * MovedBy(was, m);
    }
  }

  lemma {:induction false} PairsRenamed(was: set<Pair>, order: seq<Migration>, n: nat)
    requires n <= |order| && KeysRenamed(was, order[..n]).Some?
    requires DistinctIds(order)
    ensures PairsAre(was, KeysRenamed(was, order[..n]).value, order, n)
  {
    if n == 0 {
      assert order[..0] == [];
    } else {
      KeysSnoc(was, order, n - 1);
      var m, keys := order[n - 1], KeysRenamed(was, order[..n - 1]).value;
      PairsRenamed(was, order, n - 1);
      forall id, k
        ensures (id, k) in LeftBy(was, keys, m) + MovedBy(was, m)
                <==> ((id, k) in was && !TakenFrom(order, n, id)) || GivenBy(was, order, n, id, k)
      {
        MovedAt(was, keys, m, id, k);
        GivenOneMore(was, order, n - 1, id, k);
        if id == m.fromId && (id, k) in was {
          PairStays(was, order, n - 1, id, k);
        }
      }
    }
  }

  lemma GivenOneMore(was: set<Pair>, order: seq<Migration>, n: nat, id: string, k: string)
    requires n < |order|
    ensures TakenFrom(order, n + 1, id) <==> TakenFrom(order, n, id) || order[n].fromId == id
    ensures GivenBy(was, order, n + 1, id, k)
            <==> GivenBy(was, order, n, id, k) || (order[n].toId == id && (order[n].fromId, k) in was)
  {
  }

  /** An update of the pairs that succeeds, in whatever order, is the simultaneous renaming, if the
      new ids are distinct. */
  lemma RenamedKeysShow(was: Table<RowData>, view: View, order: seq<Migration>, c: string)
    requires Shows(was, view, c) && DistinctSources(order) && OfCollection(order, c) && Fits(was.rows, order)
    requires KeysRenamed(was.keys, order).Some?
    ensures KeysShown(KeysRenamed(was.keys, order).value, Migrated(view, order), c)
  {
    SourcesAreIds(order, c);
    assert order[..|order|] == order;
    PairsRenamed(was.keys, order, |order|);
    forall id, k ensures KeyShown(KeysRenamed(was.keys, order).value, Migrated(view, order), c, id, k) {
      MigratedPair(was, view, order, c, id, k);
    }
  }

  lemma MigratedPair(was: Table<RowData>, view: View, order: seq<Migration>, c: string, id: string, k: string)
    requires Shows(was, view, c) && DistinctSources(order) && OfCollection(order, c) && Fits(was.rows, order)
    ensures var e, now := EntityKey(c, id), Migrated(view, order);
            e in now && k in now[e].cacheKeys
            <==> ((id, k) in was.keys && !TakenFrom(order, |order|, id)) || GivenBy(was.keys, order, |order|, id, k)
  {
    var e := EntityKey(c, id);
    MoverFound(view, order, e);
    MigratedAt(view, order, e);
    assert RowShown(was.rows, view, c, id) && KeyShown(was.keys, view, c, id, k);
    forall m | m in order
      ensures m.Source() == EntityKey(c, m.fromId) && m.Target() == EntityKey(c, m.toId)
      ensures m.fromId in was.rows <==> m.Source() in view
      ensures (m.fromId, k) in was.keys <==> m.Source() in view && k in view[m.Source()].cacheKeys
    {
      assert RowShown(was.rows, view, c, m.fromId) && KeyShown(was.keys, view, c, m.fromId, k);
    }
    assert TakenFrom(order, |order|, id) <==> IsSource(order, e) by {
      if x :| x in order && x.Source() == e { var j :| 0 <= j < |order| && order[j] == x; }
    }
    match Mover(view, order, e) {
      case Some(m) =>
        var j :| 0 <= j < |order| && order[j] == m;
        assert id in was.rows ==> IsSource(order, e);
      case None =>
    }
  }

  /** A pair that would go to one that is there. */
  predicate PairTaken(was: set<Pair>, m: Migration, k: string) {
    (m.fromId, k) in was && m.toId != m.fromId && (m.toId, k) in was
  }

  /** Two pairs that would go to one. */
  predicate PairShared(was: set<Pair>, m: Migration, n: Migration, k: string) {
    (m.fromId, k) in was && (n.fromId, k) in was && m.toId == n.toId && m.fromId != n.fromId
  }

  ghost predicate KeysFree(was: set<Pair>, group: seq<Migration>) {
    && (forall m, k | m in group :: !PairTaken(was, m, k))
    && (forall m, n, k | m in group && n in group :: !PairShared(was, m, n, k))
  }

  ghost predicate DistinctIds(order: seq<Migration>) {
    forall i, j | 0 <= i < j < |order| :: order[i].fromId != order[j].fromId
  }

  lemma SourcesAreIds(order: seq<Migration>, c: string)
    requires DistinctSources(order) && OfCollection(order, c)
    ensures DistinctIds(order)
  {
    forall i, j | 0 <= i < j < |order| ensures order[i].fromId != order[j].fromId {
      assert order[i] in order && order[j] in order && order[i].Source() != order[j].Source();
    }
  }

  /** With free targets the update of the pairs succeeds, in whatever order. */
  lemma {:induction false} FreeKeysRenamed(was: set<Pair>, order: seq<Migration>, i: nat)
    requires KeysFree(was, order) && DistinctIds(order) && i <= |order|
    ensures KeysRenamed(was, order[..i]).Some?
  {
    if i == 0 {
      assert order[..0] == [];
    } else {
      FreeKeysRenamed(was, order, i - 1);
      PairsRenamed(was, order, i - 1);
      KeysSnoc(was, order, i - 1);
      NoPairInTheWay(was, order, i - 1);
    }
  }

  lemma NoPairInTheWay(was: set<Pair>, order: seq<Migration>, i: nat)
    requires KeysFree(was, order) && DistinctIds(order) && i < |order|
    requires KeysRenamed(was, order[..i]).Some?
    requires PairsAre(was, KeysRenamed(was, order[..i]).value, order, i)
    ensures LeftBy(was, KeysRenamed(was, order[..i]).value, order[i]) * MovedBy(was, order[i]) == {}
  {
    var m, keys := order[i], KeysRenamed(was, order[..i]).value;
    assert m in order;
    forall p | p in MovedBy(was, m) ensures p !in LeftBy(was, keys, m) {
      assert p == (p.0, p.1);
      MovedAt(was, keys, m, p.0, p.1);
      assert !PairTaken(was, m, p.1);
      if m.toId != m.fromId {
        forall j | 0 <= j < i && order[j].toId == m.toId ensures (order[j].fromId, p.1) !in was {
          assert order[j] in order && !PairShared(was, order[j], m, p.1);
        }
        assert !GivenBy(was, order, i, m.toId, p.1);
      }
    }
  }

  /** Pairs of rows whose targets are free are free as well. */
  lemma KeysFollowRows(t: Table<RowData>, view: View, group: seq<Migration>, c: string)
    requires Shows(t, view, c) && RowsFree(t.rows, group)
    ensures KeysFree(t.keys, group)
  {
    forall id, k | (id, k) in t.keys ensures id in t.rows {
      assert KeyShown(t.keys, view, c, id, k) && RowShown(t.rows, view, c, id);
    }
  }

  // ---- One table ----

  /** The two updates of a table: if they succeed they are the simultaneous renaming, and with free
      targets they do. */
  lemma TableRenamed(engine: Engine, t: Table<RowData>, view: View, group: seq<Migration>, c: string)
    requires Shows(t, view, c) && DistinctSources(group) && OfCollection(group, c)
    ensures RenamedTable(engine, t, group).Some?
            ==> Shows(RenamedTable(engine, t, group).value, Migrated(view, group), c)
    ensures RowsFree(t.rows, group) ==> RenamedTable(engine, t, group).Some?
  {
    var rows, pairs := engine.rows(group), engine.pairs(group);
    assert Picks(rows, group) && Picks(pairs, group);
    PickedAll(rows, group);
    PickedAll(pairs, group);
    SameMembers(rows, group);
    SameMembers(pairs, group);
    assert rows[..|rows|] == rows && pairs[..|pairs|] == pairs;
    if RowsFree(t.rows, group) {
      KeysFollowRows(t, view, group, c);
      SourcesAreIds(pairs, c);
      FreeRowsRenamed(t.rows, rows, |rows|, c);
      FreeKeysRenamed(t.keys, pairs, |pairs|);
    }
    if RenamedTable(engine, t, group).Some? {
      RenamedRowsShow(t.rows, view, rows, |rows|, c);
      RenamedRowsFit(t.rows, view, rows, c);
      RenamedKeysShow(t, view, pairs, c);
      FitsOneMover(t.rows, view, group, c);
      MigratedInAnyOrder(view, group, rows);
      MigratedInAnyOrder(view, group, pairs);
    }
  }

  lemma SameMembers(a: seq<Migration>, b: seq<Migration>)
    requires SetOf(a) == SetOf(b)
    ensures forall m :: m in a <==> m in b
  {
    assert forall m :: m in a <==> m in SetOf(a);
    assert forall m :: m in b <==> m in SetOf(b);
  }

  lemma FitsOneMover(was: map<string, RowData>, view: View, group: seq<Migration>, c: string)
    requires RowsShown(was, view, c) && OfCollection(group, c) && Fits(was, group)
    ensures OneMoverEach(view, group)
  {
    forall m | m in group ensures m.Source() in view <==> m.fromId in was {
      assert RowShown(was, view, c, m.fromId);
    }
  }

  /** Free targets, collection by collection. */
  lemma FreeRows(rows: map<string, RowData>, view: View, batch: seq<Migration>, c: string)
    requires RowsShown(rows, view, c) && TargetsFree(view, batch)
    ensures RowsFree(rows, Select(batch, MigrationCollection, c))
  {
    forall m | m in Select(batch, MigrationCollection, c)
      ensures m in batch && m.Source() == EntityKey(c, m.fromId) && m.Target() == EntityKey(c, m.toId)
      ensures (m.fromId in rows <==> m.Source() in view) && (m.toId in rows <==> m.Target() in view)
    {
      SelectMembers(batch, MigrationCollection, c, m);
      assert RowShown(rows, view, c, m.fromId) && RowShown(rows, view, c, m.toId);
    }
  }

  lemma GroupRenamed(engine: Engine, t: Table<RowData>, view: View, batch: seq<Migration>, c: string)
    requires Shows(t, view, c) && DistinctSources(batch)
    ensures var now := RenamedTable(engine, t, Select(batch, MigrationCollection, c));
            (now.Some? ==> Shows(now.value, Migrated(view, batch), c)) && (TargetsFree(view, batch) ==> now.Some?)
  {
    var group := Select(batch, MigrationCollection, c);
    SelectedDistinct(batch, c);
    if TargetsFree(view, batch) { FreeRows(t.rows, view, batch, c); }
    forall m | m in group ensures m.collection == c {
      SelectMembers(batch, MigrationCollection, c, m);
    }
    TableRenamed(engine, t, view, group, c);
    var now := RenamedTable(engine, t, group);
    if now.Some? {
      forall id ensures RowShown(now.value.rows, Migrated(view, batch), c, id) {
        assert RowShown(now.value.rows, Migrated(view, group), c, id);
        SelectedMigrated(view, batch, EntityKey(c, id));
      }
      forall id, k ensures KeyShown(now.value.keys, Migrated(view, batch), c, id, k) {
        assert KeyShown(now.value.keys, Migrated(view, group), c, id, k);
        SelectedMigrated(view, batch, EntityKey(c, id));
      }
    }
  }

  // ---- The database ----

  function MigrateChange(engine: Engine, batch: seq<Migration>): TableChange {
    (c, t) => match RenamedTable(engine, t, Select(batch, MigrationCollection, c)) case Some(now) => now case None => t
  }

  function MigratedDatabase(db: Database, batch: seq<Migration>): Database {
    Changed(db, Collections(batch, MigrationCollection), MigrateChange(db.engine, batch))
  }

  /** The renaming of some of the tables violates no key. */
  ghost predicate SomeRename(db: Database, batch: seq<Migration>, done: set<string>) {
    forall c | c in done && c in db.tables ::
      RenamedTable(db.engine, db.tables[c], Select(batch, MigrationCollection, c)).Some?
  }

  ghost predicate AllRename(db: Database, batch: seq<Migration>) {
    SomeRename(db, batch, Collections(batch, MigrationCollection))
  }

  /** In whatever order the engine updates rows: if no key is violated, the updates are together the
      simultaneous renaming, and with free targets none is. */
  lemma MigrateAgreement(db: Database, batch: seq<Migration>)
    requires AllLinked(db) && DistinctSources(batch) && forall m | m in batch :: m.collection in db.tables
    ensures AllRename(db, batch) ==>
              AllLinked(MigratedDatabase(db, batch)) && ViewOf(MigratedDatabase(db, batch))
                  == Migrated(ViewOf(db), batch)
    ensures TargetsFree(ViewOf(db), batch) ==> AllRename(db, batch)
  {
    LinkedShown(db);
    forall c | c in db.tables
      ensures var now := RenamedTable(db.engine, db.tables[c], Select(batch, MigrationCollection, c));
              (now.Some? ==> Shows(now.value, Migrated(ViewOf(db), batch), c))
                  && (TargetsFree(ViewOf(db), batch) ==> now.Some?)
    {
      GroupRenamed(db.engine, db.tables[c], ViewOf(db), batch, c);
    }
    if AllRename(db, batch) {
      AllRenamed(db, batch);
    }
  }

  lemma AllRenamed(db: Database, batch: seq<Migration>)
    requires AllLinked(db) && DistinctSources(batch) && AllRename(db, batch)
    requires forall m | m in batch :: m.collection in db.tables
    ensures AllLinked(MigratedDatabase(db, batch)) && ViewOf(MigratedDatabase(db, batch)) == Migrated(ViewOf(db), batch)
  {
    var view, f := ViewOf(db), MigrateChange(db.engine, batch);
    LinkedShown(db);
    forall c | c in db.tables
      ensures Shows(f(c, db.tables[c]), Migrated(view, batch), c)
      ensures c !in Collections(batch, MigrationCollection) ==> f(c, db.tables[c]) == db.tables[c]
    {
      GroupRenamed(db.engine, db.tables[c], view, batch, c);
      if c !in Collections(batch, MigrationCollection) {
        NothingRenamed(db.engine, db.tables[c], batch, c);
      }
    }
    ChangedShown(db, Collections(batch, MigrationCollection), f, Migrated(view, batch));
  }

  lemma NothingRenamed(engine: Engine, t: Table<RowData>, batch: seq<Migration>, c: string)
    requires c !in Collections(batch, MigrationCollection)
    ensures RenamedTable(engine, t, Select(batch, MigrationCollection, c)) == Some(t)
  {
    SelectNone(batch, MigrationCollection, c);
    assert Picks(engine.rows([]), []) && Picks(engine.pairs([]), []);
  }
}
