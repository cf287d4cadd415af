/** The SQL backend's tables as relations, its statements as operations on them, and the
    all-or-nothing statement batch. */
module SqlDatabase {
  import opened Options
  import opened StorageRecords

  type Pair = (string, string)

  /** A row table with its junction to cache keys: pairs of row id and cache key. */
  datatype Table<D> = Table(rows: map<string, D>, keys: set<Pair>)

  /** A parent/child junction: its key is the pair of parent and child. */
  type Junction = map<Pair, Option<string>>

  /** How the engine matches the rows of an update to the listed entries: one entry for each row
      that has any, in an order of its own. */
  ghost predicate Picks(order: seq<Migration>, batch: seq<Migration>) {
    && (batch == [] ==> order == []) && DistinctSources(order) && (forall m | m in order :: m in batch)
    && forall m | m in batch :: IsSource(order, m.Source())
  }

  ghost predicate PicksAlways(f: seq<Migration> -> seq<Migration>) {
    forall batch :: Picks(f(batch), batch)
  }

  type RowMatching = f: seq<Migration> -> seq<Migration> | PicksAlways(f) witness (FirstsArePicked(); FirstOfEach)

  function WithPicked(order: seq<Migration>, m: Migration): seq<Migration> {
    if IsSource(order, m.Source()) then order else order + [m]
  }

  function FirstOfEach(batch: seq<Migration>): seq<Migration> {
    if batch == [] then [] else WithPicked(FirstOfEach(batch[..|batch| - 1]), batch[|batch| - 1])
  }

  lemma {:induction false} FirstsPicked(batch: seq<Migration>)
    ensures Picks(FirstOfEach(batch), batch)
  {
    if batch != [] {
      var init, last := batch[..|batch| - 1], batch[|batch| - 1];
      FirstsPicked(init);
      PickedNext(FirstOfEach(init), init, last);
      assert batch == init + [last];
    }
  }

  lemma PickedNext(order: seq<Migration>, batch: seq<Migration>, m: Migration)
    requires Picks(order, batch)
    ensures Picks(WithPicked(order, m), batch + [m])
  {
    if !IsSource(order, m.Source()) {
      PickedOneMore(order, batch, m);
    }
  }

  lemma PickedOneMore(order: seq<Migration>, batch: seq<Migration>, m: Migration)
    requires Picks(order, batch) && !IsSource(order, m.Source())
    ensures Picks(order + [m], batch + [m])
  {
    var more := order + [m];
    forall i, j | 0 <= i < j < |more| ensures more[i].Source() != more[j].Source() {
      if j == |order| { assert more[i] in order; }
    }
    forall n | n in batch + [m] ensures IsSource(more, n.Source()) {
      if n in batch {
        var k :| k in order && k.Source() == n.Source();
        assert k in more;
      } else {
        assert m in more;
      }
    }
  }

  lemma FirstsArePicked()
    ensures PicksAlways(FirstOfEach)
  {
    forall batch ensures Picks(FirstOfEach(batch), batch) {
      FirstsPicked(batch);
    }
  }

  /** The orders in which the engine updates rows, and junction rows. */
  datatype Engine = Engine(rows: RowMatching, pairs: RowMatching)

  datatype Database = Database(
    tables: map<string, Table<RowData>>, events: Table<EventData>, cacheKeys: map<string, CacheKeyRecord>,
    junctions: map<string, Junction>, engine: Engine)

  datatype JunctionRow = JunctionRow(parent: string, child: string, value: Option<string>)

  datatype Statement =
    | UpsertRows(table: string, rows: seq<(string, RowData)>)
    | InsertKeys(table: string, pairs: seq<Pair>)
    | DeleteKeysOf(table: string, ids: seq<string>)
    | DeleteRows(table: string, ids: seq<string>)
    | RenameRows(table: string, batch: seq<Migration>)
    | RenameKeys(table: string, batch: seq<Migration>)
    | DeleteKey(table: string, key: string)
    | DeleteOrphans(table: string)
    | DeleteDoomedPairs(junction: string, table: string, key: string)
    | DeleteEventKey(key: string)
    | DeleteOrphanEvents
    | DeleteCacheKeyRow(key: string)
    | DeleteParent(junction: string, parent: string)
    | DeleteChildren(junction: string, parent: string, children: seq<string>)
    | InsertPairs(junction: string, inserts: seq<JunctionRow>)

  // ---- Statements on one table ----

  /** `INSERT ... ON CONFLICT(id) DO UPDATE`, row by row. */
  function Upserted<D>(was: map<string, D>, rows: seq<(string, D)>): map<string, D> {
    if rows == [] then was
    else Upserted(was, rows[..|rows| - 1])[rows[|rows| - 1].0 := rows[|rows| - 1].1]
  }

  function WithoutIds<D>(t: Table<D>, ids: set<string>): Table<D> {
    Table(t.rows - ids, set p | p in t.keys && p.0 !in ids)
  }

  /** `UPDATE ... SET id = new_id FROM new`: the rows matched in the table as it was are updated
      one at a time, and a new id that is taken at that moment violates the primary key. */
  function RowsRenamed(was: map<string, RowData>, order: seq<Migration>): Option<map<string, RowData>> {
    if order == [] then Some(was)
    else
      var m := order[|order| - 1];
      match RowsRenamed(was, order[..|order| - 1])
      case None => None
      case Some(rows) =>
        if m.fromId !in was then Some(rows)
        else if m.toId in rows - {m.fromId} then None
        else Some((rows - {m.fromId})[m.toId := m.Applied(was[m.fromId])])
  }

  function KeysRenamed(was: set<Pair>, order: seq<Migration>): Option<set<Pair>> {
    if order == [] then Some(was)
    else
      var m := order[|order| - 1];
      match KeysRenamed(was, order[..|order| - 1])
      case None => None
      case Some(keys) =>
        var left := set p | p in keys && !(p.0 == m.fromId && p in was);
        var moved := set p | p in was && p.0 == m.fromId :: (m.toId, p.1);
        if left * moved != {} then None else Some(left + moved)
  }

  function KeyDeleted<D>(t: Table<D>, key: string): Table<D> {
    t.(keys := set p | p in t.keys && p.1 != key)
  }

  function OrphansDeleted<D>(t: Table<D>): Table<D> {
    t.(rows := map id | id in t.rows && (exists p | p in t.keys :: p.0 == id) :: t.rows[id])
  }

  /** Rows whose only cache key is the given one. */
  function Doomed<D>(t: Table<D>, key: string): set<string> {
    set p | p in t.keys && p.1 == key && !(exists q | q in t.keys :: q.0 == p.0 && q.1 != key) :: p.0
  }

  function WithoutParents(j: Junction, parents: set<string>): Junction {
    map p | p in j && p.0 !in parents :: j[p]
  }

  /** `INSERT OR IGNORE`: a pair that exists keeps its value. */
  function PairsInserted(j: Junction, rows: seq<JunctionRow>): Junction {
    if rows == [] then j
    else
      var last := rows[|rows| - 1];
      var k := PairsInserted(j, rows[..|rows| - 1]);
      if (last.parent, last.child) in k then k else k[(last.parent, last.child) := last.value]
  }

  // ---- Statements on the database ----

  predicate Known(db: Database, s: Statement) {
    match s
    case DeleteEventKey(_) => true
    case DeleteOrphanEvents => true
    case DeleteCacheKeyRow(_) => true
    case DeleteDoomedPairs(j, t, _) => j in db.junctions && t in db.tables
    case DeleteParent(j, _) => j in db.junctions
    case DeleteChildren(j, _, _) => j in db.junctions
    case InsertPairs(j, _) => j in db.junctions
    case _ => s.table in db.tables
  }

  function WithTable(db: Database, name: string, t: Table<RowData>): Database {
    db.(tables := db.tables[name := t])
  }

  function WithJunction(db: Database, name: string, j: Junction): Database {
    db.(junctions := db.junctions[name := j])
  }

  /** The database after one statement, or nothing if it fails. */
  function Exec(s: Statement, db: Database): Option<Database> {
    if !Known(db, s) then None
    else
      match s
      case UpsertRows(t, rows) => Some(WithTable(db, t, db.tables[t].(rows := Upserted(db.tables[t].rows, rows))))
      case InsertKeys(t, pairs) => Some(WithTable(db, t, db.tables[t].(keys := db.tables[t].keys + SetOf(pairs))))
      case DeleteKeysOf(t, ids) =>
        Some(WithTable(db, t, db.tables[t].(keys := WithoutIds(db.tables[t], SetOf(ids)).keys)))
      case DeleteRows(t, ids) => Some(WithTable(db, t, db.tables[t].(rows := db.tables[t].rows - SetOf(ids))))
      case RenameRows(t, batch) =>
        (match RowsRenamed(db.tables[t].rows, db.engine.rows(batch))
         case Some(rows) => Some(WithTable(db, t, db.tables[t].(rows := rows)))
         case None => None)
      case RenameKeys(t, batch) =>
        (match KeysRenamed(db.tables[t].keys, db.engine.pairs(batch))
         case Some(keys) => Some(WithTable(db, t, db.tables[t].(keys := keys)))
         case None => None)
      case DeleteKey(t, key) => Some(WithTable(db, t, KeyDeleted(db.tables[t], key)))
      case DeleteOrphans(t) => Some(WithTable(db, t, OrphansDeleted(db.tables[t])))
      case DeleteDoomedPairs(j, t, key) => Some(WithJunction(db, j,
             WithoutParents(db.junctions[j], Doomed(db.tables[t], key))))
      case DeleteEventKey(key) => Some(db.(events := KeyDeleted(db.events, key)))
      case DeleteOrphanEvents => Some(db.(events := OrphansDeleted(db.events)))
      case DeleteCacheKeyRow(key) => Some(db.(cacheKeys := db.cacheKeys - {key}))
      case DeleteParent(j, parent) => Some(WithJunction(db, j, WithoutParents(db.junctions[j], {parent})))
      case DeleteChildren(j, parent, children) =>
        Some(WithJunction(db, j, db.junctions[j] - set c | c in children :: (parent, c)))
      case InsertPairs(j, rows) => Some(WithJunction(db, j, PairsInserted(db.junctions[j], rows)))
  }

  function Run(ss: seq<Statement>, db: Database): Option<Database> {
    if ss == [] then Some(db)
    else
      match Run(ss[..|ss| - 1], db)
      case Some(d) => Exec(ss[|ss| - 1], d)
      case None => None
  }

  lemma RunSnoc(ss: seq<Statement>, s: Statement, db: Database)
    ensures Run(ss + [s], db) == match Run(ss, db) case Some(d) => Exec(s, d) case None => None
  {
    assert (ss + [s])[..|ss|] == ss;
  }

  lemma {:induction false} RunPrefixFails(ss: seq<Statement>, i: nat, db: Database)
    requires i <= |ss| && Run(ss[..i], db).None?
    ensures Run(ss, db).None?
    decreases |ss|
  {
    if i < |ss| {
      assert ss[..|ss| - 1][..i] == ss[..i];
      RunPrefixFails(ss[..|ss| - 1], i, db);
    } else {
      assert ss[..i] == ss;
    }
  }

  /** A database connection. */
  class LocalSqliteDb {
    var db: Database

    constructor (db: Database)
      ensures this.db == db
    {
      this.db := db;
    }

    /** Either every statement takes effect, in order, or none does. */
    method ExecBatch(statements: seq<Statement>) returns (ok: bool)
      modifies this
      ensures ok <==> Run(statements, old(db)).Some?
      ensures db == if ok then Run(statements, old(db)).value else old(db)
    {
      if |statements| <= 1 {
        if statements == [] {
          return true;
        }
        assert statements[..0] == [];
        ok := ExecOne(statements[0]);
        return;
      }
      var saved := db;
      for i := 0 to |statements|
        invariant Run(statements[..i], old(db)) == Some(db)
      {
        assert statements[..i + 1] == statements[..i] + [statements[i]];
        RunSnoc(statements[..i], statements[i], old(db));
        ok := ExecOne(statements[i]);
        if !ok {
          db := saved;
          RunPrefixFails(statements, i + 1, old(db));
          return;
        }
      }
      assert statements[..|statements|] == statements;
      ok := true;
    }

    method ExecOne(s: Statement) returns (ok: bool)
      modifies this
      ensures ok <==> Exec(s, old(db)).Some?
      ensures db == if ok then Exec(s, old(db)).value else old(db)
    {
      match Exec(s, db) {
        case Some(next) =>
          db := next;
          ok := true;
        case None =>
          ok := false;
      }
    }
  }
}
