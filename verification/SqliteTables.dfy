/** What the SQL tables show to a client, and what each group of statements does to it. */
module SqliteTables {
  import opened Options
  import opened StorageRecords
  import opened SqlDatabase

  // ---- Tables and views ----

  function KeysOf<D>(t: Table<D>, id: string): set<string> {
    set p | p in t.keys && p.0 == id :: p.1
  }

  lemma KeyListed<D>(t: Table<D>, id: string, k: string)
    ensures k in KeysOf(t, id) <==> (id, k) in t.keys
  {
    if (id, k) in t.keys { assert (id, k).0 == id && (id, k).1 == k; }
  }

  function EntryIn<D>(t: Table<D>, id: string): Entry<D>
    requires id in t.rows
  {
    Entry(t.rows[id], KeysOf(t, id))
  }

  function TableView<D>(t: Table<D>): map<string, Entry<D>> {
    map id | id in t.rows :: EntryIn(t, id)
  }

  function Entities(db: Database): set<EntityKey> {
    set c, id | c in db.tables && id in db.tables[c].rows :: EntityKey(c, id)
  }

  function ViewOf(db: Database): View {
    map e | e in Entities(db) :: EntryIn(db.tables[e.collection], e.id)
  }

  lemma ViewAt(db: Database, e: EntityKey)
    ensures e in ViewOf(db) <==> e.collection in db.tables && e.id in db.tables[e.collection].rows
  {
    assert e == EntityKey(e.collection, e.id);
  }

  /** No cache-key pair without its row. */
  ghost predicate Linked<D>(t: Table<D>) {
    forall p | p in t.keys :: p.0 in t.rows
  }

  ghost predicate AllLinked(db: Database) {
    forall c | c in db.tables :: Linked(db.tables[c])
  }

  // ---- A table shows the part of a view that lies in its collection ----

  predicate RowShown(rows: map<string, RowData>, view: View, c: string, id: string) {
    var e := EntityKey(c, id);
    (id in rows <==> e in view) && (id in rows ==> rows[id] == view[e].data)
  }

  predicate KeyShown(keys: set<Pair>, view: View, c: string, id: string, k: string) {
    var e := EntityKey(c, id);
    (id, k) in keys <==> e in view && k in view[e].cacheKeys
  }

  ghost predicate Shows(t: Table<RowData>, view: View, c: string) {
    RowsShown(t.rows, view, c) && KeysShown(t.keys, view, c)
  }

  ghost predicate RowsShown(rows: map<string, RowData>, view: View, c: string) {
    forall id :: RowShown(rows, view, c, id)
  }

  ghost predicate KeysShown(keys: set<Pair>, view: View, c: string) {
    forall id, k :: KeyShown(keys, view, c, id, k)
  }

  ghost predicate AllShown(db: Database, view: View) {
    && (forall c | c in db.tables :: Shows(db.tables[c], view, c))
    && (forall e | e in view :: e.collection in db.tables)
  }

  lemma LinkedShown(db: Database)
    requires AllLinked(db)
    ensures AllShown(db, ViewOf(db))
  {
    forall c | c in db.tables ensures Shows(db.tables[c], ViewOf(db), c) {
      forall id ensures RowShown(db.tables[c].rows, ViewOf(db), c, id) {
        ViewAt(db, EntityKey(c, id));
      }
      forall id, k ensures KeyShown(db.tables[c].keys, ViewOf(db), c, id, k) {
        ViewAt(db, EntityKey(c, id));
        KeyListed(db.tables[c], id, k);
        if (id, k) in db.tables[c].keys { assert (id, k).0 == id; }
      }
    }
  }

  lemma ShownView(db: Database, view: View)
    requires AllShown(db, view)
    ensures ViewOf(db) == view && AllLinked(db)
  {
    forall e: EntityKey
      ensures e in ViewOf(db) <==> e in view
      ensures e in view ==> ViewOf(db)[e] == view[e]
    {
      ViewAt(db, e);
      if e.collection in db.tables {
        EntryShown(db.tables[e.collection], view, e.collection, e.id);
      }
    }
    forall c | c in db.tables ensures Linked(db.tables[c]) {
      forall p | p in db.tables[c].keys ensures p.0 in db.tables[c].rows {
        assert p == (p.0, p.1) && KeyShown(db.tables[c].keys, view, c, p.0, p.1)
               && RowShown(db.tables[c].rows, view, c, p.0);
      }
    }
  }

  lemma EntryShown(t: Table<RowData>, view: View, c: string, id: string)
    requires Shows(t, view, c)
    ensures var e := EntityKey(c, id);
            (id in t.rows <==> e in view) && (id in t.rows ==> EntryIn(t, id) == view[e])
  {
    var e := EntityKey(c, id);
    assert RowShown(t.rows, view, c, id);
    if e in view {
      forall k ensures k in KeysOf(t, id) <==> k in view[e].cacheKeys {
        KeyListed(t, id, k);
        assert KeyShown(t.keys, view, c, id, k);
      }
    }
  }

  // ---- Changing some of the tables ----

  type TableChange = (string, Table<RowData>) -> Table<RowData>

  /** The database with a change made to some of its tables. */
  function Changed(db: Database, done: set<string>, f: TableChange): Database {
    db.(tables := map c | c in db.tables :: if c in done then f(c, db.tables[c]) else db.tables[c])
  }

  lemma ChangedNone(db: Database, f: TableChange)
    ensures Changed(db, {}, f) == db
  {
  }

  lemma ChangedOne(db: Database, done: set<string>, f: TableChange, c: string)
    requires c in db.tables && c !in done
    ensures Changed(db, done + {c}, f) == WithTable(Changed(db, done, f), c, f(c, db.tables[c]))
  {
  }

  /** A change of tables that turns one view into another. */
  lemma ChangedShown(db: Database, done: set<string>, f: TableChange, now: View)
    requires forall c | c in db.tables :: Shows(f(c, db.tables[c]), now, c)
    requires forall c | c in db.tables && c !in done :: f(c, db.tables[c]) == db.tables[c]
    requires forall e | e in now :: e.collection in db.tables
    ensures ViewOf(Changed(db, done, f)) == now && AllLinked(Changed(db, done, f))
  {
    ShownView(Changed(db, done, f), now);
  }

  // ---- Grouping a batch by collection ----

  /** The elements of a batch that belong to one collection, in order. */
  function Select<T>(xs: seq<T>, of: T -> string, c: string): seq<T> {
    if xs == [] then []
    else
      var init, last := Select(xs[..|xs| - 1], of, c), xs[|xs| - 1];
      if of(last) == c then init + [last] else init
  }

  lemma SelectSnoc<T>(xs: seq<T>, x: T, of: T -> string, c: string)
    ensures Select(xs + [x], of, c) == if of(x) == c then Select(xs, of, c) + [x] else Select(xs, of, c)
  {
    assert (xs + [x])[..|xs|] == xs;
  }

  lemma {:induction false} SelectMembers<T>(xs: seq<T>, of: T -> string, c: string, x: T)
    ensures x in Select(xs, of, c) <==> x in xs && of(x) == c
  {
    if xs != [] {
      SelectMembers(xs[..|xs| - 1], of, c, x);
      assert xs == xs[..|xs| - 1] + [xs[|xs| - 1]];
    }
  }

  function Collections<T(==)>(xs: seq<T>, of: T -> string): set<string> {
    set x | x in xs :: of(x)
  }

  ghost predicate Grouped<T>(groups: map<string, seq<T>>, xs: seq<T>, of: T -> string) {
    && groups.Keys == Collections(xs, of)
    && forall c | c in groups :: groups[c] == Select(xs, of, c)
  }

  method Group<T(==)>(xs: seq<T>, of: T -> string) returns (groups: map<string, seq<T>>)
    ensures Grouped(groups, xs, of)
  {
    groups := map[];
    for i := 0 to |xs|
      invariant Grouped(groups, xs[..i], of)
    {
      var c := of(xs[i]);
      var group := if c in groups then groups[c] else [];
      GroupedSnoc(groups, xs[..i], xs[i], of);
      assert xs[..i + 1] == xs[..i] + [xs[i]];
      groups := groups[c := group + [xs[i]]];
    }
    assert xs[..|xs|] == xs;
  }

  lemma GroupedSnoc<T>(groups: map<string, seq<T>>, xs: seq<T>, x: T, of: T -> string)
    requires Grouped(groups, xs, of)
    ensures Grouped(groups[of(x) := (if of(x) in groups then groups[of(x)] else []) + [x]], xs + [x], of)
  {
    var c := of(x);
    var more := groups[c := (if c in groups then groups[c] else []) + [x]];
    if c !in groups {
      SelectNone(xs, of, c);
    }
    forall d | d in more ensures more[d] == Select(xs + [x], of, d) {
      SelectSnoc(xs, x, of, d);
    }
    assert Collections(xs + [x], of) == Collections(xs, of) + {c};
  }

  lemma SelectNone<T>(xs: seq<T>, of: T -> string, c: string)
    requires c !in Collections(xs, of)
    ensures Select(xs, of, c) == []
  {
    if y :| y in Select(xs, of, c) {
      SelectMembers(xs, of, c, y);
    }
  }

  // ---- Saves ----

  function CollectionOf(r: ReadModelRecord): string {
    r.collection
  }

  function RowsOf(records: seq<ReadModelRecord>): seq<(string, RowData)> {
    if records == [] then []
    else
      var last := records[|records| - 1];
      RowsOf(records[..|records| - 1]) + [(last.id, last.data)]
  }

  function PairsOf(records: seq<ReadModelRecord>): set<Pair> {
    set r, k | r in records && k in r.cacheKeys :: (r.id, k)
  }

  function SavedTable(t: Table<RowData>, group: seq<ReadModelRecord>): Table<RowData> {
    Table(Upserted(t.rows, RowsOf(group)), t.keys + PairsOf(group))
  }

  /** What an upsert of some records leaves at an id, when `last` is the last record for it. */
  predicate RowSaved(rows: map<string, RowData>, was: map<string, RowData>, last: Option<ReadModelRecord>, id: string) {
    && (id in rows <==> last.Some? || id in was)
    && (last.Some? && id in rows ==> rows[id] == last.value.data)
    && (last.None? && id in was && id in rows ==> rows[id] == was[id])
  }

  lemma {:induction false} SavedRow(t: Table<RowData>, records: seq<ReadModelRecord>, c: string, id: string)
    ensures RowSaved(Upserted(t.rows, RowsOf(Select(records, CollectionOf, c))), t.rows,
              LastSaved(records, EntityKey(c, id)), id)
  {
    if records == [] {
      assert RowsOf([]) == [];
    } else {
      var init, last := records[..|records| - 1], records[|records| - 1];
      var group := Select(init, CollectionOf, c);
      SavedRow(t, init, c, id);
      if last.collection == c {
        RowsOfSnoc(t.rows, group, last);
        assert Select(records, CollectionOf, c) == group + [last];
        RowSavedMore(Upserted(t.rows, RowsOf(group)), t.rows, LastSaved(init, EntityKey(c, id)), id, last);
      } else {
        assert Select(records, CollectionOf, c) == group;
      }
      LastSavedStep(records, EntityKey(c, id));
    }
  }

  lemma LastSavedStep(records: seq<ReadModelRecord>, e: EntityKey)
    requires records != []
    ensures var last := records[|records| - 1];
            LastSaved(records, e) == if last.Entity() == e then Some(last) else LastSaved(records[..|records| - 1], e)
  {
  }

  lemma RowSavedMore(rows: map<string, RowData>, was: map<string, RowData>, last: Option<ReadModelRecord>,
      id: string, r: ReadModelRecord)
    requires RowSaved(rows, was, last, id)
    ensures RowSaved(rows[r.id := r.data], was, if r.id == id then Some(r) else last, id)
  {
  }

  lemma RowsOfSnoc(rows: map<string, RowData>, group: seq<ReadModelRecord>, r: ReadModelRecord)
    ensures Upserted(rows, RowsOf(group + [r])) == Upserted(rows, RowsOf(group))[r.id := r.data]
  {
    assert (group + [r])[..|group|] == group;
    assert (RowsOf(group) + [(r.id, r.data)])[..|RowsOf(group)|] == RowsOf(group);
  }

  lemma SavedPair(records: seq<ReadModelRecord>, c: string, id: string, k: string)
    ensures (id, k) in PairsOf(Select(records, CollectionOf, c)) <==> k in KeysSaved(records, EntityKey(c, id))
  {
    var group := Select(records, CollectionOf, c);
    if r :| r in records && r.Entity() == EntityKey(c, id) && k in r.cacheKeys {
      SelectMembers(records, CollectionOf, c, r);
    }
    if (id, k) in PairsOf(group) {
      var r :| r in group && k in r.cacheKeys && r.id == id;
      SelectMembers(records, CollectionOf, c, r);
      assert r.Entity() == EntityKey(c, id);
    }
  }

  lemma SavedShows(t: Table<RowData>, view: View, records: seq<ReadModelRecord>, c: string)
    requires Shows(t, view, c) && SaveCovers(view, records)
    ensures Shows(SavedTable(t, Select(records, CollectionOf, c)), Saved(view, records), c)
  {
    var now := SavedTable(t, Select(records, CollectionOf, c));
    forall id ensures RowShown(now.rows, Saved(view, records), c, id) {
      assert RowShown(t.rows, view, c, id);
      SavedRow(t, records, c, id);
      LastSavedNone(records, EntityKey(c, id));
    }
    forall id, k ensures KeyShown(now.keys, Saved(view, records), c, id, k) {
      assert KeyShown(t.keys, view, c, id, k);
      SavedPair(records, c, id, k);
      KeysCovered(view, records, EntityKey(c, id), k);
    }
  }

  function SaveChange(records: seq<ReadModelRecord>): TableChange {
    (c, t) => SavedTable(t, Select(records, CollectionOf, c))
  }

  function SavedDatabase(db: Database, records: seq<ReadModelRecord>): Database {
    Changed(db, Collections(records, CollectionOf), SaveChange(records))
  }

  /** SQL adds the saved keys to those a row has and memory replaces them: the outcomes are the
      same exactly when the last record of each entity names all of them. */
  lemma SaveAgreement(db: Database, records: seq<ReadModelRecord>)
    requires AllLinked(db) && forall r | r in records :: r.collection in db.tables
    ensures ViewOf(SavedDatabase(db, records)) == Saved(ViewOf(db), records) <==> SaveCovers(ViewOf(db), records)
    ensures SaveCovers(ViewOf(db), records) ==> AllLinked(SavedDatabase(db, records))
  {
    LinkedShown(db);
    if SaveCovers(ViewOf(db), records) {
      forall c | c in db.tables
        ensures Shows(SaveChange(records)(c, db.tables[c]), Saved(ViewOf(db), records), c)
        ensures c !in Collections(records, CollectionOf) ==> SaveChange(records)(c, db.tables[c]) == db.tables[c]
      {
        SavedShows(db.tables[c], ViewOf(db), records, c);
        if c !in Collections(records, CollectionOf) { SelectNone(records, CollectionOf, c); }
      }
      ChangedShown(db, Collections(records, CollectionOf), SaveChange(records), Saved(ViewOf(db), records));
    } else {
      var r :| r in records && !SaveCoversAt(ViewOf(db), records, r.Entity());
      UncoveredSave(db, records, r);
    }
  }

  lemma UncoveredSave(db: Database, records: seq<ReadModelRecord>, r: ReadModelRecord)
    requires AllLinked(db) && r in records && r.collection in db.tables
    requires !SaveCoversAt(ViewOf(db), records, r.Entity())
    ensures ViewOf(SavedDatabase(db, records)) != Saved(ViewOf(db), records)
  {
    var now, e, t := SavedDatabase(db, records), r.Entity(), db.tables[r.collection];
    LastSavedNone(records, e);
    ViewAt(db, e);
    ViewAt(now, e);
    SavedRow(t, records, r.collection, r.id);
    var k :| (k in KeysSaved(records, e) || (e in ViewOf(db) && k in ViewOf(db)[e].cacheKeys))
          && k !in LastSaved(records, e).value.cacheKeys;
    SavedPair(records, r.collection, r.id, k);
    KeyListed(t, r.id, k);
    KeyListed(now.tables[r.collection], r.id, k);
    assert k in ViewOf(now)[e].cacheKeys && k !in Saved(ViewOf(db), records)[e].cacheKeys;
  }

  // ---- Added cache keys ----

  function AdditionCollection(a: KeyAddition): string {
    a.collection
  }

  function PairsAdded(group: seq<KeyAddition>): set<Pair> {
    set a, k | a in group && k in a.cacheKeys :: (a.id, k)
  }

  function AddedTable(t: Table<RowData>, group: seq<KeyAddition>): Table<RowData> {
    t.(keys := t.keys + PairsAdded(group))
  }

  function AddChange(entries: seq<KeyAddition>): TableChange {
    (c, t) => AddedTable(t, Select(entries, AdditionCollection, c))
  }

  function AddedDatabase(db: Database, entries: seq<KeyAddition>): Database {
    Changed(db, Collections(entries, AdditionCollection), AddChange(entries))
  }

  lemma AddedPair(entries: seq<KeyAddition>, c: string, id: string, k: string)
    ensures (id, k) in PairsAdded(Select(entries, AdditionCollection, c)) <==> k in AddedKeys(entries, EntityKey(c, id))
  {
    var group := Select(entries, AdditionCollection, c);
    if a :| a in entries && a.Entity() == EntityKey(c, id) && k in a.cacheKeys {
      SelectMembers(entries, AdditionCollection, c, a);
    }
    if (id, k) in PairsAdded(group) {
      var a :| a in group && k in a.cacheKeys && a.id == id;
      SelectMembers(entries, AdditionCollection, c, a);
      assert a.Entity() == EntityKey(c, id);
    }
  }

  lemma AddedShows(t: Table<RowData>, view: View, entries: seq<KeyAddition>, c: string)
    requires Shows(t, view, c) && AddOk(view, entries)
    ensures Shows(AddedTable(t, Select(entries, AdditionCollection, c)), Added(view, entries), c)
  {
    var now := AddedTable(t, Select(entries, AdditionCollection, c));
    forall id ensures RowShown(now.rows, Added(view, entries), c, id) {
      assert RowShown(t.rows, view, c, id);
    }
    forall id, k ensures KeyShown(now.keys, Added(view, entries), c, id, k) {
      assert KeyShown(t.keys, view, c, id, k);
      AddedPair(entries, c, id, k);
    }
  }

  /** An insert into the junction leaves a pair without a row exactly when an addition names a
      missing record. */
  lemma AddAgreement(db: Database, entries: seq<KeyAddition>)
    requires AllLinked(db) && forall a | a in entries :: a.collection in db.tables
    ensures AllLinked(AddedDatabase(db, entries)) <==> AddOk(ViewOf(db), entries)
    ensures AddOk(ViewOf(db), entries) ==> ViewOf(AddedDatabase(db, entries)) == Added(ViewOf(db), entries)
  {
    LinkedShown(db);
    if AddOk(ViewOf(db), entries) {
      forall c | c in db.tables
        ensures Shows(AddChange(entries)(c, db.tables[c]), Added(ViewOf(db), entries), c)
        ensures c !in Collections(entries, AdditionCollection) ==> AddChange(entries)(c, db.tables[c]) == db.tables[c]
      {
        AddedShows(db.tables[c], ViewOf(db), entries, c);
        if c !in Collections(entries, AdditionCollection) { SelectNone(entries, AdditionCollection, c); }
      }
      ChangedShown(db, Collections(entries, AdditionCollection), AddChange(entries), Added(ViewOf(db), entries));
    } else {
      var a :| a in entries && a.cacheKeys != [] && a.Entity() !in ViewOf(db);
      var k := a.cacheKeys[0];
      ViewAt(db, a.Entity());
      assert k in a.cacheKeys;
      assert k in AddedKeys(entries, a.Entity());
      AddedPair(entries, a.collection, a.id, k);
      var now := AddedDatabase(db, entries);
      assert (a.id, k) in now.tables[a.collection].keys && (a.id, k).0 !in now.tables[a.collection].rows;
    }
  }

  // ---- Deletions ----

  function EntityCollection(e: EntityKey): string {
    e.collection
  }

  function IdsOf(group: seq<EntityKey>): seq<string> {
    seq(|group|, i requires 0 <= i < |group| => group[i].id)
  }

  function DeleteChange(es: seq<EntityKey>): TableChange {
    (c, t) => WithoutIds(t, SetOf(IdsOf(Select(es, EntityCollection, c))))
  }

  function DeletedDatabase(db: Database, es: seq<EntityKey>): Database {
    Changed(db, Collections(es, EntityCollection), DeleteChange(es))
  }

  lemma DeletedId(es: seq<EntityKey>, c: string, id: string)
    ensures id in SetOf(IdsOf(Select(es, EntityCollection, c))) <==> EntityKey(c, id) in es
  {
    var group := Select(es, EntityCollection, c);
    SelectMembers(es, EntityCollection, c, EntityKey(c, id));
    if i :| 0 <= i < |group| && group[i] == EntityKey(c, id) {
      assert IdsOf(group)[i] == id;
    }
    if id in IdsOf(group) {
      var i :| 0 <= i < |group| && IdsOf(group)[i] == id;
      SelectMembers(es, EntityCollection, c, group[i]);
      assert group[i] == EntityKey(c, id);
    }
  }

  lemma DeletedShows(t: Table<RowData>, view: View, es: seq<EntityKey>, c: string)
    requires Shows(t, view, c)
    ensures Shows(DeleteChange(es)(c, t), Deleted(view, es), c)
  {
    var now := DeleteChange(es)(c, t);
    forall id ensures RowShown(now.rows, Deleted(view, es), c, id) {
      assert RowShown(t.rows, view, c, id);
      DeletedId(es, c, id);
    }
    forall id, k ensures KeyShown(now.keys, Deleted(view, es), c, id, k) {
      assert KeyShown(t.keys, view, c, id, k);
      DeletedId(es, c, id);
    }
  }

  lemma DeleteAgreement(db: Database, es: seq<EntityKey>)
    requires AllLinked(db)
    ensures AllLinked(DeletedDatabase(db, es)) && ViewOf(DeletedDatabase(db, es)) == Deleted(ViewOf(db), es)
  {
    LinkedShown(db);
    forall c | c in db.tables
      ensures Shows(DeleteChange(es)(c, db.tables[c]), Deleted(ViewOf(db), es), c)
      ensures c !in Collections(es, EntityCollection) ==> DeleteChange(es)(c, db.tables[c]) == db.tables[c]
    {
      DeletedShows(db.tables[c], ViewOf(db), es, c);
      if c !in Collections(es, EntityCollection) {
        SelectNone(es, EntityCollection, c);
        assert WithoutIds(db.tables[c], {}) == db.tables[c];
        assert SetOf(IdsOf([])) == {};
      }
    }
    ChangedShown(db, Collections(es, EntityCollection), DeleteChange(es), Deleted(ViewOf(db), es));
  }

  // ---- Removing a cache key ----

  function KeyRemoved<D>(t: Table<D>, key: string): Table<D> {
    OrphansDeleted(KeyDeleted(t, key))
  }

  lemma KeyRemovedRow<D>(t: Table<D>, key: string, id: string)
    ensures id in KeyRemoved(t, key).rows <==> id in t.rows && KeysOf(t, id) - {key} != {}
    ensures id in KeyRemoved(t, key).rows ==> KeyRemoved(t, key).rows[id] == t.rows[id]
    ensures KeysOf(KeyRemoved(t, key), id) == KeysOf(t, id) - {key}
  {
    var now := KeyDeleted(t, key);
    forall k ensures k in KeysOf(now, id) <==> k in KeysOf(t, id) && k != key {
      KeyListed(t, id, k);
      KeyListed(now, id, k);
    }
    assert KeysOf(now, id) == KeysOf(t, id) - {key};
    if p :| p in now.keys && p.0 == id { assert p.1 in KeysOf(now, id); }
    if k :| k in KeysOf(now, id) {
      KeyListed(now, id, k);
      var p := (id, k);
      assert p in now.keys && p.0 == id;
    }
  }

  lemma KeyRemovedView<D>(t: Table<D>, key: string)
    ensures TableView(KeyRemoved(t, key)) == WithoutKeys(TableView(t), {key})
  {
    forall id
      ensures id in TableView(KeyRemoved(t, key)) <==> id in WithoutKeys(TableView(t), {key})
      ensures id in KeyRemoved(t, key).rows ==>
                TableView(KeyRemoved(t, key))[id]
                == WithoutKeys(TableView(t), {key})[id]
    {
      KeyRemovedRow(t, key, id);
    }
  }

  lemma KeyRemovedLinked<D>(t: Table<D>, key: string)
    requires Linked(t)
    ensures Linked(KeyRemoved(t, key))
  {
    forall p | p in KeyRemoved(t, key).keys ensures p.0 in KeyRemoved(t, key).rows {
      KeyRemovedRow(t, key, p.0);
      assert p.1 in KeysOf(t, p.0);
    }
  }

  function RemoveChange(key: string): TableChange {
    (c, t) => KeyRemoved(t, key)
  }

  lemma RemoveAgreement(db: Database, key: string)
    requires AllLinked(db)
    ensures var now := Changed(db, db.tables.Keys, RemoveChange(key));
            AllLinked(now) && ViewOf(now) == WithoutKeys(ViewOf(db), {key})
  {
    var now := Changed(db, db.tables.Keys, RemoveChange(key));
    forall c | c in db.tables ensures Linked(now.tables[c]) {
      KeyRemovedLinked(db.tables[c], key);
    }
    forall e: EntityKey
      ensures e in ViewOf(now) <==> e in WithoutKeys(ViewOf(db), {key})
      ensures e in ViewOf(now) ==> ViewOf(now)[e] == WithoutKeys(ViewOf(db), {key})[e]
    {
      ViewAt(db, e);
      ViewAt(now, e);
      if e.collection in db.tables {
        KeyRemovedRow(db.tables[e.collection], key, e.id);
      }
    }
  }
}
