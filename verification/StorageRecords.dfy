/** Read models and cached events as a client of the storage interface sees them, and what each
    storage operation means. */
module StorageRecords {
  import opened Options

  datatype ClientMetadata = ClientMetadata(clientId: string, reconciledAt: Option<int>)

  datatype RowData = RowData(
    serverData: Option<string>, effectiveData: string, hasLocalChanges: bool, updatedAt: int,
    revision: Option<string>, position: Option<string>, clientMetadata: Option<ClientMetadata>)

  datatype EntityKey = EntityKey(collection: string, id: string)

  datatype ReadModelRecord = ReadModelRecord(id: string, collection: string, cacheKeys: seq<string>, data: RowData) {
    function Entity(): EntityKey {
      EntityKey(collection, id)
    }
  }

  datatype EventData = EventData(kind: string, streamId: string, payload: string)
  datatype CachedEventRecord = CachedEventRecord(id: string, data: EventData, cacheKeys: seq<string>)

  datatype EvictionPolicy = Persistent | Ephemeral

  datatype CacheKeyRecord = CacheKeyRecord(
    key: string, parentKey: Option<string>, evictionPolicy: EvictionPolicy, frozen: bool, inheritedFrozen: bool,
    lastAccessedAt: int, holdCount: int)

  type EventView = map<string, Entry<EventData>>

  /** A stored record without its place: its data and the set of cache keys it is associated with. */
  datatype Entry<D> = Entry(data: D, cacheKeys: set<string>)
  type View = map<EntityKey, Entry<RowData>>

  datatype KeyAddition = KeyAddition(collection: string, id: string, cacheKeys: seq<string>) {
    function Entity(): EntityKey {
      EntityKey(collection, id)
    }
  }

  datatype Migration = Migration(
    collection: string, fromId: string, toId: string,
    effectiveData: string, serverData: Option<string>, hasLocalChanges: bool, updatedAt: int)
  {
    function Source(): EntityKey {
      EntityKey(collection, fromId)
    }

    function Target(): EntityKey {
      EntityKey(collection, toId)
    }

    function Applied(d: RowData): RowData {
      d.(effectiveData := effectiveData, serverData := serverData, hasLocalChanges := hasLocalChanges, updatedAt :=
          updatedAt)
    }
  }

  function SetOf<T>(xs: seq<T>): set<T> {
    set x | x in xs
  }

  lemma SubsetSize<T>(a: set<T>, b: set<T>)
    requires a <= b
    ensures |a| <= |b|
  {
    assert b == a + (b - a);
  }

  lemma SetOfSnoc<T>(xs: seq<T>, x: T)
    ensures SetOf(xs + [x]) == SetOf(xs) + {x}
  {
  }

  // ---- Saving ----

  /** The last record saved for an entity in a batch. */
  function LastSaved(records: seq<ReadModelRecord>, e: EntityKey): Option<ReadModelRecord> {
    if records == [] then None
    else
      var last := records[|records| - 1];
      if last.Entity() == e then Some(last) else LastSaved(records[..|records| - 1], e)
  }

  function Saved(view: View, records: seq<ReadModelRecord>): View {
    map e | e in view.Keys + (set r | r in records :: r.Entity()) :: SavedEntry(view, records, e)
  }

  function SavedEntry(view: View, records: seq<ReadModelRecord>, e: EntityKey): Entry<RowData>
    requires e in view.Keys + (set r | r in records :: r.Entity())
  {
    match LastSaved(records, e)
    case Some(r) => Entry(r.data, SetOf(r.cacheKeys))
    case None => LastSavedNone(records, e); view[e]
  }

  lemma {:induction false} LastSavedNone(records: seq<ReadModelRecord>, e: EntityKey)
    ensures LastSaved(records, e).None? <==> forall r | r in records :: r.Entity() != e
    ensures LastSaved(records, e).Some? ==>
              LastSaved(records, e).value in records
              && LastSaved(records, e).value.Entity() == e
  {
    if records != [] {
      LastSavedNone(records[..|records| - 1], e);
      assert records == records[..|records| - 1] + [records[|records| - 1]];
    }
  }

  lemma SavedOne(view: View, records: seq<ReadModelRecord>, r: ReadModelRecord)
    ensures Saved(view, records + [r]) == Saved(view, records)[r.Entity() := Entry(r.data, SetOf(r.cacheKeys))]
  {
    var more := records + [r];
    assert more[..|more| - 1] == records;
    var a, b := Saved(view, more), Saved(view, records)[r.Entity() := Entry(r.data, SetOf(r.cacheKeys))];
    assert forall x :: x in more <==> x in records || x == r;
    assert a.Keys == b.Keys;
    forall e | e in a ensures a[e] == b[e] {
    }
  }

  /** All keys that a batch names for an entity. */
  function KeysSaved(records: seq<ReadModelRecord>, e: EntityKey): set<string> {
    set r, k | r in records && r.Entity() == e && k in r.cacheKeys :: k
  }

  predicate SaveCoversAt(view: View, records: seq<ReadModelRecord>, e: EntityKey) {
    match LastSaved(records, e)
    case None => true
    case Some(last) =>
      && KeysSaved(records, e) <= SetOf(last.cacheKeys)
      && (e in view ==> view[e].cacheKeys <= SetOf(last.cacheKeys))
  }

  /** The last record saved for each entity names every key that the entity has, or that another
      record of the batch gives it. */
  ghost predicate SaveCovers(view: View, records: seq<ReadModelRecord>) {
    forall r | r in records :: SaveCoversAt(view, records, r.Entity())
  }

  lemma KeysCovered(view: View, records: seq<ReadModelRecord>, e: EntityKey, k: string)
    requires SaveCovers(view, records)
    ensures e in Saved(view, records) && k in Saved(view, records)[e].cacheKeys
            <==> (e in view && k in view[e].cacheKeys) || k in KeysSaved(records, e)
  {
    LastSavedNone(records, e);
    if LastSaved(records, e).Some? {
      assert SaveCoversAt(view, records, LastSaved(records, e).value.Entity());
    }
  }

  ghost predicate SaveOk(view: View, records: seq<ReadModelRecord>) {
    SaveCovers(view, records) && forall r | r in records :: r.cacheKeys != []
  }

  // ---- Adding cache keys ----

  function AddedKeys(entries: seq<KeyAddition>, e: EntityKey): set<string> {
    set a, k | a in entries && a.Entity() == e && k in a.cacheKeys :: k
  }

  function Added(view: View, entries: seq<KeyAddition>): View {
    map e | e in view :: Entry(view[e].data, view[e].cacheKeys + AddedKeys(entries, e))
  }

  lemma AddedKeysSnoc(entries: seq<KeyAddition>, a: KeyAddition, e: EntityKey)
    ensures AddedKeys(entries + [a], e) == AddedKeys(entries, e) + if e == a.Entity() then SetOf(a.cacheKeys) else {}
  {
    assert forall x :: x in entries + [a] <==> x in entries || x == a;
  }

  function WithMoreKeys(view: View, e: EntityKey, keys: set<string>): View {
    if e in view then view[e := Entry(view[e].data, view[e].cacheKeys + keys)] else view
  }

  lemma AddedOne(view: View, entries: seq<KeyAddition>, a: KeyAddition)
    ensures Added(view, entries + [a]) == WithMoreKeys(Added(view, entries), a.Entity(), SetOf(a.cacheKeys))
  {
    var now, expected := Added(view, entries + [a]), WithMoreKeys(Added(view, entries), a.Entity(), SetOf(a.cacheKeys));
    forall e ensures SameAt(now, expected, e) {
      AddedKeysSnoc(entries, a, e);
      if e in view {
        assert now[e].cacheKeys == expected[e].cacheKeys;
      }
    }
    SameEverywhere(now, expected);
  }

  ghost predicate AddOk(view: View, entries: seq<KeyAddition>) {
    forall a | a in entries && a.cacheKeys != [] :: a.Entity() in view
  }

  // ---- Deleting ----

  function Deleted(view: View, es: seq<EntityKey>): View {
    view - SetOf(es)
  }

  // ---- Removing cache keys ----

  /** Every record loses the given keys; a record left without keys goes. */
  function WithoutKeys<K, D>(view: map<K, Entry<D>>, keys: set<string>): map<K, Entry<D>> {
    map e | e in view && view[e].cacheKeys - keys != {} :: Entry(view[e].data, view[e].cacheKeys - keys)
  }

  /** What the in-memory backend does: it looks only at the records that hold the key. */
  function WithoutHeldKey<K, D>(view: map<K, Entry<D>>, key: string): map<K, Entry<D>> {
    map e | e in view && (key !in view[e].cacheKeys || view[e].cacheKeys - {key} != {}) ::
      Entry(view[e].data, view[e].cacheKeys - {key})
  }

  /** The two readings differ exactly when some record holds no key at all. */
  lemma HeldKeyAgreement<K, D>(view: map<K, Entry<D>>, key: string)
    ensures WithoutHeldKey(view, key) == WithoutKeys(view, {key}) <==> AllKeyed(view)
  {
    var a, b := WithoutHeldKey(view, key), WithoutKeys(view, {key});
    if AllKeyed(view) {
      forall e | e in view ensures e in a <==> e in b {
        if key !in view[e].cacheKeys { assert view[e].cacheKeys - {key} == view[e].cacheKeys; }
      }
    } else {
      var e :| e in view && view[e].cacheKeys == {};
      assert view[e].cacheKeys - {key} == {};
      assert e in a && e !in b;
    }
  }

  ghost predicate AllKeyed<K, D>(view: map<K, Entry<D>>) {
    forall e | e in view :: view[e].cacheKeys != {}
  }

  /** Removing keys one after another, in whatever order and however often, removes their set. */
  lemma WithoutKeysTwice<K, D>(view: map<K, Entry<D>>, a: set<string>, b: set<string>)
    ensures WithoutKeys(WithoutKeys(view, a), b) == WithoutKeys(view, a + b)
  {
    forall e | e in view ensures view[e].cacheKeys - a - b == view[e].cacheKeys - (a + b) {
    }
  }

  lemma WithoutNoKeys<K, D>(view: map<K, Entry<D>>)
    requires AllKeyed(view)
    ensures WithoutKeys(view, {}) == view
  {
    assert forall e | e in view :: view[e].cacheKeys - {} == view[e].cacheKeys;
  }

  function WithoutHeldKeys<K, D>(view: map<K, Entry<D>>, keys: seq<string>): map<K, Entry<D>> {
    if keys == [] then view else WithoutHeldKey(WithoutHeldKeys(view, keys[..|keys| - 1]), keys[|keys| - 1])
  }

  lemma {:induction false} HeldKeysAgreement<K, D>(view: map<K, Entry<D>>, keys: seq<string>)
    requires AllKeyed(view)
    ensures WithoutHeldKeys(view, keys) == WithoutKeys(view, SetOf(keys))
  {
    if keys == [] {
      WithoutNoKeys(view);
      assert SetOf(keys) == {};
    } else {
      var init, last := keys[..|keys| - 1], keys[|keys| - 1];
      HeldKeysAgreement(view, init);
      HeldKeyAgreement(WithoutKeys(view, SetOf(init)), last);
      WithoutKeysTwice(view, SetOf(init), {last});
      assert keys == init + [last];
      assert SetOf(keys) == SetOf(init) + {last};
    }
  }

  // ---- Migrating ids ----

  /** The entry of a batch that moves an existing record to `e`. */
  function Mover(view: View, batch: seq<Migration>, e: EntityKey): Option<Migration> {
    if batch == [] then None
    else
      var last := batch[|batch| - 1];
      if last.Target() == e && last.Source() in view then Some(last) else Mover(view, batch[..|batch| - 1], e)
  }

  lemma {:induction false} MoverFound(view: View, batch: seq<Migration>, e: EntityKey)
    ensures Mover(view, batch, e).None? <==> forall m | m in batch :: m.Target() != e || m.Source() !in view
    ensures Mover(view, batch, e).Some? ==>
              var m := Mover(view, batch, e).value; m in batch && m.Target() == e && m.Source() in view
  {
    if batch != [] {
      MoverFound(view, batch[..|batch| - 1], e);
      assert batch == batch[..|batch| - 1] + [batch[|batch| - 1]];
    }
  }

  function MigratedKeys(view: View, batch: seq<Migration>): set<EntityKey> {
    (view.Keys - (set m | m in batch :: m.Source())) + (set m | m in batch && m.Source() in view :: m.Target())
  }

  /** All renamings at once, as one SQL update performs them. */
  function Migrated(view: View, batch: seq<Migration>): View {
    map e | e in MigratedKeys(view, batch) :: MigratedEntry(view, batch, e)
  }

  function MigratedEntry(view: View, batch: seq<Migration>, e: EntityKey): Entry<RowData>
    requires e in MigratedKeys(view, batch)
  {
    MoverFound(view, batch, e);
    match Mover(view, batch, e)
    case Some(m) => Entry(m.Applied(view[m.Source()].data), view[m.Source()].cacheKeys)
    case None => view[e]
  }

  /** One entry, as the in-memory loop performs it. */
  function MigratedOne(view: View, m: Migration): View {
    if m.Source() !in view then view
    else
      var moved := view[m.Target() := Entry(m.Applied(view[m.Source()].data), view[m.Source()].cacheKeys)];
      if m.Source() == m.Target() then moved else moved - {m.Source()}
  }

  /** The in-memory loop. */
  function MigratedInTurn(view: View, batch: seq<Migration>): View {
    if batch == [] then view else MigratedOne(MigratedInTurn(view, batch[..|batch| - 1]), batch[|batch| - 1])
  }

  ghost predicate DistinctSources(batch: seq<Migration>) {
    forall i, j | 0 <= i < j < |batch| :: batch[i].Source() != batch[j].Source()
  }

  ghost predicate DistinctTargets(batch: seq<Migration>) {
    forall i, j | 0 <= i < j < |batch| :: batch[i].Target() != batch[j].Target()
  }

  /** An entry moves a record to where a later entry takes one from. */
  predicate Feeds(view: View, batch: seq<Migration>, i: nat, j: nat) {
    i < j < |batch| && batch[i].Source() in view && batch[i].Target() == batch[j].Source()
  }

  ghost predicate Chained(view: View, batch: seq<Migration>) {
    exists i: nat, j: nat :: Feeds(view, batch, i, j)
  }

  /** No existing record goes to an id that is taken, nor two of them to one id. Entries whose source
      is missing move nothing. */
  ghost predicate TargetsFree(view: View, batch: seq<Migration>) {
    && (forall m | m in batch && m.Source() in view :: m.Target() == m.Source() || m.Target() !in view)
    && OneMoverEach(view, batch)
  }

  /** No two sources go to one place. */
  ghost predicate OneMoverEach(view: View, batch: seq<Migration>) {
    forall m, n | m in batch && n in batch && m.Source() in view && n.Source() in view && m.Target() == n.Target() ::
      m.Source() == n.Source()
  }

  /** A migration that every backend performs as one simultaneous renaming. */
  ghost predicate MigrateOk(view: View, batch: seq<Migration>) {
    DistinctSources(batch) && TargetsFree(view, batch) && !Chained(view, batch)
  }

  lemma UnchainedInit(view: View, batch: seq<Migration>)
    requires batch != [] && DistinctSources(batch) && !Chained(view, batch)
    ensures DistinctSources(batch[..|batch| - 1]) && !Chained(view, batch[..|batch| - 1])
  {
    var init := batch[..|batch| - 1];
    if i: nat, j: nat :| Feeds(view, init, i, j) {
      assert Feeds(view, batch, i, j);
    }
  }

  /** The loop over a batch performs all renamings at once, if no entry moves a record to a later
      entry's source. */
  lemma {:induction false} InTurnIsAtOnce(view: View, batch: seq<Migration>)
    requires DistinctSources(batch) && !Chained(view, batch)
    ensures MigratedInTurn(view, batch) == Migrated(view, batch)
  {
    if batch != [] {
      UnchainedInit(view, batch);
      InTurnIsAtOnce(view, batch[..|batch| - 1]);
      MigratedStep(view, batch, |batch| - 1);
      assert batch[..|batch| - 1 + 1] == batch;
    }
  }

  lemma MigratedStep(view: View, batch: seq<Migration>, i: nat)
    requires DistinctSources(batch) && !Chained(view, batch) && i < |batch|
    ensures Migrated(view, batch[..i + 1]) == MigratedOne(Migrated(view, batch[..i]), batch[i])
  {
    var before, m := batch[..i], batch[i];
    assert batch[..i + 1] == before + [m];
    SourceUntouched(view, batch, i);
    SourceNotFed(view, batch, i);
    forall e ensures SameAt(Migrated(view, before + [m]), MigratedOne(Migrated(view, before), m), e) {
      MigratedStepAt(view, before, m, e);
    }
    SameEverywhere(Migrated(view, before + [m]), MigratedOne(Migrated(view, before), m));
  }

  lemma SourceNotFed(view: View, batch: seq<Migration>, i: nat)
    requires DistinctSources(batch) && !Chained(view, batch) && i < |batch|
    ensures forall m | m in batch[..i] :: m.Source() != batch[i].Source()
    ensures forall m | m in batch[..i] && m.Source() in view :: m.Target() != batch[i].Source()
  {
    forall m | m in batch[..i]
      ensures m.Source() != batch[i].Source()
      ensures m.Source() in view ==> m.Target() != batch[i].Source()
    {
      var j: nat :| j < i && batch[j] == m;
      assert !Feeds(view, batch, j, i);
    }
  }

  predicate SameAt(a: View, b: View, e: EntityKey) {
    (e in a <==> e in b) && (e in a && e in b ==> a[e] == b[e])
  }

  lemma SameEverywhere(a: View, b: View)
    requires forall e :: SameAt(a, b, e)
    ensures a == b
  {
    forall e ensures e in a <==> e in b {
      assert SameAt(a, b, e);
    }
    forall e | e in a ensures a[e] == b[e] {
      assert SameAt(a, b, e);
    }
  }

  predicate IsSource(batch: seq<Migration>, e: EntityKey) {
    exists m | m in batch :: m.Source() == e
  }

  lemma MigratedAt(view: View, batch: seq<Migration>, e: EntityKey)
    ensures e in Migrated(view, batch) <==> Mover(view, batch, e).Some? || (e in view && !IsSource(batch, e))
  {
    MoverFound(view, batch, e);
  }

  lemma MigratedStepAt(view: View, before: seq<Migration>, m: Migration, e: EntityKey)
    requires m.Source() in Migrated(view, before) <==> m.Source() in view
    requires m.Source() in view ==> Migrated(view, before)[m.Source()] == view[m.Source()]
    requires forall x | x in before && x.Source() in view :: x.Target() != m.Source()
    ensures SameAt(Migrated(view, before + [m]), MigratedOne(Migrated(view, before), m), e)
  {
    var more := before + [m];
    assert more[..|before|] == before;
    MigratedAt(view, before, e);
    MigratedAt(view, more, e);
    assert IsSource(more, e) <==> IsSource(before, e) || m.Source() == e by {
      assert m in more && forall x :: x in more <==> x in before || x == m;
    }
    if e == m.Source() {
      MoverFound(view, before, e);
    }
  }

  /** An entry's source is still in place when its turn comes. */
  lemma SourceUntouched(view: View, batch: seq<Migration>, i: nat)
    requires DistinctSources(batch) && !Chained(view, batch) && i < |batch|
    ensures batch[i].Source() in Migrated(view, batch[..i]) <==> batch[i].Source() in view
    ensures batch[i].Source() in view ==> Migrated(view, batch[..i])[batch[i].Source()] == view[batch[i].Source()]
  {
    SourceNotFed(view, batch, i);
    MoverFound(view, batch[..i], batch[i].Source());
  }

  // When the loop fails

  lemma InTurnSnoc(view: View, batch: seq<Migration>, n: nat)
    requires n < |batch|
    ensures MigratedInTurn(view, batch[..n + 1]) == MigratedOne(MigratedInTurn(view, batch[..n]), batch[n])
  {
    assert batch[..n + 1][..n] == batch[..n];
  }

  lemma {:induction false} StaysUntilMoved(view: View, batch: seq<Migration>, k: nat, n: nat, e: EntityKey)
    requires k <= n <= |batch| && e in MigratedInTurn(view, batch[..k])
    requires forall x | k <= x < n :: batch[x].Source() != e
    ensures e in MigratedInTurn(view, batch[..n])
    decreases n
  {
    if k < n {
      StaysUntilMoved(view, batch, k, n - 1, e);
      InTurnSnoc(view, batch, n - 1);
    }
  }

  lemma {:induction false} StaysAway(view: View, batch: seq<Migration>, k: nat, n: nat, e: EntityKey)
    requires k <= n <= |batch| && e !in MigratedInTurn(view, batch[..k])
    requires forall x | k <= x < n :: batch[x].Target() != e
    ensures e !in MigratedInTurn(view, batch[..n])
    decreases n
  {
    if k < n {
      StaysAway(view, batch, k, n - 1, e);
      InTurnSnoc(view, batch, n - 1);
    }
  }

  lemma FedArrives(view: View, batch: seq<Migration>, i: nat, j: nat)
    requires DistinctSources(batch) && Feeds(view, batch, i, j)
    ensures batch[j].Source() in MigratedInTurn(view, batch[..j])
  {
    StaysUntilMoved(view, batch[..j], 0, i, batch[i].Source());
    assert batch[..j][..i] == batch[..i];
    InTurnSnoc(view, batch, i);
    assert batch[..j][..i + 1] == batch[..i + 1];
    StaysUntilMoved(view, batch[..j], i + 1, j, batch[j].Source());
    assert batch[..j][..j] == batch[..j];
  }

  /** A record that an entry moves to a later entry's source does not stay there. */
  lemma FedSourceGoes(view: View, batch: seq<Migration>, i: nat, j: nat)
    requires DistinctSources(batch) && DistinctTargets(batch) && Feeds(view, batch, i, j)
    ensures batch[j].Source() !in MigratedInTurn(view, batch)
  {
    FedArrives(view, batch, i, j);
    InTurnSnoc(view, batch, j);
    var e := batch[i].Target();
    StaysAway(view, batch, j + 1, |batch|, e);
    assert batch[..|batch|] == batch;
  }

  /** With distinct sources and distinct targets, the loop performs all renamings at once exactly
      when no entry moves a record to a later entry's source, whatever the records hold. */
  lemma InTurnUnlessChained(view: View, batch: seq<Migration>)
    requires DistinctSources(batch) && DistinctTargets(batch)
    ensures MigratedInTurn(view, batch) == Migrated(view, batch) <==> !Chained(view, batch)
  {
    if i: nat, j: nat :| Feeds(view, batch, i, j) {
      FedSourceGoes(view, batch, i, j);
      MoverFound(view, batch, batch[i].Target());
      MigratedAt(view, batch, batch[i].Target());
      assert batch[i] in batch;
    } else {
      InTurnIsAtOnce(view, batch);
    }
  }

  /** The outcome does not depend on the order of the entries. */
  lemma MigratedInAnyOrder(view: View, a: seq<Migration>, b: seq<Migration>)
    requires DistinctSources(a) && OneMoverEach(view, a) && SetOf(a) == SetOf(b)
    ensures Migrated(view, a) == Migrated(view, b)
  {
    assert forall m :: m in a <==> m in SetOf(a);
    assert forall m :: m in b <==> m in SetOf(b);
    assert MigratedKeys(view, a) == MigratedKeys(view, b);
    forall e | e in MigratedKeys(view, a) ensures Mover(view, a, e) == Mover(view, b, e) {
      MoverFound(view, a, e);
      MoverFound(view, b, e);
      if Mover(view, a, e).Some? {
        SameEntry(a, Mover(view, a, e).value, Mover(view, b, e).value);
      }
    }
  }

  lemma SameEntry(batch: seq<Migration>, m: Migration, n: Migration)
    requires DistinctSources(batch) && m in batch && n in batch && m.Source() == n.Source()
    ensures m == n
  {
    var i :| 0 <= i < |batch| && batch[i] == m;
    var j :| 0 <= j < |batch| && batch[j] == n;
  }

  /** Where a record goes. */
  function Renamed(batch: seq<Migration>, e: EntityKey): EntityKey {
    if batch == [] then e
    else
      var last := batch[|batch| - 1];
      if last.Source() == e then last.Target() else Renamed(batch[..|batch| - 1], e)
  }

  lemma {:induction false} RenamedFound(batch: seq<Migration>, e: EntityKey)
    ensures (exists i :: 0 <= i < |batch| && batch[i].Source() == e && Renamed(batch, e) == batch[i].Target())
            || (Renamed(batch, e) == e && forall m | m in batch :: m.Source() != e)
  {
    if batch != [] && batch[|batch| - 1].Source() != e {
      RenamedFound(batch[..|batch| - 1], e);
      assert forall x :: x in batch <==> x in batch[..|batch| - 1] || x == batch[|batch| - 1];
    }
  }

  /** The ids after the renaming are distinct: no two records get one id, and none gets the id of one
      that stays. */
  ghost predicate NewIdsDistinct(view: View, batch: seq<Migration>) {
    && OneMoverEach(view, batch)
    && (forall m | m in batch && m.Source() in view && m.Target() in view :: IsSource(batch, m.Target()))
  }

  /** Migration renames records one to one exactly when the new ids are distinct: then none is lost or
      merged, and each keeps its cache keys, revision, position and client metadata. */
  lemma MigratedConserves(view: View, batch: seq<Migration>)
    requires DistinctSources(batch)
    ensures |Migrated(view, batch)| == |view| <==> NewIdsDistinct(view, batch)
    ensures NewIdsDistinct(view, batch) ==> OneToOne(view.Keys, batch)
    ensures NewIdsDistinct(view, batch) ==>
              forall e | e in view ::
                && Renamed(batch, e) in Migrated(view, batch)
                && SameRecord(view[e], Migrated(view, batch)[Renamed(batch, e)])
  {
    MigratedImage(view, batch);
    DistinctIsOneToOne(view, batch);
    assert |Migrated(view, batch)| == |Migrated(view, batch).Keys| && |view| == |view.Keys|;
    if NewIdsDistinct(view, batch) {
      ImageSize(view.Keys, batch);
      forall e | e in view
        ensures Renamed(batch, e) in Migrated(view, batch)
        ensures SameRecord(view[e], Migrated(view, batch)[Renamed(batch, e)])
      {
        RecordMoved(view, batch, e);
      }
    } else {
      var d, e :| d in view.Keys && e in view.Keys && d != e && Renamed(batch, d) == Renamed(batch, e);
      ImageSmaller(view.Keys, batch, d, e);
    }
  }

  lemma RenamedBy(batch: seq<Migration>, m: Migration)
    requires DistinctSources(batch) && m in batch
    ensures Renamed(batch, m.Source()) == m.Target()
  {
    RenamedFound(batch, m.Source());
    if i :| 0 <= i < |batch| && batch[i].Source() == m.Source() && Renamed(batch, m.Source()) == batch[i].Target() {
      SameEntry(batch, m, batch[i]);
    }
  }

  lemma DistinctIsOneToOne(view: View, batch: seq<Migration>)
    requires DistinctSources(batch)
    ensures NewIdsDistinct(view, batch) <==> OneToOne(view.Keys, batch)
  {
    if NewIdsDistinct(view, batch) {
      forall d, e | d in view && e in view && d != e ensures Renamed(batch, d) != Renamed(batch, e) {
        RenamedFound(batch, d);
        RenamedFound(batch, e);
      }
    }
    if OneToOne(view.Keys, batch) {
      forall m, n | m in batch && n in batch && m.Source() in view && n.Source() in view && m.Target() == n.Target()
        ensures m.Source() == n.Source()
      {
        RenamedBy(batch, m);
        RenamedBy(batch, n);
      }
      forall m | m in batch && m.Source() in view && m.Target() in view ensures IsSource(batch, m.Target()) {
        RenamedBy(batch, m);
        RenamedFound(batch, m.Target());
        assert m.Target() == m.Source() || Renamed(batch, m.Target()) != m.Target();
      }
    }
  }

  predicate SameRecord(was: Entry<RowData>, now: Entry<RowData>) {
    && now.cacheKeys == was.cacheKeys && now.data.revision == was.data.revision
    && now.data.position == was.data.position && now.data.clientMetadata == was.data.clientMetadata
  }

  lemma MigratedImage(view: View, batch: seq<Migration>)
    requires DistinctSources(batch)
    ensures Migrated(view, batch).Keys == Image(view.Keys, batch)
  {
    forall e | e in view ensures Renamed(batch, e) in Migrated(view, batch) {
      RenamedFound(batch, e);
      MoverFound(view, batch, Renamed(batch, e));
      MigratedAt(view, batch, Renamed(batch, e));
    }
    forall e | e in Migrated(view, batch) ensures e in Image(view.Keys, batch) {
      MoverFound(view, batch, e);
      match Mover(view, batch, e) {
        case Some(m) => RenamedBy(batch, m);
        case None => RenamedFound(batch, e);
      }
    }
  }

  lemma RecordMoved(view: View, batch: seq<Migration>, e: EntityKey)
    requires DistinctSources(batch) && NewIdsDistinct(view, batch) && e in view
    ensures Renamed(batch, e) in Migrated(view, batch)
    ensures SameRecord(view[e], Migrated(view, batch)[Renamed(batch, e)])
  {
    RenamedFound(batch, e);
    MoverFound(view, batch, Renamed(batch, e));
    MigratedAt(view, batch, Renamed(batch, e));
    if i :| 0 <= i < |batch| && batch[i].Source() == e && Renamed(batch, e) == batch[i].Target() {
      assert batch[i] in batch;
    }
  }

  function Image(es: set<EntityKey>, batch: seq<Migration>): set<EntityKey> {
    set e | e in es :: Renamed(batch, e)
  }

  predicate OneToOne(es: set<EntityKey>, batch: seq<Migration>) {
    forall d, e | d in es && e in es && d != e :: Renamed(batch, d) != Renamed(batch, e)
  }

  lemma ImageOne(es: set<EntityKey>, batch: seq<Migration>, e: EntityKey)
    requires e in es && OneToOne(es, batch)
    ensures Image(es, batch) == Image(es - {e}, batch) + {Renamed(batch, e)}
            && Renamed(batch, e) !in Image(es - {e}, batch)
  {
  }

  lemma {:induction false} ImageSize(es: set<EntityKey>, batch: seq<Migration>)
    requires OneToOne(es, batch)
    ensures |Image(es, batch)| == |es|
  {
    if es != {} {
      var e :| e in es;
      ImageOne(es, batch, e);
      ImageSize(es - {e}, batch);
    }
  }

  lemma {:induction false} ImageAtMost(es: set<EntityKey>, batch: seq<Migration>)
    ensures |Image(es, batch)| <= |es|
  {
    if es != {} {
      var e :| e in es;
      ImageAtMost(es - {e}, batch);
      assert Image(es, batch) == Image(es - {e}, batch) + {Renamed(batch, e)};
    }
  }

  lemma ImageSmaller(es: set<EntityKey>, batch: seq<Migration>, d: EntityKey, e: EntityKey)
    requires d in es && e in es && d != e && Renamed(batch, d) == Renamed(batch, e)
    ensures |Image(es, batch)| < |es|
  {
    ImageAtMost(es - {d}, batch);
    assert Image(es, batch) == Image(es - {d}, batch);
  }

  /** Two ids swapped are such a chain: the first entry
      overwrites the record that the second one is about to move. */
  lemma SwappingIdsLosesARecord(a: Entry<RowData>, b: Entry<RowData>, x: Migration, y: Migration)
    requires x.collection == y.collection && x.fromId == y.toId && x.toId == y.fromId && x.fromId != x.toId
    ensures var view := map[x.Source() := a, y.Source() := b];
            && !MigrateOk(view, [x, y])
            && |MigratedInTurn(view, [x, y])| == 1 && |Migrated(view, [x, y])| == 2
  {
    var view := map[x.Source() := a, y.Source() := b];
    assert [x, y][0].Target() in view;
    InTurnOfTwo(view, x, y);
    assert MigratedOne(MigratedOne(view, x), y).Keys == {x.Source()};
    assert x in [x, y] && y in [x, y];
    assert Migrated(view, [x, y]).Keys == {x.Source(), y.Source()};
    assert |{x.Source(), y.Source()}| == 2;
  }

  lemma InTurnOfTwo(view: View, x: Migration, y: Migration)
    ensures MigratedInTurn(view, [x, y]) == MigratedOne(MigratedOne(view, x), y)
  {
    assert [x, y][..1] == [x] && [x][..0] == [];
    assert MigratedInTurn(view, [x]) == MigratedOne(view, x);
  }

  // ---- Counts and revisions ----

  /** A condition on a row: a predicate in memory, a piece of SQL in the database. */
  type RowFilter = Option<(string, RowData) -> bool>

  predicate Passes(filter: RowFilter, id: string, data: RowData) {
    filter.Some? ==> filter.value(id, data)
  }

  function Matching(view: View, c: string, cacheKey: Option<string>, filter: RowFilter): set<EntityKey> {
    set e | e in view && e.collection == c && (cacheKey.None? || cacheKey.value in view[e].cacheKeys)
            && Passes(filter, e.id, view[e].data)
  }

  function RevisionsIn(view: View, c: string): set<(string, string)> {
    set e | e in view && e.collection == c && view[e].data.revision.Some? :: (e.id, view[e].data.revision.value)
  }

  /** The in-memory count takes an empty cache key for none at all. That makes a difference exactly
      when some counted record lacks the empty key. */
  lemma EmptyKeyCount(view: View, c: string, filter: RowFilter)
    ensures |Matching(view, c, None, filter)| == |Matching(view, c, Some(""), filter)|
            <==> forall e | e in Matching(view, c, None, filter) :: "" in view[e].cacheKeys
  {
    var all, held := Matching(view, c, None, filter), Matching(view, c, Some(""), filter);
    if e :| e in all && e !in held {
      ProperSubsetSize(held, all, e);
    } else {
      assert all == held;
      assert forall e | e in all :: e in held;
    }
  }

  lemma ProperSubsetSize<T>(a: set<T>, b: set<T>, x: T)
    requires a <= b && x in b && x !in a
    ensures |a| < |b|
  {
    assert |b| == |a| + |b - a| by {
      assert a + (b - a) == b && a * (b - a) == {};
    }
    assert x in b - a;
  }
}
