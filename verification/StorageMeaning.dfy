/** What each storage operation does to a record, field by field. */
module StorageMeaning {
  import opened Options
  import opened StorageRecords
  import opened StorageAgreement

  /** The record is there and unchanged, or neither before nor after. */
  ghost predicate Untouched(was: View, now: View, e: EntityKey) {
    (e in now <==> e in was) && (e in was ==> now[e] == was[e])
  }

  // ---- Saving, adding keys, deleting ----

  predicate ForEntity(r: ReadModelRecord, e: EntityKey) {
    r.collection == e.collection && r.id == e.id
  }

  /** The last record of the batch for an entity is what is stored, with its keys and no others. */
  lemma SaveMeans(s: Shown, records: seq<ReadModelRecord>, e: EntityKey, i: nat)
    ensures var now := Step(s, Save(records)).readModels;
            i < |records| && ForEntity(records[i], e) && (forall j | i < j < |records| :: !ForEntity(records[j], e)) ==>
              && e in now && now[e].data == records[i].data
              && forall k :: k in now[e].cacheKeys <==> k in records[i].cacheKeys
    ensures (forall r | r in records :: !ForEntity(r, e)) ==>
              Untouched(s.readModels, Step(s, Save(records)).readModels, e)
    ensures Step(s, Save(records)).events == s.events
  {
    LastSavedNone(records, e);
    if i < |records| && ForEntity(records[i], e) && forall j | i < j < |records| :: !ForEntity(records[j], e) {
      LastSavedAt(records, e, i);
      assert records[i] in records;
    }
  }

  lemma {:induction false} LastSavedAt(records: seq<ReadModelRecord>, e: EntityKey, i: nat)
    requires i < |records| && ForEntity(records[i], e) && forall j | i < j < |records| :: !ForEntity(records[j], e)
    ensures LastSaved(records, e) == Some(records[i])
  {
    if i < |records| - 1 {
      LastSavedAt(records[..|records| - 1], e, i);
    }
  }

  predicate Gives(a: KeyAddition, e: EntityKey, k: string) {
    a.collection == e.collection && a.id == e.id && k in a.cacheKeys
  }

  /** A record that exists gains the keys that are added to it; none comes into being. */
  lemma AddMeans(s: Shown, additions: seq<KeyAddition>, e: EntityKey)
    ensures var was, now := s.readModels, Step(s, AddKeys(additions)).readModels;
            && (e in now <==> e in was)
            && (e in was ==>
                  && now[e].data == was[e].data
                  && forall k :: k in now[e].cacheKeys <==>
                                 k in was[e].cacheKeys || exists a | a in additions :: Gives(a, e, k))
    ensures Step(s, AddKeys(additions)).events == s.events
  {
    forall k ensures k in AddedKeys(additions, e) <==> exists a | a in additions :: Gives(a, e, k) {
      if a :| a in additions && Gives(a, e, k) { assert a.Entity() == e; }
    }
  }

  /** Exactly the named records go. */
  lemma DeleteMeans(s: Shown, entities: seq<EntityKey>, e: EntityKey)
    ensures var was, now := s.readModels, Step(s, Delete(entities)).readModels;
            if e in entities then e !in now else Untouched(was, now, e)
    ensures Step(s, Delete(entities)).events == s.events
  {
  }

  // ---- Renaming ----

  predicate Names(m: Migration, e: EntityKey) {
    m.collection == e.collection && m.fromId == e.id
  }

  /** The record that was at one place and is now at another, after an entry. */
  predicate MovedBy(was: Entry<RowData>, now: Entry<RowData>, m: Migration) {
    && now.data.effectiveData == m.effectiveData && now.data.serverData == m.serverData
    && now.data.hasLocalChanges == m.hasLocalChanges && now.data.updatedAt == m.updatedAt
    && now.data.revision == was.data.revision && now.data.position == was.data.position
    && now.data.clientMetadata == was.data.clientMetadata && now.cacheKeys == was.cacheKeys
  }

  /** If the new ids are distinct, a record that an entry names goes to the new id, with the data, server data,
      flag and time of the entry and the rest of its own; every other record stays as it is; and there are
      no more. */
  lemma MigrateMeans(s: Shown, batch: seq<Migration>, e: EntityKey)
    requires DistinctSources(batch) && NewIdsDistinct(s.readModels, batch)
    ensures var was, now := s.readModels, Step(s, Migrate(batch)).readModels;
            && (forall m | m in batch && Names(m, e) && e in was ::
                  EntityKey(m.collection, m.toId) in now && MovedBy(was[e], now[EntityKey(m.collection, m.toId)], m))
            && (e in was && (forall m | m in batch :: !Names(m, e)) ==> e in now && now[e] == was[e])
            && (e in now ==>
                  || (e in was && forall m | m in batch :: !Names(m, e))
                  || exists m | m in batch :: EntityKey(m.collection, m.toId) == e
                                              && EntityKey(m.collection, m.fromId) in was)
    ensures Step(s, Migrate(batch)).events == s.events
  {
    var was, now := s.readModels, Migrated(s.readModels, batch);
    forall m | m in batch && Names(m, e) && e in was
      ensures EntityKey(m.collection, m.toId) in now && MovedBy(was[e], now[EntityKey(m.collection, m.toId)], m)
    {
      MoverFound(was, batch, m.Target());
      MigratedAt(was, batch, m.Target());
      SameEntry(batch, m, Mover(was, batch, m.Target()).value);
    }
    MoverFound(was, batch, e);
    MigratedAt(was, batch, e);
    assert IsSource(batch, e) <==> exists m | m in batch :: Names(m, e);
  }

  // ---- Removing cache keys ----

  /** What is left holds a key outside the list, and exactly its keys outside the list. */
  ghost predicate LosesKeys<K, D>(was: map<K, Entry<D>>, now: map<K, Entry<D>>, keys: seq<string>, e: K) {
    && (e in now <==> e in was && exists k :: k in was[e].cacheKeys && k !in keys)
    && (e in now ==> now[e].data == was[e].data
                     && forall k :: k in now[e].cacheKeys <==> k in was[e].cacheKeys && k !in keys)
  }

  lemma RemovalMeans<K, D>(was: map<K, Entry<D>>, keys: seq<string>, e: K)
    ensures LosesKeys(was, WithoutKeys(was, SetOf(keys)), keys, e)
  {
    if e in was {
      assert forall k :: k in was[e].cacheKeys - SetOf(keys) <==> k in was[e].cacheKeys && k !in keys;
    }
  }

  lemma DeleteKeysMeans(s: Shown, keys: seq<string>, e: EntityKey, id: string)
    ensures var now := Step(s, DeleteKeys(keys));
            LosesKeys(s.readModels, now.readModels, keys, e) && LosesKeys(s.events, now.events, keys, id)
  {
    RemovalMeans(s.readModels, keys, e);
    RemovalMeans(s.events, keys, id);
  }

  lemma RemoveKeyMeans(s: Shown, key: string, e: EntityKey)
    ensures LosesKeys(s.readModels, Step(s, RemoveKey(key)).readModels, [key], e)
    ensures Step(s, RemoveKey(key)).events == s.events
  {
    assert SetOf([key]) == {key};
    RemovalMeans(s.readModels, [key], e);
  }

  // ---- Counting ----

  /** A filter and its opposite divide the count, and what a filter counts passes it. */
  lemma FilterDivides(view: View, c: string, cacheKey: Option<string>, p: (string, RowData) -> bool)
    ensures var all, passing := Matching(view, c, cacheKey, None), Matching(view, c, cacheKey, Some(p));
            && |all| == |passing| + |Matching(view, c, cacheKey, Some((id, data) => !p(id, data)))|
            && (forall e | e in all :: e in passing <==> p(e.id, view[e].data))
  {
    var all := Matching(view, c, cacheKey, None);
    var passing, failing := Matching(view, c, cacheKey, Some(p)),
                            Matching(view, c, cacheKey, Some((id, data) => !p(id, data)));
    assert all == passing + failing && passing !! failing;
  }

  /** Without a filter, the records of the collection, or those of them that hold the key. */
  lemma CountedAre(view: View, c: string, cacheKey: Option<string>, e: EntityKey)
    ensures e in Matching(view, c, cacheKey, None) <==>
            e in view && e.collection == c && forall k | cacheKey == Some(k) :: k in view[e].cacheKeys
  {
  }

  /** The revisions of a collection: of each record that has one, under its id. */
  lemma RevisionsAre(view: View, c: string, id: string, revision: string)
    ensures (id, revision) in RevisionsIn(view, c) <==>
            EntityKey(c, id) in view && view[EntityKey(c, id)].data.revision == Some(revision)
  {
    if (id, revision) in RevisionsIn(view, c) {
      var e :| e in view && e.collection == c && view[e].data.revision.Some?
               && (e.id, view[e].data.revision.value) == (id, revision);
      assert e == EntityKey(c, id);
    }
    if EntityKey(c, id) in view && view[EntityKey(c, id)].data.revision == Some(revision) {
      assert EntityKey(c, id).collection == c;
    }
  }
}
