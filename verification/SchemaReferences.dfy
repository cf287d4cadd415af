/** Which `$ref`s a walk over a schema comes to, and which `$id`s it may register on the way. */
module SchemaReferences {
  import opened SchemaDocument

  predicate RefIn(ref: string, ids: set<string>) {
    ref == "" || ref in ids
  }

  /** As `additionalProperties`, such an object is not walked: it stands for its target alone. */
  predicate PlainReference(o: SchemaObject) {
    o.id == "" && o.ref != ""
  }

  /** Every `$ref` that a walk comes to below an object, through sub-schemas but not through `$ref`s. */
  ghost predicate AllRefsIn(d: Document, n: nat, ids: set<string>)
    decreases n, 3
  {
    n in d.objects && FieldsRefsIn(d, n, 5, ids) && AdditionalRefsIn(d, n, ids) && RefIn(d.objects[n].ref, ids)
  }

  ghost predicate FieldsRefsIn(d: Document, n: nat, k: nat, ids: set<string>)
    requires n in d.objects
    decreases n, 2
  {
    forall j | 0 <= j < k :: FieldRefsIn(d, n, FieldAt(j), |Slots(d.objects[n], FieldAt(j))|, ids)
  }

  ghost predicate FieldRefsIn(d: Document, n: nat, f: Field, k: nat, ids: set<string>)
    requires n in d.objects
    decreases n, 1
  {
    forall i | 0 <= i < k :: SlotRefsIn(d, n, f, i, ids)
  }

  ghost predicate SlotRefsIn(d: Document, n: nat, f: Field, i: nat, ids: set<string>)
    requires n in d.objects
    decreases n, 0
  {
    match SlotAt(d.objects[n], f, i)
    case Object(c) => c < n && AllRefsIn(d, c, ids)
    case _ => true
  }

  ghost predicate AdditionalRefsIn(d: Document, n: nat, ids: set<string>)
    requires n in d.objects
    decreases n, 0
  {
    match d.objects[n].additional
    case Object(c) =>
      c < n && c in d.objects
      && if PlainReference(d.objects[c]) then RefIn(d.objects[c].ref, ids) else AllRefsIn(d, c, ids)
    case _ => true
  }

  lemma {:induction false} RefsInMore(d: Document, n: nat, ids: set<string>, more: set<string>)
    requires AllRefsIn(d, n, ids) && ids <= more
    ensures AllRefsIn(d, n, more)
    decreases n, 2
  {
    FieldsRefsInMore(d, n, 5, ids, more);
    AdditionalRefsInMore(d, n, ids, more);
  }

  lemma {:induction false} FieldsRefsInMore(d: Document, n: nat, k: nat, ids: set<string>, more: set<string>)
    requires n in d.objects && FieldsRefsIn(d, n, k, ids) && ids <= more
    ensures FieldsRefsIn(d, n, k, more)
    decreases n, 1
  {
    forall j | 0 <= j < k ensures FieldRefsIn(d, n, FieldAt(j), |Slots(d.objects[n], FieldAt(j))|, more) {
      FieldRefsInMore(d, n, FieldAt(j), |Slots(d.objects[n], FieldAt(j))|, ids, more);
    }
  }

  lemma {:induction false} FieldRefsInMore(d: Document, n: nat, f: Field, k: nat, ids: set<string>, more: set<string>)
    requires n in d.objects && FieldRefsIn(d, n, f, k, ids) && ids <= more
    ensures FieldRefsIn(d, n, f, k, more)
    decreases n, 0
  {
    forall i | 0 <= i < k ensures SlotRefsIn(d, n, f, i, more) {
      assert SlotRefsIn(d, n, f, i, ids);
      if SlotAt(d.objects[n], f, i).Object? {
        RefsInMore(d, SlotAt(d.objects[n], f, i).node, ids, more);
      }
    }
  }

  lemma {:induction false} AdditionalRefsInMore(d: Document, n: nat, ids: set<string>, more: set<string>)
    requires n in d.objects && AdditionalRefsIn(d, n, ids) && ids <= more
    ensures AdditionalRefsIn(d, n, more)
    decreases n, 0
  {
    if d.objects[n].additional.Object? && !PlainReference(d.objects[d.objects[n].additional.node]) {
      RefsInMore(d, d.objects[n].additional.node, ids, more);
    }
  }

  /** A document without `$ref`s gives no reason to fail. */
  lemma {:induction false} RefFreeRefs(d: Document, n: nat, ids: set<string>)
    requires d.Valid() && d.RefFree() && n in d.objects
    ensures AllRefsIn(d, n, ids)
    decreases n
  {
    assert ValidObject(d.objects, d.ids, n);
    forall j | 0 <= j < 5 ensures FieldRefsIn(d, n, FieldAt(j), |Slots(d.objects[n], FieldAt(j))|, ids) {
      forall i | 0 <= i < |Slots(d.objects[n], FieldAt(j))| ensures SlotRefsIn(d, n, FieldAt(j), i, ids) {
        d.SlotIsValid(n, FieldAt(j), i);
        if SlotAt(d.objects[n], FieldAt(j), i).Object? {
          RefFreeRefs(d, SlotAt(d.objects[n], FieldAt(j), i).node, ids);
        }
      }
    }
    if d.objects[n].additional.Object? {
      RefFreeRefs(d, d.objects[n].additional.node, ids);
    }
  }

  // ---- The ids that a walk may register ----

  /** A sub-schema that is walked, not one that a `$ref` names. */
  ghost predicate Walked(d: Document, n: nat, c: nat) {
    && n in d.objects && c in d.objects
    && ((exists f, i :: SlotAt(d.objects[n], f, i) == Object(c))
        || (d.objects[n].additional == Object(c) && !PlainReference(d.objects[c])))
  }

  ghost predicate DeclaredBelow(d: Document, n: nat, id: string)
    decreases n
  {
    exists c: nat :: c < n && Walked(d, n, c) && (d.objects[c].id == id || DeclaredBelow(d, c, id))
  }

  /** The new ids are declared below the object, or are the one given. */
  ghost predicate NewIds(d: Document, n: nat, own: string, was: set<string>, now: set<string>) {
    forall id | id in now :: id in was || id == own || DeclaredBelow(d, n, id)
  }

  lemma NewIdsTwice(d: Document, n: nat, was: set<string>, mid: set<string>, now: set<string>)
    requires NewIds(d, n, "", was, mid) && NewIds(d, n, "", mid, now)
    ensures NewIds(d, n, "", was, now)
  {
  }

  lemma NewIdsBelow(d: Document, n: nat, c: nat, was: set<string>, now: set<string>)
    requires c < n && Walked(d, n, c) && NewIds(d, c, d.objects[c].id, was, now)
    ensures NewIds(d, n, "", was, now)
  {
    forall id | id in now && id !in was ensures DeclaredBelow(d, n, id) {
      assert d.objects[c].id == id || DeclaredBelow(d, c, id);
    }
  }
}
