/** JSON Schema objects as a heap of mutable nodes, and the trees they unfold to. */
module SchemaDocument {
  import opened SchemaPlan

  /** A sub-schema position. `RefTo(id)` is an object holding nothing but `$ref: id`, as the
      registry writes one in place of a sub-schema that has an `$id`. */
  datatype Slot = Bool(value: bool) | Object(node: nat) | RefTo(id: string)

  /** The keywords that hold lists of sub-schemas. */
  datatype Field = Properties | ItemList | OneOf | AnyOf | AllOf

  /** One schema object. `keys` are the keys of its `properties`, `lists` the sub-schemas under
      each keyword it has, and `tuple` tells whether `items` is an array of schemas or a single
      one. An absent `$id` or `$ref` is the empty string, since both are only tested for truth. */
  datatype SchemaObject = SchemaObject(
    keywords: Keywords, id: string, ref: string, keys: seq<string>, lists: map<Field, seq<Slot>>, tuple: bool,
    additional: Slot)

  type Objects = map<nat, SchemaObject>

  function Slots(o: SchemaObject, f: Field): seq<Slot> {
    if f in o.lists then o.lists[f] else []
  }

  function SlotAt(o: SchemaObject, f: Field, i: nat): Slot {
    if i < |Slots(o, f)| then Slots(o, f)[i] else Bool(false)
  }

  /** The path step that leads from an object to its i-th slot in a field. */
  function StepTo(o: SchemaObject, f: Field, i: nat): seq<Tok> {
    match f
    case Properties => if i < |o.keys| then [Key(o.keys[i])] else []
    case ItemList => if o.tuple then [Idx(i)] else [All]
    case _ => []
  }

  /** Overwrites one slot in place. */
  function WithSlot(o: SchemaObject, f: Field, i: nat, s: Slot): (r: SchemaObject)
    requires i < |Slots(o, f)|
    ensures Slots(r, f) == Slots(o, f)[i := s]
    ensures forall g | g != f :: Slots(r, g) == Slots(o, g)
  {
    o.(lists := o.lists[f := Slots(o, f)[i := s]])
  }

  /** A document: its objects, the object that declares each `$id`, and the tree that each
      object stands for, `$ref`s replaced by their targets. */
  datatype Document = Document(objects: Objects, ids: map<string, nat>, trees: map<nat, Tree>) {

    /** Objects are numbered so that sub-schemas and referenced schemas come before the objects
        that mention them, which any finite acyclic document allows; the same object may be
        shared by several parents. Every `$id` is declared once. */
    ghost predicate Valid() {
      && WellNumbered(objects, ids)
      && trees.Keys == objects.Keys
      && (forall n {:trigger UnfoldsAt(n)} | n in objects :: UnfoldsAt(n))
    }

    ghost predicate UnfoldsAt(n: nat)
      requires n in objects && n in trees
    {
      trees[n] == Unfolded(objects, ids, trees, n)
    }

    ghost predicate RefFree() {
      forall n | n in objects :: objects[n].ref == ""
    }

    lemma SlotIsValid(n: nat, f: Field, i: nat)
      requires Valid() && n in objects
      ensures ValidSlot(objects, n, SlotAt(objects[n], f, i))
    {
      assert ValidObject(objects, ids, n);
      assert ValidSlots(objects, n, Slots(objects[n], f));
    }
  }

  ghost predicate WellNumbered(objects: Objects, ids: map<string, nat>) {
    && (forall n {:trigger ValidObject(objects, ids, n)} | n in objects :: ValidObject(objects, ids, n))
    && (forall id {:trigger ids[id]} | id in ids :: id != "" && ids[id] in objects && objects[ids[id]].id == id)
  }

  ghost predicate ValidObject(objects: Objects, ids: map<string, nat>, n: nat)
    requires n in objects
  {
    var o := objects[n];
    && |o.keys| == |Slots(o, Properties)| && (!o.tuple ==> |Slots(o, ItemList)| <= 1)
    && (o.id != "" ==> o.id in ids && ids[o.id] == n)
    && (forall f :: ValidSlots(objects, n, Slots(o, f)))
    && ValidSlot(objects, n, o.additional)
    && (o.ref in ids ==> ids[o.ref] < n)
  }

  ghost predicate ValidSlots(objects: Objects, n: nat, ss: seq<Slot>) {
    forall i | 0 <= i < |ss| :: ValidSlot(objects, n, ss[i])
  }

  /** No position holds a registry-made reference yet. */
  ghost predicate ValidSlot(objects: Objects, n: nat, s: Slot) {
    !s.RefTo? && (s.Object? ==> s.node < n && s.node in objects)
  }

  // ---- The tree of an object, given the trees of the objects before it ----

  function TreeAt(trees: map<nat, Tree>, n: nat): Tree {
    if n in trees then trees[n] else Node(map[], [])
  }

  function Unfolded(objects: Objects, ids: map<string, nat>, trees: map<nat, Tree>, n: nat): Tree
    requires n in objects
  {
    var o := objects[n];
    Node(o.keywords, FieldParts(ids, trees, o, 5) + AdditionalParts(objects, ids, trees, o) + RefParts(ids, trees, o))
  }

  function FieldAt(k: nat): Field {
    match k case 0 => Properties case 1 => ItemList case 2 => OneOf case 3 => AnyOf case _ => AllOf
  }

  /** The parts of the first k fields. */
  function FieldParts(ids: map<string, nat>, trees: map<nat, Tree>, o: SchemaObject, k: nat): seq<Part> {
    if k == 0 then []
    else FieldParts(ids, trees, o, k - 1) + PartsUpTo(ids, trees, o, FieldAt(k - 1), |Slots(o, FieldAt(k - 1))|)
  }

  /** The parts of the first i slots of a field. */
  function PartsUpTo(ids: map<string, nat>, trees: map<nat, Tree>, o: SchemaObject, f: Field, i: nat): seq<Part> {
    if i == 0 then [] else PartsUpTo(ids, trees, o, f, i - 1) + SlotParts(ids, trees, o, f, i - 1)
  }

  /** The tree of an object holding nothing but a `$ref`. */
  function ReferenceTree(ids: map<string, nat>, trees: map<nat, Tree>, id: string): Tree {
    Node(map[], if id in ids then [Sub([], TreeAt(trees, ids[id]))] else [])
  }

  function SlotParts(ids: map<string, nat>, trees: map<nat, Tree>, o: SchemaObject, f: Field, i: nat): seq<Part> {
    match SlotAt(o, f, i)
    case Object(c) => [Sub(StepTo(o, f, i), TreeAt(trees, c))]
    case RefTo(id) => [Sub(StepTo(o, f, i), ReferenceTree(ids, trees, id))]
    case Bool(_) => []
  }

  /** The schema that `additionalProperties` stands for; a child that is a plain reference stands
      for its target alone. */
  function AdditionalTarget(objects: Objects, ids: map<string, nat>, o: SchemaObject): seq<nat> {
    match o.additional
    case Object(c) =>
      if c in objects && objects[c].id == "" && objects[c].ref != "" then
        if objects[c].ref in ids then [ids[objects[c].ref]] else []
      else [c]
    case RefTo(id) => if id in ids then [ids[id]] else []
    case Bool(_) => []
  }

  function AdditionalParts(objects: Objects, ids: map<string, nat>, trees: map<nat, Tree>, o: SchemaObject): seq<Part> {
    var target := AdditionalTarget(objects, ids, o);
    if target == [] then [] else [Dynamic(o.keys, TreeAt(trees, target[0]))]
  }

  function RefParts(ids: map<string, nat>, trees: map<nat, Tree>, o: SchemaObject): seq<Part> {
    if o.ref in ids then [Sub([], TreeAt(trees, ids[o.ref]))] else []
  }

  // ---- Every well-numbered document unfolds, in exactly one way ----

  function UnfoldAll(objects: Objects, ids: map<string, nat>, k: nat): map<nat, Tree> {
    if k == 0 then map[]
    else
      var trees := UnfoldAll(objects, ids, k - 1);
      if k - 1 in objects then trees[k - 1 := Unfolded(objects, ids, trees, k - 1)] else trees
  }

  /** Whatever an object mentions comes before it, registry-made references included. */
  ghost predicate GroundedSlot(objects: Objects, ids: map<string, nat>, n: nat, s: Slot) {
    match s
    case Object(c) => c < n && c in objects
    case RefTo(id) => id in ids ==> ids[id] < n && ids[id] in objects
    case Bool(_) => true
  }

  ghost predicate GroundedSlots(objects: Objects, ids: map<string, nat>, n: nat, ss: seq<Slot>) {
    forall i | 0 <= i < |ss| :: GroundedSlot(objects, ids, n, ss[i])
  }

  ghost predicate GroundedAt(objects: Objects, ids: map<string, nat>, n: nat)
    requires n in objects
  {
    var o := objects[n];
    && (forall f :: GroundedSlots(objects, ids, n, Slots(o, f)))
    && GroundedSlot(objects, ids, n, o.additional)
    && (o.ref in ids ==> ids[o.ref] < n && ids[o.ref] in objects)
  }

  ghost predicate Grounded(objects: Objects, ids: map<string, nat>) {
    forall n {:trigger GroundedAt(objects, ids, n)} | n in objects :: GroundedAt(objects, ids, n)
  }

  lemma WellNumberedIsGrounded(objects: Objects, ids: map<string, nat>)
    requires WellNumbered(objects, ids)
    ensures Grounded(objects, ids)
  {
    forall n | n in objects ensures GroundedAt(objects, ids, n) {
      assert ValidObject(objects, ids, n);
      forall f ensures GroundedSlots(objects, ids, n, Slots(objects[n], f)) {
        assert ValidSlots(objects, n, Slots(objects[n], f));
      }
    }
  }

  /** The tree of an object depends only on the trees of the objects before it. */
  lemma UnfoldedLocally(objects: Objects, ids: map<string, nat>, a: map<nat, Tree>, b: map<nat, Tree>, n: nat)
    requires Grounded(objects, ids) && n in objects
    requires forall m | m < n && m in objects :: TreeAt(a, m) == TreeAt(b, m)
    ensures Unfolded(objects, ids, a, n) == Unfolded(objects, ids, b, n)
  {
    assert GroundedAt(objects, ids, n);
    var o := objects[n];
    FieldPartsLocally(objects, ids, a, b, n, 5);
    AdditionalLocally(objects, ids, a, b, n);
  }

  lemma AdditionalLocally(objects: Objects, ids: map<string, nat>, a: map<nat, Tree>, b: map<nat, Tree>, n: nat)
    requires Grounded(objects, ids) && n in objects
    requires forall m | m < n && m in objects :: TreeAt(a, m) == TreeAt(b, m)
    ensures AdditionalParts(objects, ids, a, objects[n]) == AdditionalParts(objects, ids, b, objects[n])
  {
    assert GroundedAt(objects, ids, n);
    var o := objects[n];
    if o.additional.Object? {
      assert GroundedAt(objects, ids, o.additional.node);
    }
  }

  lemma {:induction false} FieldPartsLocally(objects: Objects, ids: map<string, nat>, a: map<nat, Tree>,
      b: map<nat, Tree>, n: nat, k: nat)
    requires n in objects && forall f :: GroundedSlots(objects, ids, n, Slots(objects[n], f))
    requires forall m | m < n && m in objects :: TreeAt(a, m) == TreeAt(b, m)
    ensures FieldParts(ids, a, objects[n], k) == FieldParts(ids, b, objects[n], k)
  {
    if k > 0 {
      FieldPartsLocally(objects, ids, a, b, n, k - 1);
      PartsUpToLocally(objects, ids, a, b, n, FieldAt(k - 1), |Slots(objects[n], FieldAt(k - 1))|);
    }
  }

  lemma {:induction false} PartsUpToLocally(objects: Objects, ids: map<string, nat>, a: map<nat, Tree>,
      b: map<nat, Tree>, n: nat, f: Field, i: nat)
    requires n in objects && GroundedSlots(objects, ids, n, Slots(objects[n], f))
    requires forall m | m < n && m in objects :: TreeAt(a, m) == TreeAt(b, m)
    ensures PartsUpTo(ids, a, objects[n], f, i) == PartsUpTo(ids, b, objects[n], f, i)
  {
    if i > 0 {
      PartsUpToLocally(objects, ids, a, b, n, f, i - 1);
      SlotPartsLocally(objects, ids, a, b, n, f, i - 1);
    }
  }

  lemma SlotPartsLocally(objects: Objects, ids: map<string, nat>, a: map<nat, Tree>, b: map<nat, Tree>, n: nat,
      f: Field, i: nat)
    requires n in objects && GroundedSlots(objects, ids, n, Slots(objects[n], f))
    requires forall m | m < n && m in objects :: TreeAt(a, m) == TreeAt(b, m)
    ensures SlotParts(ids, a, objects[n], f, i) == SlotParts(ids, b, objects[n], f, i)
  {
    if i < |Slots(objects[n], f)| {
      assert GroundedSlot(objects, ids, n, Slots(objects[n], f)[i]);
    }
  }

  lemma {:induction false} UnfoldAllSound(objects: Objects, ids: map<string, nat>, k: nat)
    requires Grounded(objects, ids)
    ensures forall n :: n in UnfoldAll(objects, ids, k) <==> n in objects && n < k
    ensures forall n | n in objects && n < k ::
              UnfoldAll(objects, ids, k)[n] == Unfolded(objects, ids, UnfoldAll(objects, ids, k), n)
  {
    if k > 0 {
      UnfoldAllSound(objects, ids, k - 1);
      var before, after := UnfoldAll(objects, ids, k - 1), UnfoldAll(objects, ids, k);
      forall n | n in objects && n < k ensures after[n] == Unfolded(objects, ids, after, n) {
        UnfoldedLocally(objects, ids, before, after, n);
      }
    }
  }

  /** Grounded objects have a tree each. */
  lemma GroundedUnfolds(objects: Objects, ids: map<string, nat>) returns (d: Document)
    requires Grounded(objects, ids)
    ensures d.objects == objects && d.ids == ids && d.trees.Keys == objects.Keys
    ensures forall n {:trigger d.UnfoldsAt(n)} | n in objects :: d.UnfoldsAt(n)
  {
    var k := MaxNumber(objects.Keys);
    UnfoldAllSound(objects, ids, k);
    d := Document(objects, ids, UnfoldAll(objects, ids, k));
  }

  lemma EveryDocumentUnfolds(objects: Objects, ids: map<string, nat>) returns (d: Document)
    requires WellNumbered(objects, ids)
    ensures d.Valid() && d.objects == objects && d.ids == ids
  {
    WellNumberedIsGrounded(objects, ids);
    d := GroundedUnfolds(objects, ids);
  }

  lemma MaxNumber(ns: set<nat>) returns (k: nat)
    ensures forall n | n in ns :: n < k
  {
    k := 0;
    var rest := ns;
    while rest != {}
      invariant rest <= ns && forall n | n in ns :: n in rest || n < k
    {
      var n :| n in rest;
      rest, k := rest - {n}, if n < k then k else n + 1;
    }
  }

  lemma {:induction false} UnfoldingIsUnique(d: Document, e: Document, n: nat)
    requires d.Valid() && e.Valid() && d.objects == e.objects && d.ids == e.ids && n in d.objects
    ensures d.trees[n] == e.trees[n]
  {
    forall m | m < n && m in d.objects ensures TreeAt(d.trees, m) == TreeAt(e.trees, m) {
      UnfoldingIsUnique(d, e, m);
    }
    assert d.UnfoldsAt(n) && e.UnfoldsAt(n);
    WellNumberedIsGrounded(d.objects, d.ids);
    UnfoldedLocally(d.objects, d.ids, d.trees, e.trees, n);
  }

  // ---- Every tree is stepwise ----

  lemma ReferenceStepwise(ids: map<string, nat>, trees: map<nat, Tree>, id: string)
    requires id in ids ==> Stepwise(TreeAt(trees, ids[id]))
    ensures Stepwise(ReferenceTree(ids, trees, id))
  {
    if id in ids {
      StepwiseOne(Sub([], TreeAt(trees, ids[id])));
    }
  }

  lemma SlotStepwise(objects: Objects, ids: map<string, nat>, trees: map<nat, Tree>, n: nat, f: Field, i: nat)
    requires n in objects && GroundedSlots(objects, ids, n, Slots(objects[n], f))
    requires forall m | m < n && m in objects :: Stepwise(TreeAt(trees, m))
    ensures StepwiseParts(SlotParts(ids, trees, objects[n], f, i))
  {
    if i < |Slots(objects[n], f)| {
      assert GroundedSlot(objects, ids, n, Slots(objects[n], f)[i]);
      var step := StepTo(objects[n], f, i);
      match SlotAt(objects[n], f, i) {
        case Object(c) => StepwiseOne(Sub(step, TreeAt(trees, c)));
        case RefTo(id) =>
          ReferenceStepwise(ids, trees, id);
          StepwiseOne(Sub(step, ReferenceTree(ids, trees, id)));
        case Bool(_) =>
      }
    }
  }

  lemma {:induction false} FieldStepwise(objects: Objects, ids: map<string, nat>, trees: map<nat, Tree>, n: nat,
      f: Field, i: nat)
    requires n in objects && GroundedSlots(objects, ids, n, Slots(objects[n], f))
    requires forall m | m < n && m in objects :: Stepwise(TreeAt(trees, m))
    ensures StepwiseParts(PartsUpTo(ids, trees, objects[n], f, i))
  {
    if i > 0 {
      FieldStepwise(objects, ids, trees, n, f, i - 1);
      SlotStepwise(objects, ids, trees, n, f, i - 1);
      StepwiseConcat(PartsUpTo(ids, trees, objects[n], f, i - 1), SlotParts(ids, trees, objects[n], f, i - 1));
    }
  }

  lemma {:induction false} FieldsStepwise(objects: Objects, ids: map<string, nat>, trees: map<nat, Tree>, n: nat,
      k: nat)
    requires n in objects && forall f :: GroundedSlots(objects, ids, n, Slots(objects[n], f))
    requires forall m | m < n && m in objects :: Stepwise(TreeAt(trees, m))
    ensures StepwiseParts(FieldParts(ids, trees, objects[n], k))
  {
    if k > 0 {
      var f := FieldAt(k - 1);
      FieldsStepwise(objects, ids, trees, n, k - 1);
      FieldStepwise(objects, ids, trees, n, f, |Slots(objects[n], f)|);
      StepwiseConcat(FieldParts(ids, trees, objects[n], k - 1),
                     PartsUpTo(ids, trees, objects[n], f, |Slots(objects[n], f)|));
    }
  }

  lemma AdditionalStepwise(objects: Objects, ids: map<string, nat>, trees: map<nat, Tree>, n: nat)
    requires Grounded(objects, ids) && n in objects
    requires forall m | m < n && m in objects :: Stepwise(TreeAt(trees, m))
    ensures StepwiseParts(AdditionalParts(objects, ids, trees, objects[n]))
    ensures StepwiseParts(RefParts(ids, trees, objects[n]))
  {
    assert GroundedAt(objects, ids, n);
    var o := objects[n];
    if o.additional.Object? {
      assert GroundedAt(objects, ids, o.additional.node);
    }
    var target := AdditionalTarget(objects, ids, o);
    if target != [] { StepwiseOne(Dynamic(o.keys, TreeAt(trees, target[0]))); }
    if o.ref in ids { StepwiseOne(Sub([], TreeAt(trees, ids[o.ref]))); }
  }

  /** Every sub-schema of a document is at most one step below its parent, and only
      `additionalProperties` stands for any key. */
  lemma {:induction false} EveryTreeIsStepwise(d: Document, n: nat)
    requires d.Valid() && n in d.objects
    ensures Stepwise(d.trees[n])
  {
    forall m | m < n && m in d.objects ensures Stepwise(TreeAt(d.trees, m)) {
      EveryTreeIsStepwise(d, m);
    }
    assert d.UnfoldsAt(n);
    WellNumberedIsGrounded(d.objects, d.ids);
    assert GroundedAt(d.objects, d.ids, n);
    FieldsStepwise(d.objects, d.ids, d.trees, n, 5);
    AdditionalStepwise(d.objects, d.ids, d.trees, n);
    var fields, additional := FieldParts(d.ids, d.trees, d.objects[n], 5),
                              AdditionalParts(d.objects, d.ids, d.trees, d.objects[n]);
    StepwiseConcat(fields, additional);
    StepwiseConcat(fields + additional, RefParts(d.ids, d.trees, d.objects[n]));
  }
}
