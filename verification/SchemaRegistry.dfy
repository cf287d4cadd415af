/** The caching registry: it walks schemas once, registers sub-schemas that have an `$id`,
    overwrites them in place by `$ref`s, and builds plans from cached sub-plans. */
module SchemaRegistration {
  import opened SchemaPlan
  import opened SchemaDocument
  import SchemaMeaning
  import opened SchemaReferences
  import opened SchemaWalk
  import Hydration
  import HydrationMeaning
  import HydrationPlans
  import HydrationRuns
  import V = HydrationVisitors

  /** A position still holds the sub-schema it was written with, or a reference to it. */
  ghost predicate RewrittenSlot(d: Document, ids: set<string>, was: Slot, now: Slot) {
    || now == was
    || (now.RefTo? && now.id in ids && now.id in d.ids && was == Object(d.ids[now.id]))
  }

  ghost predicate RewrittenField(d: Document, ids: set<string>, was: SchemaObject, now: SchemaObject, f: Field) {
    && |Slots(now, f)| == |Slots(was, f)|
    && forall i | 0 <= i < |Slots(was, f)| ::
         StepTo(now, f, i) == StepTo(was, f, i) && RewrittenSlot(d, ids, Slots(was, f)[i], Slots(now, f)[i])
  }

  ghost predicate RewrittenAt(d: Document, ids: set<string>, objects: Objects, n: nat)
    requires n in objects && n in d.objects
  {
    var was, now := d.objects[n], objects[n];
    && now.keywords == was.keywords && now.id == was.id && now.ref == was.ref
    && now.keys == was.keys
    && RewrittenSlot(d, ids, was.additional, now.additional)
    && forall f :: RewrittenField(d, ids, was, now, f)
  }

  /** The objects are those of the document up to `$ref`s written over registered sub-schemas. */
  ghost predicate Rewritten(d: Document, ids: set<string>, objects: Objects) {
    && objects.Keys == d.objects.Keys
    && forall n {:trigger RewrittenAt(d, ids, objects, n)} | n in objects :: RewrittenAt(d, ids, objects, n)
  }

  ghost predicate CachedAt(d: Document, vs: seq<Visitor>, cache: map<nat, HydrationPlan>, n: nat)
    requires d.Valid() && n in cache && n in d.objects
  {
    IsPlanOf(vs, cache[n], d.trees[n])
  }

  /** Every cached plan is the plan of the tree its schema was first written as. */
  ghost predicate Cached(d: Document, vs: seq<Visitor>, cache: map<nat, HydrationPlan>)
    requires d.Valid()
  {
    && cache.Keys <= d.objects.Keys
    && forall n {:trigger CachedAt(d, vs, cache, n)} | n in cache :: CachedAt(d, vs, cache, n)
  }

  /** Every registered `$id` names its declaring schema, which has a cached plan. */
  ghost predicate Registered(d: Document, cached: set<nat>, ids: map<string, nat>, added: set<nat>) {
    && (forall id | id in ids :: id in d.ids && ids[id] == d.ids[id] && ids[id] in cached)
    && (forall n | n in added :: n in d.objects && d.objects[n].id in ids && n in cached)
  }

  lemma RegisteredMore(d: Document, cached: set<nat>, ids: map<string, nat>, added: set<nat>, n: nat)
    requires Registered(d, cached, ids, added) && n in cached && n in d.objects
    requires d.objects[n].id in d.ids && d.ids[d.objects[n].id] == n
    ensures Registered(d, cached, ids[d.objects[n].id := n], added + {n})
  {
  }

  lemma RewrittenInitially(d: Document)
    requires d.Valid()
    ensures Rewritten(d, {}, d.objects)
  {
    forall n | n in d.objects ensures RewrittenAt(d, {}, d.objects, n) {
      assert ValidObject(d.objects, d.ids, n);
    }
  }

  lemma NodeNow(d: Document, ids: set<string>, objects: Objects, n: nat)
    requires Rewritten(d, ids, objects) && n in objects
    ensures objects[n].keywords == d.objects[n].keywords && objects[n].id == d.objects[n].id
    ensures objects[n].ref == d.objects[n].ref && objects[n].keys == d.objects[n].keys
    ensures RewrittenSlot(d, ids, d.objects[n].additional, objects[n].additional)
  {
    assert RewrittenAt(d, ids, objects, n);
  }

  lemma FieldNow(d: Document, ids: set<string>, objects: Objects, n: nat, f: Field)
    requires Rewritten(d, ids, objects) && n in objects
    ensures |Slots(objects[n], f)| == |Slots(d.objects[n], f)|
  {
    assert RewrittenAt(d, ids, objects, n);
    assert RewrittenField(d, ids, d.objects[n], objects[n], f);
  }

  lemma SlotNow(d: Document, ids: set<string>, objects: Objects, n: nat, f: Field, i: nat)
    requires d.Valid() && Rewritten(d, ids, objects) && n in objects && i < |Slots(d.objects[n], f)|
    ensures |Slots(objects[n], f)| == |Slots(d.objects[n], f)|
    ensures StepTo(objects[n], f, i) == StepTo(d.objects[n], f, i)
    ensures RewrittenSlot(d, ids, SlotAt(d.objects[n], f, i), SlotAt(objects[n], f, i))
    ensures ValidSlot(d.objects, n, SlotAt(d.objects[n], f, i))
  {
    assert RewrittenAt(d, ids, objects, n);
    assert RewrittenField(d, ids, d.objects[n], objects[n], f);
    d.SlotIsValid(n, f, i);
  }

  lemma RewrittenMore(d: Document, ids: set<string>, more: set<string>, objects: Objects)
    requires Rewritten(d, ids, objects) && ids <= more
    ensures Rewritten(d, more, objects)
  {
    forall n | n in objects ensures RewrittenAt(d, more, objects, n) {
      assert RewrittenAt(d, ids, objects, n);
      forall f ensures RewrittenField(d, more, d.objects[n], objects[n], f) {
        assert RewrittenField(d, ids, d.objects[n], objects[n], f);
      }
    }
  }

  lemma CachedMore(d: Document, vs: seq<Visitor>, cache: map<nat, HydrationPlan>, n: nat, plan: HydrationPlan)
    requires d.Valid() && Cached(d, vs, cache) && n in d.objects && IsPlanOf(vs, plan, d.trees[n])
    ensures Cached(d, vs, cache[n := plan])
  {
    var more := cache[n := plan];
    forall m | m in more ensures CachedAt(d, vs, more, m) {
      if m != n {
        assert CachedAt(d, vs, cache, m);
      }
    }
  }

  lemma SlotReplaced(d: Document, ids: set<string>, objects: Objects, n: nat, f: Field, i: nat, c: nat)
    requires Rewritten(d, ids, objects) && n in objects && c in d.objects
    requires i < |Slots(d.objects[n], f)| && SlotAt(d.objects[n], f, i) == Object(c)
    requires d.objects[c].id in ids && d.objects[c].id in d.ids && d.ids[d.objects[c].id] == c
    ensures i < |Slots(objects[n], f)|
    ensures Rewritten(d, ids, objects[n := WithSlot(objects[n], f, i, RefTo(d.objects[c].id))])
  {
    assert RewrittenAt(d, ids, objects, n);
    assert RewrittenField(d, ids, d.objects[n], objects[n], f);
    var now := objects[n := WithSlot(objects[n], f, i, RefTo(d.objects[c].id))];
    forall m | m in now ensures RewrittenAt(d, ids, now, m) {
      assert RewrittenAt(d, ids, objects, m);
      if m == n {
        forall g ensures RewrittenField(d, ids, d.objects[n], now[n], g) {
          assert RewrittenField(d, ids, d.objects[n], objects[n], g);
        }
      }
    }
  }

  lemma AdditionalReplaced(d: Document, ids: set<string>, objects: Objects, n: nat, c: nat)
    requires Rewritten(d, ids, objects) && n in objects && c in d.objects
    requires d.objects[n].additional == Object(c)
    requires d.objects[c].id in ids && d.objects[c].id in d.ids && d.ids[d.objects[c].id] == c
    ensures Rewritten(d, ids, objects[n := objects[n].(additional := RefTo(d.objects[c].id))])
  {
    var now := objects[n := objects[n].(additional := RefTo(d.objects[c].id))];
    forall m | m in now ensures RewrittenAt(d, ids, now, m) {
      assert RewrittenAt(d, ids, objects, m);
      if m == n {
        forall g ensures RewrittenField(d, ids, d.objects[n], now[n], g) {
          assert RewrittenField(d, ids, d.objects[n], objects[n], g);
          assert Slots(now[n], g) == Slots(objects[n], g);
        }
      }
    }
  }

  /** Rewritten objects still have a tree each, references resolved by the table of ids. */
  lemma RewrittenUnfolds(d: Document, ids: set<string>, objects: Objects) returns (now: Document)
    requires d.Valid() && Rewritten(d, ids, objects)
    ensures now.objects == objects && now.ids == d.ids && now.trees.Keys == objects.Keys
    ensures forall n {:trigger now.UnfoldsAt(n)} | n in objects :: now.UnfoldsAt(n)
  {
    forall n | n in objects ensures GroundedAt(objects, d.ids, n) {
      RewrittenGrounded(d, ids, objects, n);
    }
    now := GroundedUnfolds(objects, d.ids);
  }

  lemma RewrittenGrounded(d: Document, ids: set<string>, objects: Objects, n: nat)
    requires d.Valid() && Rewritten(d, ids, objects) && n in objects
    ensures GroundedAt(objects, d.ids, n)
  {
    WellNumberedIsGrounded(d.objects, d.ids);
    assert GroundedAt(d.objects, d.ids, n) && RewrittenAt(d, ids, objects, n);
    forall f ensures GroundedSlots(objects, d.ids, n, Slots(objects[n], f)) {
      assert RewrittenField(d, ids, d.objects[n], objects[n], f);
      assert GroundedSlots(d.objects, d.ids, n, Slots(d.objects[n], f));
    }
  }

  // ---- Rewriting preserves plans ----

  /** `now` is `d` with some sub-schemas replaced by references, and the trees that unfold from that. */
  ghost predicate RewrittenDocument(d: Document, ids: set<string>, now: Document, hits: Hits, n: nat) {
    && d.Valid() && Rewritten(d, ids, now.objects) && now.ids == d.ids
    && now.trees.Keys == now.objects.Keys && (forall m {:trigger now.UnfoldsAt(m)} | m in now.objects ::
        now.UnfoldsAt(m))
    && hits(map[]) == 0 && n in d.objects
  }

  /** Walking the rewritten objects again, references resolved by the registry's table, gives
      every schema the plan it had as first written. */
  lemma {:induction false} RewritingPreservesPlans(d: Document, ids: set<string>, now: Document, hits: Hits, n: nat)
    requires RewrittenDocument(d, ids, now, hits, n)
    ensures Plan(hits, now.trees[n]) == Plan(hits, d.trees[n])
    decreases n, 2
  {
    assert now.UnfoldsAt(n) && d.UnfoldsAt(n) && ValidObject(d.objects, d.ids, n);
    var was, cur := d.objects[n], now.objects[n];
    NodeNow(d, ids, now.objects, n);
    FieldsPreserved(d, ids, now, hits, n);
    AdditionalPreserved(d, ids, now, hits, n);
    RefPreserved(d, ids, now, hits, n);
    var p, q := FieldParts(d.ids, now.trees, cur, 5), AdditionalParts(now.objects, d.ids, now.trees, cur);
    var p', q' := FieldParts(d.ids, d.trees, was, 5), AdditionalParts(d.objects, d.ids, d.trees, was);
    SamePlanConcat(hits, p, q, p', q');
    SamePlanConcat(hits, p + q, RefParts(d.ids, now.trees, cur), p' + q', RefParts(d.ids, d.trees, was));
  }

  ghost predicate SamePlan(hits: Hits, a: seq<Part>, b: seq<Part>) {
    PartsPlan(hits, a) == PartsPlan(hits, b)
  }

  lemma SamePlanConcat(hits: Hits, a: seq<Part>, b: seq<Part>, a': seq<Part>, b': seq<Part>)
    requires SamePlan(hits, a, a') && SamePlan(hits, b, b')
    ensures SamePlan(hits, a + b, a' + b')
  {
    PartsPlanConcat(hits, a, b);
    PartsPlanConcat(hits, a', b');
  }

  /** Two objects, over two families of trees. */
  ghost predicate SameField(hits: Hits, ids: map<string, nat>, trees: map<nat, Tree>, o: SchemaObject,
      trees': map<nat, Tree>, o': SchemaObject, f: Field) {
    SamePlan(hits, PartsUpTo(ids, trees, o, f, |Slots(o, f)|), PartsUpTo(ids, trees', o', f, |Slots(o', f)|))
  }

  ghost predicate SameSlot(hits: Hits, ids: map<string, nat>, trees: map<nat, Tree>, o: SchemaObject,
      trees': map<nat, Tree>, o': SchemaObject, f: Field, i: nat) {
    SamePlan(hits, SlotParts(ids, trees, o, f, i), SlotParts(ids, trees', o', f, i))
  }

  lemma {:induction false} SameFields(hits: Hits, ids: map<string, nat>, trees: map<nat, Tree>, o: SchemaObject,
      trees': map<nat, Tree>, o': SchemaObject, k: nat)
    requires forall f :: SameField(hits, ids, trees, o, trees', o', f)
    ensures SamePlan(hits, FieldParts(ids, trees, o, k), FieldParts(ids, trees', o', k))
  {
    if k > 0 {
      var f := FieldAt(k - 1);
      SameFields(hits, ids, trees, o, trees', o', k - 1);
      assert SameField(hits, ids, trees, o, trees', o', f);
      SamePlanConcat(hits, FieldParts(ids, trees, o, k - 1), PartsUpTo(ids, trees, o, f, |Slots(o, f)|),
                     FieldParts(ids, trees', o', k - 1), PartsUpTo(ids, trees', o', f, |Slots(o', f)|));
    }
  }

  lemma {:induction false} SameSlots(hits: Hits, ids: map<string, nat>, trees: map<nat, Tree>, o: SchemaObject,
      trees': map<nat, Tree>, o': SchemaObject, f: Field, i: nat)
    requires forall j | 0 <= j < i :: SameSlot(hits, ids, trees, o, trees', o', f, j)
    ensures SamePlan(hits, PartsUpTo(ids, trees, o, f, i), PartsUpTo(ids, trees', o', f, i))
  {
    if i > 0 {
      SameSlots(hits, ids, trees, o, trees', o', f, i - 1);
      assert SameSlot(hits, ids, trees, o, trees', o', f, i - 1);
      SamePlanConcat(hits, PartsUpTo(ids, trees, o, f, i - 1), SlotParts(ids, trees, o, f, i - 1),
                     PartsUpTo(ids, trees', o', f, i - 1), SlotParts(ids, trees', o', f, i - 1));
    }
  }

  lemma {:induction false} FieldsPreserved(d: Document, ids: set<string>, now: Document, hits: Hits, n: nat)
    requires RewrittenDocument(d, ids, now, hits, n)
    ensures SamePlan(hits, FieldParts(d.ids, now.trees, now.objects[n], 5), FieldParts(d.ids, d.trees, d.objects[n], 5))
    decreases n, 1
  {
    forall f ensures SameField(hits, d.ids, now.trees, now.objects[n], d.trees, d.objects[n], f) {
      FieldPreserved(d, ids, now, hits, n, f);
    }
    SameFields(hits, d.ids, now.trees, now.objects[n], d.trees, d.objects[n], 5);
  }

  lemma {:induction false} FieldPreserved(d: Document, ids: set<string>, now: Document, hits: Hits, n: nat, f: Field)
    requires RewrittenDocument(d, ids, now, hits, n)
    ensures SameField(hits, d.ids, now.trees, now.objects[n], d.trees, d.objects[n], f)
    decreases n, 0, 1
  {
    FieldNow(d, ids, now.objects, n, f);
    forall i | 0 <= i < |Slots(d.objects[n], f)|
        ensures SameSlot(hits, d.ids, now.trees, now.objects[n], d.trees, d.objects[n], f, i) {
      SlotPreserved(d, ids, now, hits, n, f, i);
    }
    SameSlots(hits, d.ids, now.trees, now.objects[n], d.trees, d.objects[n], f, |Slots(d.objects[n], f)|);
  }

  lemma {:induction false} SlotPreserved(d: Document, ids: set<string>, now: Document, hits: Hits, n: nat, f: Field,
      i: nat)
    requires RewrittenDocument(d, ids, now, hits, n) && i < |Slots(d.objects[n], f)|
    ensures SameSlot(hits, d.ids, now.trees, now.objects[n], d.trees, d.objects[n], f, i)
    decreases n, 0, 0
  {
    SlotNow(d, ids, now.objects, n, f, i);
    match SlotAt(d.objects[n], f, i) {
      case Object(c) =>
        RewritingPreservesPlans(d, ids, now, hits, c);
        var step := StepTo(d.objects[n], f, i);
        var cur := SlotAt(now.objects[n], f, i);
        if cur.RefTo? {
          ReferencePlan(d.ids, now.trees, hits, cur.id);
          SamePlanOne(hits, step, ReferenceTree(d.ids, now.trees, cur.id), d.trees[c]);
        } else {
          SamePlanOne(hits, step, now.trees[c], d.trees[c]);
        }
      case _ =>
    }
  }

  lemma SamePlanOne(hits: Hits, step: seq<Tok>, t: Tree, u: Tree)
    requires Plan(hits, t) == Plan(hits, u)
    ensures SamePlan(hits, [Sub(step, t)], [Sub(step, u)])
  {
    PartsPlanOne(hits, Sub(step, t));
    PartsPlanOne(hits, Sub(step, u));
  }

  /** A bare reference has the plan of its target. */
  lemma ReferencePlan(ids: map<string, nat>, trees: map<nat, Tree>, hits: Hits, id: string)
    requires hits(map[]) == 0 && id in ids
    ensures Plan(hits, ReferenceTree(ids, trees, id)) == Plan(hits, TreeAt(trees, ids[id]))
  {
    WrappedPlan(hits, TreeAt(trees, ids[id]));
  }

  lemma WrappedPlan(hits: Hits, t: Tree)
    requires hits(map[]) == 0
    ensures Plan(hits, Node(map[], [Sub([], t)])) == Plan(hits, t)
  {
    PartsPlanOne(hits, Sub([], t));
    PrefixedNone(Plan(hits, t));
    assert LeafPlan(hits, map[]) == EMPTY_ENVELOPE;
    AppendEmpty(Plan(hits, t));
  }

  lemma {:induction false} AdditionalPreserved(d: Document, ids: set<string>, now: Document, hits: Hits, n: nat)
    requires RewrittenDocument(d, ids, now, hits, n)
    ensures SamePlan(hits, AdditionalParts(now.objects, d.ids, now.trees, now.objects[n]),
                     AdditionalParts(d.objects, d.ids, d.trees, d.objects[n]))
    decreases n, 0
  {
    var was, cur := d.objects[n], now.objects[n];
    NodeNow(d, ids, now.objects, n);
    assert ValidObject(d.objects, d.ids, n);
    if was.additional.Object? {
      NodeNow(d, ids, now.objects, was.additional.node);
      assert ValidObject(d.objects, d.ids, was.additional.node);
      assert AdditionalTarget(now.objects, d.ids, cur) == AdditionalTarget(d.objects, d.ids, was);
    }
    var target := AdditionalTarget(d.objects, d.ids, was);
    if target != [] {
      RewritingPreservesPlans(d, ids, now, hits, target[0]);
      PartsPlanOne(hits, Dynamic(was.keys, d.trees[target[0]]));
      PartsPlanOne(hits, Dynamic(was.keys, now.trees[target[0]]));
    }
  }

  lemma {:induction false} RefPreserved(d: Document, ids: set<string>, now: Document, hits: Hits, n: nat)
    requires RewrittenDocument(d, ids, now, hits, n)
    ensures SamePlan(hits, RefParts(d.ids, now.trees, now.objects[n]),
                     RefParts(d.ids, d.trees, d.objects[n]))
    decreases n, 0
  {
    NodeNow(d, ids, now.objects, n);
    assert ValidObject(d.objects, d.ids, n);
    var r := d.objects[n].ref;
    if r in d.ids {
      RewritingPreservesPlans(d, ids, now, hits, d.ids[r]);
      PartsPlanOne(hits, Sub([], d.trees[d.ids[r]]));
      PartsPlanOne(hits, Sub([], now.trees[d.ids[r]]));
    }
  }

  /** Every `$ref` that a walk over a schema with a cached plan comes to names a registered schema. */
  ghost predicate RefsHeld(d: Document, cached: set<nat>, ids: set<string>) {
    forall n | n in cached :: AllRefsIn(d, n, ids)
  }

  lemma RefsHeldMore(d: Document, cached: set<nat>, ids: set<string>, more: set<string>)
    requires RefsHeld(d, cached, ids) && ids <= more
    ensures RefsHeld(d, cached, more)
  {
    forall n | n in cached ensures AllRefsIn(d, n, more) {
      RefsInMore(d, n, ids, more);
    }
  }

  lemma NeverMatching(vs: seq<Visitor>, name: string, k: Keywords)
    requires forall v | v in vs :: !v.matches(k)
    ensures Count(vs, name, k) == 0
  {
  }

  // ---- Visitors in turn ----

  ghost predicate Lists(names: seq<string>, keys: set<string>) {
    && (forall v :: v in names <==> v in keys)
    && (forall i, j | 0 <= i < j < |names| :: names[i] != names[j])
  }

  /** A map gives its keys in some order. */
  method ListKeys(keys: set<string>) returns (names: seq<string>)
    ensures Lists(names, keys)
  {
    names := [];
    var pending := keys;
    while pending != {}
      invariant pending <= keys && Lists(names, keys - pending)
    {
      var name :| name in pending;
      names, pending := names + [name], pending - {name};
    }
  }

  function VisitsOf(vs: seq<Visitor>, names: seq<string>, hydrates: string -> HydrationMeaning.Hydrate): seq<V.Visit> {
    seq(|names|, i requires 0 <= i < |names| => V.Visit(HitsOf(vs, names[i]), hydrates(names[i])))
  }

  /** The data is as the schema describes it, and no path has two converting `additionalProperties`. */
  ghost predicate Describes(vs: seq<Visitor>, t: Tree, names: seq<string>, j: HydrationMeaning.Json) {
    forall v | v in names ::
      HydrationPlans.OneDynamicPerPath(HitsOf(vs, v), t) && HydrationMeaning.Shaped(HitsOf(vs, v), t, j)
  }

  lemma DescribedVisits(vs: seq<Visitor>, t: Tree, names: seq<string>, hydrates: string -> HydrationMeaning.Hydrate,
      j: HydrationMeaning.Json)
    requires Stepwise(t) && forall v | v in names :: HydrationPlans.Expressible(HitsOf(vs, v), t)
    ensures var visits := VisitsOf(vs, names, hydrates);
            Describes(vs, t, names, j) ==>
              V.InTurn(t, visits, j) == V.MarkedInTurn(t, visits, j) && forall i: nat :: !V.VisitThrows(t, visits, j, i)
  {
    if Describes(vs, t, names, j) {
      var visits := VisitsOf(vs, names, hydrates);
      forall v | v in visits ensures HydrationRuns.Supported(v.hits, t) && HydrationMeaning.Shaped(v.hits, t, j) {
        var i :| 0 <= i < |names| && v == visits[i];
        assert names[i] in names;
      }
      V.ShapedInTurn(t, visits, j);
      forall i: nat ensures !V.VisitThrows(t, visits, j, i) {
        V.ShapedVisitsSucceed(t, visits, j, i);
      }
    }
  }

  lemma VisitsReady(vs: seq<Visitor>, plan: HydrationPlan, t: Tree, names: seq<string>,
      hydrates: string -> HydrationMeaning.Hydrate)
    requires IsPlanOf(vs, plan, t) && forall v | v in names :: v in plan && HydrationPlans.Expressible(HitsOf(vs, v), t)
    ensures V.AllReady(t, plan, names, hydrates, VisitsOf(vs, names, hydrates))
  {
    forall i | 0 <= i < |names| ensures V.Ready(t, plan, names[i], hydrates, VisitsOf(vs, names, hydrates)[i]) {
      assert names[i] in names && PlanAt(plan, names[i]) == plan[names[i]];
    }
  }

  // ---- What is converted, in terms of the document ----

  /** The visitors one after another, each at the places of which the schema says that it converts them. */
  ghost function SaidInTurn(d: Document, vs: seq<Visitor>, n: nat, names: seq<string>,
      hydrates: string -> HydrationMeaning.Hydrate, j: HydrationMeaning.Json): HydrationMeaning.Json {
    if names == [] then j
    else
      var name := names[|names| - 1];
      HydrationMeaning.Rewrite(SaidInTurn(d, vs, n, names[..|names| - 1], hydrates, j),
                               SchemaMeaning.SaidLocations(d, vs, name, n), hydrates(name))
  }

  lemma {:induction false} MarkedIsSaidInTurn(d: Document, vs: seq<Visitor>, n: nat, names: seq<string>,
      hydrates: string -> HydrationMeaning.Hydrate, j: HydrationMeaning.Json)
    requires d.Valid() && n in d.objects
    ensures V.MarkedInTurn(d.trees[n], VisitsOf(vs, names, hydrates), j) == SaidInTurn(d, vs, n, names, hydrates, j)
  {
    if names != [] {
      var visits := VisitsOf(vs, names, hydrates);
      MarkedIsSaidInTurn(d, vs, n, names[..|names| - 1], hydrates, j);
      assert visits[..|visits| - 1] == VisitsOf(vs, names[..|names| - 1], hydrates);
      SchemaMeaning.MarkedAreSaid(d, vs, names[|names| - 1], n);
    }
  }

  /** On data that the schema describes, the paths of the plan convert what the schema says, and do not fail. */
  lemma PlanConvertsWhatIsSaid(d: Document, vs: seq<Visitor>, name: string, n: nat, j: HydrationMeaning.Json,
      hydrate: HydrationMeaning.Hydrate)
    requires d.Valid() && n in d.objects && HydrationPlans.Expressible(HitsOf(vs, name), d.trees[n])
    requires Describes(vs, d.trees[n], [name], j)
    ensures var hits, t := HitsOf(vs, name), d.trees[n];
            && !HydrationRuns.HydrationThrows(hits, t, j, hydrate)
            && HydrationMeaning.Rewrite(j, HydrationRuns.ReachedLocations(hits, t), hydrate)
               == HydrationMeaning.Rewrite(j, SchemaMeaning.SaidLocations(d, vs, name, n), hydrate)
  {
    var hits, t := HitsOf(vs, name), d.trees[n];
    assert name in [name];
    EveryTreeIsStepwise(d, n);
    HydrationRuns.ShapedIsHydrated(hits, t, j, hydrate);
    HydrationRuns.ReachedUnlessMisplaced(hits, t, j, hydrate);
    SchemaMeaning.MarkedAreSaid(d, vs, name, n);
  }

  class SchemaRegistry {
    const visitors: seq<Visitor>
    ghost const doc: Document

    var objects: Objects
    var addedRefs: set<nat>
    var commonSchemas: map<string, nat>
    var manuallyRegistered: set<nat>
    var planCache: map<nat, HydrationPlan>
    var idToSchema: map<string, nat>

    /** Visitors look at scalar keywords, which a bare `$ref` object has none of. */
    ghost predicate Valid()
      reads this
    {
      && doc.Valid()
      && Rewritten(doc, idToSchema.Keys, objects)
      && Cached(doc, visitors, planCache)
      && Registered(doc, planCache.Keys, idToSchema, addedRefs)
      && RefsHeld(doc, planCache.Keys, idToSchema.Keys)
      && commonSchemas.Keys <= idToSchema.Keys
      && (forall v | v in visitors :: !v.matches(map[]))
    }

    /** Registered schemas, cached plans and added references are never taken back. */
    twostate predicate Grows()
      reads this
    {
      && old(addedRefs) <= addedRefs
      && old(idToSchema.Keys) <= idToSchema.Keys
      && old(planCache.Keys) <= planCache.Keys
      && old(manuallyRegistered) <= manuallyRegistered
    }

    constructor (d: Document, visitors: seq<Visitor>)
      requires d.Valid()
      requires forall v | v in visitors :: !v.matches(map[])
      ensures Valid() && doc == d && this.visitors == visitors
      ensures objects == d.objects && planCache == map[] && idToSchema == map[] && addedRefs == {}
    {
      this.visitors, doc, objects := visitors, d, d.objects;
      addedRefs, commonSchemas, manuallyRegistered := {}, map[], {};
      planCache, idToSchema := map[], map[];
      new;
      assert idToSchema.Keys == {};
      RewrittenInitially(d);
    }

    /** Fails exactly when the walk comes to a `$ref` to a schema that is not registered by then, be it
        before or, if it is declared below this one, on the way. On success the schema has a cached plan,
        and the plan is the one of the tree the schema was first written as. */
    method Register(n: nat) returns (ok: bool)
      requires Valid() && n in doc.objects
      modifies this
      ensures Valid() && Grows()
      ensures ok <==> AllRefsIn(doc, n, idToSchema.Keys)
      ensures AllRefsIn(doc, n, old(idToSchema.Keys)) ==> ok
      ensures NewIds(doc, n, doc.objects[n].id, old(idToSchema.Keys), idToSchema.Keys)
      ensures ok ==> n in planCache && IsPlanOf(visitors, planCache[n], doc.trees[n])
      ensures ok && doc.objects[n].id != "" ==> doc.objects[n].id in idToSchema
    {
      manuallyRegistered := manuallyRegistered + {n};
      NodeNow(doc, idToSchema.Keys, objects, n);
      if objects[n].id != "" && n !in addedRefs {
        ok := ProcessAndAdd(n);
      } else {
        ok := ProcessSchema(n);
      }
      if AllRefsIn(doc, n, old(idToSchema.Keys)) {
        RefsInMore(doc, n, old(idToSchema.Keys), idToSchema.Keys);
      }
      if ok {
        assert CachedAt(doc, visitors, planCache, n);
      }
    }

    method ProcessAndAdd(n: nat) returns (ok: bool)
      requires Valid() && n in doc.objects && doc.objects[n].id != ""
      modifies this
      ensures Valid() && Grows()
      ensures ok <==> AllRefsIn(doc, n, idToSchema.Keys)
      ensures NewIds(doc, n, doc.objects[n].id, old(idToSchema.Keys), idToSchema.Keys)
      ensures ok ==> n in planCache && doc.objects[n].id in idToSchema
      decreases n, 5
    {
      ok := ProcessSchema(n);
      if ok {
        ghost var ids := idToSchema.Keys;
        AddReference(n);
        RefsInMore(doc, n, ids, idToSchema.Keys);
      }
    }

    /** Adds a processed schema to the reference tables. */
    method AddReference(n: nat)
      requires Valid() && n in planCache && n in doc.objects && doc.objects[n].id != ""
      modifies `addedRefs, `idToSchema
      ensures Valid() && Grows()
      ensures idToSchema.Keys == old(idToSchema.Keys) + {doc.objects[n].id}
    {
      NodeNow(doc, idToSchema.Keys, objects, n);
      assert ValidObject(doc.objects, doc.ids, n);
      var id := objects[n].id;
      RewrittenMore(doc, idToSchema.Keys, idToSchema.Keys + {id}, objects);
      RefsHeldMore(doc, planCache.Keys, idToSchema.Keys, idToSchema.Keys + {id});
      RegisteredMore(doc, planCache.Keys, idToSchema, addedRefs, n);
      addedRefs := addedRefs + {n};
      idToSchema := idToSchema[id := n];
      assert idToSchema.Keys == old(idToSchema.Keys) + {id};
    }

    method ProcessSchema(n: nat) returns (ok: bool)
      requires Valid() && n in doc.objects
      modifies this
      ensures Valid() && Grows()
      ensures ok <==> AllRefsIn(doc, n, idToSchema.Keys)
      ensures NewIds(doc, n, "", old(idToSchema.Keys), idToSchema.Keys)
      ensures ok ==> n in planCache
      decreases n, 4
    {
      if n in planCache {
        return true;
      }
      var ctx := new Contexts();
      ok := WalkSchema(n, "", ctx);
      if ok {
        var plan := BuildPlanFromContext(ctx);
        FreshPlan(visitors, ctx.entries, plan, doc.trees[n]);
        CachedMore(doc, visitors, planCache, n, plan);
        planCache := planCache[n := plan];
      }
    }

    method WalkSchema(n: nat, path: string, ctx: Contexts) returns (ok: bool)
      requires Valid() && n in doc.objects
      modifies this, ctx
      ensures Valid() && Grows()
      ensures ok <==> AllRefsIn(doc, n, idToSchema.Keys)
      ensures NewIds(doc, n, "", old(idToSchema.Keys), idToSchema.Keys)
      ensures ok ==> GrownTree(visitors, old(ctx.entries), ctx.entries, path, doc.trees[n])
      decreases n, 3
    {
      NodeNow(doc, idToSchema.Keys, objects, n);
      CollectLeaf(visitors, objects[n].keywords, path, ctx);
      ghost var leaf := ctx.entries;
      ok := WalkFields(n, path, ctx);
      if !ok { return; }
      ghost var fields, ids := ctx.entries, idToSchema.Keys;
      ok := WalkAdditional(n, path, ctx);
      NewIdsTwice(doc, n, old(idToSchema.Keys), ids, idToSchema.Keys);
      if !ok { return; }
      FieldsRefsInMore(doc, n, 5, ids, idToSchema.Keys);
      ghost var additional := ctx.entries;
      ok := WalkRef(n, path, ctx);
      if !ok { return; }
      GrownObject(visitors, old(ctx.entries), leaf, fields, additional, ctx.entries, path, doc, n);
    }

    method WalkFields(n: nat, path: string, ctx: Contexts) returns (ok: bool)
      requires Valid() && n in doc.objects
      modifies this, ctx
      ensures Valid() && Grows()
      ensures ok <==> FieldsRefsIn(doc, n, 5, idToSchema.Keys)
      ensures NewIds(doc, n, "", old(idToSchema.Keys), idToSchema.Keys)
      ensures ok ==> Grown(visitors, old(ctx.entries), ctx.entries, path,
                FieldParts(doc.ids, doc.trees, doc.objects[n], 5))
      decreases n, 2
    {
      GrownNothing(visitors, ctx.entries, path);
      ok := true;
      for k := 0 to 5
        invariant Valid() && Grows() && ok
        invariant FieldsRefsIn(doc, n, k, idToSchema.Keys)
        invariant NewIds(doc, n, "", old(idToSchema.Keys), idToSchema.Keys)
        invariant Grown(visitors, old(ctx.entries), ctx.entries, path,
                    FieldParts(doc.ids, doc.trees, doc.objects[n], k))
      {
        ghost var before, ids := ctx.entries, idToSchema.Keys;
        ok := WalkField(n, FieldAt(k), path, ctx);
        NewIdsTwice(doc, n, old(idToSchema.Keys), ids, idToSchema.Keys);
        if !ok { return; }
        FieldsRefsInMore(doc, n, k, ids, idToSchema.Keys);
        GrownByField(visitors, old(ctx.entries), before, ctx.entries, path, doc.ids, doc.trees, doc.objects[n], k);
      }
    }

    method WalkField(n: nat, f: Field, path: string, ctx: Contexts) returns (ok: bool)
      requires Valid() && n in doc.objects
      modifies this, ctx
      ensures Valid() && Grows()
      ensures ok <==> FieldRefsIn(doc, n, f, |Slots(doc.objects[n], f)|, idToSchema.Keys)
      ensures NewIds(doc, n, "", old(idToSchema.Keys), idToSchema.Keys)
      ensures ok ==> Grown(visitors, old(ctx.entries), ctx.entries, path,
                PartsUpTo(doc.ids, doc.trees, doc.objects[n], f, |Slots(doc.objects[n], f)|))
      decreases n, 1
    {
      GrownNothing(visitors, ctx.entries, path);
      ok := true;
      FieldNow(doc, idToSchema.Keys, objects, n, f);
      for i := 0 to |Slots(objects[n], f)|
        invariant Valid() && Grows() && ok
        invariant FieldRefsIn(doc, n, f, i, idToSchema.Keys)
        invariant NewIds(doc, n, "", old(idToSchema.Keys), idToSchema.Keys)
        invariant Grown(visitors, old(ctx.entries), ctx.entries, path,
                    PartsUpTo(doc.ids, doc.trees, doc.objects[n], f, i))
      {
        ghost var before, ids := ctx.entries, idToSchema.Keys;
        ok := WalkSlot(n, f, i, path, ctx);
        NewIdsTwice(doc, n, old(idToSchema.Keys), ids, idToSchema.Keys);
        if !ok { return; }
        FieldRefsInMore(doc, n, f, i, ids, idToSchema.Keys);
        GrownBySlot(visitors, old(ctx.entries), before, ctx.entries, path, doc.ids, doc.trees, doc.objects[n], f, i);
      }
    }

    /** One sub-schema: composed from its cached plan and replaced by a `$ref` if it has an
        `$id`, walked in place if not. */
    method WalkSlot(n: nat, f: Field, i: nat, path: string, ctx: Contexts) returns (ok: bool)
      requires Valid() && n in doc.objects && i < |Slots(doc.objects[n], f)|
      modifies this, ctx
      ensures Valid() && Grows()
      ensures ok <==> SlotRefsIn(doc, n, f, i, idToSchema.Keys)
      ensures NewIds(doc, n, "", old(idToSchema.Keys), idToSchema.Keys)
      ensures ok ==> Grown(visitors, old(ctx.entries), ctx.entries, path,
                SlotParts(doc.ids, doc.trees, doc.objects[n], f, i))
      decreases n, 0
    {
      SlotNow(doc, idToSchema.Keys, objects, n, f, i);
      ok := true;
      var childPath := path + Render(StepTo(objects[n], f, i));
      match SlotAt(objects[n], f, i) {
        case Bool(_) =>
          GrownNoSlot(visitors, ctx.entries, path, doc.ids, doc.trees, doc.objects[n], f, i);
        case RefTo(id) =>
          WalkReference(id, childPath, ctx);
          GrownSlot(visitors, old(ctx.entries), ctx.entries, path, doc.ids, doc.trees, doc.objects[n], f, i,
              doc.ids[id]);
        case Object(c) =>
          NodeNow(doc, idToSchema.Keys, objects, c);
          if objects[c].id != "" {
            ok := ComposeAndReplace(n, f, i, c, childPath, ctx);
          } else {
            ok := WalkSchema(c, childPath, ctx);
          }
          NewIdsBelow(doc, n, c, old(idToSchema.Keys), idToSchema.Keys);
          if !ok { return; }
          GrownSlot(visitors, old(ctx.entries), ctx.entries, path, doc.ids, doc.trees, doc.objects[n], f, i, c);
      }
    }

    method ComposeAndReplace(n: nat, f: Field, i: nat, c: nat, childPath: string, ctx: Contexts) returns (ok: bool)
      requires Valid() && n in doc.objects && i < |Slots(doc.objects[n], f)|
      requires SlotAt(doc.objects[n], f, i) == Object(c) && c < n && c in doc.objects && doc.objects[c].id != ""
      modifies this, ctx
      ensures Valid() && Grows()
      ensures ok <==> AllRefsIn(doc, c, idToSchema.Keys)
      ensures NewIds(doc, c, doc.objects[c].id, old(idToSchema.Keys), idToSchema.Keys)
      ensures ok ==> GrownTree(visitors, old(ctx.entries), ctx.entries, childPath, doc.trees[c])
      decreases n, 0, 0
    {
      ok := EnsureCommonRegistered(c);
      if !ok { return; }
      ComposeFrom(c, childPath, ctx);
      ReplaceSlot(n, f, i, c);
    }

    /** Overwrites a registered sub-schema by a reference to it. */
    method ReplaceSlot(n: nat, f: Field, i: nat, c: nat)
      requires Valid() && n in doc.objects && i < |Slots(doc.objects[n], f)|
      requires SlotAt(doc.objects[n], f, i) == Object(c) && c in doc.objects && doc.objects[c].id in idToSchema
      modifies `objects
      ensures Valid()
    {
      assert ValidObject(doc.objects, doc.ids, c);
      SlotReplaced(doc, idToSchema.Keys, objects, n, f, i, c);
      NodeNow(doc, idToSchema.Keys, objects, c);
      objects := objects[n := WithSlot(objects[n], f, i, RefTo(objects[c].id))];
    }

    /** A `{ $ref: id }` object the registry wrote: no visitor matches it, and its target is registered. */
    method WalkReference(id: string, path: string, ctx: Contexts)
      requires Valid() && id in idToSchema
      modifies ctx
      ensures GrownTree(visitors, old(ctx.entries), ctx.entries, path, doc.trees[doc.ids[id]])
    {
      CollectLeaf(visitors, map[], path, ctx);
      ghost var leaf := ctx.entries;
      forall v ensures EnvelopeAt(leaf, v) == old(EnvelopeAt(ctx.entries, v)) {
        NeverMatching(visitors, v, map[]);
        PrefixedEmpty(path);
      }
      ComposeFrom(idToSchema[id], path, ctx);
    }

    /** The cached plan always exists here. */
    method ComposeFrom(sub: nat, path: string, ctx: Contexts)
      requires Valid() && sub in planCache
      modifies ctx
      ensures GrownTree(visitors, old(ctx.entries), ctx.entries, path, doc.trees[sub])
    {
      assert CachedAt(doc, visitors, planCache, sub);
      ComposePaths(planCache[sub], path, ctx);
    }

    method WalkAdditional(n: nat, path: string, ctx: Contexts) returns (ok: bool)
      requires Valid() && n in doc.objects
      modifies this, ctx
      ensures Valid() && Grows()
      ensures ok <==> AdditionalRefsIn(doc, n, idToSchema.Keys)
      ensures NewIds(doc, n, "", old(idToSchema.Keys), idToSchema.Keys)
      ensures ok ==> Grown(visitors, old(ctx.entries), ctx.entries, path,
                AdditionalParts(doc.objects, doc.ids, doc.trees, doc.objects[n]))
      decreases n, 0
    {
      assert ValidObject(doc.objects, doc.ids, n);
      NodeNow(doc, idToSchema.Keys, objects, n);
      ok := true;
      match objects[n].additional {
        case Bool(_) =>
          GrownNoAdditional(visitors, ctx.entries, path, doc, doc.objects[n]);
        case RefTo(id) =>
          assert ValidObject(doc.objects, doc.ids, doc.ids[id]);
          CollectAdditional(n, idToSchema[id], path, ctx);
        case Object(c) =>
          NodeNow(doc, idToSchema.Keys, objects, c);
          if objects[c].id != "" {
            ok := CollectAndReplace(n, c, path, ctx);
            NewIdsBelow(doc, n, c, old(idToSchema.Keys), idToSchema.Keys);
          } else if objects[c].ref != "" {
            if objects[c].ref !in idToSchema {
              return false;
            }
            CollectAdditional(n, idToSchema[objects[c].ref], path, ctx);
          } else {
            ok := ProcessSchema(c);
            NewIdsBelow(doc, n, c, old(idToSchema.Keys), idToSchema.Keys);
            if !ok { return; }
            CollectAdditional(n, c, path, ctx);
          }
      }
    }

    method CollectAndReplace(n: nat, c: nat, path: string, ctx: Contexts) returns (ok: bool)
      requires Valid() && n in doc.objects && doc.objects[n].additional == Object(c)
      requires c < n && c in doc.objects && doc.objects[c].id != ""
      modifies this, ctx
      ensures Valid() && Grows()
      ensures ok <==> AllRefsIn(doc, c, idToSchema.Keys)
      ensures NewIds(doc, c, doc.objects[c].id, old(idToSchema.Keys), idToSchema.Keys)
      ensures ok ==> Grown(visitors, old(ctx.entries), ctx.entries, path,
                AdditionalParts(doc.objects, doc.ids, doc.trees, doc.objects[n]))
      decreases n, 0, 0
    {
      ok := EnsureCommonRegistered(c);
      if !ok { return; }
      CollectAdditional(n, c, path, ctx);
      ReplaceAdditional(n, c);
    }

    method ReplaceAdditional(n: nat, c: nat)
      requires Valid() && n in doc.objects && doc.objects[n].additional == Object(c)
      requires c in doc.objects && doc.objects[c].id in idToSchema
      modifies `objects
      ensures Valid()
    {
      assert ValidObject(doc.objects, doc.ids, c);
      AdditionalReplaced(doc, idToSchema.Keys, objects, n, c);
      NodeNow(doc, idToSchema.Keys, objects, c);
      objects := objects[n := objects[n].(additional := RefTo(objects[c].id))];
    }

    method CollectAdditional(n: nat, sub: nat, path: string, ctx: Contexts)
      requires Valid() && n in doc.objects && sub in planCache
      requires AdditionalTarget(doc.objects, doc.ids, doc.objects[n]) == [sub]
      modifies ctx
      ensures Grown(visitors, old(ctx.entries), ctx.entries, path,
                AdditionalParts(doc.objects, doc.ids, doc.trees, doc.objects[n]))
    {
      assert CachedAt(doc, visitors, planCache, sub);
      NodeNow(doc, idToSchema.Keys, objects, n);
      ComposeAdditionalProperties(objects[n].keys, planCache[sub], path, ctx);
      GrownAdditional(visitors, old(ctx.entries), ctx.entries, path, planCache[sub], doc, doc.objects[n], sub);
    }

    method WalkRef(n: nat, path: string, ctx: Contexts) returns (ok: bool)
      requires Valid() && n in doc.objects
      modifies ctx
      ensures ok <==> RefIn(doc.objects[n].ref, idToSchema.Keys)
      ensures ok ==> Grown(visitors, old(ctx.entries), ctx.entries, path, RefParts(doc.ids, doc.trees, doc.objects[n]))
    {
      NodeNow(doc, idToSchema.Keys, objects, n);
      ok := true;
      var r := objects[n].ref;
      if r != "" {
        if r !in idToSchema {
          return false;
        }
        ComposeFrom(idToSchema[r], path, ctx);
        GrownRef(visitors, old(ctx.entries), ctx.entries, path, doc, doc.objects[n]);
      } else {
        GrownNoRef(visitors, ctx.entries, path, doc, doc.objects[n]);
      }
    }

    method EnsureCommonRegistered(n: nat) returns (ok: bool)
      requires Valid() && n in doc.objects && doc.objects[n].id != ""
      modifies this
      ensures Valid() && Grows()
      ensures ok <==> AllRefsIn(doc, n, idToSchema.Keys)
      ensures NewIds(doc, n, doc.objects[n].id, old(idToSchema.Keys), idToSchema.Keys)
      ensures ok ==> n in planCache && doc.objects[n].id in idToSchema
      decreases n, 6
    {
      if n in addedRefs {
        return true;
      }
      ok := ProcessAndAdd(n);
      if !ok { return; }
      NodeNow(doc, idToSchema.Keys, objects, n);
      if n !in manuallyRegistered {
        commonSchemas := commonSchemas[objects[n].id := n];
      }
    }

    method GetHydrationPlan(n: nat) returns (plan: HydrationPlan)
      requires Valid()
      ensures n in planCache ==> IsPlanOf(visitors, plan, doc.trees[n]) && PathsAreSaid(doc, visitors, plan, n)
      ensures n !in planCache ==> plan == map[]
    {
      if n in planCache {
        assert CachedAt(doc, visitors, planCache, n);
        PlanIsSaid(doc, visitors, planCache[n], n);
        plan := planCache[n];
      } else {
        plan := map[];
      }
    }

    /** Hydration by every visitor of the plan in turn, in place, by the schema as first written, whatever
        was registered and rewritten before: one that fails ends it; otherwise the data is what the
        visitors make of it one after another, in data that the schema describes by converting the
        marked strings. */
    method Hydrate(data: Hydration.JsonData, n: nat, hydrates: string -> HydrationMeaning.Hydrate)
      returns (ok: bool, ghost names: seq<string>)
      requires Valid() && n in doc.objects && data.Valid()
      requires n in planCache ==>
                 forall v | v in planCache[n] :: HydrationPlans.Expressible(HitsOf(visitors, v), doc.trees[n])
      modifies data
      ensures data.Valid()
      ensures n !in planCache ==> ok && data.Value() == old(data.Value())
      ensures n in planCache ==> Lists(names, planCache[n].Keys)
      ensures n in planCache ==>
                var t, visits, was := doc.trees[n], VisitsOf(visitors, names, hydrates), old(data.Value());
                && (ok <==> forall i: nat :: !V.VisitThrows(t, visits, was, i))
                && (ok ==> data.Value() == V.InTurn(t, visits, was))
                && (Describes(visitors, t, names, was) ==>
                      ok && data.Value() == SaidInTurn(doc, visitors, n, names, hydrates, was))
    {
      names := [];
      if n !in planCache {
        return true, names;
      }
      assert CachedAt(doc, visitors, planCache, n);
      var order := ListKeys(planCache[n].Keys);
      names := order;
      EveryTreeIsStepwise(doc, n);
      DescribedVisits(visitors, doc.trees[n], order, hydrates, data.Value());
      MarkedIsSaidInTurn(doc, visitors, n, order, hydrates, data.Value());
      VisitsReady(visitors, planCache[n], doc.trees[n], order, hydrates);
      ok := V.HydrateInTurn(data, planCache[n], order, hydrates, doc.trees[n], VisitsOf(visitors, order, hydrates));
    }

    /** Walking the rewritten objects again yields the plans that are in the cache. */
    lemma CachedPlansOfRewrittenTrees(name: string) returns (now: Document)
      requires Valid()
      ensures now.objects == objects && now.ids == doc.ids && now.trees.Keys == objects.Keys
      ensures forall m {:trigger now.UnfoldsAt(m)} | m in objects :: now.UnfoldsAt(m)
      ensures forall n | n in planCache ::
                n in now.trees
                && PlanAt(planCache[n], name) == Plan(HitsOf(visitors, name), now.trees[n])
    {
      now := RewrittenUnfolds(doc, idToSchema.Keys, objects);
      forall n | n in planCache ensures n in now.trees
          && PlanAt(planCache[n], name) == Plan(HitsOf(visitors, name), now.trees[n]) {
        assert CachedAt(doc, visitors, planCache, n);
        NeverMatching(visitors, name, map[]);
        RewritingPreservesPlans(doc, idToSchema.Keys, now, HitsOf(visitors, name), n);
      }
    }
  }

  /** After any registrations, in any order and with repeats, the plan built from cached sub-plans
      is, for each visitor, the one of the plain recursive walk over the unregistered document. */
  method RegisterAndWalk(d: Document, visitors: seq<Visitor>, order: seq<nat>,
      n: nat) returns (cached: HydrationPlan, walked: HydrationPlan)
    requires d.Valid() && d.RefFree() && (forall v | v in visitors :: !v.matches(map[]))
    requires n in order && forall i | 0 <= i < |order| :: order[i] in d.objects
    ensures forall v :: PlanAt(cached, v) == PlanAt(walked, v) == Plan(HitsOf(visitors, v), d.trees[n])
    ensures PathsAreSaid(d, visitors, cached, n)
  {
    var registry := new SchemaRegistry(d, visitors);
    for i := 0 to |order|
      invariant fresh(registry) && registry.Valid() && registry.doc == d && registry.visitors == visitors
      invariant forall j | 0 <= j < i :: order[j] in registry.planCache
    {
      ghost var ids := registry.idToSchema.Keys;
      var ok := registry.Register(order[i]);
      RefFreeRefs(d, order[i], ids);
      assert ok;
    }
    cached := registry.GetHydrationPlan(n);
    walked := BuildHydrationPlan(d, n, visitors);
  }
}
