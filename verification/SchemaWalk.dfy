/** Build-time accumulators, and the transparent walker: the plain recursive walk that ignores
    `$id` and `$ref`. */
module SchemaWalk {
  import opened SchemaPlan
  import opened SchemaDocument
  import SchemaMeaning

  datatype StarEntry = StarEntry(prefix: string, keys: seq<string>)
  datatype WalkContext = WalkContext(paths: seq<string>, starEntries: seq<StarEntry>)

  type HydrationPlan = map<string, Envelope>

  /** `new Map(entries)`: a later entry replaces an earlier one with the same key. */
  function StarsOf(entries: seq<StarEntry>): StarMap {
    if entries == [] then map[]
    else
      var last := entries[|entries| - 1];
      StarsOf(entries[..|entries| - 1])[last.prefix := last.keys]
  }

  function PlanAt(plan: HydrationPlan, name: string): Envelope {
    if name in plan then plan[name] else EMPTY_ENVELOPE
  }

  function EnvelopeAt(ctx: map<string, WalkContext>, name: string): Envelope {
    if name in ctx then Envelope(ctx[name].paths, StarsOf(ctx[name].starEntries)) else EMPTY_ENVELOPE
  }

  /** The shared accumulator `Map<string, WalkContext>` of one walk. */
  class Contexts {
    var entries: map<string, WalkContext>

    constructor ()
      ensures entries == map[]
    {
      entries := map[];
    }

    method GetOrCreate(name: string)
      modifies this
      ensures entries.Keys == old(entries.Keys) + {name}
      ensures forall v :: EnvelopeAt(entries, v) == old(EnvelopeAt(entries, v))
      ensures forall v | v in old(entries) :: entries[v] == old(entries[v])
    {
      if name !in entries {
        entries := entries[name := WalkContext([], [])];
      }
    }

    method PushPath(name: string, path: string)
      modifies this
      ensures EnvelopeAt(entries, name) == Append(old(EnvelopeAt(entries, name)), Envelope([path], map[]))
      ensures forall v | v != name :: EnvelopeAt(entries, v) == old(EnvelopeAt(entries, v))
    {
      GetOrCreate(name);
      entries := entries[name := entries[name].(paths := entries[name].paths + [path])];
    }

    method PushStar(name: string, prefix: string, keys: seq<string>)
      modifies this
      ensures EnvelopeAt(entries, name) == Append(old(EnvelopeAt(entries, name)), Envelope([], map[prefix := keys]))
      ensures forall v | v != name :: EnvelopeAt(entries, v) == old(EnvelopeAt(entries, v))
    {
      GetOrCreate(name);
      var w := entries[name];
      var grown := w.starEntries + [StarEntry(prefix, keys)];
      assert grown[..|grown| - 1] == w.starEntries;
      entries := entries[name := w.(starEntries := grown)];
    }

    /** Pushes a finished envelope with every path and star prefix moved below `prefix`. */
    method PushEnvelope(name: string, prefix: string, e: Envelope)
      modifies this
      ensures EnvelopeAt(entries, name) == Append(old(EnvelopeAt(entries, name)), Prefixed(prefix, e))
      ensures forall v | v != name :: EnvelopeAt(entries, v) == old(EnvelopeAt(entries, v))
    {
      PushPaths(name, prefix, e.paths);
      PushStars(name, prefix, e.starMap);
    }

    method PushPaths(name: string, prefix: string, paths: seq<string>)
      modifies this
      ensures EnvelopeAt(entries, name) == Append(old(EnvelopeAt(entries, name)),
                Envelope(PrefixPaths(prefix, paths), map[]))
      ensures forall v | v != name :: EnvelopeAt(entries, v) == old(EnvelopeAt(entries, v))
    {
      ghost var before := EnvelopeAt(entries, name);
      for i := 0 to |paths|
        invariant EnvelopeAt(entries, name) == Append(before, Envelope(PrefixPaths(prefix, paths[..i]), map[]))
        invariant forall v | v != name :: EnvelopeAt(entries, v) == old(EnvelopeAt(entries, v))
      {
        PushPath(name, prefix + paths[i]);
        assert PrefixPaths(prefix, paths[..i + 1]) == PrefixPaths(prefix, paths[..i]) + [prefix + paths[i]];
      }
      assert paths[..|paths|] == paths;
    }

    method PushStars(name: string, prefix: string, stars: StarMap)
      modifies this
      ensures EnvelopeAt(entries, name) == Append(old(EnvelopeAt(entries, name)),
                Envelope([], PrefixStars(prefix, stars)))
      ensures forall v | v != name :: EnvelopeAt(entries, v) == old(EnvelopeAt(entries, v))
    {
      ghost var before := EnvelopeAt(entries, name);
      var pending := stars.Keys;
      PrefixedEmpty(prefix);
      while pending != {}
        invariant pending <= stars.Keys
        invariant EnvelopeAt(entries, name) == Append(before, Envelope([], PrefixStars(prefix, stars - pending)))
        invariant forall v | v != name :: EnvelopeAt(entries, v) == old(EnvelopeAt(entries, v))
      {
        var key :| key in pending;
        PushStar(name, prefix + key, stars[key]);
        PrefixStarsMore(prefix, stars, pending, key);
        AppendAssoc(before, Envelope([], PrefixStars(prefix, stars - pending)),
            Envelope([], map[prefix + key := stars[key]]));
        pending := pending - {key};
      }
      assert stars - {} == stars;
    }
  }

  lemma PrefixStarsMore(prefix: string, stars: StarMap, pending: set<string>, key: string)
    requires key in pending && pending <= stars.Keys
    ensures PrefixStars(prefix, stars - (pending - {key}))
         == PrefixStars(prefix, stars - pending) + map[prefix + key := stars[key]]
  {
    assert stars - (pending - {key}) == (stars - pending) + map[key := stars[key]];
    PrefixStarsUnion(prefix, stars - pending, map[key := stars[key]]);
    PrefixOneStar(prefix, key, stars[key]);
  }

  lemma PrefixOneStar(prefix: string, key: string, keys: seq<string>)
    ensures PrefixStars(prefix, map[key := keys]) == map[prefix + key := keys]
  {
    PrefixStarsAt(prefix, map[key := keys], key);
    forall q | q in PrefixStars(prefix, map[key := keys]) ensures q == prefix + key {
      var k := PrefixStarsKey(prefix, map[key := keys], q);
    }
  }

  // ---- What a walk adds to the accumulators ----

  type ContextMap = map<string, WalkContext>

  /** `after` is `before` with, for every visitor, the plan of `parts` appended below `path`. */
  ghost predicate Grown(vs: seq<Visitor>, before: ContextMap, after: ContextMap, path: string, parts: seq<Part>) {
    forall v :: EnvelopeAt(after, v) == Append(EnvelopeAt(before, v), Prefixed(path, PartsPlan(HitsOf(vs, v), parts)))
  }

  ghost predicate GrownTree(vs: seq<Visitor>, before: ContextMap, after: ContextMap, path: string, t: Tree) {
    forall v :: EnvelopeAt(after, v) == Append(EnvelopeAt(before, v), Prefixed(path, Plan(HitsOf(vs, v), t)))
  }

  ghost predicate GrownLeaf(vs: seq<Visitor>, before: ContextMap, after: ContextMap, path: string, k: Keywords) {
    forall v :: EnvelopeAt(after, v) == Append(EnvelopeAt(before, v), Prefixed(path, LeafPlan(HitsOf(vs, v), k)))
  }

  lemma GrownNothing(vs: seq<Visitor>, c: ContextMap, path: string)
    ensures Grown(vs, c, c, path, [])
  {
    PrefixedEmpty(path);
  }

  lemma GrownThen(vs: seq<Visitor>, a: ContextMap, b: ContextMap, c: ContextMap, path: string, p: seq<Part>,
      q: seq<Part>)
    requires Grown(vs, a, b, path, p) && Grown(vs, b, c, path, q)
    ensures Grown(vs, a, c, path, p + q)
  {
    forall v ensures EnvelopeAt(c, v) == Append(EnvelopeAt(a, v), Prefixed(path, PartsPlan(HitsOf(vs, v), p + q))) {
      var h := HitsOf(vs, v);
      PartsPlanConcat(h, p, q);
      PrefixedAppend(path, PartsPlan(h, p), PartsPlan(h, q));
      AppendAssoc(EnvelopeAt(a, v), Prefixed(path, PartsPlan(h, p)), Prefixed(path, PartsPlan(h, q)));
    }
  }

  lemma GrownBySlot(vs: seq<Visitor>, a: ContextMap, b: ContextMap, c: ContextMap, path: string,
                    ids: map<string, nat>, trees: map<nat, Tree>, o: SchemaObject, f: Field, i: nat)
    requires Grown(vs, a, b, path, PartsUpTo(ids, trees, o, f, i))
             && Grown(vs, b, c, path, SlotParts(ids, trees, o, f, i))
    ensures Grown(vs, a, c, path, PartsUpTo(ids, trees, o, f, i + 1))
  {
    GrownThen(vs, a, b, c, path, PartsUpTo(ids, trees, o, f, i), SlotParts(ids, trees, o, f, i));
  }

  lemma GrownByField(vs: seq<Visitor>, a: ContextMap, b: ContextMap, c: ContextMap, path: string,
                     ids: map<string, nat>, trees: map<nat, Tree>, o: SchemaObject, k: nat)
    requires Grown(vs, a, b, path, FieldParts(ids, trees, o, k))
    requires Grown(vs, b, c, path, PartsUpTo(ids, trees, o, FieldAt(k), |Slots(o, FieldAt(k))|))
    ensures Grown(vs, a, c, path, FieldParts(ids, trees, o, k + 1))
  {
    GrownThen(vs, a, b, c, path, FieldParts(ids, trees, o, k),
        PartsUpTo(ids, trees, o, FieldAt(k), |Slots(o, FieldAt(k))|));
  }

  lemma GrownSub(vs: seq<Visitor>, a: ContextMap, b: ContextMap, path: string, step: seq<Tok>, t: Tree)
    requires GrownTree(vs, a, b, path + Render(step), t)
    ensures Grown(vs, a, b, path, [Sub(step, t)])
  {
    forall v ensures EnvelopeAt(b, v) == Append(EnvelopeAt(a, v),
        Prefixed(path, PartsPlan(HitsOf(vs, v), [Sub(step, t)]))) {
      PartsPlanOne(HitsOf(vs, v), Sub(step, t));
      PrefixedTwice(path, Render(step), Plan(HitsOf(vs, v), t));
    }
  }

  /** A slot holding the schema `c` adds the plan of `c` below one step. */
  lemma GrownSlot(vs: seq<Visitor>, a: ContextMap, b: ContextMap, path: string,
                  ids: map<string, nat>, trees: map<nat, Tree>, o: SchemaObject, f: Field, i: nat, c: nat)
    requires SlotAt(o, f, i) == Object(c) && c in trees
    requires GrownTree(vs, a, b, path + Render(StepTo(o, f, i)), trees[c])
    ensures Grown(vs, a, b, path, SlotParts(ids, trees, o, f, i))
  {
    GrownSub(vs, a, b, path, StepTo(o, f, i), trees[c]);
  }

  lemma GrownNoSlot(vs: seq<Visitor>, a: ContextMap, path: string, ids: map<string, nat>, trees: map<nat, Tree>,
      o: SchemaObject, f: Field, i: nat)
    requires SlotAt(o, f, i).Bool?
    ensures Grown(vs, a, a, path, SlotParts(ids, trees, o, f, i))
  {
    GrownNothing(vs, a, path);
  }

  lemma GrownNode(vs: seq<Visitor>, a: ContextMap, b: ContextMap, c: ContextMap, path: string, t: Tree)
    requires GrownLeaf(vs, a, b, path, t.keywords) && Grown(vs, b, c, path, t.parts)
    ensures GrownTree(vs, a, c, path, t)
  {
    forall v ensures EnvelopeAt(c, v) == Append(EnvelopeAt(a, v), Prefixed(path, Plan(HitsOf(vs, v), t))) {
      var h := HitsOf(vs, v);
      PrefixedAppend(path, LeafPlan(h, t.keywords), PartsPlan(h, t.parts));
      AppendAssoc(EnvelopeAt(a, v), Prefixed(path, LeafPlan(h, t.keywords)), Prefixed(path, PartsPlan(h, t.parts)));
    }
  }

  lemma GrownObject(vs: seq<Visitor>, start: ContextMap, leaf: ContextMap, fields: ContextMap, additional: ContextMap,
                    end: ContextMap, path: string, d: Document, n: nat)
    requires d.Valid() && n in d.objects
    requires GrownLeaf(vs, start, leaf, path, d.objects[n].keywords)
    requires Grown(vs, leaf, fields, path, FieldParts(d.ids, d.trees, d.objects[n], 5))
    requires Grown(vs, fields, additional, path, AdditionalParts(d.objects, d.ids, d.trees, d.objects[n]))
    requires Grown(vs, additional, end, path, RefParts(d.ids, d.trees, d.objects[n]))
    ensures GrownTree(vs, start, end, path, d.trees[n])
  {
    var o := d.objects[n];
    var p, q := FieldParts(d.ids, d.trees, o, 5), AdditionalParts(d.objects, d.ids, d.trees, o);
    GrownThen(vs, leaf, fields, additional, path, p, q);
    GrownThen(vs, leaf, additional, end, path, p + q, RefParts(d.ids, d.trees, o));
    assert d.UnfoldsAt(n);
    GrownNode(vs, start, leaf, end, path, d.trees[n]);
  }

  /** The finished plan of a schema: for every visitor, the reference plan of its tree. */
  ghost predicate IsPlanOf(vs: seq<Visitor>, plan: HydrationPlan, t: Tree) {
    forall v :: PlanAt(plan, v) == Plan(HitsOf(vs, v), t)
  }

  // ---- Shared steps of both walkers ----

  /** Leaf detection: every visitor that matches pushes the node's path. */
  method CollectLeaf(visitors: seq<Visitor>, k: Keywords, path: string, ctx: Contexts)
    modifies ctx
    ensures GrownLeaf(visitors, old(ctx.entries), ctx.entries, path, k)
  {
    PrefixedEmpty(path);
    for i := 0 to |visitors|
      invariant GrownLeaf(visitors[..i], old(ctx.entries), ctx.entries, path, k)
    {
      ghost var before := ctx.entries;
      if visitors[i].matches(k) {
        ctx.PushPath(visitors[i].name, path);
      }
      forall v ensures EnvelopeAt(ctx.entries, v)
          == Append(EnvelopeAt(old(ctx.entries), v), Prefixed(path, LeafPlan(HitsOf(visitors[..i + 1], v), k))) {
        LeafStep(visitors, i, v, k, path);
        AppendAssoc(EnvelopeAt(old(ctx.entries), v), Prefixed(path, LeafPlan(HitsOf(visitors[..i], v), k)),
            Envelope([path], map[]));
      }
    }
    assert visitors[..|visitors|] == visitors;
  }

  lemma LeafStep(visitors: seq<Visitor>, i: nat, v: string, k: Keywords, path: string)
    requires i < |visitors|
    ensures Prefixed(path, LeafPlan(HitsOf(visitors[..i + 1], v), k))
         == if visitors[i].name == v && visitors[i].matches(k)
            then Append(Prefixed(path, LeafPlan(HitsOf(visitors[..i], v), k)), Envelope([path], map[]))
            else Prefixed(path, LeafPlan(HitsOf(visitors[..i], v), k))
  {
    assert visitors[..i + 1][..i] == visitors[..i];
    assert path + "" == path;
    PrefixedEmpty(path);
    var n := Count(visitors[..i], v, k);
    assert PrefixPaths(path, seq(n + 1, _ => "")) == PrefixPaths(path, seq(n, _ => "")) + [path];
  }

  method BuildPlanFromContext(ctx: Contexts) returns (plan: HydrationPlan)
    ensures forall v :: PlanAt(plan, v) == EnvelopeAt(ctx.entries, v)
    ensures forall v | v in plan :: plan[v] != EMPTY_ENVELOPE
  {
    plan := map[];
    var pending := ctx.entries.Keys;
    while pending != {}
      invariant pending <= ctx.entries.Keys
      invariant plan.Keys !! pending
      invariant forall v | v !in pending :: PlanAt(plan, v) == EnvelopeAt(ctx.entries, v)
      invariant forall v | v in plan :: plan[v] != EMPTY_ENVELOPE
    {
      var name :| name in pending;
      var w := ctx.entries[name];
      if w.paths != [] || w.starEntries != [] {
        assert w.starEntries != [] ==> w.starEntries[|w.starEntries| - 1].prefix in StarsOf(w.starEntries);
        plan := plan[name := Envelope(w.paths, StarsOf(w.starEntries))];
      }
      pending := pending - {name};
    }
  }

  /** Prefixes a sub-schema's finished plan with the current path. */
  method ComposePaths(subPlan: HydrationPlan, path: string, ctx: Contexts)
    modifies ctx
    ensures forall v :: EnvelopeAt(ctx.entries, v)
                     == Append(old(EnvelopeAt(ctx.entries, v)), Prefixed(path, PlanAt(subPlan, v)))
  {
    var pending := subPlan.Keys;
    PrefixedEmpty(path);
    while pending != {}
      invariant pending <= subPlan.Keys
      invariant forall v :: EnvelopeAt(ctx.entries, v)
                         == if v in pending then old(EnvelopeAt(ctx.entries, v))
                            else Append(old(EnvelopeAt(ctx.entries, v)), Prefixed(path, PlanAt(subPlan, v)))
    {
      var name :| name in pending;
      ctx.GetOrCreate(name);
      ctx.PushEnvelope(name, path, subPlan[name]);
      pending := pending - {name};
    }
  }

  lemma PrefixedUnder(path: string, statics: seq<string>, e: Envelope)
    requires e != EMPTY_ENVELOPE
    ensures Prefixed(path, Under(statics, e))
         == Append(Envelope([], if statics == [] then map[] else map[path + ".*" := statics]), Prefixed(path + ".*", e))
  {
    var own: StarMap := if statics == [] then map[] else map[".*" := statics];
    PrefixStarsUnion(path, own, PrefixStars(".*", e.starMap));
    PrefixStarsTwice(path, ".*", e.starMap);
    PrefixOneStar(path, ".*", statics);
    PrefixedEmpty(path);
    assert forall i | 0 <= i < |e.paths| :: path + (".*" + e.paths[i]) == path + ".*" + e.paths[i];
  }

  lemma NothingUnder(path: string, statics: seq<string>)
    ensures Prefixed(path, Under(statics, EMPTY_ENVELOPE)) == EMPTY_ENVELOPE
    ensures forall e: Envelope :: Append(e, EMPTY_ENVELOPE) == e
  {
    PrefixedEmpty(path);
    forall e: Envelope ensures Append(e, EMPTY_ENVELOPE) == e {
      assert e.paths + [] == e.paths && e.starMap + map[] == e.starMap;
    }
  }

  /** Moves an `additionalProperties` plan below `*`, recording the keys that `*` must skip. */
  method ComposeAdditionalProperties(statics: seq<string>, subPlan: HydrationPlan, path: string, ctx: Contexts)
    modifies ctx
    ensures forall v :: EnvelopeAt(ctx.entries, v)
                     == Append(old(EnvelopeAt(ctx.entries, v)), Prefixed(path, Under(statics, PlanAt(subPlan, v))))
  {
    var pending := subPlan.Keys;
    NothingUnder(path, statics);
    while pending != {}
      invariant pending <= subPlan.Keys
      invariant forall v :: EnvelopeAt(ctx.entries, v)
                         == if v in pending then old(EnvelopeAt(ctx.entries, v))
                            else Append(old(EnvelopeAt(ctx.entries, v)),
                                Prefixed(path, Under(statics, PlanAt(subPlan, v))))
    {
      var name :| name in pending;
      ComposeVisitor(name, statics, subPlan[name], path, ctx);
      pending := pending - {name};
    }
  }

  method ComposeVisitor(name: string, statics: seq<string>, e: Envelope, path: string, ctx: Contexts)
    modifies ctx
    ensures EnvelopeAt(ctx.entries, name) == Append(old(EnvelopeAt(ctx.entries, name)),
              Prefixed(path, Under(statics, e)))
    ensures forall v | v != name :: EnvelopeAt(ctx.entries, v) == old(EnvelopeAt(ctx.entries, v))
  {
    if e.paths != [] || e.starMap != map[] {
      PushDynamic(name, statics, e, path, ctx);
    } else {
      NothingUnder(path, statics);
    }
  }

  method PushDynamic(name: string, statics: seq<string>, e: Envelope, path: string, ctx: Contexts)
    requires e != EMPTY_ENVELOPE
    modifies ctx
    ensures EnvelopeAt(ctx.entries, name) == Append(old(EnvelopeAt(ctx.entries, name)),
              Prefixed(path, Under(statics, e)))
    ensures forall v | v != name :: EnvelopeAt(ctx.entries, v) == old(EnvelopeAt(ctx.entries, v))
  {
    ghost var before := EnvelopeAt(ctx.entries, name);
    ghost var own := Envelope([], if statics == [] then map[] else map[path + ".*" := statics]);
    ctx.GetOrCreate(name);
    if statics != [] {
      ctx.PushStar(name, path + ".*", statics);
    }
    assert EnvelopeAt(ctx.entries, name) == Append(before, own);
    ctx.PushEnvelope(name, path + ".*", e);
    PrefixedUnder(path, statics, e);
    AppendAssoc(before, own, Prefixed(path + ".*", e));
  }

  lemma GrownAdditional(vs: seq<Visitor>, a: ContextMap, b: ContextMap, path: string, plan: HydrationPlan,
                        d: Document, o: SchemaObject, c: nat)
    requires AdditionalTarget(d.objects, d.ids, o) == [c] && c in d.trees && IsPlanOf(vs, plan, d.trees[c])
    requires forall v :: EnvelopeAt(b, v) == Append(EnvelopeAt(a, v), Prefixed(path, Under(o.keys, PlanAt(plan, v))))
    ensures Grown(vs, a, b, path, AdditionalParts(d.objects, d.ids, d.trees, o))
  {
    forall v ensures EnvelopeAt(b, v)
        == Append(EnvelopeAt(a, v), Prefixed(path, PartsPlan(HitsOf(vs, v), [Dynamic(o.keys, d.trees[c])]))) {
      PartsPlanOne(HitsOf(vs, v), Dynamic(o.keys, d.trees[c]));
    }
  }

  lemma GrownNoAdditional(vs: seq<Visitor>, a: ContextMap, path: string, d: Document, o: SchemaObject)
    requires o.additional.Bool?
    ensures Grown(vs, a, a, path, AdditionalParts(d.objects, d.ids, d.trees, o))
  {
    GrownNothing(vs, a, path);
  }

  lemma GrownNoRef(vs: seq<Visitor>, a: ContextMap, path: string, d: Document, o: SchemaObject)
    requires d.Valid() && o.ref == ""
    ensures Grown(vs, a, a, path, RefParts(d.ids, d.trees, o))
  {
    GrownNothing(vs, a, path);
  }

  lemma GrownRef(vs: seq<Visitor>, a: ContextMap, b: ContextMap, path: string, d: Document, o: SchemaObject)
    requires o.ref in d.ids && d.ids[o.ref] in d.trees && GrownTree(vs, a, b, path, d.trees[d.ids[o.ref]])
    ensures Grown(vs, a, b, path, RefParts(d.ids, d.trees, o))
  {
    assert path + Render([]) == path;
    GrownSub(vs, a, b, path, [], d.trees[d.ids[o.ref]]);
  }

  /** The paths of a plan are exactly those that the document gives for the places where a visitor matches. */
  ghost predicate PathsAreSaid(d: Document, vs: seq<Visitor>, plan: HydrationPlan, n: nat) {
    forall v, path :: path in PlanAt(plan, v).paths <==> SchemaMeaning.SaysPath(d, vs, v, n, path)
  }

  lemma PlanIsSaid(d: Document, vs: seq<Visitor>, plan: HydrationPlan, n: nat)
    requires d.Valid() && n in d.objects && IsPlanOf(vs, plan, d.trees[n])
    ensures PathsAreSaid(d, vs, plan, n)
  {
    forall v, path ensures path in PlanAt(plan, v).paths <==> SchemaMeaning.SaysPath(d, vs, v, n, path) {
      SchemaMeaning.PathsAreSaid(d, vs, v, n, path);
    }
  }

  // ---- The transparent walker ----

  method BuildHydrationPlan(d: Document, n: nat, visitors: seq<Visitor>) returns (plan: HydrationPlan)
    requires d.Valid() && d.RefFree() && n in d.objects
    ensures IsPlanOf(visitors, plan, d.trees[n]) && PathsAreSaid(d, visitors, plan, n)
  {
    var ctx := new Contexts();
    WalkTransparent(d, n, "", visitors, ctx);
    plan := BuildPlanFromContext(ctx);
    FreshPlan(visitors, ctx.entries, plan, d.trees[n]);
    PlanIsSaid(d, visitors, plan, n);
  }

  method WalkTransparent(d: Document, n: nat, path: string, visitors: seq<Visitor>, ctx: Contexts)
    requires d.Valid() && d.RefFree() && n in d.objects
    modifies ctx
    ensures GrownTree(visitors, old(ctx.entries), ctx.entries, path, d.trees[n])
    decreases n, 3
  {
    var o := d.objects[n];
    CollectLeaf(visitors, o.keywords, path, ctx);
    ghost var leaf := ctx.entries;
    WalkFieldsTransparent(d, n, o, path, visitors, ctx);
    ghost var fields := ctx.entries;
    WalkAdditionalTransparent(d, n, o, path, visitors, ctx);
    GrownNoRef(visitors, ctx.entries, path, d, o);
    GrownObject(visitors, old(ctx.entries), leaf, fields, ctx.entries, ctx.entries, path, d, n);
  }

  method WalkFieldsTransparent(d: Document, n: nat, o: SchemaObject, path: string, visitors: seq<Visitor>,
      ctx: Contexts)
    requires d.Valid() && d.RefFree() && n in d.objects && o == d.objects[n]
    modifies ctx
    ensures Grown(visitors, old(ctx.entries), ctx.entries, path, FieldParts(d.ids, d.trees, o, 5))
    decreases n, 2
  {
    GrownNothing(visitors, ctx.entries, path);
    for k := 0 to 5
      invariant Grown(visitors, old(ctx.entries), ctx.entries, path, FieldParts(d.ids, d.trees, o, k))
    {
      ghost var before := ctx.entries;
      WalkFieldTransparent(d, n, o, FieldAt(k), path, visitors, ctx);
      GrownByField(visitors, old(ctx.entries), before, ctx.entries, path, d.ids, d.trees, o, k);
    }
  }

  method WalkFieldTransparent(d: Document, n: nat, o: SchemaObject, f: Field, path: string, visitors: seq<Visitor>,
      ctx: Contexts)
    requires d.Valid() && d.RefFree() && n in d.objects && o == d.objects[n]
    modifies ctx
    ensures Grown(visitors, old(ctx.entries), ctx.entries, path, PartsUpTo(d.ids, d.trees, o, f, |Slots(o, f)|))
    decreases n, 1
  {
    GrownNothing(visitors, ctx.entries, path);
    for i := 0 to |Slots(o, f)|
      invariant Grown(visitors, old(ctx.entries), ctx.entries, path, PartsUpTo(d.ids, d.trees, o, f, i))
    {
      ghost var before := ctx.entries;
      WalkSlotTransparent(d, n, o, f, i, path, visitors, ctx);
      GrownBySlot(visitors, old(ctx.entries), before, ctx.entries, path, d.ids, d.trees, o, f, i);
    }
  }

  method WalkSlotTransparent(d: Document, n: nat, o: SchemaObject, f: Field, i: nat, path: string,
      visitors: seq<Visitor>, ctx: Contexts)
    requires d.Valid() && d.RefFree() && n in d.objects && o == d.objects[n] && i < |Slots(o, f)|
    modifies ctx
    ensures Grown(visitors, old(ctx.entries), ctx.entries, path, SlotParts(d.ids, d.trees, o, f, i))
    decreases n, 0
  {
    d.SlotIsValid(n, f, i);
    var s := SlotAt(o, f, i);
    if s.Object? {
      WalkTransparent(d, s.node, path + Render(StepTo(o, f, i)), visitors, ctx);
      GrownSlot(visitors, old(ctx.entries), ctx.entries, path, d.ids, d.trees, o, f, i, s.node);
    } else {
      GrownNoSlot(visitors, ctx.entries, path, d.ids, d.trees, o, f, i);
    }
  }

  method WalkAdditionalTransparent(d: Document, n: nat, o: SchemaObject, path: string, visitors: seq<Visitor>,
      ctx: Contexts)
    requires d.Valid() && d.RefFree() && n in d.objects && o == d.objects[n]
    modifies ctx
    ensures Grown(visitors, old(ctx.entries), ctx.entries, path, AdditionalParts(d.objects, d.ids, d.trees, o))
    decreases n, 0
  {
    assert ValidObject(d.objects, d.ids, n);
    if o.additional.Object? {
      var sub := new Contexts();
      WalkTransparent(d, o.additional.node, "", visitors, sub);
      var subPlan := BuildPlanFromContext(sub);
      FreshPlan(visitors, sub.entries, subPlan, d.trees[o.additional.node]);
      ComposeAdditionalProperties(o.keys, subPlan, path, ctx);
      GrownAdditional(visitors, old(ctx.entries), ctx.entries, path, subPlan, d, o, o.additional.node);
    } else {
      GrownNoAdditional(visitors, ctx.entries, path, d, o);
    }
  }

  /** A walk from empty accumulators at the root path yields the tree's own plan. */
  lemma FreshPlan(vs: seq<Visitor>, ctx: ContextMap, plan: HydrationPlan, t: Tree)
    requires GrownTree(vs, map[], ctx, "", t)
    requires forall v :: PlanAt(plan, v) == EnvelopeAt(ctx, v)
    ensures IsPlanOf(vs, plan, t)
  {
    forall v ensures PlanAt(plan, v) == Plan(HitsOf(vs, v), t) {
      PrefixedNone(Plan(HitsOf(vs, v), t));
      AppendEmpty(Plan(HitsOf(vs, v), t));
    }
  }
}
