/** What a schema document says about a place in JSON data, read off its objects, without trees or paths. */
module SchemaMeaning {
  import opened SchemaPlan
  import opened SchemaDocument
  import opened HydrationMeaning
  import opened SchemaReferences

  // ---- Which sub-schemas apply where ----

  predicate ChildAt(o: SchemaObject, f: Field, i: nat, c: nat) {
    f in o.lists && i < |o.lists[f]| && o.lists[f][i] == Slot.Object(c)
  }

  predicate IsCombinator(f: Field) {
    f.OneOf? || f.AnyOf? || f.AllOf?
  }

  /** The sub-schema under `additionalProperties`, or the target if that is a plain reference. */
  predicate IsAdditional(d: Document, o: SchemaObject, c: nat) {
    && o.additional.Object? && o.additional.node in d.objects
    && var a := d.objects[o.additional.node];
       if a.id == "" && a.ref != "" then a.ref in d.ids && c == d.ids[a.ref] else c == o.additional.node
  }

  /** Schemas for the same place: the branches of a combinator, and what a `$ref` names. */
  ghost predicate AppliesToo(d: Document, o: SchemaObject, c: nat) {
    (exists f, i: nat :: IsCombinator(f) && ChildAt(o, f, i, c)) || (o.ref in d.ids && c == d.ids[o.ref])
  }

  /** The schema for a property: the one under its key, or that of the properties which are not listed. */
  ghost predicate AppliesToProperty(d: Document, o: SchemaObject, key: string, c: nat) {
    || (exists i: nat :: i < |o.keys| && o.keys[i] == key && ChildAt(o, Properties, i, c))
    || (key !in o.keys && IsAdditional(d, o, c))
  }

  /** The schema for an element: the one at its place in a tuple, or the one for all elements. */
  predicate AppliesToElement(o: SchemaObject, index: nat, c: nat) {
    ChildAt(o, ItemList, if o.tuple then index else 0, c)
  }

  ghost predicate AppliesBelow(d: Document, o: SchemaObject, s: Step, c: nat) {
    match s
    case AtKey(key) => AppliesToProperty(d, o, key, c)
    case AtIndex(index) => AppliesToElement(o, index, c)
  }

  /** Some visitor of the name matches a schema that applies to the place. */
  ghost predicate Says(d: Document, vs: seq<Visitor>, name: string, n: nat, l: Location)
    decreases n
  {
    && n in d.objects
    && var o := d.objects[n];
       || (l == [] && exists v | v in vs :: v.name == name && v.matches(o.keywords))
       || (exists c: nat :: c < n && AppliesToo(d, o, c) && Says(d, vs, name, c, l))
       || (l != [] && exists c: nat :: c < n && AppliesBelow(d, o, l[0], c) && Says(d, vs, name, c, l[1..]))
  }

  // ---- The tree of a document says the same ----

  lemma {:induction false} SomeHit(vs: seq<Visitor>, name: string, k: Keywords)
    ensures HitsOf(vs, name)(k) > 0 <==> exists v | v in vs :: v.name == name && v.matches(k)
  {
    if vs != [] {
      var init, last := vs[..|vs| - 1], vs[|vs| - 1];
      SomeHit(init, name, k);
      assert vs == init + [last];
    }
  }

  ghost predicate SomePartMarks(hits: Hits, parts: seq<Part>, l: Location) {
    exists p | p in parts :: MarkedByPart(hits, p, l)
  }

  lemma {:induction false} PartsMark(hits: Hits, parts: seq<Part>, l: Location)
    ensures MarkedByParts(hits, parts, l) <==> SomePartMarks(hits, parts, l)
  {
    if parts != [] {
      PartsMark(hits, parts[1..], l);
      assert parts == [parts[0]] + parts[1..];
    }
  }

  /** A sub-schema in a list of an object, as a part of its tree. */
  ghost predicate FieldPart(d: Document, o: SchemaObject, f: Field, i: nat, c: nat, p: Part) {
    ChildAt(o, f, i, c) && p == Sub(StepTo(o, f, i), TreeAt(d.trees, c))
  }

  lemma {:induction false} PartsOfField(d: Document, n: nat, f: Field, k: nat, p: Part)
    requires d.Valid() && n in d.objects && k <= |Slots(d.objects[n], f)|
    ensures p in PartsUpTo(d.ids, d.trees, d.objects[n], f, k)
            <==> exists i: nat, c: nat :: i < k && FieldPart(d, d.objects[n], f, i, c, p)
  {
    if k > 0 {
      PartsOfField(d, n, f, k - 1, p);
      d.SlotIsValid(n, f, k - 1);
      var o := d.objects[n];
      match SlotAt(o, f, k - 1) {
        case Object(c) => assert FieldPart(d, o, f, k - 1, c, Sub(StepTo(o, f, k - 1), TreeAt(d.trees, c)));
        case _ =>
      }
    }
  }

  ghost predicate ListedPart(d: Document, o: SchemaObject, f: Field, p: Part) {
    exists i: nat, c: nat :: FieldPart(d, o, f, i, c, p)
  }

  lemma {:induction false} PartsOfFields(d: Document, n: nat, k: nat, p: Part)
    requires d.Valid() && n in d.objects
    ensures p in FieldParts(d.ids, d.trees, d.objects[n], k)
            <==> exists j | 0 <= j < k :: ListedPart(d, d.objects[n], FieldAt(j), p)
  {
    if k > 0 {
      PartsOfFields(d, n, k - 1, p);
      PartsOfField(d, n, FieldAt(k - 1), |Slots(d.objects[n], FieldAt(k - 1))|, p);
    }
  }

  lemma EveryField(f: Field)
    ensures exists j | 0 <= j < 5 :: FieldAt(j) == f
  {
    match f {
      case Properties => assert FieldAt(0) == f;
      case ItemList => assert FieldAt(1) == f;
      case OneOf => assert FieldAt(2) == f;
      case AnyOf => assert FieldAt(3) == f;
      case AllOf => assert FieldAt(4) == f;
    }
  }

  lemma PartsOfObject(d: Document, n: nat, p: Part)
    requires d.Valid() && n in d.objects
    ensures var o := d.objects[n];
            p in d.trees[n].parts <==>
              || (exists f :: ListedPart(d, o, f, p))
              || (exists c: nat :: IsAdditional(d, o, c) && p == Dynamic(o.keys, TreeAt(d.trees, c)))
              || (o.ref in d.ids && p == Sub([], TreeAt(d.trees, d.ids[o.ref])))
  {
    var o := d.objects[n];
    assert d.UnfoldsAt(n) && ValidObject(d.objects, d.ids, n);
    PartsOfFields(d, n, 5, p);
    if f :| ListedPart(d, o, f, p) {
      EveryField(f);
    }
    assert forall c: nat :: IsAdditional(d, o, c) <==> AdditionalTarget(d.objects, d.ids, o) == [c];
    var target := AdditionalTarget(d.objects, d.ids, o);
    if target != [] { assert target == [target[0]]; }
  }

  lemma AdditionalBelow(d: Document, n: nat, c: nat)
    requires d.Valid() && n in d.objects && IsAdditional(d, d.objects[n], c)
    ensures c < n && c in d.objects
  {
    assert ValidObject(d.objects, d.ids, n);
    assert ValidObject(d.objects, d.ids, d.objects[n].additional.node);
  }

  lemma ChildBelow(d: Document, n: nat, f: Field, i: nat, c: nat)
    requires d.Valid() && n in d.objects && ChildAt(d.objects[n], f, i, c)
    ensures c < n && c in d.objects && i < |Slots(d.objects[n], f)|
    ensures f.Properties? ==> i < |d.objects[n].keys| && StepTo(d.objects[n], f, i) == [Key(d.objects[n].keys[i])]
    ensures f.ItemList? ==> StepTo(d.objects[n], f, i) == (if d.objects[n].tuple then [Idx(i)] else [All])
    ensures f.ItemList? && !d.objects[n].tuple ==> i == 0
    ensures IsCombinator(f) ==> StepTo(d.objects[n], f, i) == []
  {
    d.SlotIsValid(n, f, i);
    assert ValidObject(d.objects, d.ids, n);
  }

  lemma RefBelow(d: Document, n: nat)
    requires d.Valid() && n in d.objects && d.objects[n].ref in d.ids
    ensures d.ids[d.objects[n].ref] < n && d.ids[d.objects[n].ref] in d.objects
  {
    assert ValidObject(d.objects, d.ids, n);
  }

  /** The sub-schema that a part stands for applies to the place, or below it. */
  ghost predicate Through(d: Document, hits: Hits, n: nat, l: Location, c: nat) {
    && n in d.objects && c < n && c in d.trees
    && ((AppliesToo(d, d.objects[n], c) && Marked(hits, d.trees[c], l))
        || (l != [] && AppliesBelow(d, d.objects[n], l[0], c) && Marked(hits, d.trees[c], l[1..])))
  }

  lemma PartIsThrough(d: Document, hits: Hits, n: nat, l: Location, p: Part) returns (c: nat)
    requires d.Valid() && n in d.objects && p in d.trees[n].parts && MarkedByPart(hits, p, l)
    ensures Through(d, hits, n, l, c)
  {
    var o := d.objects[n];
    PartsOfObject(d, n, p);
    if f :| ListedPart(d, o, f, p) {
      var i: nat, k: nat :| FieldPart(d, o, f, i, k, p);
      c := k;
      ChildBelow(d, n, f, i, c);
    } else if k: nat :| IsAdditional(d, o, k) && p == Dynamic(o.keys, TreeAt(d.trees, k)) {
      c := k;
      AdditionalBelow(d, n, c);
    } else {
      c := d.ids[o.ref];
      RefBelow(d, n);
    }
  }

  lemma ListedMarks(d: Document, hits: Hits, n: nat, l: Location, f: Field, i: nat, c: nat)
    requires d.Valid() && n in d.objects && ChildAt(d.objects[n], f, i, c)
    requires MarkedByPart(hits, Sub(StepTo(d.objects[n], f, i), TreeAt(d.trees, c)), l)
    ensures Marked(hits, d.trees[n], l)
  {
    var p := Sub(StepTo(d.objects[n], f, i), TreeAt(d.trees, c));
    assert FieldPart(d, d.objects[n], f, i, c, p);
    assert ListedPart(d, d.objects[n], f, p);
    PartsOfObject(d, n, p);
    PartsMark(hits, d.trees[n].parts, l);
  }

  lemma OtherMarks(d: Document, hits: Hits, n: nat, l: Location, p: Part)
    requires d.Valid() && n in d.objects && MarkedByPart(hits, p, l)
    requires || (exists c: nat ::
                   IsAdditional(d, d.objects[n], c) && p == Dynamic(d.objects[n].keys, TreeAt(d.trees, c)))
             || (d.objects[n].ref in d.ids && p == Sub([], TreeAt(d.trees, d.ids[d.objects[n].ref])))
    ensures Marked(hits, d.trees[n], l)
  {
    PartsOfObject(d, n, p);
    PartsMark(hits, d.trees[n].parts, l);
  }

  lemma ThroughIsMarked(d: Document, hits: Hits, n: nat, l: Location, c: nat)
    requires d.Valid() && Through(d, hits, n, l, c)
    ensures Marked(hits, d.trees[n], l)
  {
    var o := d.objects[n];
    if AppliesToo(d, o, c) && Marked(hits, d.trees[c], l) {
      if f, i: nat :| IsCombinator(f) && ChildAt(o, f, i, c) {
        ChildBelow(d, n, f, i, c);
        ListedMarks(d, hits, n, l, f, i, c);
      } else {
        OtherMarks(d, hits, n, l, Sub([], d.trees[c]));
      }
    } else {
      match l[0] {
        case AtKey(key) =>
          if i: nat :| i < |o.keys| && o.keys[i] == key && ChildAt(o, Properties, i, c) {
            ChildBelow(d, n, Properties, i, c);
            ListedMarks(d, hits, n, l, Properties, i, c);
          } else {
            OtherMarks(d, hits, n, l, Dynamic(o.keys, d.trees[c]));
          }
        case AtIndex(index) =>
          var i := if o.tuple then index else 0;
          ChildBelow(d, n, ItemList, i, c);
          ListedMarks(d, hits, n, l, ItemList, i, c);
      }
    }
  }

  /** The tree of a schema marks exactly the places of which the schema says that the visitor converts them. */
  lemma {:induction false} MarkedIsSaid(d: Document, vs: seq<Visitor>, name: string, n: nat, l: Location)
    requires d.Valid() && n in d.objects
    ensures Marked(HitsOf(vs, name), d.trees[n], l) <==> Says(d, vs, name, n, l)
    decreases n
  {
    var o, hits := d.objects[n], HitsOf(vs, name);
    assert d.UnfoldsAt(n);
    SomeHit(vs, name, o.keywords);
    PartsMark(hits, d.trees[n].parts, l);
    forall c: nat, m | c < n && c in d.objects ensures Marked(hits, d.trees[c], m) <==> Says(d, vs, name, c, m) {
      MarkedIsSaid(d, vs, name, c, m);
    }
    if p :| p in d.trees[n].parts && MarkedByPart(hits, p, l) {
      var c := PartIsThrough(d, hits, n, l, p);
    }
    if c: nat :| c < n && AppliesToo(d, o, c) && Says(d, vs, name, c, l) {
      ThroughIsMarked(d, hits, n, l, c);
    }
    if l != [] {
      if c: nat :| c < n && AppliesBelow(d, o, l[0], c) && Says(d, vs, name, c, l[1..]) {
        ThroughIsMarked(d, hits, n, l, c);
      }
    }
  }

  // ---- The references that a walk comes to ----

  /** The walk goes through every sub-schema, and through `additionalProperties` unless that is a plain reference,
      of which it takes the name alone. */
  ghost predicate ComesTo(d: Document, n: nat, ref: string)
    decreases n
  {
    && n in d.objects && ref != ""
    && var o := d.objects[n];
       || o.ref == ref
       || (exists f, i: nat, c: nat :: c < n && ChildAt(o, f, i, c) && ComesTo(d, c, ref))
       || (exists c: nat ::
             && c < n && o.additional == Slot.Object(c) && c in d.objects
             && if d.objects[c].id == "" && d.objects[c].ref != "" then d.objects[c].ref == ref
                else ComesTo(d, c, ref))
  }

  ghost predicate AllComeTo(d: Document, n: nat, ids: set<string>) {
    forall ref :: ComesTo(d, n, ref) ==> ref in ids
  }

  lemma FieldsCome(d: Document, n: nat, ids: set<string>)
    requires d.Valid() && n in d.objects
    ensures FieldsRefsIn(d, n, 5, ids)
            <==> forall f, i: nat, c: nat | ChildAt(d.objects[n], f, i, c) :: c < n && AllRefsIn(d, c, ids)
  {
    if FieldsRefsIn(d, n, 5, ids) {
      forall f, i: nat, c: nat | ChildAt(d.objects[n], f, i, c) ensures c < n && AllRefsIn(d, c, ids) {
        ChildBelow(d, n, f, i, c);
        EveryField(f);
        var j :| 0 <= j < 5 && FieldAt(j) == f;
        assert FieldRefsIn(d, n, FieldAt(j), |Slots(d.objects[n], FieldAt(j))|, ids);
        assert SlotRefsIn(d, n, f, i, ids);
      }
    }
    if forall f, i: nat, c: nat | ChildAt(d.objects[n], f, i, c) :: c < n && AllRefsIn(d, c, ids) {
      forall j, i | 0 <= j < 5 && 0 <= i < |Slots(d.objects[n], FieldAt(j))|
        ensures SlotRefsIn(d, n, FieldAt(j), i, ids)
      {
        match SlotAt(d.objects[n], FieldAt(j), i) {
          case Object(c) => assert ChildAt(d.objects[n], FieldAt(j), i, c);
          case _ =>
        }
      }
      assert forall j | 0 <= j < 5 :: FieldRefsIn(d, n, FieldAt(j), |Slots(d.objects[n], FieldAt(j))|, ids);
    }
  }

  /** What registration asks of the ids is that they hold every reference that the walk comes to. */
  lemma {:induction false} RefsAreThoseComeTo(d: Document, n: nat, ids: set<string>)
    requires d.Valid() && n in d.objects
    ensures AllRefsIn(d, n, ids) <==> AllComeTo(d, n, ids)
    decreases n
  {
    var o := d.objects[n];
    assert ValidObject(d.objects, d.ids, n);
    FieldsCome(d, n, ids);
    forall c: nat | c < n && c in d.objects ensures AllRefsIn(d, c, ids) <==> AllComeTo(d, c, ids) {
      RefsAreThoseComeTo(d, c, ids);
    }
    forall f, i: nat, c: nat | ChildAt(o, f, i, c) ensures c < n && c in d.objects {
      ChildBelow(d, n, f, i, c);
    }
    if AllComeTo(d, n, ids) {
      assert o.ref != "" ==> ComesTo(d, n, o.ref);
      forall f, i: nat, c: nat | ChildAt(o, f, i, c) ensures AllRefsIn(d, c, ids) {
        forall ref | ComesTo(d, c, ref) ensures ref in ids {
          assert ComesTo(d, n, ref);
        }
      }
      if o.additional.Object? {
        var c := o.additional.node;
        if PlainReference(d.objects[c]) {
          assert ComesTo(d, n, d.objects[c].ref);
        } else {
          forall ref | ComesTo(d, c, ref) ensures ref in ids {
            assert ComesTo(d, n, ref);
          }
        }
      }
    }
  }

  /** The hydrator has no container to write the root value into. */
  ghost function SaidLocations(d: Document, vs: seq<Visitor>, name: string, n: nat): Locations {
    iset l: Location | l != [] && Says(d, vs, name, n, l)
  }

  lemma MarkedAreSaid(d: Document, vs: seq<Visitor>, name: string, n: nat)
    requires d.Valid() && n in d.objects
    ensures MarkedLocations(HitsOf(vs, name), d.trees[n]) == SaidLocations(d, vs, name, n)
  {
    forall l ensures l in MarkedLocations(HitsOf(vs, name), d.trees[n]) <==> l in SaidLocations(d, vs, name, n) {
      MarkedIsSaid(d, vs, name, n, l);
    }
  }

  // ---- The paths of a plan, as texts ----

  /** The sub-schema, and what its paths are prefixed by. */
  ghost predicate AppliesUnder(d: Document, o: SchemaObject, c: nat, prefix: string) {
    || (prefix == "" && AppliesToo(d, o, c))
    || (exists i: nat :: i < |o.keys| && ChildAt(o, Properties, i, c) && prefix == "." + o.keys[i])
    || (o.tuple && exists i: nat :: ChildAt(o, ItemList, i, c) && prefix == "[" + Decimal(i) + "]")
    || (!o.tuple && ChildAt(o, ItemList, 0, c) && prefix == "[]")
    || (prefix == ".*" && IsAdditional(d, o, c))
  }

  ghost predicate SaysPath(d: Document, vs: seq<Visitor>, name: string, n: nat, path: string)
    decreases n
  {
    && n in d.objects
    && var o := d.objects[n];
       || (path == "" && exists v | v in vs :: v.name == name && v.matches(o.keywords))
       || (exists c: nat, prefix, rest ::
             c < n && AppliesUnder(d, o, c, prefix) && path == prefix + rest && SaysPath(d, vs, name, c, rest))
  }

  function PrefixOf(p: Part): string {
    match p case Sub(step, _) => Render(step) case Dynamic(_, _) => ".*"
  }

  /** A part contributes the path, from a path of its own. */
  predicate PartGives(hits: Hits, p: Part, path: string, rest: string) {
    rest in Plan(hits, p.child).paths && path == PrefixOf(p) + rest
  }

  lemma InPrefixed(prefix: string, paths: seq<string>, path: string)
    ensures path in PrefixPaths(prefix, paths) <==> exists rest | rest in paths :: path == prefix + rest
  {
    if rest :| rest in paths && path == prefix + rest {
      var i :| 0 <= i < |paths| && paths[i] == rest;
      assert PrefixPaths(prefix, paths)[i] == path;
    }
    if path in PrefixPaths(prefix, paths) {
      var i :| 0 <= i < |paths| && PrefixPaths(prefix, paths)[i] == path;
      assert paths[i] in paths;
    }
  }

  lemma PartPlanPaths(hits: Hits, p: Part, path: string)
    ensures path in PartPlan(hits, p).paths <==> exists rest :: PartGives(hits, p, path, rest)
  {
    var paths := Plan(hits, p.child).paths;
    assert PartPlan(hits, p).paths == PrefixPaths(PrefixOf(p), paths);
    InPrefixed(PrefixOf(p), paths, path);
    if rest :| rest in paths && path == PrefixOf(p) + rest {
      assert PartGives(hits, p, path, rest);
    }
  }

  lemma {:induction false} PartsGive(hits: Hits, parts: seq<Part>, path: string)
    ensures path in PartsPlan(hits, parts).paths <==> exists p, rest :: p in parts && PartGives(hits, p, path, rest)
  {
    if parts != [] {
      PartPlanPaths(hits, parts[0], path);
      PartsGive(hits, parts[1..], path);
      assert forall p :: p in parts <==> p == parts[0] || p in parts[1..];
    }
  }

  lemma TreeGives(hits: Hits, t: Tree, path: string)
    ensures path in Plan(hits, t).paths <==>
            (path == "" && hits(t.keywords) > 0)
            || exists p, rest :: p in t.parts && PartGives(hits, p, path, rest)
  {
    PartsGive(hits, t.parts, path);
    var leaf := LeafPlan(hits, t.keywords).paths;
    assert hits(t.keywords) > 0 ==> leaf[0] in leaf;
  }

  lemma OneTok(t: Tok)
    ensures Render([t]) == RenderTok(t)
  {
    assert [t][1..] == [];
  }

  lemma PartUnder(d: Document, hits: Hits, n: nat, p: Part) returns (c: nat)
    requires d.Valid() && n in d.objects && p in d.trees[n].parts
    ensures c < n && c in d.trees && p.child == d.trees[c] && AppliesUnder(d, d.objects[n], c, PrefixOf(p))
  {
    var o := d.objects[n];
    PartsOfObject(d, n, p);
    if f :| ListedPart(d, o, f, p) {
      var i: nat, k: nat :| FieldPart(d, o, f, i, k, p);
      c := k;
      ChildBelow(d, n, f, i, c);
      if StepTo(o, f, i) != [] { OneTok(StepTo(o, f, i)[0]); }
    } else if k: nat :| IsAdditional(d, o, k) && p == Dynamic(o.keys, TreeAt(d.trees, k)) {
      c := k;
      AdditionalBelow(d, n, c);
    } else {
      c := d.ids[o.ref];
      RefBelow(d, n);
    }
  }

  lemma UnderIsPart(d: Document, n: nat, c: nat, prefix: string) returns (p: Part)
    requires d.Valid() && n in d.objects && c < n && c in d.trees && AppliesUnder(d, d.objects[n], c, prefix)
    ensures p in d.trees[n].parts && p.child == d.trees[c] && PrefixOf(p) == prefix
  {
    var o := d.objects[n];
    if prefix == "" && AppliesToo(d, o, c) {
      if f, i: nat :| IsCombinator(f) && ChildAt(o, f, i, c) {
        p := ListedIsPart(d, n, f, i, c);
      } else {
        p := Sub([], d.trees[c]);
        PartsOfObject(d, n, p);
      }
    } else if i: nat :| i < |o.keys| && ChildAt(o, Properties, i, c) && prefix == "." + o.keys[i] {
      p := ListedIsPart(d, n, Properties, i, c);
      OneTok(Key(o.keys[i]));
    } else if prefix == ".*" && IsAdditional(d, o, c) {
      p := Dynamic(o.keys, d.trees[c]);
      PartsOfObject(d, n, p);
    } else {
      var i: nat :| ChildAt(o, ItemList, i, c) && prefix == if o.tuple then "[" + Decimal(i) + "]" else "[]";
      p := ListedIsPart(d, n, ItemList, i, c);
      OneTok(if o.tuple then Idx(i) else All);
    }
  }

  lemma ListedIsPart(d: Document, n: nat, f: Field, i: nat, c: nat) returns (p: Part)
    requires d.Valid() && n in d.objects && ChildAt(d.objects[n], f, i, c)
    ensures c in d.trees && p in d.trees[n].parts && p == Sub(StepTo(d.objects[n], f, i), d.trees[c])
    ensures f.Properties? ==> i < |d.objects[n].keys| && p.step == [Key(d.objects[n].keys[i])]
    ensures f.ItemList? ==> p.step == (if d.objects[n].tuple then [Idx(i)] else [All])
    ensures IsCombinator(f) ==> p.step == []
  {
    ChildBelow(d, n, f, i, c);
    p := Sub(StepTo(d.objects[n], f, i), d.trees[c]);
    assert FieldPart(d, d.objects[n], f, i, c, p);
    assert ListedPart(d, d.objects[n], f, p);
    PartsOfObject(d, n, p);
  }

  /** The paths of a plan are exactly those that the schema gives for the places where a visitor matches. */
  lemma {:induction false} PathsAreSaid(d: Document, vs: seq<Visitor>, name: string, n: nat, path: string)
    requires d.Valid() && n in d.objects
    ensures path in Plan(HitsOf(vs, name), d.trees[n]).paths <==> SaysPath(d, vs, name, n, path)
    decreases n
  {
    var o, hits := d.objects[n], HitsOf(vs, name);
    assert d.UnfoldsAt(n);
    SomeHit(vs, name, o.keywords);
    TreeGives(hits, d.trees[n], path);
    forall c: nat, rest | c < n && c in d.objects
      ensures rest in Plan(hits, d.trees[c]).paths <==> SaysPath(d, vs, name, c, rest)
    {
      PathsAreSaid(d, vs, name, c, rest);
    }
    if p, rest :| p in d.trees[n].parts && PartGives(hits, p, path, rest) {
      var c := PartUnder(d, hits, n, p);
    }
    if c: nat, prefix, rest :| c < n && AppliesUnder(d, o, c, prefix) && path == prefix + rest
                               && SaysPath(d, vs, name, c, rest) {
      var p := UnderIsPart(d, n, c, prefix);
      assert PartGives(hits, p, path, rest);
    }
  }
}
