/** Valid data that hydration gets wrong. In the first schema a property may be an array or a string, beside
    an alternative whose `additionalProperties` are converted; in the second, two alternatives convert
    their `additionalProperties` beside different properties. */
module HydrationFailures {
  import opened Options
  import opened SchemaPlan
  import opened HydrationPaths
  import opened HydrationMeaning
  import opened HydrationPlans
  import opened HydrationReach
  import opened HydrationRuns

  function Bare(parts: seq<Part>): Tree {
    Node(map[], parts)
  }

  /** `anyOf`: an array of strings, a string, or an object with converted values. */
  function Alternatives(keywords: Keywords): seq<Part> {
    [Sub([], Bare([Sub([All], Bare([]))])), Sub([], Bare([])), Sub([], Bare([Dynamic([], Node(keywords, []))]))]
  }

  function Schema(key: string, keywords: Keywords): Tree {
    Bare([Sub([Key(key)], Bare(Alternatives(keywords)))])
  }

  lemma OnePart(hits: Hits, p: Part)
    ensures PartsPaths(hits, [p]) == PathsBelow(StepOf(p), TokPaths(hits, p.child))
    ensures PartsExclusions(hits, [p]) == PartExclusions(hits, p)
    ensures forall l :: VisitedByParts(hits, [p], l) <==> VisitedByPart(hits, p, l)
    ensures forall l :: MarkedByParts(hits, [p], l) <==> MarkedByPart(hits, p, l)
    ensures StepwiseParts([p]) <==> StepwisePart(p)
  {
    assert [p][1..] == [];
  }

  lemma ThreeParts(hits: Hits, p: Part, q: Part, r: Part)
    ensures PartsPaths(hits, [p, q, r]) == PartsPaths(hits, [p]) + (PartsPaths(hits, [q]) + PartsPaths(hits, [r]))
    ensures PartsExclusions(hits, [p, q, r]) == PartExclusions(hits, p)
            + (PartExclusions(hits, q) + PartExclusions(hits, r))
    ensures forall l :: VisitedByPart(hits, r, l) ==> VisitedByParts(hits, [p, q, r], l)
    ensures forall l :: MarkedByParts(hits, [p, q, r], l) <==>
                        MarkedByPart(hits, p, l) || MarkedByPart(hits, q, l) || MarkedByPart(hits, r, l)
    ensures StepwisePart(p) && StepwisePart(q) && StepwisePart(r) ==> StepwiseParts([p, q, r])
  {
    assert [p, q, r][1..] == [q, r] && [q, r][1..] == [r] && [r][1..] == [];
    OnePart(hits, p);
    OnePart(hits, q);
    OnePart(hits, r);
  }

  /** A visitor that converts the values by their keywords, and nothing else of the schema. */
  ghost predicate Converts(hits: Hits, keywords: Keywords) {
    hits(map[]) == 0 && hits(keywords) == 1
  }

  lemma ValuesPlan(hits: Hits, keywords: Keywords)
    requires Converts(hits, keywords)
    ensures var t := Bare([Dynamic([], Node(keywords, []))]);
            TokPaths(hits, t) == [[Star]] && Exclusions(hits, t) == [Exclusion([Star], [])] && Stepwise(t)
  {
    var values := Node(keywords, []);
    var part := Dynamic([], values);
    OnePart(hits, part);
    assert TokPaths(hits, values) == [[]] && Exclusions(hits, values) == [];
    PlanPaths(hits, values);
    assert PathsBelow([Star], [[]]) == [[Star]] by {
      assert [Star] + [] == [Star];
    }
    assert ExclusionsBelow([Star], []) == [];
    assert TokPaths(hits, Bare([part])) == [] + PartsPaths(hits, [part]);
    assert |RenderAll([[]])| == 1;
    assert PartExclusions(hits, part) == [Exclusion([Star], [])] + ExclusionsBelow([Star], []);
    assert Stepwise(values) && StepwisePart(part);
  }

  lemma StringsPlan(hits: Hits, keywords: Keywords)
    requires Converts(hits, keywords)
    ensures var t := Bare([Sub([All], Bare([]))]);
            TokPaths(hits, t) == [] && Exclusions(hits, t) == []
            && Stepwise(t)
    ensures TokPaths(hits, Bare([])) == [] && Exclusions(hits, Bare([])) == [] && Stepwise(Bare([]))
  {
    var part := Sub([All], Bare([]));
    OnePart(hits, part);
    assert TokPaths(hits, Bare([])) == [] && Exclusions(hits, Bare([])) == [];
    assert PathsBelow([All], []) == [] && ExclusionsBelow([All], []) == [];
    assert Stepwise(Bare([])) && StepwisePart(part);
    assert Exclusions(hits, Bare([part])) == PartsExclusions(hits, [part]);
    assert PartExclusions(hits, part) == ExclusionsBelow([All], []);
    assert TokPaths(hits, Bare([part])) == [] + PartsPaths(hits, [part]);
  }

  lemma AlternativesPlan(hits: Hits, keywords: Keywords)
    requires Converts(hits, keywords)
    ensures var t := Bare(Alternatives(keywords));
            TokPaths(hits, t) == [[Star]] && Exclusions(hits, t) == [Exclusion([Star], [])] && Stepwise(t)
  {
    var alternatives := Alternatives(keywords);
    var p, q, r := alternatives[0], alternatives[1], alternatives[2];
    ValuesPlan(hits, keywords);
    StringsPlan(hits, keywords);
    ThreeParts(hits, p, q, r);
    OnePart(hits, p);
    OnePart(hits, q);
    OnePart(hits, r);
    assert PathsBelow([], []) == [] && ExclusionsBelow([], []) == [];
    assert PathsBelow([], [[Star]]) == [[Star]] by {
      assert [] + [Star] == [Star];
    }
    assert ExclusionsBelow([], [Exclusion([Star], [])]) == [Exclusion([Star], [])] by {
      assert [] + [Star] == [Star];
    }
    assert TokPaths(hits, Bare(alternatives)) == [] + PartsPaths(hits, alternatives);
  }

  lemma SchemaSupported(hits: Hits, key: string, keywords: Keywords)
    requires Converts(hits, keywords) && PlainKey(key)
    ensures var t := Schema(key, keywords);
            && Supported(hits, t) && TokPaths(hits, t) == [[Key(key), Star]]
            && Excluded(Plan(hits, t).starMap, "." + key + ".*") == []
  {
    var t, part := Schema(key, keywords), Sub([Key(key)], Bare(Alternatives(keywords)));
    AlternativesPlan(hits, keywords);
    OnePart(hits, part);
    var path := [Key(key), Star];
    assert PathsBelow([Key(key)], [[Star]]) == [path] by {
      assert [Key(key)] + [Star] == path;
    }
    assert ExclusionsBelow([Key(key)], [Exclusion([Star], [])]) == [Exclusion(path, [])] by {
      assert [Key(key)] + [Star] == path;
    }
    assert TokPaths(hits, t) == [] + PartsPaths(hits, [part]);
    assert Exclusions(hits, t) == [Exclusion(path, [])];
    ExclusionsFound(hits, t, Exclusion(path, []));
    RenderStar();
    RenderConcat([Key(key)], [Star]);
    assert [Key(key)] + [Star] == path && Render([Key(key)]) == "." + key + Render([]);
    assert Render(path) == "." + key + ".*";
  }

  /** An array of strings is valid, but the `*` of the other alternative enumerates its indices. */
  lemma StrayElement(hits: Hits, key: string, keywords: Keywords, x: string, hydrate: Hydrate)
    requires Converts(hits, keywords) && PlainKey(key) && hydrate(x).Some?
    ensures var t, j := Schema(key, keywords), Object(map[key := Array([String(x)])]);
            && Supported(hits, t) && Misplaced(hits, t, j, hydrate)
            && Rewrite(j, ReachedLocations(hits, t), hydrate) != Rewrite(j, MarkedLocations(hits, t), hydrate)
  {
    var t, j := Schema(key, keywords), Object(map[key := Array([String(x)])]);
    var l: Location := [AtKey(key), AtIndex(0)];
    SchemaSupported(hits, key, keywords);
    MisplacedIsStray(hits, t, j, hydrate);
    ReachedUnlessMisplaced(hits, t, j, hydrate);
    var part := Sub([Key(key)], Bare(Alternatives(keywords)));
    OnePart(hits, part);
    assert l[1..] == [AtIndex(0)];
    ElementVisited(hits, keywords);
    assert VisitedByPart(hits, part, l) && !MarkedByPart(hits, part, l);
    assert Visited(hits, t, l) && !Marked(hits, t, l);
    assert At(j, l) == Some(String(x)) by {
      assert [AtIndex(0)][1..] == [];
      assert At(Array([String(x)]), [AtIndex(0)]) == At(String(x), []);
    }
    assert Convertible(j, l, hydrate);
  }

  lemma ElementVisited(hits: Hits, keywords: Keywords)
    requires Converts(hits, keywords)
    ensures var t := Bare(Alternatives(keywords)); Visited(hits, t, [AtIndex(0)]) && !Marked(hits, t, [AtIndex(0)])
  {
    var alternatives, l: Location := Alternatives(keywords), [AtIndex(0)];
    var p, q, r := alternatives[0], alternatives[1], alternatives[2];
    var items, values := Sub([All], Bare([])), Dynamic([], Node(keywords, []));
    ThreeParts(hits, p, q, r);
    OnePart(hits, items);
    OnePart(hits, values);
    assert l[1..] == [];
    assert !MarkedByPart(hits, items, l) && !MarkedByPart(hits, values, l) && VisitedByPart(hits, values, l);
    assert !MarkedByPart(hits, p, l) && !MarkedByPart(hits, q, l) && !MarkedByPart(hits, r, l);
    assert VisitedByPart(hits, r, l);
  }

  /** A string is valid as well, but `*` enumerates its characters, and a character that converts
      cannot be assigned. */
  lemma CharacterThrows(hits: Hits, key: string, keywords: Keywords, x: string, i: nat, hydrate: Hydrate)
    requires Converts(hits, keywords) && PlainKey(key) && i < |x| && hydrate([x[i]]).Some?
    ensures var t, j := Schema(key, keywords), Object(map[key := String(x)]);
            Supported(hits, t) && HydrationThrows(hits, t, j, hydrate)
  {
    var t, j := Schema(key, keywords), Object(map[key := String(x)]);
    var ps, stars, path := TokPaths(hits, t), Plan(hits, t).starMap, [Key(key), Star];
    var l: Location := [AtKey(key)];
    SchemaSupported(hits, key, keywords);
    assert path[..1] == [Key(key)] && path[1..] == [Star] && [Star][1..] == [] && l[1..] == [];
    assert Render(path[..1]) == "." + key + Render([]);
    assert "" + Render(path[..1]) == "." + key;
    assert Enumerates([Star], "." + key, stars, i);
    assert ConvertsChar(x, [Star], "." + key, stars, hydrate);
    assert [Key(key)][1..] == [];
    assert Reaches([Key(key)], "", stars, l);
    assert At(j, l) == Some(String(x));
    assert Stuck(j, path, "", stars, hydrate, l);
    assert CaughtAt(hits, t, j, hydrate, 0, l);
  }

  // ---- Alternatives that exclude different keys ----

  /** An object with a property that is left alone; its other values are converted. */
  function Record(key: string, keywords: Keywords): Tree {
    Bare([Sub([Key(key)], Bare([])), Dynamic([key], Node(keywords, []))])
  }

  /** `anyOf`: two such objects. */
  function TwoRecords(a: string, b: string, keywords: Keywords): Tree {
    Bare([Sub([], Record(a, keywords)), Sub([], Record(b, keywords))])
  }

  function RecordPlan(key: string): Envelope {
    Envelope([".*"], map[".*" := [key]])
  }

  lemma TwoParts(hits: Hits, p: Part, q: Part)
    ensures PartsPlan(hits, [p, q]) == Append(PartPlan(hits, p), PartPlan(hits, q))
    ensures PartsPaths(hits, [p, q])
         == PathsBelow(StepOf(p), TokPaths(hits, p.child)) + PathsBelow(StepOf(q), TokPaths(hits, q.child))
    ensures StepwiseParts([p, q]) <==> StepwisePart(p) && StepwisePart(q)
    ensures forall l :: MarkedByParts(hits, [p, q], l) <==> MarkedByPart(hits, p, l) || MarkedByPart(hits, q, l)
    ensures forall j :: ShapedParts(hits, [p, q], j) <==> ShapedPart(hits, p, j) && ShapedPart(hits, q, j)
  {
    assert [p, q][1..] == [q] && [q][1..] == [];
    OnePart(hits, q);
    PartsPlanOne(hits, q);
    forall j ensures ShapedParts(hits, [q], j) <==> ShapedPart(hits, q, j) {
    }
  }

  lemma PlanOfRecord(hits: Hits, key: string, keywords: Keywords)
    requires Converts(hits, keywords)
    ensures Plan(hits, Record(key, keywords)) == RecordPlan(key)
  {
    var values, plain := Dynamic([key], Node(keywords, [])), Sub([Key(key)], Bare([]));
    TwoParts(hits, plain, values);
    assert LeafPlan(hits, map[]) == EMPTY_ENVELOPE;
    assert Plan(hits, Bare([])) == EMPTY_ENVELOPE;
    PrefixedEmpty(Render([Key(key)]));
    assert Plan(hits, Node(keywords, [])) == Envelope([""], map[]);
    assert ".*" + "" == ".*";
    assert PrefixPaths(".*", [""]) == [".*"];
    PrefixedEmpty(".*");
    assert PrefixStars(".*", map[]) == map[];
    assert PartPlan(hits, values) == RecordPlan(key);
    AppendEmpty(RecordPlan(key));
  }

  lemma PlanOfTwoRecords(hits: Hits, a: string, b: string, keywords: Keywords)
    requires Converts(hits, keywords)
    ensures Plan(hits, TwoRecords(a, b, keywords)) == Envelope([".*", ".*"], map[".*" := [b]])
  {
    var p, q := Sub([], Record(a, keywords)), Sub([], Record(b, keywords));
    TwoParts(hits, p, q);
    PlanOfRecord(hits, a, keywords);
    PlanOfRecord(hits, b, keywords);
    PrefixedNone(RecordPlan(a));
    PrefixedNone(RecordPlan(b));
    assert LeafPlan(hits, map[]) == EMPTY_ENVELOPE;
    AppendEmpty(Append(RecordPlan(a), RecordPlan(b)));
    BothRecords(a, b);
  }

  lemma BothRecords(a: string, b: string)
    ensures Append(RecordPlan(a), RecordPlan(b)) == Envelope([".*", ".*"], map[".*" := [b]])
  {
  }

  lemma PathsOfRecord(hits: Hits, key: string, keywords: Keywords)
    requires Converts(hits, keywords)
    ensures TokPaths(hits, Record(key, keywords)) == [[Star]]
  {
    var values, plain := Dynamic([key], Node(keywords, [])), Sub([Key(key)], Bare([]));
    TwoParts(hits, plain, values);
    assert TokPaths(hits, values.child) == [[]] && TokPaths(hits, plain.child) == [];
    assert PathsBelow([Star], [[]]) == [[Star]] by {
      assert [Star] + [] == [Star];
    }
  }

  lemma PathsOfTwoRecords(hits: Hits, a: string, b: string, keywords: Keywords)
    requires Converts(hits, keywords)
    ensures TokPaths(hits, TwoRecords(a, b, keywords)) == [[Star], [Star]]
  {
    TwoParts(hits, Sub([], Record(a, keywords)), Sub([], Record(b, keywords)));
    PathsOfRecord(hits, a, keywords);
    PathsOfRecord(hits, b, keywords);
    ReachesBelowNothing([[Star]]);
  }

  lemma KeyMarked(hits: Hits, a: string, b: string, keywords: Keywords)
    requires Converts(hits, keywords) && a != b
    ensures Marked(hits, TwoRecords(a, b, keywords), [AtKey(b)])
  {
    var l: Location := [AtKey(b)];
    var values, plain := Dynamic([a], Node(keywords, [])), Sub([Key(a)], Bare([]));
    assert l[1..] == [];
    assert MarkedByPart(hits, values, l);
    TwoParts(hits, plain, values);
    assert MarkedByPart(hits, Sub([], Record(a, keywords)), l);
    TwoParts(hits, Sub([], Record(a, keywords)), Sub([], Record(b, keywords)));
  }

  lemma RecordShaped(hits: Hits, key: string, keywords: Keywords, b: string, x: string)
    ensures Stepwise(Record(key, keywords)) && Shaped(hits, Record(key, keywords), Object(map[b := String(x)]))
  {
    var j, values, plain := Object(map[b := String(x)]), Dynamic([key], Node(keywords, [])), Sub([Key(key)], Bare([]));
    TwoParts(hits, plain, values);
    assert Shaped(hits, Bare([]), String(x)) && Shaped(hits, Node(keywords, []), String(x));
    assert ShapedPart(hits, plain, j) && ShapedPart(hits, values, j);
    assert StepwisePart(plain) && StepwisePart(values);
  }

  lemma TwoRecordsShaped(hits: Hits, a: string, b: string, keywords: Keywords, x: string)
    ensures var t := TwoRecords(a, b, keywords); Stepwise(t) && Shaped(hits, t, Object(map[b := String(x)]))
  {
    var j, p, q := Object(map[b := String(x)]), Sub([], Record(a, keywords)), Sub([], Record(b, keywords));
    TwoParts(hits, p, q);
    RecordShaped(hits, a, keywords, b, x);
    RecordShaped(hits, b, keywords, b, x);
    assert ShapedPart(hits, p, j) && ShapedPart(hits, q, j) && StepwisePart(p) && StepwisePart(q);
  }

  /** The path leads to every key of the object but `b`. */
  lemma NothingReached(hits: Hits, a: string, b: string, keywords: Keywords, x: string, hydrate: Hydrate)
    requires Converts(hits, keywords)
    ensures var t, j := TwoRecords(a, b, keywords), Object(map[b := String(x)]);
            && [AtKey(b)] !in ReachedLocations(hits, t) && Rewrite(j, ReachedLocations(hits, t), hydrate) == j
  {
    var t, j := TwoRecords(a, b, keywords), Object(map[b := String(x)]);
    var m, ps, stars := ReachedLocations(hits, t), TokPaths(hits, t), Plan(hits, t).starMap;
    PlanOfTwoRecords(hits, a, b, keywords);
    PathsOfTwoRecords(hits, a, b, keywords);
    assert ps[..2] == ps && forall p | p in ps :: p == [Star];
    assert "" + ".*" == ".*" && Excluded(stars, ".*") == [b];
    forall l: Location | l != [] && l[0] == AtKey(b) ensures l !in m {
      assert !Reaches([Star], "", stars, l);
    }
    RewrittenAlike(j, m, iset{}, hydrate);
    RewriteNowhere(j, iset{}, hydrate);
  }

  /** The exclusion of the last alternative is all that `*` knows of: a value under the key that it
      excludes is converted by the first alternative, but is never reached. */
  lemma MissedKey(hits: Hits, a: string, b: string, keywords: Keywords, x: string, hydrate: Hydrate)
    requires Converts(hits, keywords) && a != b && hydrate(x).Some?
    ensures var t, j := TwoRecords(a, b, keywords), Object(map[b := String(x)]);
            && Stepwise(t) && Expressible(hits, t) && Shaped(hits, t, j) && Misplaced(hits, t, j, hydrate)
            && Rewrite(j, ReachedLocations(hits, t), hydrate) == j != Rewrite(j, MarkedLocations(hits, t), hydrate)
  {
    var t, j := TwoRecords(a, b, keywords), Object(map[b := String(x)]);
    var l: Location := [AtKey(b)];
    PlanOfTwoRecords(hits, a, b, keywords);
    PathsOfTwoRecords(hits, a, b, keywords);
    KeyMarked(hits, a, b, keywords);
    TwoRecordsShaped(hits, a, b, keywords, x);
    assert l[1..] == [] && At(j, l) == Some(String(x));
    assert Convertible(j, l, hydrate);
    NothingReached(hits, a, b, keywords, x, hydrate);
    assert l !in ReachedLocations(hits, t);
    ReachedUnlessMisplaced(hits, t, j, hydrate);
  }
}
