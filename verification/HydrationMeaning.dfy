/** What hydrating a JSON value by a schema means, independently of paths. */
module HydrationMeaning {
  import opened Options
  import opened SchemaPlan

  /** A validated JSON value in the course of hydration. `Hydrated` is what a visitor puts in
      place of a string (a bigint, a date): not a string itself, and with nothing below it. */
  datatype Json =
    | Null
    | Bool(b: bool)
    | Number(n: int)
    | String(s: string)
    | Array(items: seq<Json>)
    | Object(fields: map<string, Json>)
    | Hydrated(value: int)

  /** A visitor's conversion: nothing if the string is to stay. */
  type Hydrate = string -> Option<int>

  datatype Step = AtKey(key: string) | AtIndex(index: nat)
  type Location = seq<Step>
  type Locations = iset<Location>

  ghost function Below(m: Locations, s: Step): Locations {
    iset l: Location | [s] + l in m
  }

  /** The value with every convertible string at a location in `m` converted. */
  ghost function Rewrite(j: Json, m: Locations, hydrate: Hydrate): Json
    decreases j
  {
    match j
    case String(s) => if [] in m then Convert(s, hydrate) else j
    case Array(items) => Array(seq(|items|, i requires 0 <= i < |items| => Rewrite(items[i], Below(m, AtIndex(i)),
           hydrate)))
    case Object(fields) => Object(map k | k in fields :: Rewrite(fields[k], Below(m, AtKey(k)), hydrate))
    case _ => j
  }

  function Convert(s: string, hydrate: Hydrate): Json {
    match hydrate(s)
    case Some(v) => Hydrated(v)
    case None => String(s)
  }

  // ---- Rewriting, location by location ----

  function At(j: Json, l: Location): Option<Json>
    decreases l
  {
    if l == [] then Some(j)
    else
      match l[0]
      case AtKey(k) => if j.Object? && k in j.fields then At(j.fields[k], l[1..]) else None
      case AtIndex(i) => if j.Array? && i < |j.items| then At(j.items[i], l[1..]) else None
  }

  /** A location holds something before exactly when it holds something after; a string at a
      marked location is converted; anything else that is not a container stays as it is. */
  lemma {:induction false} RewriteAt(j: Json, m: Locations, hydrate: Hydrate, l: Location)
    ensures At(Rewrite(j, m, hydrate), l).Some? <==> At(j, l).Some?
    ensures At(j, l).Some? ==>
              var was, now := At(j, l).value, At(Rewrite(j, m, hydrate), l).value;
              && (was.String? && l in m && hydrate(was.s).Some? ==> now == Hydrated(hydrate(was.s).value))
              && (was.String? && (l !in m || hydrate(was.s).None?) ==> now == was)
              && (was.Array? ==> now.Array? && |now.items| == |was.items|)
              && (was.Object? ==> now.Object? && now.fields.Keys == was.fields.Keys)
              && (!was.String? && !was.Array? && !was.Object? ==> now == was)
    decreases l
  {
    if l != [] {
      assert [l[0]] + l[1..] == l;
      if l[0].AtKey? && j.Object? && l[0].key in j.fields {
        RewriteAt(j.fields[l[0].key], Below(m, l[0]), hydrate, l[1..]);
      } else if l[0].AtIndex? && j.Array? && l[0].index < |j.items| {
        RewriteAt(j.items[l[0].index], Below(m, l[0]), hydrate, l[1..]);
      }
    }
  }

  lemma {:induction false} RewriteNowhere(j: Json, m: Locations, hydrate: Hydrate)
    requires m == iset{}
    ensures Rewrite(j, m, hydrate) == j
    decreases j
  {
    match j {
      case Array(items) =>
        forall i | 0 <= i < |items| ensures Rewrite(items[i], Below(m, AtIndex(i)), hydrate) == items[i] {
          RewriteNowhere(items[i], Below(m, AtIndex(i)), hydrate);
        }
      case Object(fields) =>
        forall k | k in fields ensures Rewrite(fields[k], Below(m, AtKey(k)), hydrate) == fields[k] {
          RewriteNowhere(fields[k], Below(m, AtKey(k)), hydrate);
        }
      case _ =>
    }
  }

  /** Two rewrites in a row are one rewrite at the union of the locations. */
  lemma {:induction false} RewriteTwice(j: Json, a: Locations, b: Locations, hydrate: Hydrate)
    ensures Rewrite(Rewrite(j, a, hydrate), b, hydrate) == Rewrite(j, a + b, hydrate)
    decreases j
  {
    match j {
      case Array(items) =>
        forall i | 0 <= i < |items|
          ensures Rewrite(Rewrite(items[i], Below(a, AtIndex(i)), hydrate), Below(b, AtIndex(i)), hydrate)
               == Rewrite(items[i], Below(a + b, AtIndex(i)), hydrate)
        {
          assert Below(a, AtIndex(i)) + Below(b, AtIndex(i)) == Below(a + b, AtIndex(i));
          RewriteTwice(items[i], Below(a, AtIndex(i)), Below(b, AtIndex(i)), hydrate);
        }
      case Object(fields) =>
        forall k | k in fields
          ensures Rewrite(Rewrite(fields[k], Below(a, AtKey(k)), hydrate), Below(b, AtKey(k)), hydrate)
               == Rewrite(fields[k], Below(a + b, AtKey(k)), hydrate)
        {
          assert Below(a, AtKey(k)) + Below(b, AtKey(k)) == Below(a + b, AtKey(k));
          RewriteTwice(fields[k], Below(a, AtKey(k)), Below(b, AtKey(k)), hydrate);
        }
      case _ =>
    }
  }

  /** A place where converting makes a difference. */
  predicate Convertible(j: Json, l: Location, hydrate: Hydrate) {
    match At(j, l)
    case Some(String(s)) => hydrate(s).Some?
    case _ => false
  }

  ghost predicate AlikeOn(j: Json, a: Locations, b: Locations, hydrate: Hydrate) {
    forall l | Convertible(j, l, hydrate) :: l in a <==> l in b
  }

  lemma AlikeBelow(j: Json, a: Locations, b: Locations, hydrate: Hydrate, s: Step)
    requires AlikeOn(j, a, b, hydrate) && At(j, [s]).Some?
    ensures AlikeOn(At(j, [s]).value, Below(a, s), Below(b, s), hydrate)
  {
    var v := At(j, [s]).value;
    assert [s][1..] == [];
    forall l | Convertible(v, l, hydrate) ensures l in Below(a, s) <==> l in Below(b, s) {
      assert ([s] + l)[1..] == l;
      assert Convertible(j, [s] + l, hydrate);
    }
  }

  /** Rewriting at two sets of locations gives the same exactly when they agree on the convertible strings. */
  lemma {:induction false} RewrittenAlike(j: Json, a: Locations, b: Locations, hydrate: Hydrate)
    ensures Rewrite(j, a, hydrate) == Rewrite(j, b, hydrate) <==> AlikeOn(j, a, b, hydrate)
    decreases j
  {
    if AlikeOn(j, a, b, hydrate) {
      match j {
        case String(s) => assert Convertible(j, [], hydrate) <==> hydrate(s).Some?;
        case Array(items) =>
          forall i | 0 <= i < |items|
            ensures Rewrite(items[i], Below(a, AtIndex(i)), hydrate) == Rewrite(items[i], Below(b, AtIndex(i)), hydrate)
          {
            AlikeBelow(j, a, b, hydrate, AtIndex(i));
            RewrittenAlike(items[i], Below(a, AtIndex(i)), Below(b, AtIndex(i)), hydrate);
          }
        case Object(fields) =>
          forall k | k in fields
            ensures Rewrite(fields[k], Below(a, AtKey(k)), hydrate) == Rewrite(fields[k], Below(b, AtKey(k)), hydrate)
          {
            AlikeBelow(j, a, b, hydrate, AtKey(k));
            RewrittenAlike(fields[k], Below(a, AtKey(k)), Below(b, AtKey(k)), hydrate);
          }
        case _ =>
      }
    } else {
      var l :| Convertible(j, l, hydrate) && !(l in a <==> l in b);
      RewriteAt(j, a, hydrate, l);
      RewriteAt(j, b, hydrate, l);
    }
  }

  // ---- The locations that a schema marks ----

  /** Whether a path step leads to a data step. */
  predicate Fits(t: Tok, s: Step) {
    match t
    case Key(k) => s == AtKey(k)
    case All => s.AtIndex?
    case Idx(i) => s == AtIndex(i)
    case Star => false
  }

  /** Walks a location down the schema. `additionalProperties` applies to the keys that the same
      node's `properties` does not list (section 6.5.6 of JSON Schema Validation draft-07). */
  predicate Marked(hits: Hits, t: Tree, l: Location)
    decreases t, 1
  {
    (l == [] && hits(t.keywords) > 0) || MarkedByParts(hits, t.parts, l)
  }

  predicate MarkedByParts(hits: Hits, parts: seq<Part>, l: Location)
    decreases parts, 0
  {
    parts != [] && (MarkedByPart(hits, parts[0], l) || MarkedByParts(hits, parts[1..], l))
  }

  predicate MarkedByPart(hits: Hits, p: Part, l: Location)
    decreases p, 2
  {
    match p
    case Sub(step, child) =>
      if step == [] then Marked(hits, child, l) else l != [] && Fits(step[0], l[0]) && Marked(hits, child, l[1..])
    case Dynamic(statics, child) =>
      l != [] && l[0].AtKey? && l[0].key !in statics && Marked(hits, child, l[1..])
  }

  // ---- The locations that the hydrator visits ----

  /** The name under which enumeration finds a step: the keys of an array are its indices. */
  function KeyOf(s: Step): string {
    match s case AtKey(k) => k case AtIndex(i) => Decimal(i)
  }

  /** As `Marked`, but `additionalProperties` looks into arrays too. */
  predicate Visited(hits: Hits, t: Tree, l: Location)
    decreases t, 1
  {
    (l == [] && hits(t.keywords) > 0) || VisitedByParts(hits, t.parts, l)
  }

  predicate VisitedByParts(hits: Hits, parts: seq<Part>, l: Location)
    decreases parts, 0
  {
    parts != [] && (VisitedByPart(hits, parts[0], l) || VisitedByParts(hits, parts[1..], l))
  }

  predicate VisitedByPart(hits: Hits, p: Part, l: Location)
    decreases p, 2
  {
    match p
    case Sub(step, child) =>
      if step == [] then Visited(hits, child, l) else l != [] && Fits(step[0], l[0]) && Visited(hits, child, l[1..])
    case Dynamic(statics, child) =>
      l != [] && KeyOf(l[0]) !in statics && Visited(hits, child, l[1..])
  }

  /** Below the location stands nothing but `additionalProperties`, down to a node that converts, and they
      come to the i-th character of a string there, and then to that character alone. */
  predicate Grabs(hits: Hits, t: Tree, l: Location, i: nat)
    decreases t, 1
  {
    GrabsByParts(hits, t.parts, l, i)
  }

  predicate GrabsByParts(hits: Hits, parts: seq<Part>, l: Location, i: nat)
    decreases parts, 0
  {
    parts != [] && (GrabsByPart(hits, parts[0], l, i) || GrabsByParts(hits, parts[1..], l, i))
  }

  predicate GrabsByPart(hits: Hits, p: Part, l: Location, i: nat)
    decreases p, 2
  {
    match p
    case Sub(step, child) =>
      if step == [] then Grabs(hits, child, l, i) else l != [] && Fits(step[0], l[0]) && Grabs(hits, child, l[1..], i)
    case Dynamic(statics, child) =>
      if l == [] then Decimal(i) !in statics && (Visited(hits, child, []) || Grabs(hits, child, [], 0))
      else KeyOf(l[0]) !in statics && Grabs(hits, child, l[1..], i)
  }

  lemma {:induction false} MarkedIsVisited(hits: Hits, t: Tree, l: Location)
    ensures Marked(hits, t, l) ==> Visited(hits, t, l)
    decreases t, 1
  {
    MarkedPartsAreVisited(hits, t.parts, l);
  }

  lemma {:induction false} MarkedPartsAreVisited(hits: Hits, parts: seq<Part>, l: Location)
    ensures MarkedByParts(hits, parts, l) ==> VisitedByParts(hits, parts, l)
    decreases parts, 0
  {
    if parts != [] {
      MarkedPartIsVisited(hits, parts[0], l);
      MarkedPartsAreVisited(hits, parts[1..], l);
    }
  }

  lemma {:induction false} MarkedPartIsVisited(hits: Hits, p: Part, l: Location)
    ensures MarkedByPart(hits, p, l) ==> VisitedByPart(hits, p, l)
    decreases p, 2
  {
    MarkedIsVisited(hits, p.child, l);
    if l != [] {
      MarkedIsVisited(hits, p.child, l[1..]);
    }
  }

  /** The hydrator has no container to write the root value into. */
  ghost function MarkedLocations(hits: Hits, t: Tree): Locations {
    iset l: Location | l != [] && Marked(hits, t, l)
  }

  ghost function VisitedLocations(hits: Hits, t: Tree): Locations {
    iset l: Location | l != [] && Visited(hits, t, l)
  }

  /** A convertible string that the hydrator visits although the schema does not mark it. */
  ghost predicate Stray(hits: Hits, t: Tree, j: Json, hydrate: Hydrate) {
    exists l :: Convertible(j, l, hydrate) && l != [] && Visited(hits, t, l) && !Marked(hits, t, l)
  }

  /** Converting what is visited is converting what is marked exactly when no string is stray. */
  lemma VisitedUnlessStray(hits: Hits, t: Tree, j: Json, hydrate: Hydrate)
    ensures Rewrite(j, VisitedLocations(hits, t), hydrate) == Rewrite(j, MarkedLocations(hits, t), hydrate)
            <==> !Stray(hits, t, j, hydrate)
  {
    var a, b := VisitedLocations(hits, t), MarkedLocations(hits, t);
    RewrittenAlike(j, a, b, hydrate);
    forall l ensures l in b ==> l in a {
      MarkedIsVisited(hits, t, l);
    }
    if !AlikeOn(j, a, b, hydrate) {
      var l :| Convertible(j, l, hydrate) && !(l in a <==> l in b);
      assert Visited(hits, t, l) && !Marked(hits, t, l);
    }
    if Stray(hits, t, j, hydrate) {
      var l :| Convertible(j, l, hydrate) && l != [] && Visited(hits, t, l) && !Marked(hits, t, l);
      assert l in a && l !in b;
    }
  }

  /** Data that the schema describes: nothing that a converting `additionalProperties` looks into
      is a string or an array. */
  ghost predicate Shaped(hits: Hits, t: Tree, j: Json)
    decreases t, 1
  {
    ShapedParts(hits, t.parts, j)
  }

  ghost predicate ShapedParts(hits: Hits, parts: seq<Part>, j: Json)
    decreases parts, 0
  {
    parts == [] || (ShapedPart(hits, parts[0], j) && ShapedParts(hits, parts[1..], j))
  }

  ghost predicate ShapedPart(hits: Hits, p: Part, j: Json)
    decreases p, 2
  {
    match p
    case Sub(step, child) =>
      if step == [] then Shaped(hits, child, j)
      else
        && (j.Object? ==> forall k | k in j.fields && Fits(step[0], AtKey(k)) :: Shaped(hits, child, j.fields[k]))
        && (j.Array? ==> forall i: nat | i < |j.items| && Fits(step[0], AtIndex(i)) :: Shaped(hits, child, j.items[i]))
    case Dynamic(statics, child) =>
      && (Plan(hits, child).paths != [] ==> !j.String? && !j.Array?)
      && (j.Object? ==> forall k | k in j.fields && k !in statics :: Shaped(hits, child, j.fields[k]))
  }

  lemma {:induction false} NoPathsNoVisits(hits: Hits, t: Tree, l: Location)
    requires Plan(hits, t).paths == []
    ensures !Visited(hits, t, l)
    decreases t, 1
  {
    NoPathsNoPartVisits(hits, t.parts, l);
  }

  lemma {:induction false} NoPathsNoPartVisits(hits: Hits, parts: seq<Part>, l: Location)
    requires PartsPlan(hits, parts).paths == []
    ensures !VisitedByParts(hits, parts, l)
    decreases parts, 0
  {
    if parts != [] {
      NoPathsNoPartVisits(hits, parts[1..], l);
      NoPathsNoVisits(hits, parts[0].child, l);
      if l != [] {
        NoPathsNoVisits(hits, parts[0].child, l[1..]);
      }
    }
  }

  /** In data that the schema describes, only marked places are visited. */
  lemma {:induction false} ShapedVisitsMarked(hits: Hits, t: Tree, j: Json, l: Location)
    requires Shaped(hits, t, j) && At(j, l).Some?
    ensures Visited(hits, t, l) ==> Marked(hits, t, l)
    decreases t, 1
  {
    ShapedPartsVisitMarked(hits, t.parts, j, l);
  }

  lemma {:induction false} ShapedPartsVisitMarked(hits: Hits, parts: seq<Part>, j: Json, l: Location)
    requires ShapedParts(hits, parts, j) && At(j, l).Some?
    ensures VisitedByParts(hits, parts, l) ==> MarkedByParts(hits, parts, l)
    decreases parts, 0
  {
    if parts != [] {
      ShapedPartVisitsMarked(hits, parts[0], j, l);
      ShapedPartsVisitMarked(hits, parts[1..], j, l);
    }
  }

  lemma {:induction false} ShapedPartVisitsMarked(hits: Hits, p: Part, j: Json, l: Location)
    requires ShapedPart(hits, p, j) && At(j, l).Some?
    ensures VisitedByPart(hits, p, l) ==> MarkedByPart(hits, p, l)
    decreases p, 2
  {
    if p.Sub? && p.step == [] {
      ShapedVisitsMarked(hits, p.child, j, l);
    } else if l != [] && VisitedByPart(hits, p, l) {
      match l[0] {
        case AtKey(k) => ShapedVisitsMarked(hits, p.child, j.fields[k], l[1..]);
        case AtIndex(i) =>
          if p.Sub? {
            ShapedVisitsMarked(hits, p.child, j.items[i], l[1..]);
          } else {
            NoPathsNoVisits(hits, p.child, l[1..]);
          }
      }
    }
  }

  lemma ShapedHasNoStray(hits: Hits, t: Tree, j: Json, hydrate: Hydrate)
    requires Shaped(hits, t, j)
    ensures !Stray(hits, t, j, hydrate)
  {
    forall l | Convertible(j, l, hydrate) && Visited(hits, t, l) ensures Marked(hits, t, l) {
      ShapedVisitsMarked(hits, t, j, l);
    }
  }
}
