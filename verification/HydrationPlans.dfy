/** The paths of a plan, with its star exclusions, select exactly the locations that the hydrator is to visit. */
module HydrationPlans {
  import opened SchemaPlan
  import opened HydrationPaths
  import opened HydrationMeaning

  // ---- Plans as lists of steps ----

  function PathsBelow(step: seq<Tok>, ps: seq<seq<Tok>>): seq<seq<Tok>> {
    seq(|ps|, i requires 0 <= i < |ps| => step + ps[i])
  }

  function StepOf(p: Part): seq<Tok> {
    if p.Sub? then p.step else [Star]
  }

  function TokPaths(hits: Hits, t: Tree): seq<seq<Tok>>
    decreases t, 1
  {
    seq(hits(t.keywords), _ => []) + PartsPaths(hits, t.parts)
  }

  function PartsPaths(hits: Hits, parts: seq<Part>): seq<seq<Tok>>
    decreases parts, 0
  {
    if parts == [] then []
    else PathsBelow(StepOf(parts[0]), TokPaths(hits, parts[0].child)) + PartsPaths(hits, parts[1..])
  }

  function RenderAll(ps: seq<seq<Tok>>): seq<string> {
    seq(|ps|, i requires 0 <= i < |ps| => Render(ps[i]))
  }

  lemma RenderBelow(step: seq<Tok>, ps: seq<seq<Tok>>)
    ensures PrefixPaths(Render(step), RenderAll(ps)) == RenderAll(PathsBelow(step, ps))
  {
    forall i | 0 <= i < |ps| ensures Render(step + ps[i]) == Render(step) + Render(ps[i]) {
      RenderConcat(step, ps[i]);
    }
  }

  lemma RenderStar()
    ensures Render([Star]) == ".*"
  {
    assert Render([Star]) == ".*" + Render([]);
  }

  lemma {:induction false} PlanPaths(hits: Hits, t: Tree)
    ensures Plan(hits, t).paths == RenderAll(TokPaths(hits, t))
    decreases t, 1
  {
    PartsPlanPaths(hits, t.parts);
  }

  lemma {:induction false} PartsPlanPaths(hits: Hits, parts: seq<Part>)
    ensures PartsPlan(hits, parts).paths == RenderAll(PartsPaths(hits, parts))
    decreases parts, 0
  {
    if parts != [] {
      var p := parts[0];
      PlanPaths(hits, p.child);
      PartsPlanPaths(hits, parts[1..]);
      RenderStar();
      RenderBelow(StepOf(p), TokPaths(hits, p.child));
    }
  }

  // ---- Star exclusions ----

  datatype Exclusion = Exclusion(path: seq<Tok>, statics: seq<string>)

  function ExclusionsBelow(step: seq<Tok>, es: seq<Exclusion>): seq<Exclusion> {
    seq(|es|, i requires 0 <= i < |es| => Exclusion(step + es[i].path, es[i].statics))
  }

  /** Every `additionalProperties` schema that converts something, with the keys it must skip. */
  function Exclusions(hits: Hits, t: Tree): seq<Exclusion>
    decreases t, 1
  {
    PartsExclusions(hits, t.parts)
  }

  function PartsExclusions(hits: Hits, parts: seq<Part>): seq<Exclusion>
    decreases parts, 0
  {
    if parts == [] then [] else PartExclusions(hits, parts[0]) + PartsExclusions(hits, parts[1..])
  }

  function PartExclusions(hits: Hits, p: Part): seq<Exclusion>
    decreases p, 2
  {
    match p
    case Sub(step, child) => ExclusionsBelow(step, Exclusions(hits, child))
    case Dynamic(statics, child) =>
      (if Plan(hits, child).paths == [] then [] else [Exclusion([Star], statics)])
      + ExclusionsBelow([Star], Exclusions(hits, child))
  }

  ghost predicate OneDynamicPerPath(hits: Hits, t: Tree) {
    var es := Exclusions(hits, t);
    forall i, j | 0 <= i < |es| && 0 <= j < |es| && es[i].path == es[j].path :: es[i] == es[j]
  }

  /** The keys that a `*` at `prefix` skips. */
  function Excluded(stars: StarMap, prefix: string): seq<string> {
    if prefix in stars then stars[prefix] else []
  }

  ghost predicate FromExclusions(stars: StarMap, es: seq<Exclusion>) {
    && (forall q | q in stars :: exists e | e in es :: Render(e.path) == q && stars[q] == e.statics && e.statics != [])
    && (forall e | e in es && e.statics != [] :: Render(e.path) in stars)
  }

  lemma FromConcat(a: StarMap, b: StarMap, es: seq<Exclusion>, fs: seq<Exclusion>)
    requires FromExclusions(a, es) && FromExclusions(b, fs)
    ensures FromExclusions(a + b, es + fs)
  {
    forall q | q in a + b
      ensures exists e | e in es + fs :: Render(e.path) == q && (a + b)[q] == e.statics && e.statics != []
    {
      if q in b {
        var e :| e in fs && Render(e.path) == q && b[q] == e.statics && e.statics != [];
        assert e in es + fs;
      } else {
        var e :| e in es && Render(e.path) == q && a[q] == e.statics && e.statics != [];
        assert e in es + fs;
      }
    }
  }

  lemma FromBelow(step: seq<Tok>, a: StarMap, es: seq<Exclusion>)
    requires FromExclusions(a, es)
    ensures FromExclusions(PrefixStars(Render(step), a), ExclusionsBelow(step, es))
  {
    var m, fs := PrefixStars(Render(step), a), ExclusionsBelow(step, es);
    forall q | q in m ensures exists e | e in fs :: Render(e.path) == q && m[q] == e.statics && e.statics != [] {
      var k := PrefixStarsKey(Render(step), a, q);
      var e :| e in es && Render(e.path) == k && a[k] == e.statics && e.statics != [];
      var i :| 0 <= i < |es| && es[i] == e;
      RenderConcat(step, e.path);
      assert fs[i] in fs;
    }
    forall f | f in fs && f.statics != [] ensures Render(f.path) in m {
      var i :| 0 <= i < |fs| && fs[i] == f;
      assert es[i] in es;
      RenderConcat(step, es[i].path);
      PrefixStarsAt(Render(step), a, Render(es[i].path));
    }
  }

  lemma {:induction false} PlanExclusions(hits: Hits, t: Tree)
    ensures FromExclusions(Plan(hits, t).starMap, Exclusions(hits, t))
    decreases t, 1
  {
    PartsPlanExclusions(hits, t.parts);
  }

  lemma {:induction false} PartsPlanExclusions(hits: Hits, parts: seq<Part>)
    ensures FromExclusions(PartsPlan(hits, parts).starMap, PartsExclusions(hits, parts))
    decreases parts, 0
  {
    if parts != [] {
      PartPlanExclusions(hits, parts[0]);
      PartsPlanExclusions(hits, parts[1..]);
      FromConcat(PartPlan(hits, parts[0]).starMap, PartsPlan(hits, parts[1..]).starMap,
                 PartExclusions(hits, parts[0]), PartsExclusions(hits, parts[1..]));
    }
  }

  lemma {:induction false} PartPlanExclusions(hits: Hits, p: Part)
    ensures FromExclusions(PartPlan(hits, p).starMap, PartExclusions(hits, p))
    decreases p, 2
  {
    PlanExclusions(hits, p.child);
    match p {
      case Sub(step, child) =>
        FromBelow(step, Plan(hits, child).starMap, Exclusions(hits, child));
      case Dynamic(statics, child) =>
        NoPathsNoStars(hits, child);
        FromUnder(statics, Plan(hits, child), Exclusions(hits, child));
    }
  }

  lemma FromUnder(statics: seq<string>, e: Envelope, es: seq<Exclusion>)
    requires FromExclusions(e.starMap, es) && (e.paths == [] ==> e == EMPTY_ENVELOPE)
    ensures FromExclusions(Under(statics, e).starMap,
                           (if e.paths == [] then [] else [Exclusion([Star], statics)]) + ExclusionsBelow([Star], es))
  {
    RenderStar();
    FromBelow([Star], e.starMap, es);
    var own: StarMap := if statics == [] || e.paths == [] then map[] else map[".*" := statics];
    FromStar(statics, e.paths != []);
    FromConcat(own, PrefixStars(".*", e.starMap), if e.paths == [] then [] else [Exclusion([Star], statics)],
               ExclusionsBelow([Star], es));
    if e.paths == [] {
      PrefixedEmpty(".*");
    }
  }

  lemma FromStar(statics: seq<string>, converts: bool)
    ensures FromExclusions(if statics == [] || !converts then map[] else map[".*" := statics],
                           if converts then [Exclusion([Star], statics)] else [])
  {
    RenderStar();
    if converts {
      assert Exclusion([Star], statics) in [Exclusion([Star], statics)];
    }
  }

  // ---- Trees whose paths can be written ----

  /** The path syntax can express where the schema converts something: below plain keys, and in arrays
      that stand directly under a property. What converts nothing may look as it likes. */
  ghost predicate Expressible(hits: Hits, t: Tree) {
    forall p | p in TokPaths(hits, t) :: WellFormed(p, false)
  }

  lemma {:induction false} BeginningWellFormed(p: seq<Tok>, q: seq<Tok>, afterKey: bool)
    requires WellFormed(p + q, afterKey)
    ensures WellFormed(p, afterKey)
  {
    if p != [] {
      assert (p + q)[1..] == p[1..] + q;
      match p[0] {
        case Key(_) => BeginningWellFormed(p[1..], q, true);
        case _ => BeginningWellFormed(p[1..], q, false);
      }
    }
  }

  /** Every exclusion lies on a path. */
  lemma {:induction false} ExclusionsWellFormed(hits: Hits, t: Tree, pre: seq<Tok>)
    requires forall p | p in TokPaths(hits, t) :: WellFormed(pre + p, false)
    ensures forall e | e in Exclusions(hits, t) :: WellFormed(pre + e.path, false)
    decreases t, 1
  {
    forall p | p in PartsPaths(hits, t.parts) ensures WellFormed(pre + p, false) {
      assert p in TokPaths(hits, t);
    }
    PartsExclusionsWellFormed(hits, t.parts, pre);
  }

  lemma {:induction false} PartsExclusionsWellFormed(hits: Hits, parts: seq<Part>, pre: seq<Tok>)
    requires forall p | p in PartsPaths(hits, parts) :: WellFormed(pre + p, false)
    ensures forall e | e in PartsExclusions(hits, parts) :: WellFormed(pre + e.path, false)
    decreases parts, 0
  {
    if parts != [] {
      var own, rest := PathsBelow(StepOf(parts[0]), TokPaths(hits, parts[0].child)), PartsPaths(hits, parts[1..]);
      assert forall p | p in own :: p in own + rest;
      assert forall p | p in rest :: p in own + rest;
      PartExclusionsWellFormed(hits, parts[0], pre);
      PartsExclusionsWellFormed(hits, parts[1..], pre);
    }
  }

  lemma {:induction false} PartExclusionsWellFormed(hits: Hits, part: Part, pre: seq<Tok>)
    requires forall p | p in PathsBelow(StepOf(part), TokPaths(hits, part.child)) :: WellFormed(pre + p, false)
    ensures forall e | e in PartExclusions(hits, part) :: WellFormed(pre + e.path, false)
    decreases part, 2
  {
    var step, ps, es := StepOf(part), TokPaths(hits, part.child), Exclusions(hits, part.child);
    FromBelowPaths(step, ps, pre);
    ExclusionsWellFormed(hits, part.child, pre + step);
    ToBelowExclusions(step, es, pre);
    PlanPaths(hits, part.child);
    if part.Dynamic? && ps != [] {
      assert ps[0] in ps;
      BeginningWellFormed(pre + step, ps[0], false);
    }
  }

  lemma FromBelowPaths(step: seq<Tok>, ps: seq<seq<Tok>>, pre: seq<Tok>)
    requires forall p | p in PathsBelow(step, ps) :: WellFormed(pre + p, false)
    ensures forall p | p in ps :: WellFormed((pre + step) + p, false)
  {
    forall i | 0 <= i < |ps| ensures WellFormed((pre + step) + ps[i], false) {
      assert PathsBelow(step, ps)[i] in PathsBelow(step, ps);
      assert (pre + step) + ps[i] == pre + (step + ps[i]);
    }
  }

  lemma ToBelowExclusions(step: seq<Tok>, es: seq<Exclusion>, pre: seq<Tok>)
    requires forall e | e in es :: WellFormed((pre + step) + e.path, false)
    ensures forall e | e in ExclusionsBelow(step, es) :: WellFormed(pre + e.path, false)
  {
    forall i | 0 <= i < |es| ensures WellFormed(pre + ExclusionsBelow(step, es)[i].path, false) {
      assert es[i] in es && (pre + step) + es[i].path == pre + (step + es[i].path);
    }
  }

  /** With one converting `additionalProperties` per path, each `*` skips exactly its own node's keys. */
  lemma ExclusionsFound(hits: Hits, t: Tree, e: Exclusion)
    requires Expressible(hits, t) && OneDynamicPerPath(hits, t) && e in Exclusions(hits, t)
    ensures Excluded(Plan(hits, t).starMap, Render(e.path)) == e.statics
  {
    var stars, es := Plan(hits, t).starMap, Exclusions(hits, t);
    PlanExclusions(hits, t);
    forall p: seq<Tok> ensures [] + p == p {
    }
    ExclusionsWellFormed(hits, t, []);
    if Render(e.path) in stars {
      var f :| f in es && Render(f.path) == Render(e.path) && stars[Render(e.path)] == f.statics;
      RenderInjective(e.path, f.path);
    }
  }

  // ---- Paths against locations ----

  /** Whether a path, interpreted from `prefix` with the given star exclusions, reaches a location. */
  predicate Reaches(p: seq<Tok>, prefix: string, stars: StarMap, l: Location) {
    if p == [] then l == []
    else
      && l != []
      && (if p[0].Star? then KeyOf(l[0]) !in Excluded(stars, prefix + ".*") else Fits(p[0], l[0]))
      && Reaches(p[1..], prefix + RenderTok(p[0]), stars, l[1..])
  }

  ghost predicate SomeReaches(ps: seq<seq<Tok>>, prefix: string, stars: StarMap, l: Location) {
    exists p :: p in ps && Reaches(p, prefix, stars, l)
  }

  ghost predicate Agrees(hits: Hits, t: Tree, prefix: string, stars: StarMap) {
    forall e | e in Exclusions(hits, t) :: Excluded(stars, prefix + Render(e.path)) == e.statics
  }

  ghost predicate AgreesParts(hits: Hits, parts: seq<Part>, prefix: string, stars: StarMap) {
    forall e | e in PartsExclusions(hits, parts) :: Excluded(stars, prefix + Render(e.path)) == e.statics
  }

  lemma AgreesPart(hits: Hits, parts: seq<Part>, prefix: string, stars: StarMap)
    requires parts != [] && AgreesParts(hits, parts, prefix, stars)
    ensures Agrees(hits, parts[0].child, prefix + Render(StepOf(parts[0])), stars)
    ensures AgreesParts(hits, parts[1..], prefix, stars)
    ensures parts[0].Dynamic? && TokPaths(hits, parts[0].child) != []
            ==> Excluded(stars, prefix + ".*") == parts[0].statics
  {
    var part := parts[0];
    forall e | e in PartExclusions(hits, part) ensures Excluded(stars, prefix + Render(e.path)) == e.statics {
      assert e in PartsExclusions(hits, parts);
    }
    AgreesBelow(hits, part, prefix, stars);
    forall e | e in PartsExclusions(hits, parts[1..]) ensures e in PartsExclusions(hits, parts) {
    }
    if part.Dynamic? && TokPaths(hits, part.child) != [] {
      AgreesStar(hits, part, prefix, stars);
    }
  }

  ghost predicate AgreesOn(es: seq<Exclusion>, prefix: string, stars: StarMap) {
    forall e | e in es :: Excluded(stars, prefix + Render(e.path)) == e.statics
  }

  lemma RenderAfter(prefix: string, step: seq<Tok>, path: seq<Tok>)
    ensures prefix + Render(step + path) == (prefix + Render(step)) + Render(path)
  {
    RenderConcat(step, path);
  }

  lemma AgreesBelow(hits: Hits, part: Part, prefix: string, stars: StarMap)
    requires AgreesOn(PartExclusions(hits, part), prefix, stars)
    ensures Agrees(hits, part.child, prefix + Render(StepOf(part)), stars)
  {
    var step, es := StepOf(part), Exclusions(hits, part.child);
    assert forall e | e in ExclusionsBelow(step, es) :: e in PartExclusions(hits, part);
    AgreesOnBelow(step, es, prefix, stars);
  }

  lemma AgreesOnBelow(step: seq<Tok>, es: seq<Exclusion>, prefix: string, stars: StarMap)
    requires AgreesOn(ExclusionsBelow(step, es), prefix, stars)
    ensures AgreesOn(es, prefix + Render(step), stars)
  {
    forall i | 0 <= i < |es| ensures Excluded(stars, (prefix + Render(step)) + Render(es[i].path)) == es[i].statics {
      assert ExclusionsBelow(step, es)[i] in ExclusionsBelow(step, es);
      RenderAfter(prefix, step, es[i].path);
    }
  }

  lemma AgreesStar(hits: Hits, part: Part, prefix: string, stars: StarMap)
    requires AgreesOn(PartExclusions(hits, part), prefix, stars) && part.Dynamic? && TokPaths(hits, part.child) != []
    ensures Excluded(stars, prefix + ".*") == part.statics
  {
    PlanPaths(hits, part.child);
    assert Exclusion([Star], part.statics) in PartExclusions(hits, part);
    RenderStar();
  }

  lemma ReachesBelow(step: Tok, ps: seq<seq<Tok>>, prefix: string, stars: StarMap, l: Location)
    ensures SomeReaches(PathsBelow([step], ps), prefix, stars, l) <==>
            && l != []
            && (if step.Star? then KeyOf(l[0]) !in Excluded(stars, prefix + ".*") else Fits(step, l[0]))
            && SomeReaches(ps, prefix + RenderTok(step), stars, l[1..])
  {
    forall i | 0 <= i < |ps| ensures ([step] + ps[i])[1..] == ps[i] {
    }
    if l != [] && SomeReaches(ps, prefix + RenderTok(step), stars, l[1..]) {
      var p :| p in ps && Reaches(p, prefix + RenderTok(step), stars, l[1..]);
      var i :| 0 <= i < |ps| && ps[i] == p;
      assert PathsBelow([step], ps)[i] in PathsBelow([step], ps);
      assert ([step] + p)[1..] == p;
    }
    if SomeReaches(PathsBelow([step], ps), prefix, stars, l) {
      var q :| q in PathsBelow([step], ps) && Reaches(q, prefix, stars, l);
      var i :| 0 <= i < |ps| && q == [step] + ps[i];
      assert ps[i] in ps;
    }
  }

  lemma ReachesBelowNothing(ps: seq<seq<Tok>>)
    ensures PathsBelow([], ps) == ps
  {
    assert forall i | 0 <= i < |ps| :: [] + ps[i] == ps[i];
  }

  lemma {:induction false} PathsReachVisited(hits: Hits, t: Tree, prefix: string, stars: StarMap, l: Location)
    requires Stepwise(t) && Agrees(hits, t, prefix, stars)
    ensures SomeReaches(TokPaths(hits, t), prefix, stars, l) <==> Visited(hits, t, l)
    decreases t, 1
  {
    PartsReachVisited(hits, t.parts, prefix, stars, l);
    var own: seq<seq<Tok>> := seq(hits(t.keywords), _ => []);
    assert TokPaths(hits, t) == own + PartsPaths(hits, t.parts);
    assert hits(t.keywords) > 0 ==> own[0] in TokPaths(hits, t);
    assert forall p | p in own :: p == [];
  }

  lemma {:induction false} PartsReachVisited(hits: Hits, parts: seq<Part>, prefix: string, stars: StarMap, l: Location)
    requires StepwiseParts(parts) && AgreesParts(hits, parts, prefix, stars)
    ensures SomeReaches(PartsPaths(hits, parts), prefix, stars, l) <==> VisitedByParts(hits, parts, l)
    decreases parts, 0
  {
    if parts != [] {
      AgreesPart(hits, parts, prefix, stars);
      PartReachesVisited(hits, parts[0], prefix, stars, l);
      PartsReachVisited(hits, parts[1..], prefix, stars, l);
      var a, b := PathsBelow(StepOf(parts[0]), TokPaths(hits, parts[0].child)), PartsPaths(hits, parts[1..]);
      assert forall p :: p in a + b <==> p in a || p in b;
    }
  }

  lemma {:induction false} PartReachesVisited(hits: Hits, p: Part, prefix: string, stars: StarMap, l: Location)
    requires StepwisePart(p) && Agrees(hits, p.child, prefix + Render(StepOf(p)), stars)
    requires p.Dynamic? && TokPaths(hits, p.child) != [] ==> Excluded(stars, prefix + ".*") == p.statics
    ensures SomeReaches(PathsBelow(StepOf(p), TokPaths(hits, p.child)), prefix, stars, l) <==> VisitedByPart(hits, p, l)
    decreases p, 2
  {
    var step, ps := StepOf(p), TokPaths(hits, p.child);
    if step == [] {
      ReachesBelowNothing(ps);
      assert prefix + Render([]) == prefix;
      PathsReachVisited(hits, p.child, prefix, stars, l);
    } else {
      assert Render(step) == RenderTok(step[0]) + Render(step[1..]);
      assert step == [step[0]] && Render(step) == RenderTok(step[0]);
      ReachesBelow(step[0], ps, prefix, stars, l);
      if l != [] {
        PathsReachVisited(hits, p.child, prefix + Render(step), stars, l[1..]);
      }
    }
  }
}
