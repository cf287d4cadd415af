/** Hydration of data by the plan of a schema: what it reaches, what the schema marks, and when it fails. */
module HydrationRuns {
  import opened Options
  import opened SchemaPlan
  import opened HydrationPaths
  import opened HydrationMeaning
  import opened HydrationPlans
  import opened HydrationReach

  // ---- What the plan reaches ----

  /** The locations that the paths of the plan reach; the hydrator has no container to write the root value into. */
  ghost function ReachedLocations(hits: Hits, t: Tree): Locations {
    ReachedBy(TokPaths(hits, t), Plan(hits, t).starMap, |TokPaths(hits, t)|)
  }

  /** A convertible string that is reached but not marked, or marked but not reached. */
  ghost predicate Misplaced(hits: Hits, t: Tree, j: Json, hydrate: Hydrate) {
    exists l :: Convertible(j, l, hydrate) && l != [] && (l in ReachedLocations(hits, t) <==> !Marked(hits, t, l))
  }

  /** Converting what is reached is converting what is marked exactly when no string is misplaced. */
  lemma ReachedUnlessMisplaced(hits: Hits, t: Tree, j: Json, hydrate: Hydrate)
    ensures Rewrite(j, ReachedLocations(hits, t), hydrate) == Rewrite(j, MarkedLocations(hits, t), hydrate)
            <==> !Misplaced(hits, t, j, hydrate)
  {
    var a, b := ReachedLocations(hits, t), MarkedLocations(hits, t);
    RewrittenAlike(j, a, b, hydrate);
    if !AlikeOn(j, a, b, hydrate) {
      var l :| Convertible(j, l, hydrate) && !(l in a <==> l in b);
      assert l in a <==> !Marked(hits, t, l);
    }
    if Misplaced(hits, t, j, hydrate) {
      var l :| Convertible(j, l, hydrate) && l != [] && (l in a <==> !Marked(hits, t, l));
      assert !(l in a <==> l in b);
    }
  }

  /** Schemas whose `*`s find the keys of their own nodes. */
  ghost predicate Supported(hits: Hits, t: Tree) {
    Stepwise(t) && Expressible(hits, t) && OneDynamicPerPath(hits, t)
  }

  lemma PlanAgrees(hits: Hits, t: Tree)
    requires Supported(hits, t)
    ensures Agrees(hits, t, "", Plan(hits, t).starMap)
  {
    forall e | e in Exclusions(hits, t) ensures Excluded(Plan(hits, t).starMap, "" + Render(e.path)) == e.statics {
      ExclusionsFound(hits, t, e);
      assert "" + Render(e.path) == Render(e.path);
    }
  }

  /** Together, the paths of such a schema's plan reach exactly the locations that are to be visited. */
  lemma PlanReachesVisited(hits: Hits, t: Tree)
    requires Supported(hits, t)
    ensures ReachedLocations(hits, t) == VisitedLocations(hits, t)
  {
    var ps, stars := TokPaths(hits, t), Plan(hits, t).starMap;
    PlanAgrees(hits, t);
    assert ps[..|ps|] == ps;
    forall l: Location ensures l in ReachedBy(ps, stars, |ps|) <==> l in VisitedLocations(hits, t) {
      PathsReachVisited(hits, t, "", stars, l);
    }
  }

  /** And what is misplaced there is a stray string. */
  lemma MisplacedIsStray(hits: Hits, t: Tree, j: Json, hydrate: Hydrate)
    requires Supported(hits, t)
    ensures Misplaced(hits, t, j, hydrate) <==> Stray(hits, t, j, hydrate)
  {
    PlanReachesVisited(hits, t);
    ReachedUnlessMisplaced(hits, t, j, hydrate);
    VisitedUnlessStray(hits, t, j, hydrate);
  }

  // ---- When hydration fails ----

  /** A path of the plan is stuck at a string of the data that no path before it has converted. */
  ghost predicate CaughtAt(hits: Hits, t: Tree, j: Json, hydrate: Hydrate, i: nat, l: Location) {
    Caught(j, TokPaths(hits, t), Plan(hits, t).starMap, hydrate, i, l)
  }

  ghost predicate HydrationThrows(hits: Hits, t: Tree, j: Json, hydrate: Hydrate) {
    exists i: nat, l :: CaughtAt(hits, t, j, hydrate, i, l)
  }

  lemma HydrationThrowsIff(hits: Hits, t: Tree, j: Json, hydrate: Hydrate)
    ensures HydrationThrows(hits, t, j, hydrate) <==> SomeThrows(j, TokPaths(hits, t), Plan(hits, t).starMap, hydrate)
  {
    var ps, stars := TokPaths(hits, t), Plan(hits, t).starMap;
    SomeThrowsIfCaught(j, ps, stars, hydrate);
    if i: nat, l :| Caught(j, ps, stars, hydrate, i, l) {
      assert CaughtAt(hits, t, j, hydrate, i, l);
    }
  }

  // The same in terms of the schema

  ghost predicate PathGrabs(p: seq<Tok>, prefix: string, stars: StarMap, l: Location, i: nat) {
    && |l| < |p| && Reaches(p[..|l|], prefix, stars, l)
    && Enumerates(p[|l|..], prefix + Render(p[..|l|]), stars, i)
  }

  ghost predicate SomeGrabs(ps: seq<seq<Tok>>, prefix: string, stars: StarMap, l: Location, i: nat) {
    exists p :: p in ps && PathGrabs(p, prefix, stars, l, i)
  }

  lemma GrabsHere(p: seq<Tok>, prefix: string, stars: StarMap, i: nat)
    ensures PathGrabs(p, prefix, stars, [], i) <==> p != [] && Enumerates(p, prefix, stars, i)
  {
    if p != [] {
      assert p[..0] == [] && p[0..] == p && prefix + Render([]) == prefix;
    }
  }

  lemma GrabsAfterStep(t: Tok, p: seq<Tok>, prefix: string, stars: StarMap, s: Step, l: Location, i: nat)
    ensures PathGrabs([t] + p, prefix, stars, [s] + l, i)
            <==> StepsTo(t, prefix, stars, s) && PathGrabs(p, prefix + RenderTok(t), stars, l, i)
  {
    var m, q := [s] + l, [t] + p;
    assert m[0] == s && m[1..] == l && q[0] == t && q[1..] == p;
    if |l| < |p| {
      var r := q[..|m|];
      assert r[0] == t && r[1..] == p[..|l|] && q[|m|..] == p[|l|..];
      Regrouped(prefix, RenderTok(t), Render(p[..|l|]));
    }
  }

  lemma SomeGrabsBelow(t: Tok, ps: seq<seq<Tok>>, prefix: string, stars: StarMap, s: Step, l: Location, i: nat)
    ensures SomeGrabs(PathsBelow([t], ps), prefix, stars, [s] + l, i)
            <==> StepsTo(t, prefix, stars, s) && SomeGrabs(ps, prefix + RenderTok(t), stars, l, i)
  {
    var qs := PathsBelow([t], ps);
    forall k | 0 <= k < |ps|
      ensures PathGrabs(qs[k], prefix, stars, [s] + l, i)
              <==> StepsTo(t, prefix, stars, s) && PathGrabs(ps[k], prefix + RenderTok(t), stars, l, i)
    {
      GrabsAfterStep(t, ps[k], prefix, stars, s, l, i);
    }
    if p :| p in ps && PathGrabs(p, prefix + RenderTok(t), stars, l, i) {
      var k :| 0 <= k < |ps| && ps[k] == p;
      assert qs[k] in qs;
    }
    if q :| q in qs && PathGrabs(q, prefix, stars, [s] + l, i) {
      var k :| 0 <= k < |qs| && qs[k] == q;
      assert ps[k] in ps;
    }
  }

  /** Some path enumerates the characters of a string that stands where the paths begin. */
  ghost predicate SomeEnumerates(ps: seq<seq<Tok>>, prefix: string, stars: StarMap, i: nat) {
    exists p :: p in ps && Enumerates(p, prefix, stars, i)
  }

  lemma SomeEnumeratesIff(ps: seq<seq<Tok>>, prefix: string, stars: StarMap, i: nat)
    ensures SomeEnumerates(ps, prefix, stars, i) <==>
            SomeReaches(ps, prefix, stars, []) || SomeGrabs(ps, prefix, stars, [], i)
  {
    forall p | p in ps ensures PathGrabs(p, prefix, stars, [], i) <==> p != [] && Enumerates(p, prefix, stars, i) {
      GrabsHere(p, prefix, stars, i);
    }
    if p :| p in ps && Enumerates(p, prefix, stars, i) {
      assert p == [] ==> Reaches(p, prefix, stars, []);
    }
    if SomeReaches(ps, prefix, stars, []) {
      var p :| p in ps && Reaches(p, prefix, stars, []);
      assert p == [];
    }
  }

  lemma SomeGrabsHere(t: Tok, ps: seq<seq<Tok>>, prefix: string, stars: StarMap, i: nat)
    ensures SomeGrabs(PathsBelow([t], ps), prefix, stars, [], i) <==>
            t.Star? && !Skips(Excluded(stars, prefix + ".*"), i) && SomeEnumerates(ps, prefix + ".*", stars, 0)
  {
    var qs := PathsBelow([t], ps);
    forall k | 0 <= k < |ps|
      ensures PathGrabs(qs[k], prefix, stars, [], i) <==>
              t.Star? && !Skips(Excluded(stars, prefix + ".*"), i) && Enumerates(ps[k], prefix + ".*", stars, 0)
    {
      GrabsHere(qs[k], prefix, stars, i);
      assert qs[k][0] == t && qs[k][1..] == ps[k];
    }
    if p :| p in ps && Enumerates(p, prefix + ".*", stars, 0) {
      var k :| 0 <= k < |ps| && ps[k] == p;
      assert qs[k] in qs;
    }
    if q :| q in qs && PathGrabs(q, prefix, stars, [], i) {
      var k :| 0 <= k < |qs| && qs[k] == q;
      assert ps[k] in ps;
    }
  }

  lemma {:induction false} PathsGrab(hits: Hits, t: Tree, prefix: string, stars: StarMap, l: Location, i: nat)
    requires Stepwise(t) && Agrees(hits, t, prefix, stars)
    ensures SomeGrabs(TokPaths(hits, t), prefix, stars, l, i) <==> Grabs(hits, t, l, i)
    decreases t, 1
  {
    PartsGrab(hits, t.parts, prefix, stars, l, i);
    var own: seq<seq<Tok>> := seq(hits(t.keywords), _ => []);
    assert TokPaths(hits, t) == own + PartsPaths(hits, t.parts);
    assert forall p | p in own :: p == [];
  }

  lemma {:induction false} PartsGrab(hits: Hits, parts: seq<Part>, prefix: string, stars: StarMap, l: Location, i: nat)
    requires StepwiseParts(parts) && AgreesParts(hits, parts, prefix, stars)
    ensures SomeGrabs(PartsPaths(hits, parts), prefix, stars, l, i) <==> GrabsByParts(hits, parts, l, i)
    decreases parts, 0
  {
    if parts != [] {
      AgreesPart(hits, parts, prefix, stars);
      PartGrabs(hits, parts[0], prefix, stars, l, i);
      PartsGrab(hits, parts[1..], prefix, stars, l, i);
      var a, b := PathsBelow(StepOf(parts[0]), TokPaths(hits, parts[0].child)), PartsPaths(hits, parts[1..]);
      assert forall p :: p in a + b <==> p in a || p in b;
    }
  }

  lemma {:induction false} PartGrabs(hits: Hits, p: Part, prefix: string, stars: StarMap, l: Location, i: nat)
    requires StepwisePart(p) && Agrees(hits, p.child, prefix + Render(StepOf(p)), stars)
    requires p.Dynamic? && TokPaths(hits, p.child) != [] ==> Excluded(stars, prefix + ".*") == p.statics
    ensures SomeGrabs(PathsBelow(StepOf(p), TokPaths(hits, p.child)), prefix, stars, l, i)
            <==> GrabsByPart(hits, p, l, i)
    decreases p, 2
  {
    var step, ps := StepOf(p), TokPaths(hits, p.child);
    if step == [] {
      ReachesBelowNothing(ps);
      assert prefix + Render([]) == prefix;
      PathsGrab(hits, p.child, prefix, stars, l, i);
    } else {
      assert Render(step) == RenderTok(step[0]) + Render(step[1..]);
      assert step == [step[0]] && Render(step) == RenderTok(step[0]);
      if l == [] {
        SomeGrabsHere(step[0], ps, prefix, stars, i);
        SomeEnumeratesIff(ps, prefix + Render(step), stars, 0);
        PathsReachVisited(hits, p.child, prefix + Render(step), stars, []);
        PathsGrab(hits, p.child, prefix + Render(step), stars, [], 0);
      } else {
        assert l == [l[0]] + l[1..];
        SomeGrabsBelow(step[0], ps, prefix, stars, l[0], l[1..], i);
        PathsGrab(hits, p.child, prefix + Render(step), stars, l[1..], i);
      }
    }
  }

  /** The data holds a string where the schema grabs at a character that converts. */
  ghost predicate Grabbed(hits: Hits, t: Tree, j: Json, hydrate: Hydrate, l: Location, i: nat) {
    IsString(j, l) && i < |At(j, l).value.s| && hydrate([At(j, l).value.s[i]]).Some? && Grabs(hits, t, l, i)
  }

  lemma CaughtIsGrabbed(hits: Hits, t: Tree, j: Json, hydrate: Hydrate, n: nat, l: Location) returns (i: nat)
    requires Supported(hits, t) && CaughtAt(hits, t, j, hydrate, n, l)
    ensures Grabbed(hits, t, j, hydrate, l, i)
  {
    var p, stars := TokPaths(hits, t)[n], Plan(hits, t).starMap;
    assert p in TokPaths(hits, t);
    i :| i < |At(j, l).value.s| && hydrate([At(j, l).value.s[i]]).Some?
         && Enumerates(p[|l|..], "" + Render(p[..|l|]), stars, i);
    assert PathGrabs(p, "", stars, l, i);
    PlanAgrees(hits, t);
    PathsGrab(hits, t, "", stars, l, i);
  }

  lemma GrabbedIsCaught(hits: Hits, t: Tree, j: Json, hydrate: Hydrate, l: Location, i: nat) returns (n: nat)
    requires Supported(hits, t) && Grabbed(hits, t, j, hydrate, l, i)
    requires !(Convertible(j, l, hydrate) && l != [] && Visited(hits, t, l))
    ensures CaughtAt(hits, t, j, hydrate, n, l)
  {
    var ps, stars := TokPaths(hits, t), Plan(hits, t).starMap;
    PlanAgrees(hits, t);
    PathsGrab(hits, t, "", stars, l, i);
    var p :| p in ps && PathGrabs(p, "", stars, l, i);
    n :| 0 <= n < |ps| && ps[n] == p;
    assert ConvertsChar(At(j, l).value.s, p[|l|..], "" + Render(p[..|l|]), stars, hydrate);
    if l in ReachedBy(ps, stars, n) {
      var q :| q in ps[..n] && Reaches(q, "", stars, l);
      assert q in ps;
      PathsReachVisited(hits, t, "", stars, l);
    }
  }

  /** Hydration fails only where the schema grabs at a string of the data, and does fail there if that
      string is not one that is converted itself. */
  lemma ThrowsWhereGrabbed(hits: Hits, t: Tree, j: Json, hydrate: Hydrate)
    requires Supported(hits, t)
    ensures HydrationThrows(hits, t, j, hydrate) ==> exists l, i :: Grabbed(hits, t, j, hydrate, l, i)
    ensures forall l, i |
              Grabbed(hits, t, j, hydrate, l, i) && !(Convertible(j, l, hydrate) && l != [] && Visited(hits, t, l)) ::
              HydrationThrows(hits, t, j, hydrate)
  {
    if n: nat, l :| CaughtAt(hits, t, j, hydrate, n, l) {
      var i := CaughtIsGrabbed(hits, t, j, hydrate, n, l);
    }
    forall l, i | Grabbed(hits, t, j, hydrate, l, i) && !(Convertible(j, l, hydrate) && l != [] && Visited(hits, t, l))
      ensures HydrationThrows(hits, t, j, hydrate)
    {
      var n := GrabbedIsCaught(hits, t, j, hydrate, l, i);
    }
  }

  // ---- Data that the schema describes ----

  lemma {:induction false} ShapedGrabsNothing(hits: Hits, t: Tree, j: Json, l: Location, i: nat)
    requires Shaped(hits, t, j) && IsString(j, l)
    ensures !Grabs(hits, t, l, i)
    decreases t, 1
  {
    ShapedPartsGrabNothing(hits, t.parts, j, l, i);
  }

  lemma {:induction false} ShapedPartsGrabNothing(hits: Hits, parts: seq<Part>, j: Json, l: Location, i: nat)
    requires ShapedParts(hits, parts, j) && IsString(j, l)
    ensures !GrabsByParts(hits, parts, l, i)
    decreases parts, 0
  {
    if parts != [] {
      ShapedPartGrabsNothing(hits, parts[0], j, l, i);
      ShapedPartsGrabNothing(hits, parts[1..], j, l, i);
    }
  }

  lemma {:induction false} ShapedPartGrabsNothing(hits: Hits, p: Part, j: Json, l: Location, i: nat)
    requires ShapedPart(hits, p, j) && IsString(j, l)
    ensures !GrabsByPart(hits, p, l, i)
    decreases p, 2
  {
    if p.Sub? && p.step == [] {
      ShapedGrabsNothing(hits, p.child, j, l, i);
    } else if l == [] {
      if p.Dynamic? { NoPathsNoGrabs(hits, p.child, [], 0); NoPathsNoVisits(hits, p.child, []); }
    } else if GrabsByPart(hits, p, l, i) {
      match l[0] {
        case AtKey(k) => ShapedGrabsNothing(hits, p.child, j.fields[k], l[1..], i);
        case AtIndex(n) =>
          if p.Sub? {
            ShapedGrabsNothing(hits, p.child, j.items[n], l[1..], i);
          } else {
            NoPathsNoGrabs(hits, p.child, l[1..], i);
          }
      }
    }
  }

  lemma {:induction false} NoPathsNoGrabs(hits: Hits, t: Tree, l: Location, i: nat)
    requires Plan(hits, t).paths == []
    ensures !Grabs(hits, t, l, i)
    decreases t, 1
  {
    NoPathsNoPartGrabs(hits, t.parts, l, i);
  }

  lemma {:induction false} NoPathsNoPartGrabs(hits: Hits, parts: seq<Part>, l: Location, i: nat)
    requires PartsPlan(hits, parts).paths == []
    ensures !GrabsByParts(hits, parts, l, i)
    decreases parts, 0
  {
    if parts != [] {
      NoPathsNoPartGrabs(hits, parts[1..], l, i);
      NoPathsNoGrabs(hits, parts[0].child, l, i);
      if l != [] {
        NoPathsNoGrabs(hits, parts[0].child, l[1..], i);
      } else {
        NoPathsNoGrabs(hits, parts[0].child, [], 0);
        NoPathsNoVisits(hits, parts[0].child, []);
      }
    }
  }

  /** Data that the schema describes is hydrated without failure, at the marked places only. */
  lemma ShapedIsHydrated(hits: Hits, t: Tree, j: Json, hydrate: Hydrate)
    requires Supported(hits, t) && Shaped(hits, t, j)
    ensures !HydrationThrows(hits, t, j, hydrate) && !Misplaced(hits, t, j, hydrate)
  {
    forall l, i ensures !Grabbed(hits, t, j, hydrate, l, i) {
      if IsString(j, l) { ShapedGrabsNothing(hits, t, j, l, i); }
    }
    ThrowsWhereGrabbed(hits, t, j, hydrate);
    ShapedHasNoStray(hits, t, j, hydrate);
    MisplacedIsStray(hits, t, j, hydrate);
  }

  /** Hydrated data can be hydrated again, to no effect. */
  lemma HydratedIsFinished(hits: Hits, t: Tree, j: Json, hydrate: Hydrate)
    requires !HydrationThrows(hits, t, j, hydrate)
    ensures var m := ReachedLocations(hits, t);
            && !HydrationThrows(hits, t, Rewrite(j, m, hydrate), hydrate)
            && Rewrite(Rewrite(j, m, hydrate), m, hydrate) == Rewrite(j, m, hydrate)
  {
    var ps, stars, m := TokPaths(hits, t), Plan(hits, t).starMap, ReachedLocations(hits, t);
    forall n: nat, l ensures !CaughtAt(hits, t, Rewrite(j, m, hydrate), hydrate, n, l) {
      assert !CaughtAt(hits, t, j, hydrate, n, l);
      if n < |ps| {
        StuckAfter(j, m, ps[n], "", stars, hydrate, l);
        RewriteAt(j, m, hydrate, l);
        assert ps[..|ps|] == ps && forall p | p in ps[..n] :: p in ps;
      }
    }
    RewriteTwice(j, m, m, hydrate);
    assert m + m == m;
  }
}
