/** Several visitors, one after another: when their order matters. */
module HydrationVisitors {
  import opened Options
  import opened SchemaPlan
  import opened HydrationMeaning
  import opened HydrationPlans
  import opened HydrationReach
  import opened HydrationRuns
  import Hydration

  /** What one visitor does to the data: the locations that its paths reach, and its conversion. */
  datatype Pass = Pass(at: Locations, hydrate: Hydrate)

  ghost function Passed(j: Json, p: Pass): Json {
    Rewrite(j, p.at, p.hydrate)
  }

  predicate Disagree(s: string, f: Hydrate, g: Hydrate) {
    f(s).Some? && g(s).Some? && f(s) != g(s)
  }

  ghost predicate ContestedAt(j: Json, p: Pass, q: Pass, l: Location) {
    && l in p.at && l in q.at && At(j, l).Some? && At(j, l).value.String?
    && Disagree(At(j, l).value.s, p.hydrate, q.hydrate)
  }

  /** Both visitors convert some string, and to different things. */
  ghost predicate Contested(j: Json, p: Pass, q: Pass) {
    exists l :: ContestedAt(j, p, q, l)
  }

  ghost function BelowPass(p: Pass, s: Step): Pass {
    Pass(Below(p.at, s), p.hydrate)
  }

  lemma ContestedBelow(j: Json, p: Pass, q: Pass, s: Step)
    requires !Contested(j, p, q) && At(j, [s]).Some?
    ensures !Contested(At(j, [s]).value, BelowPass(p, s), BelowPass(q, s))
  {
    var v := At(j, [s]).value;
    assert [s][1..] == [];
    if l :| ContestedAt(v, BelowPass(p, s), BelowPass(q, s), l) {
      assert ([s] + l)[1..] == l;
      assert ContestedAt(j, p, q, [s] + l);
    }
  }

  ghost predicate Swapped(j: Json, p: Pass, q: Pass) {
    Passed(Passed(j, p), q) == Passed(Passed(j, q), p)
  }

  lemma ItemsSwapped(items: seq<Json>, p: Pass, q: Pass)
    requires forall i | 0 <= i < |items| :: Swapped(items[i], BelowPass(p, AtIndex(i)), BelowPass(q, AtIndex(i)))
    ensures Swapped(Array(items), p, q)
  {
    var a, b := Passed(Passed(Array(items), p), q), Passed(Passed(Array(items), q), p);
    forall i | 0 <= i < |items| ensures a.items[i] == b.items[i] {
      assert Swapped(items[i], BelowPass(p, AtIndex(i)), BelowPass(q, AtIndex(i)));
    }
    assert a.items == b.items;
  }

  ghost function FieldsPassed(fields: map<string, Json>, p: Pass): map<string, Json> {
    map k | k in fields :: Passed(fields[k], BelowPass(p, AtKey(k)))
  }

  lemma ObjectPassed(fields: map<string, Json>, p: Pass)
    ensures Passed(Object(fields), p) == Object(FieldsPassed(fields, p))
  {
  }

  lemma FieldsSwapped(fields: map<string, Json>, p: Pass, q: Pass)
    requires forall k | k in fields :: Swapped(fields[k], BelowPass(p, AtKey(k)), BelowPass(q, AtKey(k)))
    ensures Swapped(Object(fields), p, q)
  {
    var a, b := FieldsPassed(fields, p), FieldsPassed(fields, q);
    ObjectPassed(fields, p);
    ObjectPassed(fields, q);
    ObjectPassed(a, q);
    ObjectPassed(b, p);
    FieldsMeet(fields, p, q);
  }

  lemma FieldsMeet(fields: map<string, Json>, p: Pass, q: Pass)
    requires forall k | k in fields :: Swapped(fields[k], BelowPass(p, AtKey(k)), BelowPass(q, AtKey(k)))
    ensures FieldsPassed(FieldsPassed(fields, p), q) == FieldsPassed(FieldsPassed(fields, q), p)
  {
    forall k | k in fields
      ensures FieldsPassed(FieldsPassed(fields, p), q)[k] == FieldsPassed(FieldsPassed(fields, q), p)[k]
    {
      assert Swapped(fields[k], BelowPass(p, AtKey(k)), BelowPass(q, AtKey(k)));
    }
  }

  lemma {:induction false} UncontestedSwapped(j: Json, p: Pass, q: Pass)
    requires !Contested(j, p, q)
    ensures Swapped(j, p, q)
    decreases j
  {
    match j {
      case String(s) => assert !ContestedAt(j, p, q, []);
      case Array(items) =>
        forall i | 0 <= i < |items| ensures Swapped(items[i], BelowPass(p, AtIndex(i)), BelowPass(q, AtIndex(i))) {
          ContestedBelow(j, p, q, AtIndex(i));
          UncontestedSwapped(items[i], BelowPass(p, AtIndex(i)), BelowPass(q, AtIndex(i)));
        }
        ItemsSwapped(items, p, q);
      case Object(fields) =>
        forall k | k in fields ensures Swapped(fields[k], BelowPass(p, AtKey(k)), BelowPass(q, AtKey(k))) {
          ContestedBelow(j, p, q, AtKey(k));
          UncontestedSwapped(fields[k], BelowPass(p, AtKey(k)), BelowPass(q, AtKey(k)));
        }
        FieldsSwapped(fields, p, q);
      case _ =>
    }
  }

  /** Two visitors can be exchanged exactly when no string is contested. */
  lemma SwappedUnlessContested(j: Json, p: Pass, q: Pass)
    ensures Swapped(j, p, q) <==> !Contested(j, p, q)
  {
    if l :| ContestedAt(j, p, q, l) {
      ContestedDiffers(j, p, q, l);
    } else {
      UncontestedSwapped(j, p, q);
    }
  }

  /** The first of the two wins. */
  lemma ContestedDiffers(j: Json, p: Pass, q: Pass, l: Location)
    requires ContestedAt(j, p, q, l)
    ensures !Swapped(j, p, q)
  {
    RewriteAt(j, p.at, p.hydrate, l);
    RewriteAt(Passed(j, p), q.at, q.hydrate, l);
    RewriteAt(j, q.at, q.hydrate, l);
    RewriteAt(Passed(j, q), p.at, p.hydrate, l);
    var s := At(j, l).value.s;
    assert At(Passed(Passed(j, p), q), l) == Some(Hydrated(p.hydrate(s).value));
    assert At(Passed(Passed(j, q), p), l) == Some(Hydrated(q.hydrate(s).value));
  }

  /** Visitors leave no string that was not there. */
  lemma StillUncontested(j: Json, m: Pass, p: Pass, q: Pass)
    requires !Contested(j, p, q)
    ensures !Contested(Passed(j, m), p, q)
  {
    forall l ensures !ContestedAt(Passed(j, m), p, q, l) {
      RewriteAt(j, m.at, m.hydrate, l);
      assert !ContestedAt(j, p, q, l);
    }
  }

  // ---- Any number of visitors ----

  /** A visitor: what of the schema it looks for, and its conversion. */
  datatype Visit = Visit(hits: Hits, hydrate: Hydrate)

  ghost function PassOf(t: Tree, v: Visit): Pass {
    Pass(ReachedLocations(v.hits, t), v.hydrate)
  }

  /** The visitors one after another. */
  ghost function InTurn(t: Tree, visits: seq<Visit>, j: Json): Json {
    if visits == [] then j else Passed(InTurn(t, visits[..|visits| - 1], j), PassOf(t, visits[|visits| - 1]))
  }

  ghost predicate Compete(t: Tree, j: Json, v: Visit, w: Visit) {
    Contested(j, PassOf(t, v), PassOf(t, w))
  }

  lemma {:induction false} StillNoCompetition(t: Tree, visits: seq<Visit>, j: Json, v: Visit, w: Visit)
    requires !Compete(t, j, v, w)
    ensures !Compete(t, InTurn(t, visits, j), v, w)
  {
    if visits != [] {
      var init, last := visits[..|visits| - 1], visits[|visits| - 1];
      StillNoCompetition(t, init, j, v, w);
      StillUncontested(InTurn(t, init, j), PassOf(t, last), PassOf(t, v), PassOf(t, w));
    }
  }

  lemma InTurnSnoc(t: Tree, visits: seq<Visit>, v: Visit, j: Json)
    ensures InTurn(t, visits + [v], j) == Passed(InTurn(t, visits, j), PassOf(t, v))
  {
    assert (visits + [v])[..|visits|] == visits;
  }

  lemma {:induction false} MovedToTheEnd(t: Tree, j: Json, a: seq<Visit>, v: Visit, b: seq<Visit>)
    requires forall w | w in b :: !Compete(t, j, v, w)
    ensures InTurn(t, a + [v] + b, j) == InTurn(t, a + b + [v], j)
  {
    if b == [] {
      assert a + [v] + b == a + b + [v];
    } else {
      var init, w := b[..|b| - 1], b[|b| - 1];
      assert b == init + [w];
      MovedToTheEnd(t, j, a, v, init);
      assert a + [v] + b == (a + [v] + init) + [w] && a + b == (a + init) + [w];
      InTurnSnoc(t, a + [v] + init, w, j);
      InTurnSnoc(t, a + init, v, j);
      InTurnSnoc(t, a + init, w, j);
      InTurnSnoc(t, a + b, v, j);
      StillNoCompetition(t, a + init, j, v, w);
      UncontestedSwapped(InTurn(t, a + init, j), PassOf(t, v), PassOf(t, w));
    }
  }

  /** A rearrangement, around the last element. */
  lemma SplitAt<T>(xs: seq<T>, ys: seq<T>) returns (a: seq<T>, b: seq<T>)
    requires multiset(xs) == multiset(ys) && xs != []
    ensures ys == a + [xs[|xs| - 1]] + b && multiset(xs[..|xs| - 1]) == multiset(a + b)
  {
    var init, p := xs[..|xs| - 1], xs[|xs| - 1];
    assert xs == init + [p];
    assert p in multiset(ys);
    var k :| 0 <= k < |ys| && ys[k] == p;
    a, b := ys[..k], ys[k + 1..];
    assert ys == a + [p] + b;
    assert multiset(init) == multiset(xs) - multiset([p]);
    assert multiset(a + b) == multiset(ys) - multiset([p]);
  }

  lemma SameMember<T>(xs: seq<T>, ys: seq<T>, x: T)
    requires multiset(xs) == multiset(ys) && x in xs
    ensures x in ys
  {
    assert x in multiset(ys);
  }

  /** Visitors that contest no string may come in any order. */
  lemma {:induction false} InAnyOrder(t: Tree, xs: seq<Visit>, ys: seq<Visit>, j: Json)
    requires multiset(xs) == multiset(ys) && forall v, w | v in xs && w in xs :: !Compete(t, j, v, w)
    ensures InTurn(t, xs, j) == InTurn(t, ys, j)
    decreases |xs|
  {
    if xs == [] {
      assert |multiset(xs)| == |xs| && |multiset(ys)| == |ys|;
    } else {
      var init, v := xs[..|xs| - 1], xs[|xs| - 1];
      var a, b := SplitAt(xs, ys);
      forall w | w in b ensures w in xs {
        SameMember(ys, xs, w);
      }
      MovedToTheEnd(t, j, a, v, b);
      assert forall w | w in init :: w in xs;
      InAnyOrder(t, init, a + b, j);
      InTurnSnoc(t, a + b, v, j);
      assert xs == init + [v];
    }
  }

  // ---- Data that the schema describes ----

  /** Conversions keep data as the schema describes it. */
  lemma {:induction false} ShapedKept(hits: Hits, t: Tree, j: Json, m: Locations, hydrate: Hydrate)
    requires Shaped(hits, t, j)
    ensures Shaped(hits, t, Rewrite(j, m, hydrate))
    decreases t, 1
  {
    ShapedPartsKept(hits, t.parts, j, m, hydrate);
  }

  lemma {:induction false} ShapedPartsKept(hits: Hits, parts: seq<Part>, j: Json, m: Locations, hydrate: Hydrate)
    requires ShapedParts(hits, parts, j)
    ensures ShapedParts(hits, parts, Rewrite(j, m, hydrate))
    decreases parts, 0
  {
    if parts != [] {
      ShapedPartKept(hits, parts[0], j, m, hydrate);
      ShapedPartsKept(hits, parts[1..], j, m, hydrate);
    }
  }

  lemma {:induction false} ShapedPartKept(hits: Hits, p: Part, j: Json, m: Locations, hydrate: Hydrate)
    requires ShapedPart(hits, p, j)
    ensures ShapedPart(hits, p, Rewrite(j, m, hydrate))
    decreases p, 2
  {
    if p.Sub? && p.step == [] {
      ShapedKept(hits, p.child, j, m, hydrate);
    } else {
      match j {
        case Object(fields) =>
          forall k | k in fields && Shaped(hits, p.child, fields[k])
            ensures Shaped(hits, p.child, Rewrite(fields[k], Below(m, AtKey(k)), hydrate))
          {
            ShapedKept(hits, p.child, fields[k], Below(m, AtKey(k)), hydrate);
          }
        case Array(items) =>
          forall i: nat | i < |items| && Shaped(hits, p.child, items[i])
            ensures Shaped(hits, p.child, Rewrite(items[i], Below(m, AtIndex(i)), hydrate))
          {
            ShapedKept(hits, p.child, items[i], Below(m, AtIndex(i)), hydrate);
          }
        case _ =>
      }
    }
  }

  /** The visitors one after another, each at the locations that the schema marks for it. */
  ghost function MarkedInTurn(t: Tree, visits: seq<Visit>, j: Json): Json {
    if visits == [] then j
    else
      var v := visits[|visits| - 1];
      Rewrite(MarkedInTurn(t, visits[..|visits| - 1], j), MarkedLocations(v.hits, t), v.hydrate)
  }

  /** A visitor fails on what the ones before it have left. */
  ghost predicate VisitThrows(t: Tree, visits: seq<Visit>, j: Json, i: nat) {
    i < |visits| && HydrationThrows(visits[i].hits, t, InTurn(t, visits[..i], j), visits[i].hydrate)
  }

  ghost predicate ShapedForAll(t: Tree, visits: seq<Visit>, j: Json) {
    forall v | v in visits :: Supported(v.hits, t) && Shaped(v.hits, t, j)
  }

  lemma NextVisit(t: Tree, visits: seq<Visit>, j: Json, i: nat)
    requires i < |visits|
    ensures InTurn(t, visits[..i + 1], j) == Passed(InTurn(t, visits[..i], j), PassOf(t, visits[i]))
  {
    assert visits[..i + 1] == visits[..i] + [visits[i]];
    InTurnSnoc(t, visits[..i], visits[i], j);
  }

  /** A visitor without paths changes nothing. */
  lemma IdleVisit(t: Tree, visits: seq<Visit>, j: Json, i: nat)
    requires i < |visits| && Plan(visits[i].hits, t).paths == []
    ensures !VisitThrows(t, visits, j, i) && InTurn(t, visits[..i + 1], j) == InTurn(t, visits[..i], j)
  {
    var hits := visits[i].hits;
    PlanPaths(hits, t);
    assert |RenderAll(TokPaths(hits, t))| == 0;
    assert ReachedLocations(hits, t) == iset{};
    NextVisit(t, visits, j, i);
    RewriteNowhere(InTurn(t, visits[..i], j), iset{}, visits[i].hydrate);
    forall n: nat, l ensures !CaughtAt(hits, t, InTurn(t, visits[..i], j), visits[i].hydrate, n, l) {
    }
  }

  // ---- When a visitor fails, on the data as it was ----

  ghost predicate ConvertedBy(t: Tree, v: Visit, j: Json, l: Location) {
    Convertible(j, l, v.hydrate) && l in ReachedLocations(v.hits, t)
  }

  ghost predicate ConvertedBySome(t: Tree, visits: seq<Visit>, j: Json, l: Location) {
    exists v | v in visits :: ConvertedBy(t, v, j, l)
  }

  /** A string stays, as it is, exactly when it is not converted. */
  lemma StringAfter(j: Json, p: Pass, l: Location)
    ensures IsString(Passed(j, p), l) <==> IsString(j, l) && !(Convertible(j, l, p.hydrate) && l in p.at)
    ensures IsString(Passed(j, p), l) ==> At(Passed(j, p), l) == At(j, l)
  {
    RewriteAt(j, p.at, p.hydrate, l);
  }

  /** The strings that are left are those of the data that no visitor has converted. */
  lemma {:induction false} StringInTurn(t: Tree, visits: seq<Visit>, j: Json, l: Location)
    ensures IsString(InTurn(t, visits, j), l) <==> IsString(j, l) && !ConvertedBySome(t, visits, j, l)
    ensures IsString(InTurn(t, visits, j), l) ==> At(InTurn(t, visits, j), l) == At(j, l)
  {
    if visits != [] {
      var init, v := visits[..|visits| - 1], visits[|visits| - 1];
      StringInTurn(t, init, j, l);
      StringAfter(InTurn(t, init, j), PassOf(t, v), l);
      assert ConvertedBySome(t, visits, j, l) <==> ConvertedBySome(t, init, j, l) || ConvertedBy(t, v, j, l) by {
        assert forall w :: w in visits <==> w in init || w == v;
      }
    }
  }

  lemma CaughtInTurn(t: Tree, visits: seq<Visit>, j: Json, v: Visit, n: nat, l: Location)
    ensures CaughtAt(v.hits, t, InTurn(t, visits, j), v.hydrate, n, l) <==>
            CaughtAt(v.hits, t, j, v.hydrate, n, l) && !ConvertedBySome(t, visits, j, l)
  {
    StringInTurn(t, visits, j, l);
  }

  /** A visitor fails exactly when one of its paths is caught at a string of the data as it was, and no
      visitor before it has converted that string. */
  lemma VisitThrowsIff(t: Tree, visits: seq<Visit>, j: Json, i: nat)
    ensures VisitThrows(t, visits, j, i) <==>
            i < |visits| && exists n: nat, l :: CaughtAt(visits[i].hits, t, j, visits[i].hydrate, n, l)
                                                && !ConvertedBySome(t, visits[..i], j, l)
  {
    if i < |visits| {
      forall n: nat, l
        ensures CaughtAt(visits[i].hits, t, InTurn(t, visits[..i], j), visits[i].hydrate, n, l) <==>
                CaughtAt(visits[i].hits, t, j, visits[i].hydrate, n, l) && !ConvertedBySome(t, visits[..i], j, l)
      {
        CaughtInTurn(t, visits[..i], j, visits[i], n, l);
      }
    }
  }

  lemma {:induction false} ShapedAfter(hits: Hits, t: Tree, visits: seq<Visit>, j: Json)
    requires Shaped(hits, t, j)
    ensures Shaped(hits, t, InTurn(t, visits, j))
  {
    if visits != [] {
      var init, p := visits[..|visits| - 1], PassOf(t, visits[|visits| - 1]);
      ShapedAfter(hits, t, init, j);
      ShapedKept(hits, t, InTurn(t, init, j), p.at, p.hydrate);
    }
  }

  /** On data that the schema describes no visitor fails. */
  lemma ShapedVisitsSucceed(t: Tree, visits: seq<Visit>, j: Json, i: nat)
    requires ShapedForAll(t, visits, j)
    ensures !VisitThrows(t, visits, j, i)
  {
    if i < |visits| {
      ShapedAfter(visits[i].hits, t, visits[..i], j);
      ShapedIsHydrated(visits[i].hits, t, InTurn(t, visits[..i], j), visits[i].hydrate);
    }
  }

  /** And each converts what is marked for it. */
  lemma {:induction false} ShapedInTurn(t: Tree, visits: seq<Visit>, j: Json)
    requires ShapedForAll(t, visits, j)
    ensures InTurn(t, visits, j) == MarkedInTurn(t, visits, j)
  {
    if visits != [] {
      var init, v := visits[..|visits| - 1], visits[|visits| - 1];
      ShapedInTurn(t, init, j);
      ShapedAfter(v.hits, t, init, j);
      ShapedIsHydrated(v.hits, t, InTurn(t, init, j), v.hydrate);
      ReachedUnlessMisplaced(v.hits, t, InTurn(t, init, j), v.hydrate);
    }
  }

  /** The visitor of a name, as its envelope in the plan has it. */
  ghost predicate Ready(t: Tree, plan: map<string, Envelope>, name: string, hydrates: string -> Hydrate, v: Visit) {
    name in plan && plan[name] == Plan(v.hits, t) && v.hydrate == hydrates(name) && Expressible(v.hits, t)
  }

  ghost predicate AllReady(t: Tree, plan: map<string, Envelope>, names: seq<string>, hydrates: string -> Hydrate,
      visits: seq<Visit>) {
    |visits| == |names| && forall i | 0 <= i < |names| :: Ready(t, plan, names[i], hydrates, visits[i])
  }

  /** The data is what the first n visitors make of it, and none of them has failed. */
  ghost predicate Stands(data: Hydration.JsonData, t: Tree, visits: seq<Visit>, was: Json, n: nat)
    reads data
  {
    && data.Valid() && n <= |visits| && data.Value() == InTurn(t, visits[..n], was)
    && forall k: nat | k < n :: !VisitThrows(t, visits, was, k)
  }

  /** One visitor's turn; without paths it has none. */
  method TakeTurn(data: Hydration.JsonData, plan: map<string, Envelope>, name: string, hydrates: string -> Hydrate,
      ghost t: Tree, ghost visits: seq<Visit>, ghost was: Json, ghost i: nat) returns (ok: bool)
    requires i < |visits| && Ready(t, plan, name, hydrates, visits[i]) && Stands(data, t, visits, was, i)
    modifies data
    ensures if ok then Stands(data, t, visits, was, i + 1) else data.Valid() && VisitThrows(t, visits, was, i)
  {
    if plan[name].paths == [] {
      IdleVisit(t, visits, was, i);
      return true;
    }
    NextVisit(t, visits, was, i);
    ok := data.ApplyHydration(plan[name], hydrates(name), visits[i].hits, t);
  }

  /** One visitor after another, until one fails. */
  method HydrateInTurn(data: Hydration.JsonData, plan: map<string, Envelope>, names: seq<string>,
      hydrates: string -> Hydrate, ghost t: Tree, ghost visits: seq<Visit>) returns (ok: bool)
    requires data.Valid() && AllReady(t, plan, names, hydrates, visits)
    modifies data
    ensures data.Valid() && (ok <==> forall i: nat :: !VisitThrows(t, visits, old(data.Value()), i))
    ensures ok ==> data.Value() == InTurn(t, visits, old(data.Value()))
  {
    ghost var was := data.Value();
    for i := 0 to |names|
      invariant Stands(data, t, visits, was, i)
    {
      ok := TakeTurn(data, plan, names[i], hydrates, t, visits, was, i);
      if !ok {
        return;
      }
    }
    assert visits[..|names|] == visits;
    ok := true;
  }
}
