/** What the paths of a plan do to JSON data, location by location, and where they fail. */
module HydrationReach {
  import opened Options
  import opened SchemaPlan
  import opened HydrationPaths
  import opened HydrationMeaning
  import opened HydrationPlans

  ghost function Reached(p: seq<Tok>, prefix: string, stars: StarMap): Locations {
    iset l: Location | Reaches(p, prefix, stars, l)
  }

  // ---- Paths that fail ----

  /** Interpreting the path assigns to a character: `*` enumerates the indices of a string as well,
      and strings are read-only. */
  ghost predicate Throws(j: Json, p: seq<Tok>, prefix: string, stars: StarMap, hydrate: Hydrate)
    decreases p, 0
  {
    p != [] &&
    var next := prefix + RenderTok(p[0]);
    match p[0]
    case Star =>
      var exclude := Excluded(stars, next);
      (match j
       case String(s) => CharsThrow(s, exclude, p[1..], next, stars, hydrate)
       case Array(items) => ItemsThrow(items, exclude, p[1..], next, stars, hydrate)
       case Object(fields) => FieldsThrow(fields, exclude, p[1..], next, stars, hydrate)
       case _ => false)
    case Key(k) => j.Object? && k in j.fields && Throws(j.fields[k], p[1..], next, stars, hydrate)
    case All => j.Array? && ItemsThrow(j.items, [], p[1..], next, stars, hydrate)
    case Idx(i) => j.Array? && i < |j.items| && Throws(j.items[i], p[1..], next, stars, hydrate)
  }

  /** The key of an index is excluded. */
  predicate Skips(exclude: seq<string>, i: nat) {
    Decimal(i) in exclude
  }

  ghost predicate ItemsThrow(items: seq<Json>, exclude: seq<string>, p: seq<Tok>, prefix: string, stars: StarMap,
      hydrate: Hydrate)
    decreases p, 1
  {
    exists i: nat | i < |items| && !Skips(exclude, i) :: Throws(items[i], p, prefix, stars, hydrate)
  }

  ghost predicate FieldsThrow(fields: map<string, Json>, exclude: seq<string>, p: seq<Tok>, prefix: string,
      stars: StarMap, hydrate: Hydrate)
    decreases p, 1
  {
    exists k | k in fields && k !in exclude :: Throws(fields[k], p, prefix, stars, hydrate)
  }

  ghost predicate CharThrows(c: char, p: seq<Tok>, prefix: string, stars: StarMap, hydrate: Hydrate)
    decreases p, 1
  {
    if p == [] then hydrate([c]).Some? else Throws(String([c]), p, prefix, stars, hydrate)
  }

  ghost predicate CharsThrow(s: string, exclude: seq<string>, p: seq<Tok>, prefix: string, stars: StarMap,
      hydrate: Hydrate)
    decreases p, 2
  {
    exists i: nat | i < |s| && !Skips(exclude, i) :: CharThrows(s[i], p, prefix, stars, hydrate)
  }

  // ---- Locations reached below one data step ----

  lemma ReachedBelow(p: seq<Tok>, prefix: string, stars: StarMap, s: Step)
    requires p != []
    ensures [] !in Reached(p, prefix, stars)
    ensures Below(Reached(p, prefix, stars), s)
         == if (if p[0].Star? then KeyOf(s) !in Excluded(stars, prefix + ".*") else Fits(p[0], s))
            then Reached(p[1..], prefix + RenderTok(p[0]), stars)
            else iset{}
  {
    forall l: Location ensures ([s] + l)[0] == s && ([s] + l)[1..] == l {
    }
  }

  /** A value that is no container to step into stays as it is. */
  lemma NoStepNoChange(j: Json, m: Locations, hydrate: Hydrate)
    requires [] !in m
    requires j.Object? ==> forall k | k in j.fields :: Below(m, AtKey(k)) == iset{}
    requires j.Array? ==> forall i: nat | i < |j.items| :: Below(m, AtIndex(i)) == iset{}
    ensures Rewrite(j, m, hydrate) == j
  {
    match j {
      case Array(items) =>
        forall i: nat | i < |items| ensures Rewrite(items[i], Below(m, AtIndex(i)), hydrate) == items[i] {
          RewriteNowhere(items[i], Below(m, AtIndex(i)), hydrate);
        }
      case Object(fields) =>
        forall k | k in fields ensures Rewrite(fields[k], Below(m, AtKey(k)), hydrate) == fields[k] {
          RewriteNowhere(fields[k], Below(m, AtKey(k)), hydrate);
        }
      case _ =>
    }
  }

  /** Rewriting the value under one key. */
  lemma KeyRewritten(fields: map<string, Json>, k: string, p: seq<Tok>, prefix: string, stars: StarMap,
      hydrate: Hydrate)
    requires p != [] && p[0] == Key(k) && k in fields
    ensures Rewrite(Object(fields), Reached(p, prefix, stars), hydrate)
         == Object(fields[k := Rewrite(fields[k], Reached(p[1..], prefix + RenderTok(p[0]), stars), hydrate)])
  {
    forall k' | k' in fields
      ensures Rewrite(fields[k'], Below(Reached(p, prefix, stars), AtKey(k')), hydrate)
           == if k' == k then Rewrite(fields[k], Reached(p[1..], prefix + RenderTok(p[0]), stars), hydrate)
               else fields[k']
    {
      ReachedBelow(p, prefix, stars, AtKey(k'));
      if k' != k {
        RewriteNowhere(fields[k'], iset{}, hydrate);
      }
    }
  }

  /** The first n elements rewritten, save those whose index is excluded. */
  ghost function PartlyItems(was: seq<Json>, exclude: seq<string>, m: Locations, hydrate: Hydrate, n: nat): seq<Json> {
    seq(|was|, i requires 0 <= i < |was| => if i < n && !Skips(exclude, i) then Rewrite(was[i], m, hydrate) else was[i])
  }

  lemma PartlyItemsStep(was: seq<Json>, exclude: seq<string>, m: Locations, hydrate: Hydrate, i: nat)
    requires i < |was|
    ensures PartlyItems(was, exclude, m, hydrate, i)[i] == was[i]
    ensures PartlyItems(was, exclude, m, hydrate, i + 1)
         == if Skips(exclude, i) then PartlyItems(was, exclude, m, hydrate, i)
            else PartlyItems(was, exclude, m, hydrate, i)[i := Rewrite(was[i], m, hydrate)]
  {
  }

  /** Rewriting the elements of an array: all of them, or those whose index is not excluded. */
  lemma ItemsRewritten(items: seq<Json>, exclude: seq<string>, p: seq<Tok>, prefix: string, stars: StarMap,
      hydrate: Hydrate)
    requires p != []
    requires (p[0].All? && exclude == []) || (p[0].Star? && exclude == Excluded(stars, prefix + ".*"))
    ensures Rewrite(Array(items), Reached(p, prefix, stars), hydrate)
         == Array(PartlyItems(items, exclude, Reached(p[1..], prefix + RenderTok(p[0]), stars), hydrate, |items|))
  {
    var m := Reached(p[1..], prefix + RenderTok(p[0]), stars);
    forall i: nat | i < |items|
      ensures Rewrite(items[i], Below(Reached(p, prefix, stars), AtIndex(i)), hydrate)
           == PartlyItems(items, exclude, m, hydrate, |items|)[i]
    {
      ReachedBelow(p, prefix, stars, AtIndex(i));
      if Skips(exclude, i) {
        RewriteNowhere(items[i], iset{}, hydrate);
      }
    }
  }

  lemma ItemRewritten(items: seq<Json>, p: seq<Tok>, prefix: string, stars: StarMap, hydrate: Hydrate)
    requires p != [] && p[0].Idx?
    ensures Rewrite(Array(items), Reached(p, prefix, stars), hydrate)
         == if p[0].i < |items|
            then Array(items[p[0].i := Rewrite(items[p[0].i], Reached(p[1..], prefix + RenderTok(p[0]), stars),
                hydrate)])
            else Array(items)
  {
    forall i | 0 <= i < |items|
      ensures Rewrite(items[i], Below(Reached(p, prefix, stars), AtIndex(i)), hydrate)
           == if i == p[0].i then Rewrite(items[i], Reached(p[1..], prefix + RenderTok(p[0]), stars), hydrate)
               else items[i]
    {
      ReachedBelow(p, prefix, stars, AtIndex(i));
      if i != p[0].i {
        RewriteNowhere(items[i], iset{}, hydrate);
      }
    }
  }

  lemma FieldsRewritten(fields: map<string, Json>, now: map<string, Json>, p: seq<Tok>, prefix: string,
      stars: StarMap, hydrate: Hydrate)
    requires p != [] && p[0].Star? && now.Keys == fields.Keys
    requires forall k | k in fields ::
               now[k] == if k in Excluded(stars, prefix + ".*") then fields[k]
                         else Rewrite(fields[k], Reached(p[1..], prefix + RenderTok(p[0]), stars), hydrate)
    ensures Rewrite(Object(fields), Reached(p, prefix, stars), hydrate) == Object(now)
  {
    forall k | k in fields ensures Rewrite(fields[k], Below(Reached(p, prefix, stars), AtKey(k)), hydrate) == now[k] {
      ReachedBelow(p, prefix, stars, AtKey(k));
      if k in Excluded(stars, prefix + ".*") {
        RewriteNowhere(fields[k], iset{}, hydrate);
      }
    }
  }

  lemma RootOnly(j: Json, prefix: string, stars: StarMap, hydrate: Hydrate)
    requires !j.String?
    ensures Rewrite(j, Reached([], prefix, stars), hydrate) == j
  {
    var m := Reached([], prefix, stars);
    forall s: Step ensures Below(m, s) == iset{} {
    }
    match j {
      case Array(_) => NoStepNoChange(j, m - iset{[]}, hydrate);
      case Object(_) => NoStepNoChange(j, m - iset{[]}, hydrate);
      case _ =>
    }
  }

  lemma ScalarKept(j: Json, p: seq<Tok>, prefix: string, stars: StarMap, hydrate: Hydrate)
    requires p != [] && !j.Array? && !j.Object?
    ensures Rewrite(j, Reached(p, prefix, stars), hydrate) == j
  {
  }

  lemma KeyMissing(j: Json, p: seq<Tok>, prefix: string, stars: StarMap, hydrate: Hydrate)
    requires p != [] && p[0].Key? && (j.Object? ==> p[0].name !in j.fields)
    ensures Rewrite(j, Reached(p, prefix, stars), hydrate) == j
  {
    forall s: Step | s != AtKey(p[0].name) ensures Below(Reached(p, prefix, stars), s) == iset{} {
      ReachedBelow(p, prefix, stars, s);
    }
    ReachedBelow(p, prefix, stars, AtIndex(0));
    NoStepNoChange(j, Reached(p, prefix, stars), hydrate);
  }

  lemma ArrayMissing(j: Json, p: seq<Tok>, prefix: string, stars: StarMap, hydrate: Hydrate)
    requires p != [] && (p[0].All? || p[0].Idx?) && !j.Array?
    ensures Rewrite(j, Reached(p, prefix, stars), hydrate) == j
  {
    forall s: Step | s.AtKey? ensures Below(Reached(p, prefix, stars), s) == iset{} {
      ReachedBelow(p, prefix, stars, s);
    }
    ReachedBelow(p, prefix, stars, AtKey(""));
    NoStepNoChange(j, Reached(p, prefix, stars), hydrate);
  }

  // ---- One path after another ----

  /** Converting strings makes no path fail. */
  lemma {:induction false} ThrowsLess(j: Json, m: Locations, hydrate: Hydrate, p: seq<Tok>, prefix: string,
      stars: StarMap)
    requires Throws(Rewrite(j, m, hydrate), p, prefix, stars, hydrate)
    ensures Throws(j, p, prefix, stars, hydrate)
    decreases p, 0
  {
    var next := prefix + RenderTok(p[0]);
    match j {
      case Object(fields) =>
        forall k | k in fields && Throws(Rewrite(fields[k], Below(m, AtKey(k)), hydrate), p[1..], next, stars, hydrate)
          ensures Throws(fields[k], p[1..], next, stars, hydrate)
        {
          ThrowsLess(fields[k], Below(m, AtKey(k)), hydrate, p[1..], next, stars);
        }
      case Array(items) =>
        forall i: nat | i < |items| && Throws(Rewrite(items[i], Below(m, AtIndex(i)), hydrate), p[1..], next, stars,
            hydrate)
          ensures Throws(items[i], p[1..], next, stars, hydrate)
        {
          ThrowsLess(items[i], Below(m, AtIndex(i)), hydrate, p[1..], next, stars);
        }
      case _ =>
    }
  }

  /** The locations reached by the first n paths, the root excepted. */
  ghost function ReachedBy(ps: seq<seq<Tok>>, stars: StarMap, n: nat): Locations {
    var first := ps[..if n <= |ps| then n else |ps|];
    iset l: Location | l != [] && SomeReaches(first, "", stars, l)
  }

  lemma ReachedByNext(ps: seq<seq<Tok>>, stars: StarMap, n: nat)
    requires n < |ps|
    ensures ps[n] == [] ==> ReachedBy(ps, stars, n + 1) == ReachedBy(ps, stars, n)
    ensures ps[n] != [] ==> ReachedBy(ps, stars, n + 1) == ReachedBy(ps, stars, n) + Reached(ps[n], "", stars)
  {
    assert ps[..n + 1] == ps[..n] + [ps[n]];
    assert forall p :: p in ps[..n + 1] <==> p in ps[..n] || p == ps[n];
    if ps[n] != [] {
      ReachedBelow(ps[n], "", stars, AtIndex(0));
    }
  }

  lemma RewrittenNext(j: Json, ps: seq<seq<Tok>>, stars: StarMap, hydrate: Hydrate, n: nat)
    requires n < |ps|
    ensures Rewrite(j, ReachedBy(ps, stars, n + 1), hydrate)
         == var before := Rewrite(j, ReachedBy(ps, stars, n), hydrate);
            if ps[n] == [] then before else Rewrite(before, Reached(ps[n], "", stars), hydrate)
  {
    ReachedByNext(ps, stars, n);
    RewriteTwice(j, ReachedBy(ps, stars, n), Reached(ps[n], "", stars), hydrate);
  }

  /** The path that fails, if one does: the paths before it have converted their strings by then. */
  ghost predicate ThrowsAt(j: Json, ps: seq<seq<Tok>>, stars: StarMap, hydrate: Hydrate, i: nat) {
    i < |ps| && Throws(Rewrite(j, ReachedBy(ps, stars, i), hydrate), ps[i], "", stars, hydrate)
  }

  ghost predicate SomeThrows(j: Json, ps: seq<seq<Tok>>, stars: StarMap, hydrate: Hydrate) {
    exists i: nat :: ThrowsAt(j, ps, stars, hydrate, i)
  }

  // ---- Where paths fail, on the data as it was ----

  /** Nothing but `*` is left of the path, and it comes to the i-th character of a string, and then to that
      character alone, which is a string again. */
  predicate Enumerates(rest: seq<Tok>, prefix: string, stars: StarMap, i: nat)
    decreases rest
  {
    rest == [] ||
    (rest[0].Star? && !Skips(Excluded(stars, prefix + ".*"), i) && Enumerates(rest[1..], prefix + ".*", stars, 0))
  }

  ghost predicate ConvertsChar(x: string, rest: seq<Tok>, prefix: string, stars: StarMap, hydrate: Hydrate) {
    exists i: nat :: i < |x| && hydrate([x[i]]).Some? && Enumerates(rest, prefix, stars, i)
  }

  predicate IsString(j: Json, l: Location) {
    At(j, l).Some? && At(j, l).value.String?
  }

  /** The path reaches a string with nothing but `*` left, and one of the characters converts. */
  ghost predicate Stuck(j: Json, p: seq<Tok>, prefix: string, stars: StarMap, hydrate: Hydrate, l: Location) {
    && |l| < |p| && Reaches(p[..|l|], prefix, stars, l) && IsString(j, l)
    && ConvertsChar(At(j, l).value.s, p[|l|..], prefix + Render(p[..|l|]), stars, hydrate)
  }

  predicate StepsTo(t: Tok, prefix: string, stars: StarMap, s: Step) {
    if t.Star? then KeyOf(s) !in Excluded(stars, prefix + ".*") else Fits(t, s)
  }

  lemma {:induction false} CharThrowsIff(c: char, p: seq<Tok>, prefix: string, stars: StarMap, hydrate: Hydrate)
    ensures CharThrows(c, p, prefix, stars, hydrate) <==> hydrate([c]).Some? && Enumerates(p, prefix, stars, 0)
    decreases p
  {
    if p != [] && p[0].Star? {
      CharThrowsIff(c, p[1..], prefix + ".*", stars, hydrate);
      var exclude := Excluded(stars, prefix + ".*");
      assert [c][0] == c;
      assert CharsThrow([c], exclude, p[1..], prefix + ".*", stars, hydrate)
             <==> !Skips(exclude, 0) && CharThrows(c, p[1..], prefix + ".*", stars, hydrate);
    }
  }

  lemma StringThrowsIff(x: string, p: seq<Tok>, prefix: string, stars: StarMap, hydrate: Hydrate)
    requires p != []
    ensures Throws(String(x), p, prefix, stars, hydrate) <==> ConvertsChar(x, p, prefix, stars, hydrate)
  {
    if p[0].Star? {
      var exclude, next := Excluded(stars, prefix + ".*"), prefix + ".*";
      forall i: nat | i < |x|
        ensures CharThrows(x[i], p[1..], next, stars, hydrate)
                <==> hydrate([x[i]]).Some? && Enumerates(p[1..], next, stars, 0)
      {
        CharThrowsIff(x[i], p[1..], next, stars, hydrate);
      }
      if CharsThrow(x, exclude, p[1..], next, stars, hydrate) {
        var i: nat :| i < |x| && !Skips(exclude, i) && CharThrows(x[i], p[1..], next, stars, hydrate);
        assert Enumerates(p, prefix, stars, i);
      }
    }
  }

  /** The path fails below a step that it takes. */
  ghost predicate ThrowsBelow(j: Json, p: seq<Tok>, prefix: string, stars: StarMap, hydrate: Hydrate, s: Step)
    requires p != []
  {
    && StepsTo(p[0], prefix, stars, s) && At(j, [s]).Some?
    && Throws(At(j, [s]).value, p[1..], prefix + RenderTok(p[0]), stars, hydrate)
  }

  lemma ObjectThrowsIff(fields: map<string, Json>, p: seq<Tok>, prefix: string, stars: StarMap, hydrate: Hydrate)
    requires p != []
    ensures Throws(Object(fields), p, prefix, stars, hydrate)
            <==> exists s :: ThrowsBelow(Object(fields), p, prefix, stars, hydrate, s)
  {
    forall s: Step ensures [s][1..] == [] {
    }
    forall k | k in fields
      ensures ThrowsBelow(Object(fields), p, prefix, stars, hydrate, AtKey(k)) <==>
              && StepsTo(p[0], prefix, stars, AtKey(k))
              && Throws(fields[k], p[1..], prefix + RenderTok(p[0]), stars, hydrate)
    {
      assert At(Object(fields), [AtKey(k)]) == Some(fields[k]);
    }
  }

  lemma ItemBelow(items: seq<Json>, p: seq<Tok>, prefix: string, stars: StarMap, hydrate: Hydrate, i: nat)
    requires p != []
    ensures ThrowsBelow(Array(items), p, prefix, stars, hydrate, AtIndex(i)) <==>
            && StepsTo(p[0], prefix, stars, AtIndex(i)) && i < |items|
            && Throws(items[i], p[1..], prefix + RenderTok(p[0]), stars, hydrate)
  {
    assert [AtIndex(i)][1..] == [];
    if i < |items| {
      assert At(Array(items), [AtIndex(i)]) == Some(items[i]);
    }
  }

  lemma SomeItemThrows(items: seq<Json>, p: seq<Tok>, prefix: string, stars: StarMap, hydrate: Hydrate) returns (i: nat)
    requires p != [] && Throws(Array(items), p, prefix, stars, hydrate)
    ensures ThrowsBelow(Array(items), p, prefix, stars, hydrate, AtIndex(i))
  {
    var next := prefix + RenderTok(p[0]);
    match p[0] {
      case Idx(k) => i := k;
      case All => i :| i < |items| && Throws(items[i], p[1..], next, stars, hydrate);
      case Star =>
        i :| i < |items| && !Skips(Excluded(stars, next), i) && Throws(items[i], p[1..], next, stars, hydrate);
    }
    ItemBelow(items, p, prefix, stars, hydrate, i);
  }

  lemma ItemThrows(items: seq<Json>, p: seq<Tok>, prefix: string, stars: StarMap, hydrate: Hydrate, s: Step)
    requires p != [] && ThrowsBelow(Array(items), p, prefix, stars, hydrate, s)
    ensures Throws(Array(items), p, prefix, stars, hydrate)
  {
    ItemBelow(items, p, prefix, stars, hydrate, s.index);
  }

  lemma ArrayThrowsIff(items: seq<Json>, p: seq<Tok>, prefix: string, stars: StarMap, hydrate: Hydrate)
    requires p != []
    ensures Throws(Array(items), p, prefix, stars, hydrate)
            <==> exists s :: ThrowsBelow(Array(items), p, prefix, stars, hydrate, s)
  {
    if Throws(Array(items), p, prefix, stars, hydrate) {
      var i := SomeItemThrows(items, p, prefix, stars, hydrate);
    }
    if s :| ThrowsBelow(Array(items), p, prefix, stars, hydrate, s) {
      ItemThrows(items, p, prefix, stars, hydrate, s);
    }
  }

  lemma StuckHere(j: Json, p: seq<Tok>, prefix: string, stars: StarMap, hydrate: Hydrate)
    ensures Stuck(j, p, prefix, stars, hydrate, [])
            <==> p != [] && j.String? && ConvertsChar(j.s, p, prefix, stars, hydrate)
  {
    if p != [] {
      assert p[..0] == [] && p[0..] == p && prefix + Render([]) == prefix;
    }
  }

  lemma StuckBelow(j: Json, p: seq<Tok>, prefix: string, stars: StarMap, hydrate: Hydrate, s: Step, l: Location)
    requires p != []
    ensures Stuck(j, p, prefix, stars, hydrate, [s] + l) <==>
            && StepsTo(p[0], prefix, stars, s) && At(j, [s]).Some?
            && Stuck(At(j, [s]).value, p[1..], prefix + RenderTok(p[0]), stars, hydrate, l)
  {
    var m, next := [s] + l, prefix + RenderTok(p[0]);
    assert m[0] == s && m[1..] == l && [s][1..] == [];
    if |m| < |p| {
      var q := p[..|m|];
      assert q[0] == p[0] && q[1..] == p[1..][..|l|] && p[|m|..] == p[1..][|l|..];
      Regrouped(prefix, RenderTok(p[0]), Render(q[1..]));
    }
  }

  lemma Regrouped(a: string, b: string, c: string)
    ensures a + (b + c) == (a + b) + c
  {
  }

  /** Interpreting one path fails exactly when it is stuck at some string of the data. */
  lemma {:induction false} ThrowsIfStuck(j: Json, p: seq<Tok>, prefix: string, stars: StarMap, hydrate: Hydrate)
    ensures Throws(j, p, prefix, stars, hydrate) <==> exists l :: Stuck(j, p, prefix, stars, hydrate, l)
    decreases p, 2
  {
    if p != [] {
      StuckHere(j, p, prefix, stars, hydrate);
      if j.String? {
        StringThrowsIff(j.s, p, prefix, stars, hydrate);
        forall l | l != [] ensures !Stuck(j, p, prefix, stars, hydrate, l) {
        }
      } else {
        ContainerThrowsIff(j, p, prefix, stars, hydrate);
        ContainerStuckIff(j, p, prefix, stars, hydrate);
      }
    }
  }

  lemma ContainerThrowsIff(j: Json, p: seq<Tok>, prefix: string, stars: StarMap, hydrate: Hydrate)
    requires p != [] && !j.String?
    ensures Throws(j, p, prefix, stars, hydrate) <==> exists s :: ThrowsBelow(j, p, prefix, stars, hydrate, s)
  {
    match j {
      case Object(fields) => ObjectThrowsIff(fields, p, prefix, stars, hydrate);
      case Array(items) => ArrayThrowsIff(items, p, prefix, stars, hydrate);
      case _ =>
    }
  }

  lemma {:induction false} StuckFromBelow(j: Json, p: seq<Tok>, prefix: string, stars: StarMap, hydrate: Hydrate,
      s: Step)
    returns (l: Location)
    requires p != [] && ThrowsBelow(j, p, prefix, stars, hydrate, s)
    ensures Stuck(j, p, prefix, stars, hydrate, l)
    decreases p, 0
  {
    var v, next := At(j, [s]).value, prefix + RenderTok(p[0]);
    ThrowsIfStuck(v, p[1..], next, stars, hydrate);
    var m :| Stuck(v, p[1..], next, stars, hydrate, m);
    StuckBelow(j, p, prefix, stars, hydrate, s, m);
    l := [s] + m;
  }

  lemma {:induction false} BelowFromStuck(j: Json, p: seq<Tok>, prefix: string, stars: StarMap, hydrate: Hydrate,
      s: Step, l: Location)
    requires p != [] && Stuck(j, p, prefix, stars, hydrate, [s] + l)
    ensures ThrowsBelow(j, p, prefix, stars, hydrate, s)
    decreases p, 0
  {
    StuckBelow(j, p, prefix, stars, hydrate, s, l);
    ThrowsIfStuck(At(j, [s]).value, p[1..], prefix + RenderTok(p[0]), stars, hydrate);
  }

  lemma {:induction false} ContainerStuckIff(j: Json, p: seq<Tok>, prefix: string, stars: StarMap, hydrate: Hydrate)
    requires p != [] && !j.String?
    ensures (exists l :: Stuck(j, p, prefix, stars, hydrate, l))
            <==> exists s :: ThrowsBelow(j, p, prefix, stars, hydrate, s)
    decreases p, 1
  {
    if s :| ThrowsBelow(j, p, prefix, stars, hydrate, s) {
      var l := StuckFromBelow(j, p, prefix, stars, hydrate, s);
    }
    if l :| Stuck(j, p, prefix, stars, hydrate, l) {
      StuckHere(j, p, prefix, stars, hydrate);
      assert l == [l[0]] + l[1..];
      BelowFromStuck(j, p, prefix, stars, hydrate, l[0], l[1..]);
    }
  }

  // Paths one after another

  /** The i-th path is stuck at a string that no path before it has converted. */
  ghost predicate Caught(j: Json, ps: seq<seq<Tok>>, stars: StarMap, hydrate: Hydrate, i: nat, l: Location) {
    && i < |ps| && Stuck(j, ps[i], "", stars, hydrate, l)
    && !(Convertible(j, l, hydrate) && l in ReachedBy(ps, stars, i))
  }

  lemma StuckAfter(j: Json, m: Locations, p: seq<Tok>, prefix: string, stars: StarMap, hydrate: Hydrate, l: Location)
    ensures Stuck(Rewrite(j, m, hydrate), p, prefix, stars, hydrate, l)
            <==> Stuck(j, p, prefix, stars, hydrate, l) && !(Convertible(j, l, hydrate) && l in m)
  {
    RewriteAt(j, m, hydrate, l);
  }

  lemma ThrowsAtIfCaught(j: Json, ps: seq<seq<Tok>>, stars: StarMap, hydrate: Hydrate, i: nat)
    ensures ThrowsAt(j, ps, stars, hydrate, i) <==> exists l :: Caught(j, ps, stars, hydrate, i, l)
  {
    if i < |ps| {
      var m := ReachedBy(ps, stars, i);
      ThrowsIfStuck(Rewrite(j, m, hydrate), ps[i], "", stars, hydrate);
      forall l ensures Stuck(Rewrite(j, m, hydrate), ps[i], "", stars, hydrate, l)
                       <==> Caught(j, ps, stars, hydrate, i, l) {
        StuckAfter(j, m, ps[i], "", stars, hydrate, l);
      }
    }
  }

  /** Some path of the list fails exactly when one is caught at a string of the data. */
  lemma SomeThrowsIfCaught(j: Json, ps: seq<seq<Tok>>, stars: StarMap, hydrate: Hydrate)
    ensures SomeThrows(j, ps, stars, hydrate) <==> exists i: nat, l :: Caught(j, ps, stars, hydrate, i, l)
  {
    if i: nat :| ThrowsAt(j, ps, stars, hydrate, i) {
      ThrowsAtIfCaught(j, ps, stars, hydrate, i);
    }
    if i: nat, l :| Caught(j, ps, stars, hydrate, i, l) {
      ThrowsAtIfCaught(j, ps, stars, hydrate, i);
    }
  }

  // ---- Visiting the keys of an object one by one ----

  /** The fields rewritten, save those that are still to come and those that are excluded. */
  ghost function Partly(was: map<string, Json>, pending: set<string>, exclude: seq<string>, m: Locations,
      hydrate: Hydrate): map<string, Json>
  {
    map k | k in was :: if k in pending || k in exclude then was[k] else Rewrite(was[k], m, hydrate)
  }

  lemma PartlyNothing(was: map<string, Json>, exclude: seq<string>, m: Locations, hydrate: Hydrate)
    ensures Partly(was, was.Keys, exclude, m, hydrate) == was
  {
  }

  lemma PartlyStep(was: map<string, Json>, pending: set<string>, exclude: seq<string>, k: string, m: Locations,
      hydrate: Hydrate)
    requires k in pending && k in was
    ensures Partly(was, pending, exclude, m, hydrate)[k] == was[k]
    ensures Partly(was, pending - {k}, exclude, m, hydrate)
         == if k in exclude then Partly(was, pending, exclude, m, hydrate)
            else Partly(was, pending, exclude, m, hydrate)[k := Rewrite(was[k], m, hydrate)]
  {
  }
}
