/** The runtime hydrator: interprets the paths of an envelope against JSON data, in place. */
module Hydration {
  import opened Options
  import opened SchemaPlan
  import opened HydrationPaths
  import opened HydrationMeaning
  import opened HydrationPlans
  import opened HydrationReach
  import opened HydrationRuns
  import opened JsonHeap

  // ---- The interpreter ----

  /** JSON data in memory. */
  class JsonData {
    var nodes: Nodes
    const root: Cell

    ghost predicate Valid()
      reads this
    {
      Tidy(nodes, root)
    }

    ghost function Value(): Json
      reads this
    {
      Read(nodes, root)
    }

    constructor (nodes: Nodes, root: Cell)
      requires Tidy(nodes, root)
      ensures Valid() && this.nodes == nodes && this.root == root
    {
      this.nodes, this.root := nodes, root;
    }

    /** A property or element at the end of a step: converted if the path ends here, else descended into. */
    method ApplyHere(n: nat, s: Step, parts: seq<string>, prefix: string, stars: StarMap, hydrate: Hydrate,
        ghost p: seq<Tok>) returns (ok: bool)
      requires Tidy(nodes, Link(n)) && HasSlot(nodes[n], s)
      requires WellFormed(p, false) && parts == Texts(Segments(p))
      modifies this
      ensures Tidy(nodes, Link(n)) && Touched(old(nodes), nodes, Link(n))
      ensures ok <==> !Throws(old(Read(nodes, SlotOf(nodes[n], s))), p, prefix, stars, hydrate)
      ensures ok ==>
                SlotNow(old(nodes), nodes, n, s,
                        Rewrite(old(Read(nodes, SlotOf(nodes[n], s))), Reached(p, prefix, stars), hydrate))
      decreases |parts|, 1
    {
      var c := SlotOf(nodes[n], s);
      SlotTidy(nodes, n, s);
      TouchedNothing(nodes, c);
      SlotChanged(nodes, nodes, n, s);
      assert parts == [] <==> p == [] by {
        if p != [] { TextsStep(p); }
      }
      ok := true;
      if parts == [] {
        assert [] in Reached(p, prefix, stars);
        if c.Leaf? && c.value.String? {
          var converted := hydrate(c.value.s);
          if converted.Some? {
            SlotAssigned(nodes, n, s, Hydrated(converted.value));
            nodes := nodes[n := WithSlot(nodes[n], s, Leaf(Hydrated(converted.value)))];
            TidyKept(old(nodes), nodes, Link(n), Link(n));
          }
        } else {
          NotAString(nodes, c);
          RootOnly(Read(nodes, c), prefix, stars, hydrate);
        }
      } else {
        ok := ApplyAtPath(c, parts, prefix, stars, hydrate, p);
        SlotChanged(old(nodes), nodes, n, s);
        TouchedUp(old(nodes), nodes, n, s);
      }
    }

    /** Plain keys are never indices of strings or arrays, so only objects have anything under them. */
    method ApplyAtPath(current: Cell, parts: seq<string>, prefix: string, stars: StarMap, hydrate: Hydrate,
        ghost p: seq<Tok>) returns (ok: bool)
      requires parts != [] && WellFormed(p, false) && parts == Texts(Segments(p)) && Tidy(nodes, current)
      modifies this
      ensures Touched(old(nodes), nodes, current) && Tidy(nodes, current)
      ensures ok <==> !Throws(old(Read(nodes, current)), p, prefix, stars, hydrate)
      ensures ok ==> Read(nodes, current) == Rewrite(old(Read(nodes, current)), Reached(p, prefix, stars), hydrate)
      decreases |parts|, 0
    {
      var head, rest := parts[0], parts[1..];
      TextsStep(p);
      WellFormedStep(p);
      ClassifyText(FirstSegment(p));
      assert rest == Texts(Segments(p[FirstLength(p)..]));
      match Classify(head) {
        case AnyKey =>
          ok := ApplyToAnyKey(current, rest, prefix, stars, hydrate, p);
        case Elements(key) =>
          ok := ApplyToElements(current, key, rest, prefix + "." + head, stars, hydrate, p, prefix);
        case Element(key, index) =>
          ok := ApplyToElement(current, key, index, rest, prefix + "." + head, stars, hydrate, p, prefix);
        case Property(key) =>
          ok := ApplyToProperty(current, key, rest, prefix + "." + head, stars, hydrate, p, prefix);
      }
    }

    method ApplyToProperty(current: Cell, key: string, rest: seq<string>, nextPrefix: string, stars: StarMap,
        hydrate: Hydrate, ghost p: seq<Tok>, ghost prefix: string) returns (ok: bool)
      requires p != [] && p[0] == Key(key) && WellFormed(p[1..], false) && rest == Texts(Segments(p[1..]))
      requires nextPrefix == prefix + "." + key && Tidy(nodes, current)
      modifies this
      ensures Touched(old(nodes), nodes, current) && Tidy(nodes, current)
      ensures ok <==> !Throws(old(Read(nodes, current)), p, prefix, stars, hydrate)
      ensures ok ==> Read(nodes, current) == Rewrite(old(Read(nodes, current)), Reached(p, prefix, stars), hydrate)
      decreases |rest|, 3
    {
      assert prefix + RenderTok(p[0]) == nextPrefix;
      ghost var was := Read(nodes, current);
      TouchedNothing(nodes, current);
      ok := true;
      if current.Link? && HasField(nodes[current.node], key) {
        ok := ApplyToField(current.node, key, rest, nextPrefix, stars, hydrate, p[1..]);
        KeyRewritten(was.fields, key, p, prefix, stars, hydrate);
      } else {
        NoField(nodes, current, key);
        KeyMissing(was, p, prefix, stars, hydrate);
      }
    }

    /** `Object.keys` gives the keys of an object, and the indices of an array or of a string. */
    method ApplyToAnyKey(current: Cell, rest: seq<string>, prefix: string, stars: StarMap, hydrate: Hydrate,
        ghost p: seq<Tok>) returns (ok: bool)
      requires p != [] && p[0].Star? && WellFormed(p, false) && rest == Texts(Segments(p[1..])) && Tidy(nodes, current)
      modifies this
      ensures Touched(old(nodes), nodes, current) && Tidy(nodes, current)
      ensures ok <==> !Throws(old(Read(nodes, current)), p, prefix, stars, hydrate)
      ensures ok ==> Read(nodes, current) == Rewrite(old(Read(nodes, current)), Reached(p, prefix, stars), hydrate)
      decreases |rest|, 5
    {
      TouchedNothing(nodes, current);
      ghost var was := Read(nodes, current);
      var starPath := prefix + ".*";
      var exclude := Excluded(stars, starPath);
      match current {
        case Leaf(v) =>
          ScalarKept(v, p, prefix, stars, hydrate);
          ok := true;
          if v.String? {
            ok := ApplyToChars(v.s, exclude, rest, starPath, stars, hydrate, p[1..]);
          }
        case Link(n) =>
          if nodes[n].List? {
            ok := ApplyToItems(n, exclude, rest, starPath, stars, hydrate, p[1..]);
            ItemsRewritten(was.items, exclude, p, prefix, stars, hydrate);
          } else {
            ok := ApplyToFields(n, exclude, rest, starPath, stars, hydrate, p[1..]);
            if ok { FieldsRewritten(was.fields, Read(nodes, current).fields, p, prefix, stars, hydrate); }
          }
      }
    }

    /** Nothing to write to: a path that would convert a character fails. */
    method ApplyToChars(s: string, exclude: seq<string>, rest: seq<string>, prefix: string, stars: StarMap,
        hydrate: Hydrate, ghost p: seq<Tok>) returns (ok: bool)
      requires WellFormed(p, false) && rest == Texts(Segments(p))
      modifies this
      ensures nodes == old(nodes)
      ensures ok <==> !CharsThrow(s, exclude, p, prefix, stars, hydrate)
      decreases |rest|, 4
    {
      assert rest == [] <==> p == [] by {
        if p != [] { TextsStep(p); }
      }
      for i := 0 to |s|
        invariant nodes == old(nodes)
        invariant forall k: nat | k < i && !Skips(exclude, k) :: !CharThrows(s[k], p, prefix, stars, hydrate)
      {
        if Skips(exclude, i) { continue; }
        if rest == [] {
          ok := hydrate([s[i]]).None?;
        } else {
          ghost var h := nodes;
          ok := ApplyAtPath(Leaf(String([s[i]])), rest, prefix, stars, hydrate, p);
          assert nodes == h;
        }
        if !ok { return; }
      }
      ok := true;
    }

    method ApplyToField(n: nat, key: string, rest: seq<string>, prefix: string, stars: StarMap, hydrate: Hydrate,
        ghost p: seq<Tok>) returns (ok: bool)
      requires WellFormed(p, false) && rest == Texts(Segments(p)) && Tidy(nodes, Link(n)) && HasField(nodes[n], key)
      modifies this
      ensures Touched(old(nodes), nodes, Link(n)) && Tidy(nodes, Link(n))
      ensures old(Read(nodes, Link(n))).Object? && key in old(Read(nodes, Link(n))).fields
      ensures ok <==> !Throws(old(Read(nodes, Link(n))).fields[key], p, prefix, stars, hydrate)
      ensures ok ==>
                var was := old(Read(nodes, Link(n))).fields;
                Read(nodes, Link(n)) == Object(was[key := Rewrite(was[key], Reached(p, prefix, stars), hydrate)])
      decreases |rest|, 2
    {
      ghost var was := Read(nodes, Link(n));
      FieldRead(nodes, n, key);
      ok := ApplyHere(n, AtKey(key), rest, prefix, stars, hydrate, p);
      if ok {
        FieldNow(old(nodes), nodes, n, key, Rewrite(was.fields[key], Reached(p, prefix, stars), hydrate));
      }
    }

    method ApplyToItem(n: nat, i: nat, rest: seq<string>, prefix: string, stars: StarMap, hydrate: Hydrate,
        ghost p: seq<Tok>) returns (ok: bool)
      requires WellFormed(p, false) && rest == Texts(Segments(p)) && Tidy(nodes, Link(n))
               && HasSlot(nodes[n], AtIndex(i))
      modifies this
      ensures Touched(old(nodes), nodes, Link(n)) && Tidy(nodes, Link(n))
      ensures old(Read(nodes, Link(n))).Array? && i < |old(Read(nodes, Link(n))).items|
      ensures ok <==> !Throws(old(Read(nodes, Link(n))).items[i], p, prefix, stars, hydrate)
      ensures ok ==>
                var was := old(Read(nodes, Link(n))).items;
                Read(nodes, Link(n)) == Array(was[i := Rewrite(was[i], Reached(p, prefix, stars), hydrate)])
      decreases |rest|, 2
    {
      ghost var was := Read(nodes, Link(n));
      ItemRead(nodes, n, i);
      ok := ApplyHere(n, AtIndex(i), rest, prefix, stars, hydrate, p);
      if ok {
        ItemNow(old(nodes), nodes, n, i, Rewrite(was.items[i], Reached(p, prefix, stars), hydrate));
      }
    }

    method ApplyToFields(n: nat, exclude: seq<string>, rest: seq<string>, prefix: string, stars: StarMap,
        hydrate: Hydrate, ghost p: seq<Tok>) returns (ok: bool)
      requires WellFormed(p, false) && rest == Texts(Segments(p)) && Tidy(nodes, Link(n)) && nodes[n].Record?
      modifies this
      ensures Touched(old(nodes), nodes, Link(n)) && Tidy(nodes, Link(n)) && old(Read(nodes, Link(n))).Object?
      ensures ok <==> !FieldsThrow(old(Read(nodes, Link(n))).fields, exclude, p, prefix, stars, hydrate)
      ensures ok ==>
                Read(nodes, Link(n))
                == Object(Partly(old(Read(nodes, Link(n))).fields, {}, exclude, Reached(p, prefix, stars), hydrate))
      decreases |rest|, 4
    {
      TouchedNothing(nodes, Link(n));
      FieldRead(nodes, n, "");
      ghost var was, m := Read(nodes, Link(n)).fields, Reached(p, prefix, stars);
      var pending := nodes[n].fields.Keys;
      PartlyNothing(was, exclude, m, hydrate);
      while pending != {}
        invariant pending <= was.Keys && Tidy(nodes, Link(n)) && Touched(old(nodes), nodes, Link(n))
        invariant Read(nodes, Link(n)) == Object(Partly(was, pending, exclude, m, hydrate))
        invariant forall k | k in was && k !in pending && k !in exclude :: !Throws(was[k], p, prefix, stars, hydrate)
      {
        var key :| key in pending;
        PartlyStep(was, pending, exclude, key, m, hydrate);
        if key !in exclude {
          ghost var h := nodes;
          ok := ApplyToField(n, key, rest, prefix, stars, hydrate, p);
          TouchedTwice(old(nodes), h, nodes, Link(n));
          if !ok { return; }
        }
        pending := pending - {key};
      }
      ok := true;
    }

    method ApplyToElements(current: Cell, key: string, rest: seq<string>, nextPrefix: string, stars: StarMap,
        hydrate: Hydrate, ghost p: seq<Tok>, ghost prefix: string) returns (ok: bool)
      requires |p| > 1 && p[0] == Key(key) && p[1].All? && WellFormed(p, false) && rest == Texts(Segments(p[2..]))
      requires nextPrefix == prefix + "." + (key + "[]") && Tidy(nodes, current)
      modifies this
      ensures Touched(old(nodes), nodes, current) && Tidy(nodes, current)
      ensures ok <==> !Throws(old(Read(nodes, current)), p, prefix, stars, hydrate)
      ensures ok ==> Read(nodes, current) == Rewrite(old(Read(nodes, current)), Reached(p, prefix, stars), hydrate)
      decreases |rest|, 5
    {
      ghost var mid := prefix + RenderTok(p[0]);
      assert mid + RenderTok(p[1..][0]) == nextPrefix && p[1..][1..] == p[2..];
      ghost var was := Read(nodes, current);
      TouchedNothing(nodes, current);
      ok := true;
      if !current.Link? || !HasField(nodes[current.node], key) {
        NoField(nodes, current, key);
        KeyMissing(was, p, prefix, stars, hydrate);
        return;
      }
      var n, list := current.node, nodes[current.node].fields[key];
      FieldRead(nodes, n, key);
      SlotTidy(nodes, n, AtKey(key));
      KeyRewritten(was.fields, key, p, prefix, stars, hydrate);
      if !list.Link? || !nodes[list.node].List? {
        NoList(nodes, list);
        ArrayMissing(was.fields[key], p[1..], mid, stars, hydrate);
        return;
      }
      ok := ApplyToItems(list.node, [], rest, nextPrefix, stars, hydrate, p[2..]);
      SlotChanged(old(nodes), nodes, n, AtKey(key));
      TouchedUp(old(nodes), nodes, n, AtKey(key));
      ItemsRewritten(was.fields[key].items, [], p[1..], mid, stars, hydrate);
      if ok {
        FieldNow(old(nodes), nodes, n, key, Read(nodes, list));
      }
    }

    /** The elements of an array, save those whose index is excluded. */
    method ApplyToItems(n: nat, exclude: seq<string>, rest: seq<string>, prefix: string, stars: StarMap,
        hydrate: Hydrate, ghost p: seq<Tok>) returns (ok: bool)
      requires WellFormed(p, false) && rest == Texts(Segments(p)) && Tidy(nodes, Link(n)) && nodes[n].List?
      modifies this
      ensures Touched(old(nodes), nodes, Link(n)) && Tidy(nodes, Link(n)) && old(Read(nodes, Link(n))).Array?
      ensures ok <==> !ItemsThrow(old(Read(nodes, Link(n))).items, exclude, p, prefix, stars, hydrate)
      ensures ok ==>
                Read(nodes, Link(n))
                == Array(PartlyItems(old(Read(nodes, Link(n))).items, exclude, Reached(p, prefix, stars), hydrate,
                                     |old(Read(nodes, Link(n))).items|))
      decreases |rest|, 4
    {
      ghost var was, m := Read(nodes, Link(n)).items, Reached(p, prefix, stars);
      TouchedNothing(nodes, Link(n));
      ItemRead(nodes, n, 0);
      assert PartlyItems(was, exclude, m, hydrate, 0) == was;
      var count := |nodes[n].items|;
      for i := 0 to count
        invariant count == |was| && Tidy(nodes, Link(n)) && Touched(old(nodes), nodes, Link(n))
        invariant Read(nodes, Link(n)) == Array(PartlyItems(was, exclude, m, hydrate, i))
        invariant forall j: nat | j < i && !Skips(exclude, j) :: !Throws(was[j], p, prefix, stars, hydrate)
      {
        PartlyItemsStep(was, exclude, m, hydrate, i);
        if Skips(exclude, i) { continue; }
        ghost var h := nodes;
        ok := ApplyToItem(n, i, rest, prefix, stars, hydrate, p);
        TouchedTwice(old(nodes), h, nodes, Link(n));
        if !ok { return; }
      }
      ok := true;
    }

    method ApplyToElement(current: Cell, key: string, index: nat, rest: seq<string>, nextPrefix: string, stars: StarMap,
        hydrate: Hydrate, ghost p: seq<Tok>, ghost prefix: string) returns (ok: bool)
      requires |p| > 1 && p[0] == Key(key) && p[1] == Idx(index) && WellFormed(p, false)
               && rest == Texts(Segments(p[2..]))
      requires nextPrefix == prefix + "." + (key + "[" + Decimal(index) + "]") && Tidy(nodes, current)
      modifies this
      ensures Touched(old(nodes), nodes, current) && Tidy(nodes, current)
      ensures ok <==> !Throws(old(Read(nodes, current)), p, prefix, stars, hydrate)
      ensures ok ==> Read(nodes, current) == Rewrite(old(Read(nodes, current)), Reached(p, prefix, stars), hydrate)
      decreases |rest|, 3
    {
      ghost var mid := prefix + RenderTok(p[0]);
      assert mid + RenderTok(p[1..][0]) == nextPrefix && p[1..][1..] == p[2..];
      ghost var was := Read(nodes, current);
      TouchedNothing(nodes, current);
      ok := true;
      if !current.Link? || !HasField(nodes[current.node], key) {
        NoField(nodes, current, key);
        KeyMissing(was, p, prefix, stars, hydrate);
        return;
      }
      var n, list := current.node, nodes[current.node].fields[key];
      FieldRead(nodes, n, key);
      SlotTidy(nodes, n, AtKey(key));
      KeyRewritten(was.fields, key, p, prefix, stars, hydrate);
      if !list.Link? || !nodes[list.node].List? {
        NoList(nodes, list);
        ArrayMissing(was.fields[key], p[1..], mid, stars, hydrate);
        return;
      }
      ItemRead(nodes, list.node, index);
      ItemRewritten(was.fields[key].items, p[1..], mid, stars, hydrate);
      if index < |nodes[list.node].items| {
        ok := ApplyToItem(list.node, index, rest, nextPrefix, stars, hydrate, p[2..]);
        SlotChanged(old(nodes), nodes, n, AtKey(key));
        TouchedUp(old(nodes), nodes, n, AtKey(key));
        if ok {
          FieldNow(old(nodes), nodes, n, key, Read(nodes, list));
        }
      }
    }

    method ApplyPath(path: string, stars: StarMap, hydrate: Hydrate, ghost p: seq<Tok>) returns (ok: bool)
      requires Valid() && WellFormed(p, false) && path == Render(p)
      modifies this
      ensures Valid() && (ok <==> !Throws(old(Value()), p, "", stars, hydrate))
      ensures ok ==> Value() == if p == [] then old(Value()) else Rewrite(old(Value()), Reached(p, "", stars), hydrate)
    {
      PartsOfRender(p);
      var parts := Parts(path);
      ok := true;
      if p != [] { TextsStep(p); }
      if parts != [] {
        ok := ApplyAtPath(root, parts, "", stars, hydrate, p);
      }
    }

    method ApplyPaths(paths: seq<string>, stars: StarMap, hydrate: Hydrate, ghost ps: seq<seq<Tok>>) returns (ok: bool)
      requires Valid() && paths == RenderAll(ps) && forall p | p in ps :: WellFormed(p, false)
      modifies this
      ensures Valid() && (ok <==> !SomeThrows(old(Value()), ps, stars, hydrate))
      ensures ok ==> Value() == Rewrite(old(Value()), ReachedBy(ps, stars, |ps|), hydrate)
    {
      ghost var was := Value();
      assert ReachedBy(ps, stars, 0) == iset{};
      RewriteNowhere(was, iset{}, hydrate);
      for i := 0 to |paths|
        invariant Valid() && Value() == Rewrite(was, ReachedBy(ps, stars, i), hydrate)
        invariant forall k: nat | k < i :: !ThrowsAt(was, ps, stars, hydrate, k)
      {
        assert ps[i] in ps;
        ok := ApplyPath(paths[i], stars, hydrate, ps[i]);
        assert ok <==> !ThrowsAt(was, ps, stars, hydrate, i);
        if !ok { return; }
        RewrittenNext(was, ps, stars, hydrate, i);
      }
      ok := true;
    }

    /** Hydrating by the envelope of a schema fails exactly when a path is stuck at a string that is still
        one, and otherwise converts, in place, exactly the strings that the schema marks unless one is
        misplaced. Data that the schema describes is spared both. */
    method ApplyHydration(envelope: Envelope, hydrate: Hydrate, ghost hits: Hits, ghost t: Tree) returns (ok: bool)
      requires Valid() && envelope == Plan(hits, t) && Expressible(hits, t)
      modifies this
      ensures Valid() && (ok <==> !HydrationThrows(hits, t, old(Value()), hydrate))
      ensures ok ==> Value() == Rewrite(old(Value()), ReachedLocations(hits, t), hydrate)
      ensures ok ==> (Value() == Rewrite(old(Value()), MarkedLocations(hits, t), hydrate)
                      <==> !Misplaced(hits, t, old(Value()), hydrate))
      ensures Supported(hits, t) && Shaped(hits, t, old(Value())) ==>
                ok && !Misplaced(hits, t, old(Value()), hydrate)
    {
      PlanPaths(hits, t);
      HydrationThrowsIff(hits, t, Value(), hydrate);
      ReachedUnlessMisplaced(hits, t, Value(), hydrate);
      if Supported(hits, t) && Shaped(hits, t, Value()) { ShapedIsHydrated(hits, t, Value(), hydrate); }
      ok := ApplyPaths(envelope.paths, envelope.starMap, hydrate, TokPaths(hits, t));
    }

    /** Hydrating twice is hydrating once: the second time nothing fails and nothing changes. */
    method ApplyHydrationTwice(envelope: Envelope, hydrate: Hydrate, ghost hits: Hits, ghost t: Tree) returns (ok: bool)
      requires Valid() && envelope == Plan(hits, t) && Expressible(hits, t)
      modifies this
      ensures Valid() && (ok <==> !HydrationThrows(hits, t, old(Value()), hydrate))
      ensures ok ==> Value() == Rewrite(old(Value()), ReachedLocations(hits, t), hydrate)
    {
      ok := ApplyHydration(envelope, hydrate, hits, t);
      if ok {
        HydratedIsFinished(hits, t, old(Value()), hydrate);
        ok := ApplyHydration(envelope, hydrate, hits, t);
      }
    }
  }

  predicate HasField(node: Node, key: string) {
    node.Record? && key in node.fields
  }

  lemma NotAString(h: Nodes, c: Cell)
    requires Tidy(h, c) && (c.Leaf? ==> !c.value.String?)
    ensures !Read(h, c).String?
  {
  }

  lemma NoField(h: Nodes, c: Cell, key: string)
    requires Tidy(h, c) && (c.Link? ==> !HasField(h[c.node], key))
    ensures Read(h, c).Object? ==> key !in Read(h, c).fields
  {
    if c.Link? { FieldRead(h, c.node, key); }
  }

  lemma NoList(h: Nodes, c: Cell)
    requires Tidy(h, c) && (c.Link? ==> !h[c.node].List?)
    ensures !Read(h, c).Array?
  {
  }
}
