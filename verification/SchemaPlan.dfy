/** Hydration plans and the schema trees they describe.

    A plan maps each visitor name to an envelope: the paths whose values that visitor
    converts, and for every `*` path the property keys that the `*` must skip.
    `Plan` is the reference meaning of a schema tree: it is compositional and uses relative
    paths only, whereas the two walkers (SchemaWalk.dfy) push absolute paths into shared
    accumulators. */
module SchemaPlan {

  /** One step of a hydration path. */
  datatype Tok = Key(name: string) | All | Idx(i: nat) | Star

  /** The scalar keywords of one schema node (type, format, pattern, ...): all a visitor may inspect. */
  type Keywords = map<string, string>

  /** A schema read as a tree, its sub-schemas listed in the order in which they are walked. */
  datatype Tree = Node(keywords: Keywords, parts: seq<Part>)

  /** `Sub` is reached by at most one path step (none for a combinator branch or a reference);
      `Dynamic` is an `additionalProperties` schema, with the keys of the sibling `properties`. */
  datatype Part = Sub(step: seq<Tok>, child: Tree) | Dynamic(statics: seq<string>, child: Tree)

  type StarMap = map<string, seq<string>>
  datatype Envelope = Envelope(paths: seq<string>, starMap: StarMap)
  const EMPTY_ENVELOPE := Envelope([], map[])

  /** How often a visitor pushes a node's path. */
  type Hits = Keywords -> nat

  // ---- Visitors ----

  datatype Visitor = Visitor(name: string, matches: Keywords -> bool)

  /** How often the visitors called `name` match a node. */
  function Count(visitors: seq<Visitor>, name: string, k: Keywords): nat {
    if visitors == [] then 0
    else
      var last := visitors[|visitors| - 1];
      Count(visitors[..|visitors| - 1], name, k) + if last.name == name && last.matches(k) then 1 else 0
  }

  function HitsOf(visitors: seq<Visitor>, name: string): Hits {
    (k: Keywords) => Count(visitors, name, k)
  }

  // ---- Rendering ----

  function Decimal(n: nat): (s: string)
    ensures s != []
  {
    if n < 10 then [DIGITS[n]] else Decimal(n / 10) + [DIGITS[n % 10]]
  }
  const DIGITS := "0123456789"

  function RenderTok(t: Tok): string {
    match t
    case Key(k) => "." + k
    case All => "[]"
    case Idx(i) => "[" + Decimal(i) + "]"
    case Star => ".*"
  }

  function Render(p: seq<Tok>): string {
    if p == [] then "" else RenderTok(p[0]) + Render(p[1..])
  }

  // ---- Envelope algebra ----

  function PrefixPaths(p: string, paths: seq<string>): seq<string> {
    seq(|paths|, i requires 0 <= i < |paths| => p + paths[i])
  }

  function PrefixStars(p: string, m: StarMap): StarMap {
    map q | q in (set k | k in m :: p + k) :: Strip(p, q, m)
  }

  function Strip(p: string, q: string, m: StarMap): seq<string> {
    if |p| <= |q| && q[|p|..] in m then m[q[|p|..]] else []
  }

  function Prefixed(p: string, e: Envelope): Envelope {
    Envelope(PrefixPaths(p, e.paths), PrefixStars(p, e.starMap))
  }

  function Append(a: Envelope, b: Envelope): Envelope {
    Envelope(a.paths + b.paths, a.starMap + b.starMap)
  }

  function Under(statics: seq<string>, e: Envelope): Envelope {
    if e == EMPTY_ENVELOPE then e
    else
      Envelope(PrefixPaths(".*", e.paths),
               (if statics == [] then map[] else map[".*" := statics]) + PrefixStars(".*", e.starMap))
  }

  lemma PrefixStarsAt(p: string, m: StarMap, k: string)
    ensures p + k in PrefixStars(p, m) <==> k in m
    ensures k in m ==> PrefixStars(p, m)[p + k] == m[k]
  {
    assert (p + k)[|p|..] == k;
    if p + k in PrefixStars(p, m) {
      var k' :| k' in m && p + k == p + k';
      assert (p + k')[|p|..] == k';
    }
  }

  lemma PrefixStarsKey(p: string, m: StarMap, q: string) returns (k: string)
    requires q in PrefixStars(p, m)
    ensures k in m && q == p + k && PrefixStars(p, m)[q] == m[k]
  {
    k :| k in m && q == p + k;
    PrefixStarsAt(p, m, k);
  }

  lemma PrefixStarsUnion(p: string, a: StarMap, b: StarMap)
    ensures PrefixStars(p, a + b) == PrefixStars(p, a) + PrefixStars(p, b)
  {
    var l, r := PrefixStars(p, a + b), PrefixStars(p, a) + PrefixStars(p, b);
    forall q | q in l ensures q in r && l[q] == r[q] {
      var k := PrefixStarsKey(p, a + b, q);
      PrefixStarsAt(p, a, k); PrefixStarsAt(p, b, k);
    }
    forall q | q in r ensures q in l {
      var k := PrefixStarsKey(p, if q in PrefixStars(p, b) then b else a, q);
      PrefixStarsAt(p, a + b, k);
    }
  }

  lemma PrefixStarsTwice(p: string, q: string, m: StarMap)
    ensures PrefixStars(p, PrefixStars(q, m)) == PrefixStars(p + q, m)
  {
    var inner := PrefixStars(q, m);
    var l, r := PrefixStars(p, inner), PrefixStars(p + q, m);
    forall s | s in l ensures s in r && l[s] == r[s] {
      var k := PrefixStarsKey(p, inner, s);
      var k' := PrefixStarsKey(q, m, k);
      assert p + (q + k') == p + q + k';
      PrefixStarsAt(p + q, m, k');
    }
    forall s | s in r ensures s in l {
      var k := PrefixStarsKey(p + q, m, s);
      assert p + (q + k) == p + q + k;
      PrefixStarsAt(q, m, k);
      PrefixStarsAt(p, inner, q + k);
    }
  }

  lemma PrefixedAppend(p: string, a: Envelope, b: Envelope)
    ensures Prefixed(p, Append(a, b)) == Append(Prefixed(p, a), Prefixed(p, b))
  {
    PrefixStarsUnion(p, a.starMap, b.starMap);
  }

  lemma PrefixedTwice(p: string, q: string, e: Envelope)
    ensures Prefixed(p, Prefixed(q, e)) == Prefixed(p + q, e)
  {
    PrefixStarsTwice(p, q, e.starMap);
    assert forall i | 0 <= i < |e.paths| :: p + (q + e.paths[i]) == p + q + e.paths[i];
  }

  lemma PrefixedNone(e: Envelope)
    ensures Prefixed("", e) == e
  {
    assert forall i | 0 <= i < |e.paths| :: "" + e.paths[i] == e.paths[i];
    forall k | k in PrefixStars("", e.starMap) ensures k in e.starMap {
      var k' := PrefixStarsKey("", e.starMap, k);
      assert k == k';
    }
    forall k | k in e.starMap ensures k in PrefixStars("", e.starMap) && PrefixStars("", e.starMap)[k] == e.starMap[k] {
      PrefixStarsAt("", e.starMap, k);
      assert "" + k == k;
    }
  }

  lemma PrefixedEmpty(p: string)
    ensures Prefixed(p, EMPTY_ENVELOPE) == EMPTY_ENVELOPE
  {
    if k :| k in PrefixStars(p, map[]) {
      var k' := PrefixStarsKey(p, map[], k);
    }
  }

  lemma AppendEmpty(e: Envelope)
    ensures Append(e, EMPTY_ENVELOPE) == e == Append(EMPTY_ENVELOPE, e)
  {
  }

  lemma AppendAssoc(a: Envelope, b: Envelope, c: Envelope)
    ensures Append(Append(a, b), c) == Append(a, Append(b, c))
  {
  }

  // ---- The reference plan of a tree ----

  function LeafPlan(hits: Hits, k: Keywords): Envelope {
    Envelope(seq(hits(k), _ => ""), map[])
  }

  function Plan(hits: Hits, t: Tree): Envelope
    decreases t, 1
  {
    Append(LeafPlan(hits, t.keywords), PartsPlan(hits, t.parts))
  }

  function PartsPlan(hits: Hits, parts: seq<Part>): Envelope
    decreases parts, 0
  {
    if parts == [] then EMPTY_ENVELOPE
    else Append(PartPlan(hits, parts[0]), PartsPlan(hits, parts[1..]))
  }

  function PartPlan(hits: Hits, p: Part): Envelope
    decreases p, 2
  {
    match p
    case Sub(step, child) => Prefixed(Render(step), Plan(hits, child))
    case Dynamic(statics, child) => Under(statics, Plan(hits, child))
  }

  lemma {:induction false} PartsPlanConcat(hits: Hits, a: seq<Part>, b: seq<Part>)
    ensures PartsPlan(hits, a + b) == Append(PartsPlan(hits, a), PartsPlan(hits, b))
  {
    if a == [] {
      assert a + b == b;
    } else {
      assert (a + b)[0] == a[0] && (a + b)[1..] == a[1..] + b;
      PartsPlanConcat(hits, a[1..], b);
      AppendAssoc(PartPlan(hits, a[0]), PartsPlan(hits, a[1..]), PartsPlan(hits, b));
    }
  }

  lemma PartsPlanOne(hits: Hits, p: Part)
    ensures PartsPlan(hits, [p]) == PartPlan(hits, p)
  {
    assert [p][1..] == [];
  }

  /** An envelope without paths is empty: a plan never records star exclusions alone. */
  lemma {:induction false} NoPathsNoStars(hits: Hits, t: Tree)
    ensures Plan(hits, t).paths == [] ==> Plan(hits, t) == EMPTY_ENVELOPE
    decreases t, 1
  {
    PartsNoPathsNoStars(hits, t.parts);
  }

  lemma {:induction false} PartsNoPathsNoStars(hits: Hits, parts: seq<Part>)
    ensures PartsPlan(hits, parts).paths == [] ==> PartsPlan(hits, parts) == EMPTY_ENVELOPE
    decreases parts, 0
  {
    if parts != [] {
      NoPathsNoStars(hits, parts[0].child);
      PartsNoPathsNoStars(hits, parts[1..]);
      if parts[0].Sub? {
        PrefixedEmpty(Render(parts[0].step));
      }
    }
  }

  // ---- The steps of a tree ----

  /** Each sub-schema is at most one step away, and only `additionalProperties` stands for any key. */
  predicate Stepwise(t: Tree)
    decreases t, 1
  {
    StepwiseParts(t.parts)
  }

  predicate StepwiseParts(parts: seq<Part>)
    decreases parts, 0
  {
    parts == [] || (StepwisePart(parts[0]) && StepwiseParts(parts[1..]))
  }

  predicate StepwisePart(p: Part)
    decreases p, 2
  {
    (p.Sub? ==> |p.step| <= 1 && (p.step != [] ==> !p.step[0].Star?)) && Stepwise(p.child)
  }

  lemma StepwiseOne(p: Part)
    ensures StepwiseParts([p]) <==> StepwisePart(p)
  {
    assert [p][1..] == [];
  }

  lemma {:induction false} StepwiseConcat(a: seq<Part>, b: seq<Part>)
    ensures StepwiseParts(a + b) <==> StepwiseParts(a) && StepwiseParts(b)
  {
    if a == [] {
      assert a + b == b;
    } else {
      assert (a + b)[0] == a[0] && (a + b)[1..] == a[1..] + b;
      StepwiseConcat(a[1..], b);
    }
  }
}
