/** Serialization of object graphs: ancestor-path cycle detection. */
module SerializeGraph {
  import opened Options
  import opened WireFormat
  import opened WireRoundTrip

  /** A value that may refer to a container on the heap; `Leaf` holds no children. */
  datatype GraphValue = Leaf(value: Value) | Ref(id: nat)
  datatype Container = Container(kind: Kind, children: seq<GraphValue>)
  type Heap = map<nat, Container>

  datatype Outcome = Encoded(wire: Wire) | CircularReference

  ghost predicate ValidValue(heap: Heap, v: GraphValue) {
    match v
    case Leaf(x) => !x.Composite?
    case Ref(id) => id in heap
  }

  ghost predicate ValidHeap(heap: Heap) {
    forall id, i | id in heap && 0 <= i < |heap[id].children| :: ValidValue(heap, heap[id].children[i])
  }

  // ---- Reachability ----

  predicate Edge(heap: Heap, a: nat, b: nat) {
    a in heap && Ref(b) in heap[a].children
  }

  ghost predicate Walk(heap: Heap, p: seq<nat>) {
    p != [] && forall i | 0 <= i < |p| - 1 :: Edge(heap, p[i], p[i + 1])
  }

  ghost predicate WalkBetween(heap: Heap, p: seq<nat>, a: nat, b: nat) {
    Walk(heap, p) && p[0] == a && p[|p| - 1] == b
  }

  /** `b` is `a` or a descendant of it. */
  ghost predicate Reaches(heap: Heap, a: nat, b: nat) {
    exists p :: WalkBetween(heap, p, a, b)
  }

  /** A container that is its own descendant. */
  ghost predicate Cyclic(heap: Heap, a: nat) {
    exists b :: Edge(heap, a, b) && Reaches(heap, b, a)
  }

  /** Below `v` there is an ancestor, or a container that is its own descendant. */
  ghost predicate Blocked(heap: Heap, v: GraphValue, ancestors: set<nat>) {
    v.Ref? && exists c :: Reaches(heap, v.id, c) && (c in ancestors || Cyclic(heap, c))
  }

  lemma ReachesSelf(heap: Heap, a: nat)
    ensures Reaches(heap, a, a)
  {
    assert WalkBetween(heap, [a], a, a);
  }

  lemma ReachesThrough(heap: Heap, a: nat, b: nat, c: nat)
    requires Edge(heap, a, b) && Reaches(heap, b, c)
    ensures Reaches(heap, a, c)
  {
    var p :| WalkBetween(heap, p, b, c);
    assert WalkBetween(heap, [a] + p, a, c);
  }

  lemma ReachesFirstStep(heap: Heap, a: nat, c: nat) returns (b: nat)
    requires Reaches(heap, a, c) && a != c
    ensures Edge(heap, a, b) && Reaches(heap, b, c)
  {
    var p :| WalkBetween(heap, p, a, c);
    b := p[1];
    assert WalkBetween(heap, p[1..], b, c);
  }

  /** A container is blocked if it is an ancestor or one of its children is, with it added to the ancestors. */
  lemma BlockedStep(heap: Heap, a: nat, ancestors: set<nat>)
    requires a in heap
    ensures Blocked(heap, Ref(a), ancestors) <==>
            a in ancestors || exists k | k in heap[a].children :: Blocked(heap, k, ancestors + {a})
  {
    ReachesSelf(heap, a);
    if k :| k in heap[a].children && Blocked(heap, k, ancestors + {a}) {
      var c :| Reaches(heap, k.id, c) && (c in ancestors + {a} || Cyclic(heap, c));
      assert Edge(heap, a, k.id);
      ReachesThrough(heap, a, k.id, c);
      assert c == a ==> Cyclic(heap, a);
    }
    if Blocked(heap, Ref(a), ancestors) && a !in ancestors {
      var c :| Reaches(heap, a, c) && (c in ancestors || Cyclic(heap, c));
      var b: nat;
      if c == a {
        b :| Edge(heap, a, b) && Reaches(heap, b, a);
      } else {
        b := ReachesFirstStep(heap, a, c);
      }
      assert Ref(b) in heap[a].children && Blocked(heap, Ref(b), ancestors + {a});
    }
  }

  // ---- Tree unfolding ----

  /** `t` is the tree that a value unfolds to, shared containers repeated. */
  ghost predicate Unfolds(heap: Heap, v: GraphValue, t: Value)
    decreases t
  {
    match v
    case Leaf(x) => t == x
    case Ref(id) =>
      && id in heap && t.Composite? && t.kind == heap[id].kind && |t.children| == |heap[id].children|
      && forall i | 0 <= i < |t.children| :: Unfolds(heap, heap[id].children[i], t.children[i])
  }

  lemma {:induction false} UnfoldingUnique(heap: Heap, v: GraphValue, t: Value, u: Value)
    requires Unfolds(heap, v, t) && Unfolds(heap, v, u)
    ensures t == u
    decreases t
  {
    if v.Ref? {
      forall i | 0 <= i < |t.children| ensures t.children[i] == u.children[i] {
        UnfoldingUnique(heap, heap[v.id].children[i], t.children[i], u.children[i]);
      }
      assert t.children == u.children;
    }
  }

  /** Only acyclic values unfold to a tree. */
  lemma {:induction false} UnfoldedIsUnblocked(heap: Heap, v: GraphValue, t: Value, ancestors: set<nat>)
    requires Unfolds(heap, v, t)
    requires forall a, u | a in ancestors && Unfolds(heap, Ref(a), u) :: t < u
    ensures !Blocked(heap, v, ancestors)
    decreases t
  {
    if v.Ref? {
      BlockedStep(heap, v.id, ancestors);
      if v.id in ancestors {
        assert false;
      }
      forall k | k in heap[v.id].children ensures !Blocked(heap, k, ancestors + {v.id}) {
        var i :| 0 <= i < |t.children| && heap[v.id].children[i] == k;
        forall a, u | a in ancestors + {v.id} && Unfolds(heap, Ref(a), u) ensures t.children[i] < u {
          if a == v.id {
            UnfoldingUnique(heap, v, t, u);
          } else {
            SmallerThrough(t.children[i], t, u);
          }
        }
        UnfoldedIsUnblocked(heap, k, t.children[i], ancestors + {v.id});
      }
    }
  }

  lemma SmallerThrough(a: Value, b: Value, c: Value)
    requires a < b && b < c
    ensures a < c
  {
  }

  // ---- The serializer ----

  /** Fails exactly on a circular reference. Otherwise the shared `seen` set is back to what it
      was, and the result is the encoding of the tree that the value unfolds to. */
  method SerializeRecursive(heap: Heap, v: GraphValue, seen: set<nat>, c: Codec)
    returns (r: Outcome, seen': set<nat>, ghost t: Value)
    requires ValidHeap(heap) && ValidValue(heap, v) && seen <= heap.Keys
    ensures r.CircularReference? <==> Blocked(heap, v, seen)
    ensures r.Encoded? ==> seen' == seen && Unfolds(heap, v, t) && r.wire == Encode(c, t)
    decreases |heap.Keys - seen|, 0
  {
    seen', t := seen, Null;
    match v {
      case Leaf(x) =>
        t := x;
        r := Encoded(Encode(c, x));
      case Ref(id) =>
        BlockedStep(heap, id, seen);
        if id in seen {
          return CircularReference, seen, Null;
        }
        var blocked, wires, after, trees := SerializeChildren(heap, heap[id].children, seen + {id}, seen, id, c);
        if blocked {
          return CircularReference, seen, Null;
        }
        t := Composite(heap[id].kind, trees);
        assert EncodeAll(c, trees) == wires;
        r := Encoded(Assemble(c, heap[id].kind, wires));
        seen' := after - {id};
    }
  }

  method SerializeChildren(heap: Heap, children: seq<GraphValue>, seen: set<nat>, ghost outer: set<nat>, id: nat,
      c: Codec)
    returns (blocked: bool, wires: seq<Wire>, seen': set<nat>, ghost trees: seq<Value>)
    requires ValidHeap(heap) && (forall i | 0 <= i < |children| :: ValidValue(heap, children[i]))
    requires outer <= heap.Keys && id in heap && id !in outer && seen == outer + {id}
    ensures blocked <==> exists k | k in children :: Blocked(heap, k, seen)
    ensures !blocked ==> seen' == seen && |trees| == |children| && wires == EncodeAll(c, trees)
    ensures !blocked ==> forall i | 0 <= i < |children| :: Unfolds(heap, children[i], trees[i])
    decreases |heap.Keys - outer|, -1
  {
    blocked, wires, seen', trees := false, [], seen, [];
    assert heap.Keys - seen < heap.Keys - outer;
    CardinalityDrops(heap.Keys - seen, heap.Keys - outer);
    for i := 0 to |children|
      invariant seen' == seen && |trees| == i && wires == EncodeAll(c, trees)
      invariant forall j | 0 <= j < i :: Unfolds(heap, children[j], trees[j]) && !Blocked(heap, children[j], seen)
    {
      var r, after, t := SerializeRecursive(heap, children[i], seen', c);
      if r.CircularReference? {
        return true, [], seen', [];
      }
      EncodeAllSnoc(c, trees, t);
      wires, seen', trees := wires + [r.wire], after, trees + [t];
    }
  }

  lemma CardinalityDrops(a: set<nat>, b: set<nat>)
    requires a < b
    ensures |a| < |b|
  {
    assert |b - a| > 0;
    assert b == a + (b - a);
  }

  lemma {:induction false} EncodeAllSnoc(c: Codec, vs: seq<Value>, v: Value)
    ensures EncodeAll(c, vs + [v]) == EncodeAll(c, vs) + [Encode(c, v)]
  {
  }

  /** `serialize`: a circular reference is reported exactly when some container reachable from the
      value is its own descendant. */
  method Serialize(heap: Heap, v: GraphValue, c: Codec) returns (r: Outcome)
    requires ValidHeap(heap) && ValidValue(heap, v)
    ensures r.CircularReference? <==> v.Ref? && exists a :: Reaches(heap, v.id, a) && Cyclic(heap, a)
    ensures r.Encoded? ==> exists t :: Unfolds(heap, v, t) && r.wire == Encode(c, t)
  {
    var outcome, seen, t := SerializeRecursive(heap, v, {}, c);
    r := outcome;
  }

  /** Serializing and deserializing gives back the unfolded tree exactly when no plain object in
      it looks like a marker. */
  method Transfer(heap: Heap, v: GraphValue, c: Codec, ghost t: Value) returns (r: Option<Value>)
    requires c.Lawful() && ValidHeap(heap) && ValidValue(heap, v) && Unfolds(heap, v, t) && WellFormed(t)
    ensures r == Some(t) <==> Transparent(t)
  {
    UnfoldedIsUnblocked(heap, v, t, {});
    var outcome, seen, u := SerializeRecursive(heap, v, {}, c);
    UnfoldingUnique(heap, v, t, u);
    r := Decode(c, outcome.wire);
    RoundTrip(c, t);
  }
}
