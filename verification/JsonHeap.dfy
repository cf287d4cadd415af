/** JSON data as objects and arrays in memory, and the tree value that they show. */
module JsonHeap {
  import opened HydrationMeaning

  /** What a property or an element holds: a scalar, or a reference to an object or array. */
  datatype Cell = Leaf(value: Json) | Link(node: nat)

  datatype Node = Record(fields: map<string, Cell>) | List(items: seq<Cell>)

  /** Parsed data is a finite tree; its nodes are numbered so that children come before parents. */
  type Nodes = map<nat, Node>

  predicate Scalar(j: Json) {
    !j.Array? && !j.Object?
  }

  predicate HasSlot(node: Node, s: Step) {
    match s
    case AtKey(k) => node.Record? && k in node.fields
    case AtIndex(i) => node.List? && i < |node.items|
  }

  function SlotOf(node: Node, s: Step): Cell
    requires HasSlot(node, s)
  {
    match s case AtKey(k) => node.fields[k] case AtIndex(i) => node.items[i]
  }

  /** Assigning one property or element. */
  function WithSlot(node: Node, s: Step, c: Cell): Node
    requires HasSlot(node, s)
  {
    match s case AtKey(k) => Record(node.fields[k := c]) case AtIndex(i) => List(node.items[i := c])
  }

  predicate Under(c: Cell, n: nat) {
    c.Link? ==> c.node < n
  }

  function Rank(c: Cell): nat {
    if c.Link? then c.node + 1 else 0
  }

  // ---- The value that a cell shows ----

  ghost function Read(h: Nodes, c: Cell): Json
    decreases Rank(c), 1
  {
    match c
    case Leaf(v) => v
    case Link(n) =>
      if n !in h then Null
      else
        match h[n]
        case Record(fields) => Object(ReadFields(h, n, fields))
        case List(items) => Array(ReadItems(h, n, items))
  }

  ghost function ReadUnder(h: Nodes, n: nat, c: Cell): Json
    decreases n + 1, 0, 0
  {
    if Under(c, n) then Read(h, c) else Null
  }

  ghost function ReadFields(h: Nodes, n: nat, fields: map<string, Cell>): map<string, Json>
    decreases n + 1, 0, 1
  {
    map k | k in fields :: ReadUnder(h, n, fields[k])
  }

  ghost function ReadItems(h: Nodes, n: nat, items: seq<Cell>): seq<Json>
    decreases n + 1, 0, 1
  {
    seq(|items|, i requires 0 <= i < |items| => ReadUnder(h, n, items[i]))
  }

  // ---- The nodes of a value ----

  ghost predicate Owns(h: Nodes, c: Cell, m: nat)
    decreases Rank(c)
  {
    c.Link? && c.node in h &&
    (c.node == m || exists s ::
          HasSlot(h[c.node], s) && Under(SlotOf(h[c.node], s), c.node)
          && Owns(h, SlotOf(h[c.node], s), m))
  }

  /** A tree: no two properties or elements share a node. */
  ghost predicate Tidy(h: Nodes, c: Cell)
    decreases Rank(c)
  {
    match c
    case Leaf(v) => Scalar(v)
    case Link(n) =>
      && n in h
      && (forall s | HasSlot(h[n], s) :: Under(SlotOf(h[n], s), n) && Tidy(h, SlotOf(h[n], s)))
      && (forall s, t | HasSlot(h[n], s) && HasSlot(h[n], t) && s != t :: Apart(h, SlotOf(h[n], s), SlotOf(h[n], t)))
  }

  ghost predicate Apart(h: Nodes, c: Cell, d: Cell) {
    forall m :: !(Owns(h, c, m) && Owns(h, d, m))
  }

  lemma {:induction false} OwnsBelow(h: Nodes, c: Cell, m: nat)
    requires Owns(h, c, m)
    ensures m < Rank(c)
    decreases Rank(c)
  {
    if c.node != m {
      var s :| HasSlot(h[c.node], s) && Under(SlotOf(h[c.node], s), c.node) && Owns(h, SlotOf(h[c.node], s), m);
      OwnsBelow(h, SlotOf(h[c.node], s), m);
    }
  }

  /** A value depends only on its own nodes. */
  lemma {:induction false} ReadFrame(h: Nodes, g: Nodes, c: Cell)
    requires Tidy(h, c) && forall m | Owns(h, c, m) :: m in h && m in g && g[m] == h[m]
    ensures Read(g, c) == Read(h, c)
    decreases Rank(c)
  {
    if c.Link? {
      var n := c.node;
      assert Owns(h, c, n);
      forall s | HasSlot(h[n], s) ensures Read(g, SlotOf(h[n], s)) == Read(h, SlotOf(h[n], s)) {
        forall m | Owns(h, SlotOf(h[n], s), m) ensures m in h && m in g && g[m] == h[m] {
          assert Owns(h, c, m);
        }
        ReadFrame(h, g, SlotOf(h[n], s));
      }
      SameSlotsSameNode(h, g, n);
    }
  }

  lemma SameSlotsSameNode(h: Nodes, g: Nodes, n: nat)
    requires n in h && n in g && g[n] == h[n]
    requires forall s | HasSlot(h[n], s) ::
               Under(SlotOf(h[n], s), n)
               && Read(g, SlotOf(h[n], s)) == Read(h, SlotOf(h[n], s))
    ensures Read(g, Link(n)) == Read(h, Link(n))
  {
    match h[n] {
      case Record(fields) =>
        forall k | k in fields ensures ReadUnder(g, n, fields[k]) == ReadUnder(h, n, fields[k]) {
          assert HasSlot(h[n], AtKey(k));
        }
        assert ReadFields(g, n, fields) == ReadFields(h, n, fields);
      case List(items) =>
        forall i | 0 <= i < |items| ensures ReadUnder(g, n, items[i]) == ReadUnder(h, n, items[i]) {
          assert HasSlot(h[n], AtIndex(i));
        }
        assert ReadItems(g, n, items) == ReadItems(h, n, items);
    }
  }

  // ---- What hydration may change: scalars of the nodes of one value ----

  predicate SameLink(c: Cell, d: Cell) {
    if c.Link? then d == c else d.Leaf? && (Scalar(c.value) ==> Scalar(d.value))
  }

  ghost predicate SameLinksAt(a: Node, b: Node) {
    forall s :: (HasSlot(a, s) <==> HasSlot(b, s))
        && (HasSlot(a, s) && HasSlot(b, s) ==> SameLink(SlotOf(a, s), SlotOf(b, s)))
  }

  ghost predicate SameLinks(h: Nodes, g: Nodes) {
    g.Keys == h.Keys && forall m | m in h :: SameLinksAt(h[m], g[m])
  }

  /** Only nodes of `c` have changed, and only their scalars. */
  ghost predicate Touched(h: Nodes, g: Nodes, c: Cell) {
    SameLinks(h, g) && forall m | m in h && !Owns(h, c, m) :: g[m] == h[m]
  }

  lemma TouchedNothing(h: Nodes, c: Cell)
    ensures Touched(h, h, c)
  {
  }

  lemma {:induction false} OwnsKept(h: Nodes, g: Nodes, c: Cell, m: nat)
    requires SameLinks(h, g)
    ensures Owns(g, c, m) <==> Owns(h, c, m)
    decreases Rank(c)
  {
    if c.Link? && c.node in h && c.node != m {
      var n := c.node;
      assert SameLinksAt(h[n], g[n]);
      forall s | HasSlot(h[n], s) && Under(SlotOf(h[n], s), n)
        ensures Under(SlotOf(g[n], s), n) && (Owns(g, SlotOf(g[n], s), m) <==> Owns(h, SlotOf(h[n], s), m))
      {
        assert SameLink(SlotOf(h[n], s), SlotOf(g[n], s));
        if SlotOf(h[n], s).Link? { OwnsKept(h, g, SlotOf(h[n], s), m); }
      }
      forall s | HasSlot(g[n], s) && Under(SlotOf(g[n], s), n) && Owns(g, SlotOf(g[n], s), m) ensures Owns(h, c, m) {
        assert SameLink(SlotOf(h[n], s), SlotOf(g[n], s));
        assert Owns(h, SlotOf(h[n], s), m);
      }
      forall s | HasSlot(h[n], s) && Under(SlotOf(h[n], s), n) && Owns(h, SlotOf(h[n], s), m) ensures Owns(g, c, m) {
        assert Owns(g, SlotOf(g[n], s), m);
      }
    }
  }

  lemma {:induction false} TidyKept(h: Nodes, g: Nodes, c: Cell, d: Cell)
    requires SameLinks(h, g) && Tidy(h, c) && SameLink(c, d)
    ensures Tidy(g, d)
    decreases Rank(c)
  {
    if c.Link? {
      var n := c.node;
      assert SameLinksAt(h[n], g[n]);
      forall s | HasSlot(g[n], s) ensures Under(SlotOf(g[n], s), n) && Tidy(g, SlotOf(g[n], s)) {
        assert SameLink(SlotOf(h[n], s), SlotOf(g[n], s));
        TidyKept(h, g, SlotOf(h[n], s), SlotOf(g[n], s));
      }
      forall s, t | HasSlot(g[n], s) && HasSlot(g[n], t) && s != t ensures Apart(g, SlotOf(g[n], s), SlotOf(g[n], t)) {
        assert SameLink(SlotOf(h[n], s), SlotOf(g[n], s)) && SameLink(SlotOf(h[n], t), SlotOf(g[n], t));
        assert Apart(h, SlotOf(h[n], s), SlotOf(h[n], t));
        forall m ensures !(Owns(g, SlotOf(g[n], s), m) && Owns(g, SlotOf(g[n], t), m)) {
          OwnsKept(h, g, SlotOf(g[n], s), m);
          OwnsKept(h, g, SlotOf(g[n], t), m);
        }
      }
    }
  }

  lemma TouchedTwice(h: Nodes, g: Nodes, f: Nodes, c: Cell)
    requires Touched(h, g, c) && Touched(g, f, c)
    ensures Touched(h, f, c)
  {
    forall m | m in h ensures SameLinksAt(h[m], f[m]) {
      assert SameLinksAt(h[m], g[m]) && SameLinksAt(g[m], f[m]);
      forall s ensures (HasSlot(h[m], s) <==> HasSlot(f[m], s))
          && (HasSlot(h[m], s) && HasSlot(f[m], s) ==> SameLink(SlotOf(h[m], s), SlotOf(f[m], s))) {
        if HasSlot(h[m], s) {
          assert SameLink(SlotOf(h[m], s), SlotOf(g[m], s)) && SameLink(SlotOf(g[m], s), SlotOf(f[m], s));
        }
      }
    }
    forall m | m in h && !Owns(h, c, m) ensures f[m] == h[m] {
      OwnsKept(h, g, c, m);
    }
  }

  // ---- One property or element of a node ----

  /** Slot `s` of node `n` now shows `v`, and nothing else of the node has changed. */
  ghost predicate SlotNow(h: Nodes, g: Nodes, n: nat, s: Step, v: Json) {
    && n in h && HasSlot(h[n], s) && Touched(h, g, Link(n))
    && Read(g, SlotOf(g[n], s)) == v
    && forall t | HasSlot(h[n], t) && t != s :: SlotOf(g[n], t) == SlotOf(h[n], t)
        && Read(g, SlotOf(h[n], t)) == Read(h, SlotOf(h[n], t))
  }

  /** Changes within the value of one slot. */
  lemma SlotChanged(h: Nodes, g: Nodes, n: nat, s: Step)
    requires Tidy(h, Link(n)) && HasSlot(h[n], s) && Touched(h, g, SlotOf(h[n], s))
    ensures g[n] == h[n] && SlotNow(h, g, n, s, Read(g, SlotOf(h[n], s)))
  {
    var c := SlotOf(h[n], s);
    if Owns(h, c, n) { OwnsBelow(h, c, n); }
    forall m | Owns(h, c, m) ensures Owns(h, Link(n), m) {
    }
    forall t | HasSlot(h[n], t) && t != s ensures Read(g, SlotOf(h[n], t)) == Read(h, SlotOf(h[n], t)) {
      assert Apart(h, c, SlotOf(h[n], t));
      forall m | Owns(h, SlotOf(h[n], t), m) ensures m in h && m in g && g[m] == h[m] {
        OwnsIn(h, SlotOf(h[n], t), m);
      }
      ReadFrame(h, g, SlotOf(h[n], t));
    }
  }

  lemma {:induction false} OwnsIn(h: Nodes, c: Cell, m: nat)
    requires Owns(h, c, m)
    ensures m in h
    decreases Rank(c)
  {
    if c.node != m {
      var s :| HasSlot(h[c.node], s) && Under(SlotOf(h[c.node], s), c.node) && Owns(h, SlotOf(h[c.node], s), m);
      OwnsIn(h, SlotOf(h[c.node], s), m);
    }
  }

  /** A scalar assigned to a slot that held one. */
  lemma SlotAssigned(h: Nodes, n: nat, s: Step, v: Json)
    requires Tidy(h, Link(n)) && HasSlot(h[n], s) && SlotOf(h[n], s).Leaf? && Scalar(v)
    ensures SlotNow(h, h[n := WithSlot(h[n], s, Leaf(v))], n, s, v)
  {
    var g := h[n := WithSlot(h[n], s, Leaf(v))];
    assert Owns(h, Link(n), n);
    forall t | HasSlot(h[n], t) && t != s ensures Read(g, SlotOf(h[n], t)) == Read(h, SlotOf(h[n], t)) {
      forall m | Owns(h, SlotOf(h[n], t), m) ensures m in h && m in g && g[m] == h[m] {
        OwnsIn(h, SlotOf(h[n], t), m);
        OwnsBelow(h, SlotOf(h[n], t), m);
      }
      ReadFrame(h, g, SlotOf(h[n], t));
    }
  }

  lemma FieldNow(h: Nodes, g: Nodes, n: nat, k: string, v: Json)
    requires SlotNow(h, g, n, AtKey(k), v) && Tidy(h, Link(n))
    ensures Read(h, Link(n)).Object? && Read(g, Link(n)) == Object(Read(h, Link(n)).fields[k := v])
  {
    assert SameLinksAt(h[n], g[n]);
    assert SameLink(SlotOf(h[n], AtKey(k)), SlotOf(g[n], AtKey(k)));
    assert HasSlot(g[n], AtKey(k));
    var was, now := h[n].fields, g[n].fields;
    forall j: string ensures j in now <==> j in was {
      assert HasSlot(h[n], AtKey(j)) <==> HasSlot(g[n], AtKey(j));
    }
    forall j | j in was ensures ReadUnder(g, n, now[j]) == if j == k then v else ReadUnder(h, n, was[j]) {
      assert HasSlot(h[n], AtKey(j)) && SlotOf(h[n], AtKey(j)) == was[j] && SlotOf(g[n], AtKey(j)) == now[j];
      assert Under(was[j], n);
    }
    assert ReadFields(g, n, now) == ReadFields(h, n, was)[k := v];
  }

  lemma ItemNow(h: Nodes, g: Nodes, n: nat, i: nat, v: Json)
    requires SlotNow(h, g, n, AtIndex(i), v) && Tidy(h, Link(n))
    ensures Read(h, Link(n)).Array? && i < |Read(h, Link(n)).items|
    ensures Read(g, Link(n)) == Array(Read(h, Link(n)).items[i := v])
  {
    assert SameLinksAt(h[n], g[n]);
    assert SameLink(SlotOf(h[n], AtIndex(i)), SlotOf(g[n], AtIndex(i)));
    assert HasSlot(g[n], AtIndex(i));
    var was, now := h[n].items, g[n].items;
    assert |now| == |was| by {
      assert HasSlot(h[n], AtIndex(|now|)) <==> HasSlot(g[n], AtIndex(|now|));
      assert HasSlot(h[n], AtIndex(|was|)) <==> HasSlot(g[n], AtIndex(|was|));
    }
    forall j: nat | j < |was| ensures ReadUnder(g, n, now[j]) == if j == i then v else ReadUnder(h, n, was[j]) {
      assert HasSlot(h[n], AtIndex(j)) && SlotOf(h[n], AtIndex(j)) == was[j] && SlotOf(g[n], AtIndex(j)) == now[j];
      assert Under(was[j], n);
    }
    assert ReadItems(g, n, now) == ReadItems(h, n, was)[i := v];
  }

  /** What a node shows, slot by slot. */
  lemma FieldRead(h: Nodes, n: nat, k: string)
    requires Tidy(h, Link(n))
    ensures Read(h, Link(n)).Object? <==> h[n].Record?
    ensures h[n].Record? ==> Read(h, Link(n)).fields.Keys == h[n].fields.Keys
    ensures h[n].Record? && k in h[n].fields ==> Read(h, Link(n)).fields[k] == Read(h, h[n].fields[k])
  {
    if h[n].Record? && k in h[n].fields {
      assert HasSlot(h[n], AtKey(k)) && SlotOf(h[n], AtKey(k)) == h[n].fields[k];
      assert Read(h, Link(n)) == Object(ReadFields(h, n, h[n].fields));
      assert ReadFields(h, n, h[n].fields)[k] == ReadUnder(h, n, h[n].fields[k]);
    }
  }

  lemma ItemRead(h: Nodes, n: nat, i: nat)
    requires Tidy(h, Link(n))
    ensures Read(h, Link(n)).Array? <==> h[n].List?
    ensures h[n].List? ==> |Read(h, Link(n)).items| == |h[n].items|
    ensures h[n].List? && i < |h[n].items| ==> Read(h, Link(n)).items[i] == Read(h, h[n].items[i])
  {
    if h[n].List? && i < |h[n].items| {
      assert HasSlot(h[n], AtIndex(i)) && SlotOf(h[n], AtIndex(i)) == h[n].items[i];
      assert Read(h, Link(n)) == Array(ReadItems(h, n, h[n].items));
      assert ReadItems(h, n, h[n].items)[i] == ReadUnder(h, n, h[n].items[i]);
    }
  }

  lemma SlotTidy(h: Nodes, n: nat, s: Step)
    requires Tidy(h, Link(n)) && HasSlot(h[n], s)
    ensures Tidy(h, SlotOf(h[n], s)) && Under(SlotOf(h[n], s), n)
    ensures forall m | Owns(h, SlotOf(h[n], s), m) :: Owns(h, Link(n), m)
  {
  }

  /** What changed within a slot changed within the node. */
  lemma TouchedUp(h: Nodes, g: Nodes, n: nat, s: Step)
    requires Tidy(h, Link(n)) && HasSlot(h[n], s) && Touched(h, g, SlotOf(h[n], s))
    ensures Touched(h, g, Link(n)) && Tidy(g, Link(n))
  {
    SlotTidy(h, n, s);
    TidyKept(h, g, Link(n), Link(n));
  }

  // ---- Every value has such a place in memory ----

  ghost predicate Extends(h: Nodes, g: Nodes) {
    forall m | m in h :: m in g && g[m] == h[m]
  }

  lemma {:induction false} OwnsExtended(h: Nodes, g: Nodes, c: Cell, m: nat)
    requires Tidy(h, c) && Extends(h, g)
    ensures Owns(g, c, m) <==> Owns(h, c, m)
    decreases Rank(c)
  {
    if c.Link? && c.node != m {
      var n := c.node;
      forall s | HasSlot(h[n], s) ensures Owns(g, SlotOf(h[n], s), m) <==> Owns(h, SlotOf(h[n], s), m) {
        OwnsExtended(h, g, SlotOf(h[n], s), m);
      }
    }
  }

  lemma {:induction false} TidyExtended(h: Nodes, g: Nodes, c: Cell)
    requires Tidy(h, c) && Extends(h, g)
    ensures Tidy(g, c) && Read(g, c) == Read(h, c)
    decreases Rank(c)
  {
    forall m | Owns(h, c, m) ensures m in h && m in g && g[m] == h[m] {
      OwnsIn(h, c, m);
    }
    ReadFrame(h, g, c);
    if c.Link? {
      var n := c.node;
      forall s | HasSlot(h[n], s) ensures Tidy(g, SlotOf(h[n], s)) {
        TidyExtended(h, g, SlotOf(h[n], s));
      }
      forall s, t | HasSlot(h[n], s) && HasSlot(h[n], t) && s != t ensures Apart(g, SlotOf(h[n], s), SlotOf(h[n], t)) {
        assert Apart(h, SlotOf(h[n], s), SlotOf(h[n], t));
        forall m ensures !(Owns(g, SlotOf(h[n], s), m) && Owns(g, SlotOf(h[n], t), m)) {
          OwnsExtended(h, g, SlotOf(h[n], s), m);
          OwnsExtended(h, g, SlotOf(h[n], t), m);
        }
      }
    }
  }

  /** A value placed in the numbers from `lo` up to `hi`. */
  ghost predicate Placed(h: Nodes, c: Cell, j: Json, lo: nat, hi: nat) {
    && Tidy(h, c) && Read(h, c) == j && lo <= hi && (c.Link? ==> c.node < hi)
    && forall m | Owns(h, c, m) :: lo <= m
  }

  lemma PlacedExtended(h: Nodes, g: Nodes, c: Cell, j: Json, lo: nat, hi: nat)
    requires Placed(h, c, j, lo, hi) && Extends(h, g)
    ensures Placed(g, c, j, lo, hi)
  {
    TidyExtended(h, g, c);
    forall m | Owns(g, c, m) ensures lo <= m {
      OwnsExtended(h, g, c, m);
    }
  }

  lemma PlacedApart(h: Nodes, c: Cell, d: Cell, i: Json, j: Json, lo: nat, mid: nat, hi: nat)
    requires Placed(h, c, i, lo, mid) && Placed(h, d, j, mid, hi)
    ensures Apart(h, c, d) && Apart(h, d, c)
  {
    forall m ensures !(Owns(h, c, m) && Owns(h, d, m)) {
      if Owns(h, c, m) { OwnsBelow(h, c, m); }
    }
  }

  ghost predicate Bounded(h: Nodes, n: nat) {
    forall m | m in h :: m < n
  }

  lemma ApartExtended(h: Nodes, g: Nodes, c: Cell, d: Cell)
    requires Tidy(h, c) && Tidy(h, d) && Apart(h, c, d) && Extends(h, g)
    ensures Apart(g, c, d)
  {
    forall m ensures !(Owns(g, c, m) && Owns(g, d, m)) {
      OwnsExtended(h, g, c, m);
      OwnsExtended(h, g, d, m);
    }
  }

  /** A new node over slots that are placed below it. */
  ghost predicate SlotsPlaced(h: Nodes, node: Node, lo: nat, hi: nat) {
    && (forall s | HasSlot(node, s) :: Placed(h, SlotOf(node, s), Read(h, SlotOf(node, s)), lo, hi))
    && (forall s, t | HasSlot(node, s) && HasSlot(node, t) && s != t :: Apart(h, SlotOf(node, s), SlotOf(node, t)))
  }

  lemma NodeAdded(h: Nodes, node: Node, lo: nat, hi: nat)
    requires Bounded(h, hi) && lo <= hi && SlotsPlaced(h, node, lo, hi)
    ensures var g := h[hi := node];
            && Extends(h, g) && Bounded(g, hi + 1) && Placed(g, Link(hi), Read(g, Link(hi)), lo, hi + 1)
            && forall s | HasSlot(node, s) :: Read(g, SlotOf(node, s)) == Read(h, SlotOf(node, s))
                && Under(SlotOf(node, s), hi)
  {
    var g := h[hi := node];
    forall s | HasSlot(node, s)
      ensures Under(SlotOf(node, s), hi) && Tidy(g, SlotOf(node, s))
              && Read(g, SlotOf(node, s)) == Read(h, SlotOf(node, s))
      ensures forall m | Owns(g, SlotOf(node, s), m) :: lo <= m
    {
      PlacedExtended(h, g, SlotOf(node, s), Read(h, SlotOf(node, s)), lo, hi);
    }
    forall s, t | HasSlot(node, s) && HasSlot(node, t) && s != t ensures Apart(g, SlotOf(node, s), SlotOf(node, t)) {
      ApartExtended(h, g, SlotOf(node, s), SlotOf(node, t));
    }
  }

  /** Any value can be placed behind what memory holds already. */
  lemma {:induction false} Place(j: Json, h: Nodes, lo: nat) returns (g: Nodes, c: Cell, hi: nat)
    requires Bounded(h, lo)
    ensures Extends(h, g) && Bounded(g, hi) && Placed(g, c, j, lo, hi)
    decreases j, 1
  {
    match j {
      case Array(items) =>
        var cells: seq<Cell>;
        g, cells, hi := PlaceItems(j, h, lo, |items|);
        NodeAdded(g, List(cells), lo, hi);
        var more := g[hi := List(cells)];
        forall i | 0 <= i < |items| ensures ReadUnder(more, hi, cells[i]) == items[i] {
          assert HasSlot(List(cells), AtIndex(i)) && SlotOf(List(cells), AtIndex(i)) == cells[i];
        }
        assert ReadItems(more, hi, cells) == items;
        g, c, hi := more, Link(hi), hi + 1;
      case Object(fields) =>
        var cells: map<string, Cell>;
        g, cells, hi := PlaceFields(j, h, lo, fields.Keys);
        NodeAdded(g, Record(cells), lo, hi);
        var more := g[hi := Record(cells)];
        forall k | k in fields ensures ReadUnder(more, hi, cells[k]) == fields[k] {
          assert HasSlot(Record(cells), AtKey(k)) && SlotOf(Record(cells), AtKey(k)) == cells[k];
        }
        assert ReadFields(more, hi, cells) == fields;
        g, c, hi := more, Link(hi), hi + 1;
      case _ =>
        g, c, hi := h, Leaf(j), lo;
    }
  }

  /** One more slot, placed behind the others. */
  lemma SlotAdded(h: Nodes, g: Nodes, node: Node, more: Node, s: Step, j: Json, lo: nat, mid: nat, hi: nat)
    requires SlotsPlaced(h, node, lo, mid) && Extends(h, g) && lo <= mid
    requires HasSlot(more, s) && Placed(g, SlotOf(more, s), j, mid, hi)
    requires forall t | t != s ::
               (HasSlot(more, t) <==> HasSlot(node, t))
               && (HasSlot(node, t) ==> SlotOf(more, t) == SlotOf(node, t))
    requires !HasSlot(node, s)
    ensures SlotsPlaced(g, more, lo, hi)
    ensures forall t | HasSlot(node, t) :: Read(g, SlotOf(node, t)) == Read(h, SlotOf(node, t))
  {
    forall t | HasSlot(node, t)
      ensures Placed(g, SlotOf(node, t), Read(h, SlotOf(node, t)), lo, mid)
    {
      PlacedExtended(h, g, SlotOf(node, t), Read(h, SlotOf(node, t)), lo, mid);
    }
    forall t, u | HasSlot(more, t) && HasSlot(more, u) && t != u ensures Apart(g, SlotOf(more, t), SlotOf(more, u)) {
      if t != s && u != s {
        ApartExtended(h, g, SlotOf(node, t), SlotOf(node, u));
      } else {
        var v := if t == s then u else t;
        PlacedApart(g, SlotOf(node, v), SlotOf(more, s), Read(h, SlotOf(node, v)), j, lo, mid, hi);
      }
    }
  }

  lemma {:induction false} PlaceItems(j: Json, h: Nodes, lo: nat, k: nat) returns (g: Nodes, cells: seq<Cell>, hi: nat)
    requires Bounded(h, lo) && j.Array? && k <= |j.items|
    ensures |cells| == k && SlotsPlaced(g, List(cells), lo, hi) && lo <= hi
    ensures forall i | 0 <= i < k :: Read(g, cells[i]) == j.items[i]
    ensures Extends(h, g) && Bounded(g, hi)
    decreases j, 0, k
  {
    if k == 0 {
      g, cells, hi := h, [], lo;
    } else {
      var h', cells', mid := PlaceItems(j, h, lo, k - 1);
      var c: Cell;
      g, c, hi := Place(j.items[k - 1], h', mid);
      cells := cells' + [c];
      SlotAdded(h', g, List(cells'), List(cells), AtIndex(k - 1), j.items[k - 1], lo, mid, hi);
      forall i | 0 <= i < k ensures Read(g, cells[i]) == j.items[i] {
        if i < k - 1 { assert HasSlot(List(cells'), AtIndex(i)) && SlotOf(List(cells'), AtIndex(i)) == cells[i]; }
      }
    }
  }

  lemma {:induction false} PlaceFields(j: Json, h: Nodes, lo: nat, keys: set<string>) returns (g: Nodes,
      cells: map<string, Cell>, hi: nat)
    requires Bounded(h, lo) && j.Object? && keys <= j.fields.Keys
    ensures cells.Keys == keys && SlotsPlaced(g, Record(cells), lo, hi) && lo <= hi
    ensures forall k | k in keys :: Read(g, cells[k]) == j.fields[k]
    ensures Extends(h, g) && Bounded(g, hi)
    decreases j, 0, |keys|
  {
    if keys == {} {
      g, cells, hi := h, map[], lo;
    } else {
      var k :| k in keys;
      var h', cells', mid := PlaceFields(j, h, lo, keys - {k});
      var c: Cell;
      g, c, hi := Place(j.fields[k], h', mid);
      cells := cells'[k := c];
      SlotAdded(h', g, Record(cells'), Record(cells), AtKey(k), j.fields[k], lo, mid, hi);
      forall l | l in keys ensures Read(g, cells[l]) == j.fields[l] {
        if l != k { assert HasSlot(Record(cells'), AtKey(l)) && SlotOf(Record(cells'), AtKey(l)) == cells[l]; }
      }
    }
  }

  /** Every JSON value is shown by some tidy cell. */
  lemma EveryValueHasAPlace(j: Json) returns (h: Nodes, c: Cell)
    ensures Tidy(h, c) && Read(h, c) == j
  {
    var hi: nat;
    h, c, hi := Place(j, map[], 0);
  }
}
