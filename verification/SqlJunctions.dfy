/** Parent/child junction tables: batched synchronisation, and what a cache-key removal leaves of them. */
module SqlJunctions {
  import opened Options
  import opened StorageRecords
  import opened SqlDatabase
  import opened SqliteTables

  datatype Child = Child(id: string, value: Option<string>)

  datatype JunctionSyncOp = JunctionSyncOp(
    junctionName: string, parentId: string, add: seq<Child>, removeChildIds: seq<string>, removeAll: bool)

  function JunctionOf(op: JunctionSyncOp): string {
    op.junctionName
  }

  // ---- One operation ----

  function RowsToAdd(op: JunctionSyncOp): seq<JunctionRow> {
    seq(|op.add|, i requires 0 <= i < |op.add| => JunctionRow(op.parentId, op.add[i].id, op.add[i].value))
  }

  function Removed(j: Junction, op: JunctionSyncOp): Junction {
    if op.removeAll then WithoutParents(j, {op.parentId})
    else j - (set c | c in op.removeChildIds :: (op.parentId, c))
  }

  function Applied(j: Junction, op: JunctionSyncOp): Junction {
    PairsInserted(Removed(j, op), RowsToAdd(op))
  }

  // ---- A batch, one operation after another, and deletes first ----

  function AppliedAll(j: Junction, ops: seq<JunctionSyncOp>): Junction {
    if ops == [] then j else Applied(AppliedAll(j, ops[..|ops| - 1]), ops[|ops| - 1])
  }

  function RemovedAll(j: Junction, ops: seq<JunctionSyncOp>): Junction {
    if ops == [] then j else Removed(RemovedAll(j, ops[..|ops| - 1]), ops[|ops| - 1])
  }

  function AllRows(ops: seq<JunctionSyncOp>): seq<JunctionRow> {
    if ops == [] then [] else AllRows(ops[..|ops| - 1]) + RowsToAdd(ops[|ops| - 1])
  }

  /** All deletes, then all inserts. */
  function InPhases(j: Junction, ops: seq<JunctionSyncOp>): Junction {
    PairsInserted(RemovedAll(j, ops), AllRows(ops))
  }

  ghost predicate DistinctParents(ops: seq<JunctionSyncOp>) {
    forall i, k | 0 <= i < k < |ops| :: ops[i].parentId != ops[k].parentId
  }

  /** Each parent of a junction appears in at most one operation. */
  ghost predicate OncePerParent(ops: seq<JunctionSyncOp>) {
    forall i, k | 0 <= i < k < |ops| ::
      ops[i].junctionName != ops[k].junctionName || ops[i].parentId != ops[k].parentId
  }

  function Lookup(j: Junction, p: Pair): Option<Option<string>> {
    if p in j then Some(j[p]) else None
  }

  lemma SameLookups(a: Junction, b: Junction)
    ensures a == b <==> forall p :: Lookup(a, p) == Lookup(b, p)
  {
    if forall p :: Lookup(a, p) == Lookup(b, p) {
      forall p ensures p in a <==> p in b {
        assert Lookup(a, p) == Lookup(b, p);
      }
      forall p | p in a ensures a[p] == b[p] {
        assert Lookup(a, p) == Lookup(b, p);
      }
    }
  }

  function OrElse(a: Option<Option<string>>, b: Option<Option<string>>): Option<Option<string>> {
    if a.Some? then a else b
  }

  /** The value of the first row for a pair. */
  function FirstRow(rows: seq<JunctionRow>, p: Pair): Option<Option<string>> {
    if rows == [] then None
    else
      var last := rows[|rows| - 1];
      OrElse(FirstRow(rows[..|rows| - 1], p), if (last.parent, last.child) == p then Some(last.value) else None)
  }

  lemma {:induction false} FirstRowConcat(a: seq<JunctionRow>, b: seq<JunctionRow>, p: Pair)
    ensures FirstRow(a + b, p) == OrElse(FirstRow(a, p), FirstRow(b, p))
  {
    if b == [] {
      assert a + b == a;
    } else {
      FirstRowConcat(a, b[..|b| - 1], p);
      assert (a + b)[..|a + b| - 1] == a + b[..|b| - 1];
    }
  }

  lemma {:induction false} InsertedAt(j: Junction, rows: seq<JunctionRow>, p: Pair)
    ensures Lookup(PairsInserted(j, rows), p) == OrElse(Lookup(j, p), FirstRow(rows, p))
  {
    if rows != [] {
      InsertedAt(j, rows[..|rows| - 1], p);
    }
  }

  predicate Removes(op: JunctionSyncOp, p: Pair) {
    p.0 == op.parentId && (op.removeAll || p.1 in op.removeChildIds)
  }

  lemma RemovedAt(j: Junction, op: JunctionSyncOp, p: Pair)
    ensures Lookup(Removed(j, op), p) == if Removes(op, p) then None else Lookup(j, p)
  {
    assert p == (p.0, p.1);
  }

  /** The first of the children that has the id. */
  predicate FirstNamed(children: seq<Child>, i: nat, id: string) {
    i < |children| && children[i].id == id && forall k | 0 <= k < i :: children[k].id != id
  }

  lemma {:induction false} FirstRowIs(rows: seq<JunctionRow>, i: nat, p: Pair)
    requires i < |rows| && (rows[i].parent, rows[i].child) == p
    requires forall k | 0 <= k < i :: (rows[k].parent, rows[k].child) != p
    ensures FirstRow(rows, p) == Some(rows[i].value)
  {
    if i < |rows| - 1 {
      FirstRowIs(rows[..|rows| - 1], i, p);
    } else {
      NoRow(rows[..i], p);
    }
  }

  lemma {:induction false} NoRow(rows: seq<JunctionRow>, p: Pair)
    requires forall k | 0 <= k < |rows| :: (rows[k].parent, rows[k].child) != p
    ensures FirstRow(rows, p) == None
  {
    if rows != [] {
      NoRow(rows[..|rows| - 1], p);
    }
  }

  /** What one operation leaves of a pair: those of other parents stay; of its own, a pair that is not removed
      keeps its value, one that is added otherwise has the value of the first child of that id, and no more. */
  lemma AppliedMeans(j: Junction, op: JunctionSyncOp, parent: string, child: string)
    ensures var was, now := Lookup(j, (parent, child)), Lookup(Applied(j, op), (parent, child));
            var kept := was.Some? && !op.removeAll && child !in op.removeChildIds;
            && (parent != op.parentId || kept ==> now == was)
            && (parent == op.parentId && !kept ==>
                  && (forall i: nat | FirstNamed(op.add, i, child) :: now == Some(op.add[i].value))
                  && ((forall i | 0 <= i < |op.add| :: op.add[i].id != child) ==> now == None))
  {
    var p, rows := (parent, child), RowsToAdd(op);
    RemovedAt(j, op, p);
    InsertedAt(Removed(j, op), rows, p);
    forall i: nat | parent == op.parentId && FirstNamed(op.add, i, child)
      ensures FirstRow(rows, p) == Some(op.add[i].value)
    {
      FirstRowIs(rows, i, p);
    }
    if parent != op.parentId || forall i | 0 <= i < |op.add| :: op.add[i].id != child {
      NoRow(rows, p);
    }
  }

  predicate EverRemoved(ops: seq<JunctionSyncOp>, p: Pair) {
    exists i | 0 <= i < |ops| :: Removes(ops[i], p)
  }

  function AddedValue(ops: seq<JunctionSyncOp>, p: Pair): Option<Option<string>> {
    FirstRow(AllRows(ops), p)
  }

  lemma AddedSnoc(ops: seq<JunctionSyncOp>, op: JunctionSyncOp, p: Pair)
    ensures AddedValue(ops + [op], p) == OrElse(AddedValue(ops, p), FirstRow(RowsToAdd(op), p))
    ensures EverRemoved(ops + [op], p) <==> EverRemoved(ops, p) || Removes(op, p)
  {
    var more := ops + [op];
    assert more[..|ops|] == ops;
    FirstRowConcat(AllRows(ops), RowsToAdd(op), p);
    if i :| 0 <= i < |ops| && Removes(ops[i], p) { assert Removes(more[i], p); }
    if Removes(op, p) { assert Removes(more[|ops|], p); }
  }

  lemma {:induction false} RemovedAllAt(j: Junction, ops: seq<JunctionSyncOp>, p: Pair)
    ensures Lookup(RemovedAll(j, ops), p) == if EverRemoved(ops, p) then None else Lookup(j, p)
  {
    if ops != [] {
      var init, last := ops[..|ops| - 1], ops[|ops| - 1];
      RemovedAllAt(j, init, p);
      RemovedAt(RemovedAll(j, init), last, p);
      AddedSnoc(init, last, p);
      assert init + [last] == ops;
    }
  }

  /** What running the operations in turn leaves of a pair: what was added since its last removal. */
  function Outcome(ops: seq<JunctionSyncOp>, p: Pair): Option<Option<string>> {
    if ops == [] then None
    else
      var last := ops[|ops| - 1];
      OrElse(if Removes(last, p) then None else Outcome(ops[..|ops| - 1], p), FirstRow(RowsToAdd(last), p))
  }

  lemma {:induction false} AppliedAllAt(j: Junction, ops: seq<JunctionSyncOp>, p: Pair)
    ensures Lookup(AppliedAll(j, ops), p) == OrElse(if EverRemoved(ops, p) then None else Lookup(j, p), Outcome(ops, p))
    ensures !EverRemoved(ops, p) ==> Outcome(ops, p) == AddedValue(ops, p)
  {
    if ops != [] {
      var init, last := ops[..|ops| - 1], ops[|ops| - 1];
      AppliedAllAt(j, init, p);
      RemovedAt(AppliedAll(j, init), last, p);
      InsertedAt(Removed(AppliedAll(j, init), last), RowsToAdd(last), p);
      AddedSnoc(init, last, p);
      assert init + [last] == ops;
    }
  }

  predicate LastRemoval(ops: seq<JunctionSyncOp>, k: nat, p: Pair) {
    && k < |ops| && Removes(ops[k], p)
    && forall i | k < i < |ops| :: !Removes(ops[i], p)
  }

  /** Nothing is added to a pair before its last removal, or else the same value is added afterwards. */
  ghost predicate Orderly(ops: seq<JunctionSyncOp>) {
    forall k: nat, p | LastRemoval(ops, k, p) ::
      AddedValue(ops[..k], p).None? || AddedValue(ops[k..], p) == AddedValue(ops[..k], p)
  }

  lemma {:induction false} OutcomeSinceRemoval(ops: seq<JunctionSyncOp>, k: nat, p: Pair)
    requires LastRemoval(ops, k, p)
    ensures Outcome(ops, p) == AddedValue(ops[k..], p)
    ensures AddedValue(ops, p) == OrElse(AddedValue(ops[..k], p), AddedValue(ops[k..], p))
    decreases |ops|
  {
    var init, last := ops[..|ops| - 1], ops[|ops| - 1];
    if k == |ops| - 1 {
      assert ops[k..] == [] + [last] && ops == ops[..k] + [last];
      AddedSnoc([], last, p);
      AddedSnoc(ops[..k], last, p);
    } else {
      OutcomeSinceRemoval(init, k, p);
      assert ops[k..] == init[k..] + [last] && ops == init + [last] && ops[..k] == init[..k];
      AddedSnoc(init[k..], last, p);
      AddedSnoc(init, last, p);
    }
  }

  lemma {:induction false} LastRemovalExists(ops: seq<JunctionSyncOp>, p: Pair) returns (k: nat)
    requires EverRemoved(ops, p)
    ensures LastRemoval(ops, k, p)
  {
    var init, last := ops[..|ops| - 1], ops[|ops| - 1];
    if Removes(last, p) {
      k := |ops| - 1;
    } else {
      var i :| 0 <= i < |ops| && Removes(ops[i], p);
      assert Removes(init[i], p);
      k := LastRemovalExists(init, p);
    }
  }

  /** On one junction, all deletes first and all inserts last is one operation after another
      exactly when the batch is orderly, whatever the table holds. */
  lemma DeletesFirst(j: Junction, ops: seq<JunctionSyncOp>)
    ensures InPhases(j, ops) == AppliedAll(j, ops) <==> Orderly(ops)
  {
    var a, b := InPhases(j, ops), AppliedAll(j, ops);
    SameLookups(a, b);
    forall p: Pair ensures Lookup(a, p) == Lookup(b, p)
        <==> !EverRemoved(ops, p) || Outcome(ops, p) == AddedValue(ops, p) {
      InsertedAt(RemovedAll(j, ops), AllRows(ops), p);
      RemovedAllAt(j, ops, p);
      AppliedAllAt(j, ops, p);
    }
    if Orderly(ops) {
      forall p: Pair | EverRemoved(ops, p) ensures Outcome(ops, p) == AddedValue(ops, p) {
        var k := LastRemovalExists(ops, p);
        OutcomeSinceRemoval(ops, k, p);
      }
    } else {
      var k: nat, p :| LastRemoval(ops, k, p) && AddedValue(ops[..k], p).Some?
          && AddedValue(ops[k..], p) != AddedValue(ops[..k], p);
      OutcomeSinceRemoval(ops, k, p);
      assert Removes(ops[k], p);
      assert Lookup(a, p) != Lookup(b, p);
    }
  }

  lemma {:induction false} RowParents(ops: seq<JunctionSyncOp>, p: Pair)
    requires forall op | op in ops :: op.parentId != p.0
    ensures AddedValue(ops, p).None?
  {
    if ops != [] {
      var init, last := ops[..|ops| - 1], ops[|ops| - 1];
      RowParents(init, p);
      assert last in ops && init + [last] == ops;
      AddedSnoc(init, last, p);
      OtherRows(RowsToAdd(last), p);
    }
  }

  lemma OtherRows(rows: seq<JunctionRow>, p: Pair)
    requires forall i | 0 <= i < |rows| :: rows[i].parent != p.0
    ensures FirstRow(rows, p).None?
  {
  }

  /** The batches of the read-model store are orderly: a parent appears once per junction. */
  lemma OncePerParentOrderly(ops: seq<JunctionSyncOp>)
    requires DistinctParents(ops)
    ensures Orderly(ops)
  {
    forall k: nat, p | LastRemoval(ops, k, p) ensures AddedValue(ops[..k], p).None? {
      forall op | op in ops[..k] ensures op.parentId != p.0 {
        var i :| 0 <= i < k && ops[i] == op;
      }
      RowParents(ops[..k], p);
    }
  }

  /** A parent that appears twice may break the order: here a pair that the second operation removes is
      inserted after its removal. */
  lemma RepeatedParentDiffers(name: string, parent: string, child: Child)
    ensures var ops := [JunctionSyncOp(name, parent, [child], [], false),
              JunctionSyncOp(name, parent, [], [child.id], false)];
            InPhases(map[], ops) != AppliedAll(map[], ops)
  {
    var a, b := JunctionSyncOp(name, parent, [child], [], false), JunctionSyncOp(name, parent, [], [child.id], false);
    var p := (parent, child.id);
    assert [a, b][..1] == [a] && [a][..0] == [];
    var rows := RowsToAdd(a);
    assert rows == [JunctionRow(parent, child.id, child.value)] && RowsToAdd(b) == [];
    assert rows[..0] == [];
    assert AllRows([a]) == [] + rows == rows;
    assert AllRows([a, b]) == AllRows([a]) + RowsToAdd(b) == rows + [] == rows;
    assert p in PairsInserted(RemovedAll(map[], [a, b]), rows);
    assert child.id in b.removeChildIds;
    assert p !in Removed(AppliedAll(map[], [a]), b);
  }

  // ---- The whole database ----

  function Synced(db: Database, ops: seq<JunctionSyncOp>): Database {
    if ops == [] then db
    else
      var d, op := Synced(db, ops[..|ops| - 1]), ops[|ops| - 1];
      if op.junctionName in d.junctions then WithJunction(d, op.junctionName,
          Applied(d.junctions[op.junctionName], op)) else d
  }

  lemma {:induction false} SyncedByJunction(db: Database, ops: seq<JunctionSyncOp>)
    ensures Synced(db, ops) == db.(junctions := Synced(db, ops).junctions)
    ensures Synced(db, ops).junctions.Keys == db.junctions.Keys
    ensures forall j | j in db.junctions ::
              Synced(db, ops).junctions[j]
              == AppliedAll(db.junctions[j], Select(ops, JunctionOf, j))
  {
    if ops != [] {
      var init, op := ops[..|ops| - 1], ops[|ops| - 1];
      SyncedByJunction(db, init);
      forall j | j in db.junctions
        ensures Synced(db, ops).junctions[j] == AppliedAll(db.junctions[j], Select(ops, JunctionOf, j))
      {
        if op.junctionName == j {
          var group := Select(init, JunctionOf, j);
          assert (group + [op])[..|group|] == group;
        }
      }
    }
  }

  lemma {:induction false} SelectedOncePerParent(ops: seq<JunctionSyncOp>, j: string)
    requires OncePerParent(ops)
    ensures DistinctParents(Select(ops, JunctionOf, j))
  {
    if ops != [] {
      var init, op := ops[..|ops| - 1], ops[|ops| - 1];
      SelectedOncePerParent(init, j);
      if op.junctionName == j {
        forall r | r in Select(init, JunctionOf, j) ensures r.parentId != op.parentId {
          SelectMembers(init, JunctionOf, j, r);
          var k :| 0 <= k < |init| && init[k] == r;
          assert ops[k] == r;
        }
        DistinctParentsSnoc(Select(init, JunctionOf, j), op);
      }
    }
  }

  lemma DistinctParentsSnoc(ops: seq<JunctionSyncOp>, op: JunctionSyncOp)
    requires DistinctParents(ops) && forall r | r in ops :: r.parentId != op.parentId
    ensures DistinctParents(ops + [op])
  {
    var more := ops + [op];
    assert forall i | 0 <= i < |ops| :: more[i] == ops[i] && ops[i] in ops;
  }

  // ---- Operations that are diffs ----

  function ChildrenOf(j: Junction, parent: string): set<string> {
    set p | p in j && p.0 == parent :: p.1
  }

  lemma ChildListed(j: Junction, parent: string, c: string)
    ensures c in ChildrenOf(j, parent) <==> (parent, c) in j
  {
    if (parent, c) in j { assert (parent, c).0 == parent && (parent, c).1 == c; }
  }

  function ChildIds(children: seq<Child>): set<string> {
    set c | c in children :: c.id
  }

  /** The children whose id is not among the old ones. */
  function Fresh(children: seq<Child>, oldIds: set<string>): seq<Child> {
    if children == [] then []
    else
      var init, last := Fresh(children[..|children| - 1], oldIds), children[|children| - 1];
      if last.id in oldIds then init else init + [last]
  }

  lemma {:induction false} FreshMembers(children: seq<Child>, oldIds: set<string>, c: Child)
    ensures c in Fresh(children, oldIds) <==> c in children && c.id !in oldIds
  {
    if children != [] {
      FreshMembers(children[..|children| - 1], oldIds, c);
      assert children == children[..|children| - 1] + [children[|children| - 1]];
    }
  }

  /** The operation that the read-model store issues for a row whose old children are `oldIds`;
      a row that went has no new ones. */
  ghost predicate IsDiff(op: JunctionSyncOp, oldIds: set<string>, children: Option<seq<Child>>) {
    match children
    case None => op.removeAll && op.add == []
    case Some(now) =>
      && !op.removeAll && op.add == Fresh(now, oldIds)
      && SetOf(op.removeChildIds) == oldIds - ChildIds(now)
  }

  function NewIds(children: Option<seq<Child>>): set<string> {
    match children case None => {} case Some(now) => ChildIds(now)
  }

  lemma {:induction false} InsertedPair(j: Junction, rows: seq<JunctionRow>, p: Pair)
    ensures p in PairsInserted(j, rows) <==> p in j || exists r :: r in rows && (r.parent, r.child) == p
    ensures p in j ==> PairsInserted(j, rows)[p] == j[p]
  {
    if rows != [] {
      var init, last := rows[..|rows| - 1], rows[|rows| - 1];
      InsertedPair(j, init, p);
      assert rows == init + [last];
    }
  }

  lemma RowToAdd(op: JunctionSyncOp, p: Pair)
    ensures (exists r :: r in RowsToAdd(op) && (r.parent, r.child) == p)
            <==> p.0 == op.parentId && p.1 in ChildIds(op.add)
  {
    var rows := RowsToAdd(op);
    if r :| r in rows && (r.parent, r.child) == p {
      var i :| 0 <= i < |rows| && rows[i] == r;
      assert op.add[i] in op.add;
    }
    if p.0 == op.parentId && p.1 in ChildIds(op.add) {
      var i :| 0 <= i < |op.add| && op.add[i].id == p.1;
      assert rows[i] in rows;
    }
  }

  /** A diff turns the old child set of its parent into the new one, keeps the values of the
      children that stay, and touches no other parent. */
  lemma DiffApplied(j: Junction, op: JunctionSyncOp, children: Option<seq<Child>>)
    requires IsDiff(op, ChildrenOf(j, op.parentId), children)
    ensures ChildrenOf(Applied(j, op), op.parentId) == NewIds(children)
    ensures forall p | p in j && p.0 == op.parentId && p.1 in NewIds(children) ::
              p in Applied(j, op)
              && Applied(j, op)[p] == j[p]
    ensures forall p: Pair | p.0 != op.parentId ::
              (p in Applied(j, op) <==> p in j)
              && (p in j ==> Applied(j, op)[p] == j[p])
  {
    forall p: Pair
      ensures p.0 != op.parentId ==> (p in Applied(j, op) <==> p in j)
      ensures p.0 == op.parentId ==> (p in Applied(j, op) <==> p.1 in NewIds(children))
      ensures p in j && (p.0 == op.parentId ==> p.1 in NewIds(children))
              ==> p in Applied(j, op) && Applied(j, op)[p] == j[p]
    {
      DiffPair(j, op, children, p);
    }
    forall c ensures c in ChildrenOf(Applied(j, op), op.parentId) <==> c in NewIds(children) {
      ChildListed(Applied(j, op), op.parentId, c);
    }
  }

  lemma DiffPair(j: Junction, op: JunctionSyncOp, children: Option<seq<Child>>, p: Pair)
    requires IsDiff(op, ChildrenOf(j, op.parentId), children)
    ensures p.0 != op.parentId ==> (p in Applied(j, op) <==> p in j)
    ensures p.0 == op.parentId ==> (p in Applied(j, op) <==> p.1 in NewIds(children))
    ensures p in j && (p.0 == op.parentId ==> p.1 in NewIds(children))
            ==> p in Applied(j, op) && Applied(j, op)[p] == j[p]
  {
    InsertedPair(Removed(j, op), RowsToAdd(op), p);
    RowToAdd(op, p);
    ChildListed(j, op.parentId, p.1);
    assert p == (p.0, p.1);
    match children {
      case None =>
      case Some(now) =>
        assert p.1 in SetOf(op.removeChildIds) <==> p.1 in op.removeChildIds;
        if p.1 in ChildIds(now) && p.1 !in ChildrenOf(j, op.parentId) {
          var c :| c in now && c.id == p.1;
          FreshMembers(now, ChildrenOf(j, op.parentId), c);
        }
        if p.1 in ChildIds(op.add) {
          var c :| c in op.add && c.id == p.1;
          FreshMembers(now, ChildrenOf(j, op.parentId), c);
        }
    }
  }

  /** An operation for another parent. */
  lemma OtherParent(j: Junction, op: JunctionSyncOp, parent: string)
    requires parent != op.parentId
    ensures ChildrenOf(Applied(j, op), parent) == ChildrenOf(j, parent)
  {
    forall c ensures c in ChildrenOf(Applied(j, op), parent) <==> c in ChildrenOf(j, parent) {
      var p := (parent, c);
      InsertedPair(Removed(j, op), RowsToAdd(op), p);
      RowToAdd(op, p);
      ChildListed(j, parent, c);
      ChildListed(Applied(j, op), parent, c);
    }
  }

  lemma {:induction false} OthersUntouched(j: Junction, ops: seq<JunctionSyncOp>, parent: string)
    requires forall op | op in ops :: op.parentId != parent
    ensures ChildrenOf(AppliedAll(j, ops), parent) == ChildrenOf(j, parent)
  {
    if ops != [] {
      var init, last := ops[..|ops| - 1], ops[|ops| - 1];
      OthersUntouched(j, init, parent);
      assert last in ops;
      OtherParent(AppliedAll(j, init), last, parent);
    }
  }

  /** After a batch of diffs on a junction, each parent of the batch has exactly its new children;
      by the lemma above every other parent has its old ones. */
  lemma {:induction false} DiffsApplied(j: Junction, ops: seq<JunctionSyncOp>, i: nat, children: Option<seq<Child>>)
    requires DistinctParents(ops)
    requires i < |ops| && IsDiff(ops[i], ChildrenOf(j, ops[i].parentId), children)
    ensures ChildrenOf(AppliedAll(j, ops), ops[i].parentId) == NewIds(children)
  {
    var n := |ops| - 1;
    var init, last := ops[..n], ops[n];
    if i == n {
      OthersUntouched(j, init, last.parentId);
      DiffApplied(AppliedAll(j, init), last, children);
    } else {
      assert init[i] == ops[i];
      DiffsApplied(j, init, i, children);
      OtherParent(AppliedAll(j, init), last, ops[i].parentId);
    }
  }

  /** What the batch does, all deletes first: each of its parents has its new children, every child
      that stays keeps its value, and the children of other parents are the old ones. */
  lemma DiffsInPhases(j: Junction, ops: seq<JunctionSyncOp>, i: nat, children: Option<seq<Child>>, parent: string)
    requires DistinctParents(ops)
    requires i < |ops| && IsDiff(ops[i], ChildrenOf(j, ops[i].parentId), children)
    ensures ChildrenOf(InPhases(j, ops), ops[i].parentId) == NewIds(children)
    ensures (forall op | op in ops :: op.parentId != parent)
            ==> ChildrenOf(InPhases(j, ops), parent) == ChildrenOf(j, parent)
    ensures forall c | (ops[i].parentId, c) in j && c in NewIds(children) ::
              (ops[i].parentId, c) in InPhases(j, ops) && InPhases(j, ops)[(ops[i].parentId, c)]
                  == j[(ops[i].parentId, c)]
  {
    OncePerParentOrderly(ops);
    DeletesFirst(j, ops);
    DiffsApplied(j, ops, i, children);
    if forall op | op in ops :: op.parentId != parent {
      OthersUntouched(j, ops, parent);
    }
    forall c | (ops[i].parentId, c) in j && c in NewIds(children)
      ensures Lookup(InPhases(j, ops), (ops[i].parentId, c)) == Lookup(j, (ops[i].parentId, c))
    {
      var p := (ops[i].parentId, c);
      ChildStays(j, ops, i, children, c);
      InsertedAt(RemovedAll(j, ops), AllRows(ops), p);
      RemovedAllAt(j, ops, p);
    }
  }

  lemma ChildStays(j: Junction, ops: seq<JunctionSyncOp>, i: nat, children: Option<seq<Child>>, c: string)
    requires DistinctParents(ops)
    requires i < |ops| && IsDiff(ops[i], ChildrenOf(j, ops[i].parentId), children) && c in NewIds(children)
    ensures !EverRemoved(ops, (ops[i].parentId, c))
  {
    assert c in SetOf(ops[i].removeChildIds) <==> c in ops[i].removeChildIds;
  }
}
