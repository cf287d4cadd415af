/** What a stable sort returns: the ordered permutation that keeps equivalent elements in their
    given order. There is exactly one, so it does not matter how the runtime sorts. */
module StableSort {

  type Order<!T> = (T, T) -> bool

  /** Total and transitive on some elements. */
  ghost predicate OrdersOn<T>(le: Order<T>, of: set<T>) {
    && (forall a, b {:trigger Comparable(le, a, b)} | a in of && b in of :: Comparable(le, a, b))
    && (forall a, b, c {:trigger Transitive(le, a, b, c)} | a in of && b in of && c in of :: Transitive(le, a, b, c))
  }

  predicate Comparable<T>(le: Order<T>, a: T, b: T) {
    le(a, b) || le(b, a)
  }

  predicate Transitive<T>(le: Order<T>, a: T, b: T, c: T) {
    le(a, b) && le(b, c) ==> le(a, c)
  }

  ghost predicate Within<T>(xs: seq<T>, of: set<T>) {
    forall i | 0 <= i < |xs| :: xs[i] in of
  }

  ghost function Elements<T>(xs: seq<T>): set<T> {
    set x | x in xs
  }

  ghost predicate Sorted<T>(xs: seq<T>, le: Order<T>) {
    forall i, j | 0 <= i < j < |xs| :: le(xs[i], xs[j])
  }

  function Equivalents<T>(xs: seq<T>, x: T, le: Order<T>): seq<T> {
    if xs == [] then []
    else
      var init, last := Equivalents(xs[..|xs| - 1], x, le), xs[|xs| - 1];
      if le(x, last) && le(last, x) then init + [last] else init
  }

  /** The lists hold the elements of every class in the same order. */
  ghost predicate SameClasses<T>(ys: seq<T>, xs: seq<T>, le: Order<T>, of: set<T>) {
    forall x | x in of :: Equivalents(ys, x, le) == Equivalents(xs, x, le)
  }

  ghost predicate StableSortOf<T>(ys: seq<T>, xs: seq<T>, le: Order<T>) {
    multiset(ys) == multiset(xs) && Sorted(ys, le) && SameClasses(ys, xs, le, Elements(xs))
  }

  // ---- Existence ----

  /** Behind every element that is not greater. */
  function Insert<T>(ys: seq<T>, x: T, le: Order<T>): seq<T> {
    if ys == [] || le(ys[|ys| - 1], x) then ys + [x]
    else Insert(ys[..|ys| - 1], x, le) + [ys[|ys| - 1]]
  }

  function StableSorted<T>(xs: seq<T>, le: Order<T>): seq<T> {
    if xs == [] then [] else Insert(StableSorted(xs[..|xs| - 1], le), xs[|xs| - 1], le)
  }

  lemma {:induction false} InsertMultiset<T>(ys: seq<T>, x: T, le: Order<T>)
    ensures multiset(Insert(ys, x, le)) == multiset(ys) + multiset{x}
  {
    if ys != [] && !le(ys[|ys| - 1], x) {
      InsertMultiset(ys[..|ys| - 1], x, le);
      assert ys == ys[..|ys| - 1] + [ys[|ys| - 1]];
    }
  }

  lemma {:induction false} InsertWithin<T>(ys: seq<T>, x: T, le: Order<T>, of: set<T>)
    requires Within(ys, of) && x in of
    ensures Within(Insert(ys, x, le), of)
  {
    if ys != [] {
      InsertWithin(ys[..|ys| - 1], x, le, of);
    }
  }

  lemma {:induction false} InsertSorted<T>(ys: seq<T>, x: T, le: Order<T>, of: set<T>)
    requires OrdersOn(le, of) && Within(ys, of) && x in of && Sorted(ys, le)
    ensures Sorted(Insert(ys, x, le), le)
  {
    if ys != [] {
      var init, last := ys[..|ys| - 1], ys[|ys| - 1];
      if le(last, x) {
        forall i | 0 <= i < |ys| ensures le(ys[i], x) {
          assert i < |ys| - 1 ==> le(ys[i], last);
          assert Transitive(le, ys[i], last, x);
        }
      } else {
        assert Comparable(le, last, x);
        InsertSorted(init, x, le, of);
        InsertBelow(init, x, le, last, of);
      }
    }
  }

  lemma {:induction false} InsertBelow<T>(ys: seq<T>, x: T, le: Order<T>, bound: T, of: set<T>)
    requires forall i | 0 <= i < |ys| :: le(ys[i], bound)
    requires le(x, bound)
    ensures forall i | 0 <= i < |Insert(ys, x, le)| :: le(Insert(ys, x, le)[i], bound)
  {
    if ys != [] {
      InsertBelow(ys[..|ys| - 1], x, le, bound, of);
    }
  }

  lemma EquivalentsSnoc<T>(xs: seq<T>, y: T, x: T, le: Order<T>)
    ensures Equivalents(xs + [y], x, le) == Equivalents(xs, x, le) + IfEquivalent(x, y, le)
  {
    assert (xs + [y])[..|xs|] == xs;
  }

  function IfEquivalent<T>(x: T, y: T, le: Order<T>): seq<T> {
    if le(x, y) && le(y, x) then [y] else []
  }

  lemma NotBothEquivalent<T>(last: T, x: T, z: T, le: Order<T>, of: set<T>)
    requires OrdersOn(le, of) && last in of && x in of && z in of && !le(last, x)
    ensures IfEquivalent(z, last, le) == [] || IfEquivalent(z, x, le) == []
  {
    assert Transitive(le, last, z, x);
  }

  lemma {:induction false} InsertEquivalents<T>(ys: seq<T>, x: T, z: T, le: Order<T>, of: set<T>)
    requires OrdersOn(le, of) && Within(ys, of) && x in of && z in of
    ensures Equivalents(Insert(ys, x, le), z, le) == Equivalents(ys + [x], z, le)
  {
    if ys != [] && !le(ys[|ys| - 1], x) {
      var init, last := ys[..|ys| - 1], ys[|ys| - 1];
      var e, l, i := Equivalents(init, z, le), IfEquivalent(z, last, le), IfEquivalent(z, x, le);
      NotBothEquivalent(last, x, z, le, of);
      assert ys == init + [last];
      calc {
        Equivalents(Insert(init, x, le) + [last], z, le);
        { EquivalentsSnoc(Insert(init, x, le), last, z, le); }
        Equivalents(Insert(init, x, le), z, le) + l;
        { InsertEquivalents(init, x, z, le, of); EquivalentsSnoc(init, x, z, le); }
        e + i + l;
        e + l + i;
        { EquivalentsSnoc(init, last, z, le); EquivalentsSnoc(ys, x, z, le); }
        Equivalents(ys + [x], z, le);
      }
    }
  }

  lemma {:induction false} StableSortedMultiset<T>(xs: seq<T>, le: Order<T>)
    ensures multiset(StableSorted(xs, le)) == multiset(xs)
  {
    if xs != [] {
      var init, last := xs[..|xs| - 1], xs[|xs| - 1];
      StableSortedMultiset(init, le);
      InsertMultiset(StableSorted(init, le), last, le);
      assert xs == init + [last];
    }
  }

  lemma {:induction false} StableSortedSorts<T>(xs: seq<T>, le: Order<T>, of: set<T>)
    requires OrdersOn(le, of) && Within(xs, of)
    ensures Within(StableSorted(xs, le), of) && Sorted(StableSorted(xs, le), le)
            && SameClasses(StableSorted(xs, le), xs, le, of)
  {
    if xs != [] {
      var init, last := xs[..|xs| - 1], xs[|xs| - 1];
      var ys := StableSorted(init, le);
      assert xs == init + [last];
      StableSortedSorts(init, le, of);
      InsertWithin(ys, last, le, of);
      InsertSorted(ys, last, le, of);
      forall x | x in of ensures Equivalents(StableSorted(xs, le), x, le) == Equivalents(xs, x, le) {
        InsertEquivalents(ys, last, x, le, of);
        EquivalentsSnoc(ys, last, x, le);
        EquivalentsSnoc(init, last, x, le);
      }
    }
  }

  // ---- Uniqueness ----

  lemma LastIsGreatest<T>(ys: seq<T>, le: Order<T>, of: set<T>, y: T)
    requires Sorted(ys, le) && OrdersOn(le, of) && Within(ys, of) && y in ys
    ensures le(y, ys[|ys| - 1])
  {
    var i :| 0 <= i < |ys| && ys[i] == y;
    assert Comparable(le, y, y);
  }

  lemma SameMember<T>(xs: seq<T>, ys: seq<T>, x: T)
    requires multiset(xs) == multiset(ys) && x in xs
    ensures x in ys
  {
    assert x in multiset(xs);
  }

  /** Two sorted permutations of each other that agree on every class. */
  ghost predicate Alike<T>(ys: seq<T>, zs: seq<T>, le: Order<T>, of: set<T>) {
    && multiset(ys) == multiset(zs) && Sorted(ys, le) && Sorted(zs, le)
    && Within(ys, of) && Within(zs, of) && SameClasses(ys, zs, le, of)
  }

  lemma SameLast<T>(ys: seq<T>, zs: seq<T>, le: Order<T>, of: set<T>)
    requires Alike(ys, zs, le, of) && OrdersOn(le, of) && ys != [] && zs != []
    ensures ys[|ys| - 1] == zs[|zs| - 1]
  {
    var y, z := ys[|ys| - 1], zs[|zs| - 1];
    SameMember(ys, zs, y);
    SameMember(zs, ys, z);
    LastIsGreatest(ys, le, of, z);
    LastIsGreatest(zs, le, of, y);
    assert Comparable(le, y, y);
    var e := Equivalents(ys, y, le);
    assert e[|e| - 1] == y;
    assert Equivalents(zs, y, le) == e && e[|e| - 1] == z;
  }

  lemma AlikeInits<T>(ys: seq<T>, zs: seq<T>, last: T, le: Order<T>, of: set<T>)
    requires Alike(ys + [last], zs + [last], le, of)
    ensures Alike(ys, zs, le, of)
  {
    SameMultisets(ys, zs, last);
    SameInits(ys, zs, last, le, of);
    SortedInit(ys, last, le);
    SortedInit(zs, last, le);
    assert forall i | 0 <= i < |ys| :: ys[i] == (ys + [last])[i];
    assert forall i | 0 <= i < |zs| :: zs[i] == (zs + [last])[i];
  }

  lemma {:induction false} StableSortsAgree<T>(ys: seq<T>, zs: seq<T>, le: Order<T>, of: set<T>)
    requires Alike(ys, zs, le, of) && OrdersOn(le, of)
    ensures ys == zs
  {
    SameLength(ys, zs);
    if ys != [] {
      SameLast(ys, zs, le, of);
      SplitLast(ys);
      SplitLast(zs);
      AlikeInits(ys[..|ys| - 1], zs[..|ys| - 1], ys[|ys| - 1], le, of);
      StableSortsAgree(ys[..|ys| - 1], zs[..|ys| - 1], le, of);
    }
  }

  lemma SortedInit<T>(xs: seq<T>, last: T, le: Order<T>)
    requires Sorted(xs + [last], le)
    ensures Sorted(xs, le)
  {
    assert forall i | 0 <= i < |xs| :: (xs + [last])[i] == xs[i];
  }

  lemma SplitLast<T>(xs: seq<T>)
    requires xs != []
    ensures xs[..|xs| - 1] + [xs[|xs| - 1]] == xs
  {
  }

  lemma SameLength<T>(ys: seq<T>, zs: seq<T>)
    requires multiset(ys) == multiset(zs)
    ensures |ys| == |zs|
  {
    assert |ys| == |multiset(ys)| && |zs| == |multiset(zs)|;
  }

  lemma SameMultisets<T>(ys: seq<T>, zs: seq<T>, last: T)
    requires multiset(ys + [last]) == multiset(zs + [last])
    ensures multiset(ys) == multiset(zs)
  {
    assert multiset(ys) == multiset(ys + [last]) - multiset{last}
           && multiset(zs) == multiset(zs + [last]) - multiset{last};
  }

  lemma SameInits<T>(ys: seq<T>, zs: seq<T>, last: T, le: Order<T>, of: set<T>)
    requires SameClasses(ys + [last], zs + [last], le, of)
    ensures SameClasses(ys, zs, le, of)
  {
    forall x | x in of ensures Equivalents(ys, x, le) == Equivalents(zs, x, le) {
      EquivalentsSnoc(ys, last, x, le);
      EquivalentsSnoc(zs, last, x, le);
      var a, b, l := Equivalents(ys, x, le), Equivalents(zs, x, le), IfEquivalent(x, last, le);
      assert a + l == b + l;
      assert |a| == |b|;
      assert (a + l)[..|a|] == a && (b + l)[..|b|] == b;
    }
  }

  /** Whatever stable sort the runtime has, it returns this list. */
  lemma AnyStableSort<T>(ys: seq<T>, xs: seq<T>, le: Order<T>)
    requires OrdersOn(le, Elements(xs))
    ensures StableSortOf(ys, xs, le) <==> ys == StableSorted(xs, le)
  {
    var of := Elements(xs);
    StableSortedSorts(xs, le, of);
    StableSortedMultiset(xs, le);
    if StableSortOf(ys, xs, le) {
      forall i | 0 <= i < |ys| ensures ys[i] in of {
        SameMember(ys, xs, ys[i]);
      }
      StableSortsAgree(ys, StableSorted(xs, le), le, of);
    }
  }
}
