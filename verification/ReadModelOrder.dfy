/** How a sorted list of records reads: term by term, in terms of the values of its columns. */
module ReadModelOrder {
  import opened Options
  import opened StorageRecords
  import opened StableSort
  import opened ReadModelSort

  /** The strings part where the first one ends or has the lesser character. */
  predicate PartsAt(a: string, b: string, k: nat) {
    && k <= |a| && k < |b| && (forall i | 0 <= i < k :: a[i] == b[i])
    && (k < |a| ==> a[k] < b[k])
  }

  ghost predicate LexLess(a: string, b: string) {
    exists k: nat :: PartsAt(a, b, k)
  }

  lemma PartsLater(a: string, b: string, k: nat)
    requires a != [] && b != [] && a[0] == b[0] && k > 0
    ensures PartsAt(a, b, k) <==> PartsAt(a[1..], b[1..], k - 1)
  {
    var c, d := a[1..], b[1..];
    forall i | 0 <= i < k - 1 && i < |c| && i < |d| ensures c[i] == d[i] <==> a[i + 1] == b[i + 1] {
    }
    if PartsAt(c, d, k - 1) {
      forall i | 0 <= i < k ensures a[i] == b[i] {
        if i > 0 { assert c[i - 1] == d[i - 1]; }
      }
    }
  }

  lemma {:induction false} BeforeIsLexLess(a: string, b: string)
    ensures Before(a, b) <==> LexLess(a, b)
  {
    if a != [] && b != [] && a[0] == b[0] {
      BeforeIsLexLess(a[1..], b[1..]);
      if k: nat :| PartsAt(a[1..], b[1..], k) {
        PartsLater(a, b, k + 1);
      }
      if k: nat :| PartsAt(a, b, k) {
        PartsLater(a, b, k);
      }
    } else {
      assert Before(a, b) ==> PartsAt(a, b, 0);
      assert forall k: nat | PartsAt(a, b, k) :: k == 0;
    }
  }

  // ---- One term ----

  /** The value stands before the other in an ascending column. */
  ghost predicate Ascends(env: Env, f: Option<Collation>, a: Value, b: Value) {
    match (a, b)
    case (Undefined, _) => !b.Undefined?
    case (_, Undefined) => false
    case (Num(x), Num(y)) => x < y
    case (Big(x), Big(y)) => x < y
    case (Bool(x), Bool(y)) => !x && y
    case (Str(x), Str(y)) => if f.Some? then f.value(x, y) < 0 else LexLess(x, y)
    case _ => LexLess(TextOf(env, a), TextOf(env, b))
  }

  /** Beside a string, null and the two flags stand as their names do, and numbers as they are shown. */
  lemma BesideText(env: Env, text: string, flag: bool, x: real)
    ensures Ascends(env, None, Null, Str(text)) <==> LexLess("null", text)
    ensures Ascends(env, None, Bool(flag), Str(text)) <==> LexLess(if flag then "true" else "false", text)
    ensures Ascends(env, None, Num(x), Str(text)) <==> LexLess(env.show(Num(x)), text)
    ensures Ascends(env, None, Str(text), Null) <==> LexLess(text, "null")
    ensures Ascends(env, None, Str(text), Bool(flag)) <==> LexLess(text, if flag then "true" else "false")
    ensures Ascends(env, None, Str(text), Num(x)) <==> LexLess(text, env.show(Num(x)))
  {
  }

  lemma ComparedByValue(env: Env, term: SortTerm, of: set<Value>, a: Value, b: Value)
    requires Sortable(env, term, of) && a in of && b in of && a != b
    ensures var f := CollationOf(env, term.column);
            CompareValues(env, term, a, b) < 0 <==>
            if term.ascending then Ascends(env, f, a, b) else Ascends(env, f, b, a)
  {
    if !a.Undefined? && !b.Undefined? {
      ValuesDecided(env, term, of, a, b);
      BeforeIsLexLess(TextOf(env, a), TextOf(env, b));
      BeforeIsLexLess(TextOf(env, b), TextOf(env, a));
    }
  }

  // ---- Any number of terms ----

  /** The t-th term is the first whose column tells the records apart. */
  predicate ToldApartAt(env: Env, terms: seq<SortTerm>, a: ReadModelRecord, b: ReadModelRecord, t: nat) {
    && t < |terms| && ReadSortValue(env, a, terms[t].column) != ReadSortValue(env, b, terms[t].column)
    && forall u | 0 <= u < t :: ReadSortValue(env, a, terms[u].column) == ReadSortValue(env, b, terms[u].column)
  }

  /** In the column of a term, the first record has the value that stands first in the term's direction. */
  ghost predicate InDirection(env: Env, term: SortTerm, a: ReadModelRecord, b: ReadModelRecord) {
    var x, y := ReadSortValue(env, a, term.column), ReadSortValue(env, b, term.column);
    var f := CollationOf(env, term.column);
    if term.ascending then Ascends(env, f, x, y) else Ascends(env, f, y, x)
  }

  ghost predicate AllSortable(env: Env, terms: seq<SortTerm>, of: set<ReadModelRecord>) {
    forall i | 0 <= i < |terms| :: Sortable(env, terms[i], Column(env, terms[i], of))
  }

  lemma {:induction false} ComparedAt(env: Env, terms: seq<SortTerm>, of: set<ReadModelRecord>, a: ReadModelRecord,
      b: ReadModelRecord, t: nat)
    requires AllSortable(env, terms, of) && a in of && b in of && ToldApartAt(env, terms, a, b, t)
    ensures NotAfter(env, terms)(a, b) <==> InDirection(env, terms[t], a, b)
    decreases t
  {
    var first := terms[0];
    var of0 := Column(env, first, of);
    var x, y := ReadSortValue(env, a, first.column), ReadSortValue(env, b, first.column);
    SortableValues(env, first, of0, x, y, x);
    if t == 0 {
      ComparedByValue(env, first, of0, x, y);
    } else {
      ComparedAt(env, terms[1..], of, a, b, t - 1);
    }
  }

  /** Records that no term tells apart. */
  predicate Tied(env: Env, terms: seq<SortTerm>, a: ReadModelRecord, b: ReadModelRecord) {
    forall u | 0 <= u < |terms| :: ReadSortValue(env, a, terms[u].column) == ReadSortValue(env, b, terms[u].column)
  }

  lemma {:induction false} TiedAreEqual(env: Env, terms: seq<SortTerm>, of: set<ReadModelRecord>, a: ReadModelRecord,
      b: ReadModelRecord)
    requires AllSortable(env, terms, of) && a in of && b in of
    ensures Compare(env, terms, a, b) == 0 <==> Tied(env, terms, a, b)
  {
    if terms != [] {
      var x, y := ReadSortValue(env, a, terms[0].column), ReadSortValue(env, b, terms[0].column);
      SortableValues(env, terms[0], Column(env, terms[0], of), x, y, x);
      TiedAreEqual(env, terms[1..], of, a, b);
      assert Tied(env, terms, a, b) <==> x == y && Tied(env, terms[1..], a, b) by {
        assert forall u | 0 < u < |terms| :: terms[u] == terms[1..][u - 1];
      }
    }
  }

  // ---- The sorted list ----

  lemma SortedIsSorted(env: Env, records: seq<ReadModelRecord>, terms: seq<SortTerm>)
    requires AllSortable(env, terms, Elements(records))
    ensures multiset(SortReadModelRecords(env, records, terms)) == multiset(records)
    ensures Sorted(SortReadModelRecords(env, records, terms), NotAfter(env, terms))
  {
    SortIsStable(env, records, terms, SortReadModelRecords(env, records, terms));
  }

  /** Of two records in the sorted list that some term tells apart, the first such term decides: the earlier
      record has the value that stands first in its direction. */
  lemma SortedByTerms(env: Env, records: seq<ReadModelRecord>, terms: seq<SortTerm>, i: nat, j: nat, t: nat)
    requires AllSortable(env, terms, Elements(records))
    ensures var sorted := SortReadModelRecords(env, records, terms);
            i < j < |sorted| && ToldApartAt(env, terms, sorted[i], sorted[j], t) ==>
              InDirection(env, terms[t], sorted[i], sorted[j])
  {
    var sorted := SortReadModelRecords(env, records, terms);
    SortedIsSorted(env, records, terms);
    if i < j < |sorted| && ToldApartAt(env, terms, sorted[i], sorted[j], t) {
      SameMember(sorted, records, sorted[i]);
      SameMember(sorted, records, sorted[j]);
      ComparedAt(env, terms, Elements(records), sorted[i], sorted[j], t);
    }
  }

  /** Sorted by one of the columns that are kept beside the data, the list runs along the record's own field. */
  lemma SortedByField(env: Env, records: seq<ReadModelRecord>, column: string, ascending: bool, i: nat, j: nat)
    requires Sortable(env, SortTerm(column, ascending),
                      Column(env, SortTerm(column, ascending), Elements(records)))
    requires CollationOf(env, column).None?
    ensures var sorted := SortReadModelRecords(env, records, [SortTerm(column, ascending)]);
            i < j < |sorted| ==>
              var first := if ascending then sorted[i] else sorted[j];
              var second := if ascending then sorted[j] else sorted[i];
              && (column == "id" ==> first.id == second.id || LexLess(first.id, second.id))
              && (column == "updated_at" ==> first.data.updatedAt <= second.data.updatedAt)
              && (column == "_has_local_changes" ==> !first.data.hasLocalChanges || second.data.hasLocalChanges)
              && (column == "_revision" && first.data.revision.Some? && second.data.revision.Some? ==>
                    first.data.revision == second.data.revision
                    || LexLess(first.data.revision.value, second.data.revision.value))
              && (column == "_position" && first.data.position.Some? && second.data.position.Some? ==>
                    first.data.position == second.data.position
                    || LexLess(first.data.position.value, second.data.position.value))
  {
    var terms := [SortTerm(column, ascending)];
    var sorted := SortReadModelRecords(env, records, terms);
    SortedByTerms(env, records, terms, i, j, 0);
    if i < j < |sorted| && !ToldApartAt(env, terms, sorted[i], sorted[j], 0) {
      assert ReadSortValue(env, sorted[i], column) == ReadSortValue(env, sorted[j], column);
    }
  }

  const BESIDE_DATA := ["id", "updated_at", "_revision", "_position", "_has_local_changes"]

  /** The record's data give the column a value: as the resolver reads it, or else as a property. */
  predicate GivesValue(env: Env, r: ReadModelRecord, column: string, v: Value) {
    var data := env.parse(r.data.effectiveData);
    && data.Some?
    && if env.resolve(column).Some? && env.resolve(column).value.readValue.Some?
       then v == env.resolve(column).value.readValue.value(data.value)
       else column in data.value && v == data.value[column]
  }

  lemma ColumnOfData(env: Env, r: ReadModelRecord, column: string, v: Value)
    requires column !in BESIDE_DATA
    ensures GivesValue(env, r, column, v) ==> ReadSortValue(env, r, column) == v
    ensures (forall w :: !GivesValue(env, r, column, w)) ==> ReadSortValue(env, r, column) == Undefined
  {
    assert BESIDE_DATA[0] in BESIDE_DATA && BESIDE_DATA[1] in BESIDE_DATA && BESIDE_DATA[2] in BESIDE_DATA
        && BESIDE_DATA[3] in BESIDE_DATA && BESIDE_DATA[4] in BESIDE_DATA;
    var w := ReadSortValue(env, r, column);
    assert GivesValue(env, r, column, w) || w == Undefined;
  }

  /** Sorted by any other column, the list runs along the values that the data give. */
  lemma SortedByData(env: Env, records: seq<ReadModelRecord>, column: string, ascending: bool, i: nat, j: nat,
      x: Value, y: Value)
    requires column !in BESIDE_DATA
    requires Sortable(env, SortTerm(column, ascending),
                      Column(env, SortTerm(column, ascending), Elements(records)))
    ensures var sorted := SortReadModelRecords(env, records, [SortTerm(column, ascending)]);
            i < j < |sorted| && GivesValue(env, sorted[i], column, x) && GivesValue(env, sorted[j], column, y) ==>
              || x == y
              || if ascending then Ascends(env, CollationOf(env, column), x, y)
                 else Ascends(env, CollationOf(env, column), y, x)
  {
    var terms := [SortTerm(column, ascending)];
    var sorted := SortReadModelRecords(env, records, terms);
    SortedByTerms(env, records, terms, i, j, 0);
    if i < j < |sorted| {
      ColumnOfData(env, sorted[i], column, x);
      ColumnOfData(env, sorted[j], column, y);
    }
  }

  /** The records tied with one, in order. */
  function TiedTo(env: Env, terms: seq<SortTerm>, records: seq<ReadModelRecord>,
      x: ReadModelRecord): seq<ReadModelRecord> {
    if records == [] then []
    else
      var init, last := TiedTo(env, terms, records[..|records| - 1], x), records[|records| - 1];
      if Tied(env, terms, x, last) then init + [last] else init
  }

  lemma {:induction false} EquivalentsAreTied(env: Env, terms: seq<SortTerm>, of: set<ReadModelRecord>,
      records: seq<ReadModelRecord>, x: ReadModelRecord)
    requires AllSortable(env, terms, of) && Within(records, of) && x in of
    ensures Equivalents(records, x, NotAfter(env, terms)) == TiedTo(env, terms, records, x)
  {
    if records != [] {
      var last := records[|records| - 1];
      EquivalentsAreTied(env, terms, of, records[..|records| - 1], x);
      CompareOrdered(env, terms, of, x, last, x);
      TiedAreEqual(env, terms, of, x, last);
    }
  }

  /** Records that no term tells apart stay in their given order. */
  lemma TiesKeepOrder(env: Env, records: seq<ReadModelRecord>, terms: seq<SortTerm>, x: ReadModelRecord)
    requires AllSortable(env, terms, Elements(records)) && x in records
    ensures TiedTo(env, terms, SortReadModelRecords(env, records, terms), x) == TiedTo(env, terms, records, x)
  {
    var sorted, of := SortReadModelRecords(env, records, terms), Elements(records);
    SortIsStable(env, records, terms, sorted);
    forall i | 0 <= i < |sorted| ensures sorted[i] in of {
      SameMember(sorted, records, sorted[i]);
    }
    EquivalentsAreTied(env, terms, of, sorted, x);
    EquivalentsAreTied(env, terms, of, records, x);
    assert x in of;
  }
}
