/** Composite sort of read-model records. */
module ReadModelSort {
  import opened Options
  import opened StorageRecords
  import opened StableSort

  /** A value read from a sort column. */
  datatype Value =
    | Undefined
    | Null
    | Num(number: real)
    | Str(text: string)
    | Big(integer: int)
    | Bool(flag: bool)
    | Object(json: string)

  type Data = map<string, Value>
  type Collation = (string, string) -> int

  datatype Resolver = Resolver(readValue: Option<Data -> Value>, compareStrings: Option<Collation>)

  /** What the sort takes from elsewhere: JSON parsing, column overrides, and `String(value)` for
      numbers and objects. */
  datatype Env = Env(parse: string -> Option<Data>, resolve: string -> Option<Resolver>, show: Value -> string)

  datatype SortTerm = SortTerm(column: string, ascending: bool)

  function StringOrNull(s: Option<string>): Value {
    match s case Some(t) => Str(t) case None => Null
  }

  function ReadSortValue(env: Env, record: ReadModelRecord, column: string): Value {
    match column
    case "id" => Str(record.id)
    case "updated_at" => Num(record.data.updatedAt as real)
    case "_revision" => StringOrNull(record.data.revision)
    case "_position" => StringOrNull(record.data.position)
    case "_has_local_changes" => Bool(record.data.hasLocalChanges)
    case _ =>
      match env.parse(record.data.effectiveData)
      case None => Undefined
      case Some(data) =>
        match env.resolve(column)
        case Some(Resolver(Some(read), _)) => read(data)
        case _ => if column in data then data[column] else Undefined
  }

  /** `===`: two parsed objects are never the same one. */
  predicate Identical(a: Value, b: Value) {
    a == b && !a.Object?
  }

  /** The order of strings by character. */
  predicate Before(a: string, b: string) {
    b != [] && (a == [] || a[0] < b[0] || (a[0] == b[0] && Before(a[1..], b[1..])))
  }

  /** `String(value)` */
  function TextOf(env: Env, v: Value): string {
    match v
    case Undefined => "undefined"
    case Null => "null"
    case Str(text) => text
    case Bool(flag) => if flag then "true" else "false"
    case _ => env.show(v)
  }

  function CompareSortValues(env: Env, a: Value, b: Value, collation: Option<Collation>): int {
    if a.Num? && b.Num? then if a.number < b.number then -1 else 1
    else if a.Str? && b.Str? then
      if collation.Some? then if collation.value(a.text, b.text) < 0 then -1 else 1
      else if Before(a.text, b.text) then -1 else 1
    else if a.Big? && b.Big? then if a.integer < b.integer then -1 else 1
    else if a.Bool? && b.Bool? then if a.flag then 1 else -1
    else if Before(TextOf(env, a), TextOf(env, b)) then -1 else 1
  }

  function CollationOf(env: Env, column: string): Option<Collation> {
    match env.resolve(column) case Some(r) => r.compareStrings case None => None
  }

  function CompareValues(env: Env, term: SortTerm, a: Value, b: Value): int {
    if Identical(a, b) then 0
    else if a.Undefined? then if term.ascending then -1 else 1
    else if b.Undefined? then if term.ascending then 1 else -1
    else
      var c := CompareSortValues(env, a, b, CollationOf(env, term.column));
      if term.ascending then c else -c
  }

  function Compare(env: Env, terms: seq<SortTerm>, a: ReadModelRecord, b: ReadModelRecord): int {
    if terms == [] then 0
    else
      var c := CompareValues(env, terms[0], ReadSortValue(env, a, terms[0].column),
          ReadSortValue(env, b, terms[0].column));
      if c != 0 then c else Compare(env, terms[1..], a, b)
  }

  function NotAfter(env: Env, terms: seq<SortTerm>): Order<ReadModelRecord> {
    (a, b) => Compare(env, terms, a, b) <= 0
  }

  function SortReadModelRecords(env: Env, records: seq<ReadModelRecord>, terms: seq<SortTerm>): seq<ReadModelRecord> {
    if terms == [] then records else StableSorted(records, NotAfter(env, terms))
  }

  // ---- When the comparator is an order ----

  lemma {:induction false} BeforeTotal(a: string, b: string)
    ensures !Before(a, a) && (a != b ==> (Before(a, b) <==> !Before(b, a)))
  {
    if a != [] { BeforeTotal(a[1..], a[1..]); }
    if a != [] && b != [] {
      BeforeTotal(a[1..], b[1..]);
      if a[0] == b[0] && a[1..] == b[1..] {
        assert a == [a[0]] + a[1..] && b == [b[0]] + b[1..];
      }
    }
  }

  lemma {:induction false} BeforeTransitive(a: string, b: string, c: string)
    requires Before(a, b) && Before(b, c)
    ensures Before(a, c)
  {
    if a != [] && a[0] == b[0] && b[0] == c[0] {
      BeforeTransitive(a[1..], b[1..], c[1..]);
    }
  }

  /** Compared by their type, and not by their texts. */
  predicate SameType(a: Value, b: Value) {
    (a.Num? && b.Num?) || (a.Str? && b.Str?) || (a.Big? && b.Big?) || (a.Bool? && b.Bool?)
  }

  predicate First(env: Env, f: Option<Collation>, a: Value, b: Value) {
    CompareSortValues(env, a, b, f) < 0
  }

  /** A consistent comparator on two values, and on three. */
  predicate Opposite(env: Env, term: SortTerm, a: Value, b: Value) {
    CompareValues(env, term, a, b) == -CompareValues(env, term, b, a)
  }

  predicate Chains(env: Env, term: SortTerm, a: Value, b: Value, c: Value) {
    CompareValues(env, term, a, b) <= 0 && CompareValues(env, term, b, c) <= 0 ==> CompareValues(env, term, a, c) <= 0
  }

  ghost predicate Consistent(env: Env, term: SortTerm, of: set<Value>) {
    && (forall a, b | a in of && b in of :: Opposite(env, term, a, b))
    && (forall a, b, c | a in of && b in of && c in of :: Chains(env, term, a, b, c))
  }

  /** The collation puts one of two different strings first. */
  predicate Decides(f: Collation, s: string, t: string) {
    s != t ==> (f(s, t) < 0 <==> !(f(t, s) < 0))
  }

  predicate CollationChains(f: Collation, s: string, t: string, u: string) {
    s != t && t != u && s != u && f(s, t) < 0 && f(t, u) < 0 ==> f(s, u) < 0
  }

  ghost predicate Collates(f: Option<Collation>, of: set<Value>) {
    f.Some? ==>
      && (forall s, t | Str(s) in of && Str(t) in of :: Decides(f.value, s, t))
      && (forall s, t, u | Str(s) in of && Str(t) in of && Str(u) in of :: CollationChains(f.value, s, t, u))
  }

  /** Two values of different types read differently. */
  predicate ReadApart(env: Env, a: Value, b: Value) {
    !a.Undefined? && !b.Undefined? && a != b && !SameType(a, b) ==> TextOf(env, a) != TextOf(env, b)
  }

  /** The text of a value does not stand between those of two values of another type whose own
      order is the opposite one. */
  predicate NotBetween(env: Env, f: Option<Collation>, a: Value, b: Value, w: Value) {
    SameType(a, b) && a != b && !w.Undefined? && !SameType(a, w) && First(env, f, a, b) ==>
      !(Before(TextOf(env, b), TextOf(env, w)) && Before(TextOf(env, w), TextOf(env, a)))
  }

  /** When the values of a column can be sorted: no objects, since an object is never `===` to itself
      parsed again; strings as the collation orders them; and different types told apart, and kept in
      order, by their texts. */
  ghost predicate Sortable(env: Env, term: SortTerm, of: set<Value>) {
    var f := CollationOf(env, term.column);
    && (forall v | v in of :: !v.Object?)
    && Collates(f, of)
    && (forall a, b | a in of && b in of :: ReadApart(env, a, b))
    && (forall a, b, w | a in of && b in of && w in of :: NotBetween(env, f, a, b, w))
  }

  /** Of two different defined values of a sortable column exactly one comes first. */
  lemma ValuesDecided(env: Env, term: SortTerm, of: set<Value>, a: Value, b: Value)
    requires Sortable(env, term, of) && a in of && b in of && a != b && !a.Undefined? && !b.Undefined?
    ensures var f := CollationOf(env, term.column); First(env, f, a, b) <==> !First(env, f, b, a)
  {
    var f := CollationOf(env, term.column);
    assert ReadApart(env, a, b);
    BeforeTotal(TextOf(env, a), TextOf(env, b));
    if a.Str? && b.Str? && f.Some? {
      assert Decides(f.value, a.text, b.text);
    }
  }

  lemma SameTypeChained(env: Env, term: SortTerm, of: set<Value>, a: Value, b: Value, c: Value)
    requires Sortable(env, term, of) && a in of && b in of && c in of && SameType(a, b) && SameType(b, c)
    requires a != b && b != c && a != c
    requires var f := CollationOf(env, term.column); First(env, f, a, b) && First(env, f, b, c)
    ensures First(env, CollationOf(env, term.column), a, c)
  {
    var f := CollationOf(env, term.column);
    if a.Str? {
      if f.Some? {
        assert CollationChains(f.value, a.text, b.text, c.text);
      } else {
        BeforeTransitive(a.text, b.text, c.text);
      }
    }
  }

  /** There is no circle of three. */
  lemma ValuesChained(env: Env, term: SortTerm, of: set<Value>, a: Value, b: Value, c: Value)
    requires Sortable(env, term, of) && a in of && b in of && c in of
    requires !a.Undefined? && !b.Undefined? && !c.Undefined? && a != b && b != c && a != c
    requires var f := CollationOf(env, term.column); First(env, f, a, b) && First(env, f, b, c)
    ensures First(env, CollationOf(env, term.column), a, c)
  {
    var f := CollationOf(env, term.column);
    ValuesDecided(env, term, of, a, c);
    if SameType(a, b) && SameType(b, c) {
      SameTypeChained(env, term, of, a, b, c);
    } else if SameType(a, b) {
      assert NotBetween(env, f, a, b, c);
    } else if SameType(b, c) {
      assert NotBetween(env, f, b, c, a);
    } else if SameType(a, c) {
      assert NotBetween(env, f, c, a, b);
    } else {
      BeforeTransitive(TextOf(env, a), TextOf(env, b), TextOf(env, c));
    }
  }

  lemma SortableValues(env: Env, term: SortTerm, of: set<Value>, a: Value, b: Value, c: Value)
    requires Sortable(env, term, of) && a in of && b in of && c in of
    ensures Opposite(env, term, a, b) && Chains(env, term, a, b, c)
    ensures CompareValues(env, term, a, b) == 0 <==> a == b
  {
    if a != b && !a.Undefined? && !b.Undefined? { ValuesDecided(env, term, of, a, b); }
    if b != c && !b.Undefined? && !c.Undefined? { ValuesDecided(env, term, of, b, c); }
    if a != c && !a.Undefined? && !c.Undefined? { ValuesDecided(env, term, of, a, c); }
    if !a.Undefined? && !b.Undefined? && !c.Undefined? && a != b && b != c && a != c {
      var f := CollationOf(env, term.column);
      if First(env, f, a, b) && First(env, f, b, c) { ValuesChained(env, term, of, a, b, c); }
      if First(env, f, c, b) && First(env, f, b, a) { ValuesChained(env, term, of, c, b, a); }
    }
  }

  // Why each part of the condition is needed

  lemma ConsistentDecides(env: Env, term: SortTerm, of: set<Value>, a: Value, b: Value)
    requires Consistent(env, term, of) && a in of && b in of && a != b && !a.Undefined? && !b.Undefined?
    ensures var f := CollationOf(env, term.column); First(env, f, a, b) <==> !First(env, f, b, a)
  {
    assert Opposite(env, term, a, b);
  }

  lemma ConsistentChains(env: Env, term: SortTerm, of: set<Value>, a: Value, b: Value, c: Value)
    requires Consistent(env, term, of) && a in of && b in of && c in of
    requires !a.Undefined? && !b.Undefined? && !c.Undefined? && a != b && b != c && a != c
    requires var f := CollationOf(env, term.column); First(env, f, a, b) && First(env, f, b, c)
    ensures First(env, CollationOf(env, term.column), a, c)
  {
    ConsistentDecides(env, term, of, a, b);
    ConsistentDecides(env, term, of, b, c);
    ConsistentDecides(env, term, of, a, c);
    assert Chains(env, term, a, b, c) && Chains(env, term, c, b, a);
  }

  lemma ConsistentCollation(env: Env, term: SortTerm, of: set<Value>)
    requires Consistent(env, term, of)
    ensures Collates(CollationOf(env, term.column), of)
  {
    var f := CollationOf(env, term.column);
    if f.Some? {
      forall s, t | Str(s) in of && Str(t) in of ensures Decides(f.value, s, t) {
        if s != t { ConsistentDecides(env, term, of, Str(s), Str(t)); }
      }
      forall s, t, u | Str(s) in of && Str(t) in of && Str(u) in of ensures CollationChains(f.value, s, t, u) {
        if s != t && t != u && s != u && f.value(s, t) < 0 && f.value(t, u) < 0 {
          ConsistentChains(env, term, of, Str(s), Str(t), Str(u));
        }
      }
    }
  }

  lemma ConsistentTexts(env: Env, term: SortTerm, of: set<Value>)
    requires Consistent(env, term, of)
    ensures forall a, b | a in of && b in of :: ReadApart(env, a, b)
    ensures var f := CollationOf(env, term.column);
            forall a, b, w | a in of && b in of && w in of :: NotBetween(env, f, a, b, w)
  {
    var f := CollationOf(env, term.column);
    forall a, b | a in of && b in of ensures ReadApart(env, a, b) {
      if !a.Undefined? && !b.Undefined? && a != b && !SameType(a, b) {
        ConsistentDecides(env, term, of, a, b);
      }
    }
    forall a, b, w | a in of && b in of && w in of ensures NotBetween(env, f, a, b, w) {
      if !NotBetween(env, f, a, b, w) {
        ConsistentChains(env, term, of, a, b, w);
        ConsistentDecides(env, term, of, a, w);
      }
    }
  }

  /** The comparator is consistent on the values of a column exactly when the column is sortable,
      whatever types the values have. */
  lemma ConsistentIffSortable(env: Env, term: SortTerm, of: set<Value>)
    ensures Consistent(env, term, of) <==> Sortable(env, term, of)
  {
    if Sortable(env, term, of) {
      forall a, b, c | a in of && b in of && c in of ensures Opposite(env, term, a, b) && Chains(env, term, a, b, c) {
        SortableValues(env, term, of, a, b, c);
      }
      forall a, b | a in of && b in of ensures Opposite(env, term, a, b) {
        SortableValues(env, term, of, a, b, a);
      }
    }
    if Consistent(env, term, of) {
      forall v | v in of ensures !v.Object? {
        assert Opposite(env, term, v, v);
      }
      ConsistentCollation(env, term, of);
      ConsistentTexts(env, term, of);
    }
  }

  /** A column of strings, some of them null or missing, such as the revisions while some records
      are unsynchronised: it can be sorted unless null meets the text that it reads as. */
  lemma NullableText(env: Env, term: SortTerm, of: set<Value>)
    requires CollationOf(env, term.column).None? && forall v | v in of :: v.Undefined? || v.Null? || v.Str?
    ensures Consistent(env, term, of) <==> !(Null in of && Str("null") in of)
  {
    ConsistentIffSortable(env, term, of);
    if Null in of && Str("null") in of {
      assert !ReadApart(env, Null, Str("null"));
    } else {
      forall a, b, w | a in of && b in of && w in of ensures NotBetween(env, None, a, b, w) {
        if !NotBetween(env, None, a, b, w) {
          BeforeTransitive(b.text, TextOf(env, w), a.text);
          BeforeTotal(a.text, b.text);
        }
      }
    }
  }

  // ---- The composite sort ----

  function Column(env: Env, term: SortTerm, of: set<ReadModelRecord>): set<Value> {
    set r | r in of :: ReadSortValue(env, r, term.column)
  }

  lemma {:induction false} CompareOrdered(env: Env, terms: seq<SortTerm>, of: set<ReadModelRecord>,
      a: ReadModelRecord, b: ReadModelRecord, c: ReadModelRecord)
    requires (forall i | 0 <= i < |terms| :: Sortable(env, terms[i], Column(env, terms[i], of))) && a in of
             && b in of && c in of
    ensures Compare(env, terms, a, b) == -Compare(env, terms, b, a)
    ensures Compare(env, terms, a, b) <= 0 && Compare(env, terms, b, c) <= 0 ==> Compare(env, terms, a, c) <= 0
  {
    if terms != [] {
      var t := terms[0];
      var x, y, z := ReadSortValue(env, a, t.column), ReadSortValue(env, b, t.column), ReadSortValue(env, c, t.column);
      SortableValues(env, t, Column(env, t, of), x, y, z);
      SortableValues(env, t, Column(env, t, of), y, z, x);
      SortableValues(env, t, Column(env, t, of), x, z, y);
      CompareOrdered(env, terms[1..], of, a, b, c);
    }
  }

  /** With sortable columns the result is the stable sort, whichever algorithm computes it. */
  lemma SortIsStable(env: Env, records: seq<ReadModelRecord>, terms: seq<SortTerm>, sorted: seq<ReadModelRecord>)
    requires forall i | 0 <= i < |terms| :: Sortable(env, terms[i], Column(env, terms[i], Elements(records)))
    ensures StableSortOf(sorted, records, NotAfter(env, terms)) <==> sorted == SortReadModelRecords(env, records, terms)
  {
    var le, of := NotAfter(env, terms), Elements(records);
    forall a, b | a in of && b in of ensures Comparable(le, a, b) {
      CompareOrdered(env, terms, of, a, b, a);
    }
    forall a, b, c | a in of && b in of && c in of ensures Transitive(le, a, b, c) {
      CompareOrdered(env, terms, of, a, b, c);
    }
    AnyStableSort(sorted, records, le);
    if terms == [] {
      AnyStableSort(records, records, le);
      assert forall i, j | 0 <= i < j < |records| :: le(records[i], records[j]);
    }
  }

  /** Undefined comes first in an ascending column and last in a descending one. */
  lemma UndefinedAtOneEnd(env: Env, term: SortTerm, a: ReadModelRecord, b: ReadModelRecord)
    requires ReadSortValue(env, a, term.column).Undefined? && !ReadSortValue(env, b, term.column).Undefined?
    ensures NotAfter(env, [term])(a, b) <==> term.ascending
    ensures NotAfter(env, [term])(b, a) <==> !term.ascending
  {
  }

  /** A collation that takes different strings for equal orders them in neither way. */
  lemma EqualCollationIsNoOrder(env: Env, term: SortTerm, a: ReadModelRecord, b: ReadModelRecord, s: string, t: string)
    requires ReadSortValue(env, a, term.column) == Str(s) && ReadSortValue(env, b, term.column) == Str(t) && s != t
    requires CollationOf(env, term.column).Some? && term.ascending
    requires CollationOf(env, term.column).value(s, t) == 0 && CollationOf(env, term.column).value(t, s) == 0
    ensures !Comparable(NotAfter(env, [term]), a, b)
  {
  }

  /** Numbers and strings in one column may compare in a circle. */
  lemma MixedTypesCircle(env: Env, term: SortTerm)
    requires env.show(Num(9.0)) == "9" && env.show(Num(10.0)) == "10" && term.ascending
    ensures CompareValues(env, term, Num(9.0), Num(10.0)) < 0
    ensures CompareValues(env, term, Num(10.0), Str("5x")) < 0
    ensures CompareValues(env, term, Str("5x"), Num(9.0)) < 0
  {
    assert '1' < '5' < '9';
    assert Before("10", "5x") && Before("5x", "9");
  }
}
