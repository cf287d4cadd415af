/** The wire form of each value spelled out, and what decoding makes of objects from elsewhere. */
module WireMeaning {
  import opened Options
  import opened WireFormat
  import opened WireRoundTrip

  // ---- What is sent ----

  /** The marker object, property by property. */
  predicate Tagged(w: Wire, kind: string, text: string) {
    && w.WObject? && w.names == ["__serialized__", "type", "value"]
    && w.values == [WBool(true), WString(kind), WString(text)]
  }

  predicate CharPerByte(binary: string, bytes: seq<Byte>) {
    |binary| == |bytes| && forall i | 0 <= i < |bytes| :: binary[i] as int == bytes[i]
  }

  ghost predicate EachSent(c: Codec, vs: seq<Value>, ws: seq<Wire>)
    decreases vs
  {
    |ws| == |vs| && forall i | 0 <= i < |vs| :: Sent(c, vs[i], ws[i])
  }

  /** An entry is an array of its key and its value. */
  predicate InEntries(entries: seq<Wire>, ws: seq<Wire>) {
    2 * |entries| == |ws| && forall j | 0 <= j < |entries| :: entries[j] == WArray([ws[2 * j], ws[2 * j + 1]])
  }

  /** The wire form of a value. */
  ghost predicate Sent(c: Codec, v: Value, w: Wire)
    decreases v
  {
    match v
    case Null => w == WNull
    case Bool(b) => w == WBool(b)
    case Number(n) => w == WNumber(n)
    case Str(s) => w == WString(s)
    case Undefined => Tagged(w, "undefined", "")
    case BigInt(i) => Tagged(w, "bigint", c.digitsOf(i))
    case Date(t) => Tagged(w, "date", c.isoOf(t))
    case Buffer(bytes) => exists binary :: CharPerByte(binary, bytes) && Tagged(w, "arraybuffer", c.btoa(binary))
    case Composite(ArrayKind, vs) => w.WArray? && EachSent(c, vs, w.items)
    case Composite(ObjectKind(names), vs) => w.WObject? && w.names == names && EachSent(c, vs, w.values)
    case Composite(SetKind, vs) => exists ws :: EachSent(c, vs, ws) && Tagged(w, "set", c.stringify(WArray(ws)))
    case Composite(MapKind, vs) =>
      exists ws, entries ::
        EachSent(c, vs, ws) && InEntries(entries, ws) && Tagged(w, "map", c.stringify(WArray(entries)))
  }

  lemma {:induction false} PairsAreEntries(ws: seq<Wire>, entries: seq<Wire>)
    requires |ws| % 2 == 0
    ensures InEntries(entries, ws) <==> entries == Pairs(ws)
  {
    if ws != [] {
      PairsAreEntries(ws[2..], Pairs(ws[2..]));
      var pairs := Pairs(ws);
      assert pairs == [WArray([ws[0], ws[1]])] + Pairs(ws[2..]);
      forall j | 0 <= j < |pairs| ensures pairs[j] == WArray([ws[2 * j], ws[2 * j + 1]]) {
        if j > 0 { assert pairs[j] == Pairs(ws[2..])[j - 1]; }
      }
      assert InEntries(pairs, ws);
    }
    if InEntries(entries, ws) {
      assert |entries| == |Pairs(ws)| && forall j | 0 <= j < |entries| :: entries[j] == Pairs(ws)[j];
    }
  }

  lemma {:induction false} EachEncoded(c: Codec, v: Value, ws: seq<Wire>)
    requires WellFormed(v) && v.Composite?
    ensures EachSent(c, v.children, ws) <==> ws == EncodeAll(c, v.children)
    decreases v, 0
  {
    var vs := v.children;
    forall i, w | 0 <= i < |vs| ensures Sent(c, vs[i], w) <==> w == Encode(c, vs[i]) {
      EncodedIsSent(c, vs[i], w);
    }
    if |ws| == |vs| {
      assert ws == EncodeAll(c, vs) <==> forall i | 0 <= i < |vs| :: ws[i] == EncodeAll(c, vs)[i];
    }
  }

  /** The encoding of a value is its wire form, and no other node is. */
  lemma {:induction false} EncodedIsSent(c: Codec, v: Value, w: Wire)
    requires WellFormed(v)
    ensures Sent(c, v, w) <==> w == Encode(c, v)
    decreases v, 1
  {
    match v {
      case Buffer(bytes) =>
        forall binary ensures CharPerByte(binary, bytes) <==> binary == Latin1(bytes) {
        }
        assert CharPerByte(Latin1(bytes), bytes);
      case Composite(kind, vs) =>
        var ws := EncodeAll(c, vs);
        forall xs ensures EachSent(c, vs, xs) <==> xs == ws {
          EachEncoded(c, v, xs);
        }
        assert EachSent(c, vs, ws);
        if kind.MapKind? {
          forall entries ensures InEntries(entries, ws) <==> entries == Pairs(ws) {
            PairsAreEntries(ws, entries);
          }
          assert InEntries(Pairs(ws), ws);
        }
      case _ =>
    }
  }

  // ---- What looks like a marker ----

  /** The object has the property, with the value. */
  predicate HasProperty<T(==)>(names: seq<string>, values: seq<T>, name: string, value: T) {
    exists i | 0 <= i < |names| && i < |values| :: names[i] == name && values[i] == value
  }

  predicate DistinctNames(names: seq<string>) {
    forall i, j | 0 <= i < j < |names| :: names[i] != names[j]
  }

  lemma {:induction false} FieldIsProperty<T>(names: seq<string>, values: seq<T>, name: string, value: T)
    requires DistinctNames(names)
    ensures Field(names, values, name) == Some(value) <==> HasProperty(names, values, name, value)
  {
    if names != [] && values != [] {
      FieldIsProperty(names[1..], values[1..], name, value);
      if i :| 0 <= i < |names| && i < |values| && names[i] == name && values[i] == value {
        if i > 0 { assert names[1..][i - 1] == name && values[1..][i - 1] == value; }
      }
      if HasProperty(names[1..], values[1..], name, value) {
        var i :| 0 <= i < |names[1..]| && i < |values[1..]| && names[1..][i] == name && values[1..][i] == value;
        assert names[i + 1] == name && values[i + 1] == value;
      }
    }
  }

  const KINDS := ["arraybuffer", "bigint", "date", "undefined", "map", "set"]

  lemma KnownKinds(name: string)
    ensures TypeOf(name).Some? <==> name in KINDS
    ensures forall t :: TypeOf(name) == Some(t) <==> TypeName(t) == name
  {
    forall t ensures TypeOf(TypeName(t)) == Some(t) {
      TypeNamed(t);
    }
  }

  /** A plain object looks like a marker if it has the tag, and names one of the six kinds. */
  lemma LooksAre(names: seq<string>, vs: seq<Value>)
    requires DistinctNames(names)
    ensures LooksLikeMarker(Composite(ObjectKind(names), vs)) <==>
              && HasProperty(names, vs, "__serialized__", Bool(true))
              && exists kind | kind in KINDS :: HasProperty(names, vs, "type", Str(kind))
  {
    FieldIsProperty(names, vs, "__serialized__", Bool(true));
    forall kind ensures Field(names, vs, "type") == Some(Str(kind)) <==> HasProperty(names, vs, "type", Str(kind)) {
      FieldIsProperty(names, vs, "type", Str(kind));
    }
    forall kind ensures TypeOf(kind).Some? <==> kind in KINDS {
      KnownKinds(kind);
    }
  }

  // ---- What comes from elsewhere ----

  /** An object with the properties of a marker, in any order. */
  predicate MarkerOf(names: seq<string>, values: seq<Wire>, kind: string, text: string) {
    && DistinctNames(names) && HasProperty(names, values, "__serialized__", WBool(true))
    && HasProperty(names, values, "type", WString(kind)) && HasProperty(names, values, "value", WString(text))
  }

  lemma MarkerRead(c: Codec, names: seq<string>, values: seq<Wire>, kind: string, text: string)
    requires c.Lawful() && MarkerOf(names, values, kind, text)
    ensures Decode(c, WObject(names, values))
         == match TypeOf(kind)
            case Some(t) => DecodeMarker(c, t, text)
            case None => WithKind(ObjectKind(names), DecodeAll(c, values))
  {
    FieldIsProperty(names, values, TAG, WBool(true));
    FieldIsProperty(names, values, "type", WString(kind));
    FieldIsProperty(names, values, "value", WString(text));
    assert Decode(c, WObject(names, values)) == DecodeObject(c, names, values);
  }

  /** Four kinds are decoded from their text alone; what is of none of the six is no marker. */
  lemma MarkerDecoded(c: Codec, names: seq<string>, values: seq<Wire>, kind: string, text: string)
    requires c.Lawful() && MarkerOf(names, values, kind, text)
    ensures var v := Decode(c, WObject(names, values));
            && (kind == "undefined" ==> v == Some(Undefined))
            && (kind == "bigint" ==> v == if c.bigOf(text).None? then None else Some(BigInt(c.bigOf(text).value)))
            && (kind == "date" && c.timeOf(text).Some? ==> v == Some(Date(c.timeOf(text).value)))
            && (kind == "arraybuffer" ==>
                  forall binary, bytes: seq<Byte> | c.atob(text) == Some(binary) && CharPerByte(binary, bytes) ::
                    v == Some(Buffer(bytes)))
            && (kind !in KINDS ==> v == WithKind(ObjectKind(names), DecodeAll(c, values)))
  {
    MarkerRead(c, names, values, kind, text);
    KnownKinds(kind);
    forall binary, bytes: seq<Byte> | CharPerByte(binary, bytes) ensures CodesOf(binary) == Some(bytes) {
      assert binary == Latin1(bytes);
      BytesSurvive(bytes);
    }
  }

  /** A set and a map are rebuilt from the members that their text lists. */
  lemma CollectionDecoded(c: Codec, names: seq<string>, values: seq<Wire>, kind: string, text: string)
    requires c.Lawful() && MarkerOf(names, values, kind, text)
    ensures kind == "set" ==>
              forall items, vs | c.parse(text) == Some(WArray(items)) && DecodeAll(c, items) == Some(vs) ::
                Decode(c, WObject(names, values)) == Some(Composite(SetKind, MakeSet(vs)))
    ensures kind == "map" ==>
              forall entries, ws, vs
                | c.parse(text) == Some(WArray(entries)) && InEntries(entries, ws) && DecodeAll(c, ws) == Some(vs) ::
                Decode(c, WObject(names, values)) == Some(Composite(MapKind, MakeMap(vs)))
  {
    MarkerRead(c, names, values, kind, text);
    KnownKinds(kind);
    forall entries, ws | InEntries(entries, ws) ensures Flatten(entries) == Some(ws) {
      PairsAreEntries(ws, entries);
      FlattenPairs(ws);
    }
  }

  /** Without the tag, an object is decoded property by property. */
  lemma UntaggedDecoded(c: Codec, names: seq<string>, values: seq<Wire>)
    requires c.Lawful() && DistinctNames(names) && !HasProperty(names, values, "__serialized__", WBool(true))
    ensures Decode(c, WObject(names, values)) == WithKind(ObjectKind(names), DecodeAll(c, values))
  {
    FieldIsProperty(names, values, TAG, WBool(true));
    assert Decode(c, WObject(names, values)) == DecodeObject(c, names, values);
  }

  // ---- Sets and maps rebuilt from any members ----

  /** What a set or a map takes for the same if it is equal; two objects are never the same. */
  predicate ComparedByValue(v: Value) {
    v.Null? || v.Undefined? || v.Bool? || v.Number? || v.Str? || v.BigInt?
  }

  /** A rebuilt set has the members that it is given: a repeated primitive once, and every object as often as it
      is given. */
  lemma {:induction false} SetMembers(vs: seq<Value>, v: Value)
    ensures multiset(MakeSet(vs))[v] == if ComparedByValue(v) && multiset(vs)[v] > 0 then 1 else multiset(vs)[v]
  {
    if vs != [] {
      var init, last := vs[..|vs| - 1], vs[|vs| - 1];
      assert vs == init + [last];
      SetMembers(init, v);
      SetMembers(init, last);
    }
  }

  /** More members come after those that are there. */
  lemma {:induction false} SetGrows(vs: seq<Value>, more: seq<Value>)
    ensures MakeSet(vs) <= MakeSet(vs + more)
  {
    if more == [] {
      assert vs + more == vs;
    } else {
      var init := more[..|more| - 1];
      SetGrows(vs, init);
      assert (vs + more)[..|vs + more| - 1] == vs + init;
    }
  }

  /** The keys of a flattened map, and its entries under objects. */
  function Keys(vs: seq<Value>): seq<Value> {
    if |vs| < 2 then [] else Keys(vs[..|vs| - 2]) + [vs[|vs| - 2]]
  }

  function ObjectEntries(vs: seq<Value>): seq<Value> {
    if |vs| < 2 then []
    else ObjectEntries(vs[..|vs| - 2]) + if ComparedByValue(vs[|vs| - 2]) then [] else [vs[|vs| - 2], vs[|vs| - 1]]
  }

  /** The value of the last entry that has the key. */
  function LastValue(vs: seq<Value>, key: Value): Option<Value> {
    if |vs| < 2 then None
    else if vs[|vs| - 2] == key then Some(vs[|vs| - 1])
    else LastValue(vs[..|vs| - 2], key)
  }

  lemma EntrySnoc(init: seq<Value>, k: Value, v: Value, key: Value)
    ensures var vs := init + [k, v];
            && Keys(vs) == Keys(init) + [k]
            && ObjectEntries(vs) == ObjectEntries(init) + (if Primitive(k) then [] else [k, v])
            && LastValue(vs, key) == if k == key then Some(v) else LastValue(init, key)
  {
    var vs := init + [k, v];
    assert vs[..|vs| - 2] == init && vs[|vs| - 2] == k && vs[|vs| - 1] == v;
  }

  lemma {:induction false} KeyPlace(vs: seq<Value>, j: nat)
    requires |vs| % 2 == 0 && 2 * j < |vs|
    ensures |Keys(vs)| == |vs| / 2 && Keys(vs)[j] == vs[2 * j]
  {
    var init := vs[..|vs| - 2];
    if 2 * j < |init| {
      KeyPlace(init, j);
    } else if init != [] {
      KeyPlace(init, j - 1);
    }
  }

  lemma {:induction false} KeyFound(vs: seq<Value>, key: Value)
    requires |vs| % 2 == 0
    ensures key in Keys(vs) <==> KeyIndex(vs, key).Some?
  {
    if vs != [] {
      KeyFound(vs[..|vs| - 2], key);
      KeyIndexLast(vs, key);
    }
  }

  lemma {:induction false} KeyIndexLast(vs: seq<Value>, key: Value)
    requires |vs| >= 2 && |vs| % 2 == 0
    ensures KeyIndex(vs, key).Some? <==> KeyIndex(vs[..|vs| - 2], key).Some? || vs[|vs| - 2] == key
  {
    if |vs| >= 4 {
      KeyIndexLast(vs[2..], key);
      assert vs[2..][..|vs| - 4] == vs[..|vs| - 2][2..];
    }
  }

  /** No other key of a flattened map is the one at `p`. */
  predicate Once(vs: seq<Value>, p: nat) {
    p < |vs| && forall q | 0 <= q < |vs| && q % 2 == 0 && q != p :: vs[q] != vs[p]
  }

  /** Another value under a primitive key that occurs once. */
  lemma {:induction false} EntryReplaced(vs: seq<Value>, p: nat, v: Value, key: Value)
    requires |vs| % 2 == 0 && p % 2 == 0 && p + 1 < |vs| && Primitive(vs[p]) && Once(vs, p)
    ensures var now := vs[p + 1 := v];
            && Keys(now) == Keys(vs) && ObjectEntries(now) == ObjectEntries(vs)
            && LastValue(now, key) == if key == vs[p] then Some(v) else LastValue(vs, key)
  {
    var init, k, w := vs[..|vs| - 2], vs[|vs| - 2], vs[|vs| - 1];
    assert vs == init + [k, w];
    EntrySnoc(init, k, w, key);
    if p == |init| {
      assert vs[p + 1 := v] == init + [k, v];
      EntrySnoc(init, k, v, key);
    } else {
      assert vs[p + 1 := v] == init[p + 1 := v] + [k, w];
      EntrySnoc(init[p + 1 := v], k, w, key);
      EntryReplaced(init, p, v, key);
    }
  }

  lemma TwiceIn(vs: seq<Value>, i: nat, j: nat)
    requires i < |vs| && j < |vs| && i != j && vs[i] == vs[j]
    ensures multiset(vs)[vs[i]] >= 2
  {
    var a, b := if i < j then i else j, if i < j then j else i;
    assert vs == vs[..b] + [vs[b]] + vs[b + 1..];
    assert vs[a] in vs[..b];
  }

  lemma PlacedTwice(m: seq<Value>, i: nat, j: nat)
    requires |m| % 2 == 0 && 2 * i < |m| && 2 * j < |m| && i != j && m[2 * i] == m[2 * j]
    ensures multiset(Keys(m))[m[2 * i]] >= 2
  {
    KeyPlace(m, i);
    KeyPlace(m, j);
    TwiceIn(Keys(m), i, j);
  }

  lemma OncePlaced(m: seq<Value>, p: nat)
    requires |m| % 2 == 0 && p % 2 == 0 && p < |m| && multiset(Keys(m))[m[p]] <= 1
    ensures Once(m, p)
  {
    var i := p / 2;
    forall q | 0 <= q < |m| && q % 2 == 0 && q != p ensures m[q] != m[p] {
      var j := q / 2;
      if m[2 * i] == m[2 * j] {
        PlacedTwice(m, i, j);
      }
    }
  }

  /** What becomes of a flattened map when an entry is put into it. */
  predicate Gains(was: seq<Value>, now: seq<Value>, k: Value, v: Value, key: Value) {
    && |now| % 2 == 0 && Keys(now) == (if Primitive(k) && k in Keys(was) then Keys(was) else Keys(was) + [k])
    && ObjectEntries(now) == ObjectEntries(was) + (if Primitive(k) then [] else [k, v])
    && LastValue(now, key) == if k == key then Some(v) else LastValue(was, key)
  }

  lemma PutOver(m: seq<Value>, p: nat, v: Value, key: Value)
    requires |m| % 2 == 0 && p % 2 == 0 && p + 1 < |m| && Primitive(m[p]) && multiset(Keys(m))[m[p]] == 1
    ensures Gains(m, m[p + 1 := v], m[p], v, key)
  {
    OncePlaced(m, p);
    EntryReplaced(m, p, v, key);
  }

  lemma PutLast(m: seq<Value>, k: Value, v: Value, key: Value)
    requires |m| % 2 == 0 && !(Primitive(k) && k in Keys(m))
    ensures Gains(m, m + [k, v], k, v, key)
  {
    EvenLater(m, k, v);
    EntrySnoc(m, k, v, key);
  }

  lemma EvenLater(m: seq<Value>, k: Value, v: Value)
    requires |m| % 2 == 0
    ensures |m + [k, v]| % 2 == 0
  {
    var n := |m|;
    assert |m + [k, v]| == n + 2;
  }

  /** The entry goes to the place of its key, if it is compared by value and is there, and else to the end. */
  predicate Put(m: seq<Value>, k: Value, v: Value, now: seq<Value>) {
    if Primitive(k) && KeyIndex(m, k).Some?
    then KeyIndex(m, k).value + 1 < |m| && now == m[KeyIndex(m, k).value + 1 := v]
    else now == m + [k, v]
  }

  lemma MakeMapPuts(init: seq<Value>, k: Value, v: Value)
    ensures Put(MakeMap(init), k, v, MakeMap(init + [k, v]))
  {
    var vs := init + [k, v];
    assert vs[..|vs| - 2] == init && vs[|vs| - 2] == k && vs[|vs| - 1] == v;
    KeyIndexFinds(MakeMap(init), k);
  }

  lemma PutGains(m: seq<Value>, k: Value, v: Value, now: seq<Value>, key: Value)
    requires Put(m, k, v, now) && |m| % 2 == 0 && (Primitive(k) ==> multiset(Keys(m))[k] <= 1)
    ensures Gains(m, now, k, v, key)
  {
    KeyFound(m, k);
    KeyIndexFinds(m, k);
    if Primitive(k) && KeyIndex(m, k).Some? {
      PutOver(m, KeyIndex(m, k).value, v, key);
    } else {
      PutLast(m, k, v, key);
    }
  }

  /** The keys that a set rebuilt from the keys has, in that order; under a primitive the last value that it is
      given, and under each object its own. */
  predicate Rebuilt(vs: seq<Value>, m: seq<Value>, key: Value) {
    && |m| % 2 == 0 && Keys(m) == MakeSet(Keys(vs)) && ObjectEntries(m) == ObjectEntries(vs)
    && (ComparedByValue(key) ==> LastValue(m, key) == LastValue(vs, key))
  }

  lemma RebuiltNext(init: seq<Value>, m: seq<Value>, k: Value, v: Value, now: seq<Value>, key: Value)
    requires Rebuilt(init, m, key) && Gains(m, now, k, v, key)
    ensures Rebuilt(init + [k, v], now, key)
  {
    EntrySnoc(init, k, v, key);
    assert (Keys(init) + [k])[..|Keys(init)|] == Keys(init);
  }

  lemma {:induction false} MapEntries(vs: seq<Value>, key: Value)
    requires |vs| % 2 == 0
    ensures Rebuilt(vs, MakeMap(vs), key)
  {
    if vs != [] {
      var init, k, v := vs[..|vs| - 2], vs[|vs| - 2], vs[|vs| - 1];
      assert vs == init + [k, v];
      MapEntries(init, key);
      SetMembers(Keys(init), k);
      MakeMapPuts(init, k, v);
      PutGains(MakeMap(init), k, v, MakeMap(init + [k, v]), key);
      RebuiltNext(init, MakeMap(init), k, v, MakeMap(init + [k, v]), key);
    }
  }
}
