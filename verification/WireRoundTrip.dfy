/** Decoding inverts encoding on exactly the values that hold no look-alike of a marker. */
module WireRoundTrip {
  import opened Options
  import opened WireFormat

  // ---- Which values ----

  /** What every value with valid dates satisfies: no repeated primitive in a set or among the keys
      of a map, and property names in their order. */
  ghost predicate WellFormed(v: Value)
    decreases v
  {
    && (v.Date? ==> ValidTime(v.time))
    && (v.Composite? ==>
          && (forall i | 0 <= i < |v.children| :: WellFormed(v.children[i]))
          && match v.kind
             case ArrayKind => true
             case SetKind => DistinctFrom(v.children, 1)
             case MapKind => |v.children| % 2 == 0 && DistinctFrom(v.children, 2)
             case ObjectKind(names) => |names| == |v.children| && OwnNames(names))
  }

  /** The primitives at every stride-th position are pairwise distinct. */
  ghost predicate DistinctFrom(vs: seq<Value>, stride: int)
    requires stride > 0
  {
    forall i, j | 0 <= i < j < |vs| && i % stride == 0 && j % stride == 0 && Primitive(vs[i]) :: vs[i] != vs[j]
  }

  /** A plain object that the decoder takes for a marker. */
  predicate LooksLikeMarker(v: Value) {
    && v.Composite? && v.kind.ObjectKind?
    && Field<Value>(v.kind.names, v.children, TAG) == Some(Bool(true))
    && match Field<Value>(v.kind.names, v.children, "type")
       case Some(Str(t)) => TypeOf(t).Some?
       case _ => false
  }

  predicate Transparent(v: Value)
    decreases v
  {
    !LooksLikeMarker(v) && (v.Composite? ==> forall i | 0 <= i < |v.children| :: Transparent(v.children[i]))
  }

  // ---- Sets and maps rebuilt from their own members ----

  lemma {:induction false} MakeSetKeeps(vs: seq<Value>)
    ensures |MakeSet(vs)| == |vs| ==> MakeSet(vs) == vs
    ensures DistinctFrom(vs, 1) ==> MakeSet(vs) == vs
  {
    if vs != [] {
      var init := vs[..|vs| - 1];
      MakeSetKeeps(init);
      assert vs == init + [vs[|vs| - 1]];
      if DistinctFrom(vs, 1) && vs[|vs| - 1] in init {
        var i :| 0 <= i < |init| && init[i] == vs[|vs| - 1];
        assert vs[i] == vs[|vs| - 1];
      }
    }
  }

  lemma {:induction false} KeyIndexFinds(vs: seq<Value>, key: Value)
    ensures KeyIndex(vs, key).Some? ==>
              KeyIndex(vs, key).value + 1 < |vs| && KeyIndex(vs, key).value % 2 == 0
                  && vs[KeyIndex(vs, key).value] == key
  {
    if |vs| >= 2 {
      KeyIndexFinds(vs[2..], key);
    }
  }

  lemma MakeMapStep(init: seq<Value>, key: Value, value: Value)
    requires MakeMap(init) == init && !(Primitive(key) && KeyIndex(init, key).Some?)
    ensures MakeMap(init + [key, value]) == init + [key, value]
  {
    var vs := init + [key, value];
    assert vs[..|vs| - 2] == init && vs[|vs| - 2] == key && vs[|vs| - 1] == value;
  }

  lemma DistinctInit(init: seq<Value>, key: Value, value: Value)
    requires |init| % 2 == 0 && DistinctFrom(init + [key, value], 2)
    ensures DistinctFrom(init, 2) && !(Primitive(key) && KeyIndex(init, key).Some?)
  {
    var vs := init + [key, value];
    forall i, j | 0 <= i < j < |init| && i % 2 == 0 && j % 2 == 0 && Primitive(init[i]) ensures init[i] != init[j] {
      assert vs[i] == init[i] && vs[j] == init[j];
    }
    KeyIndexFinds(init, key);
    assert vs[|init|] == key;
    assert forall i | 0 <= i < |init| :: vs[i] == init[i];
  }

  lemma MakeMapFull(init: seq<Value>, key: Value, value: Value)
    requires |MakeMap(init + [key, value])| == |init| + 2
    ensures |MakeMap(init)| == |init| && !(Primitive(key) && KeyIndex(MakeMap(init), key).Some?)
  {
    var vs := init + [key, value];
    assert vs[..|vs| - 2] == init && vs[|vs| - 2] == key && vs[|vs| - 1] == value;
  }

  ghost predicate Fills(vs: seq<Value>) {
    |MakeMap(vs)| == |vs| || DistinctFrom(vs, 2)
  }

  lemma FillsInit(init: seq<Value>, key: Value, value: Value)
    requires |init| % 2 == 0 && Fills(init + [key, value])
    ensures Fills(init)
    ensures MakeMap(init) == init ==> MakeMap(init + [key, value]) == init + [key, value]
  {
    if DistinctFrom(init + [key, value], 2) {
      DistinctInit(init, key, value);
    } else {
      MakeMapFull(init, key, value);
    }
    if MakeMap(init) == init {
      MakeMapStep(init, key, value);
    }
  }

  lemma {:induction false} MakeMapKeeps(vs: seq<Value>)
    requires |vs| % 2 == 0
    ensures Fills(vs) ==> MakeMap(vs) == vs
  {
    if vs != [] && Fills(vs) {
      var init := vs[..|vs| - 2];
      assert vs == init + [vs[|vs| - 2], vs[|vs| - 1]];
      FillsInit(init, vs[|vs| - 2], vs[|vs| - 1]);
      MakeMapKeeps(init);
    }
  }

  lemma {:induction false} FlattenPairs(ws: seq<Wire>)
    requires |ws| % 2 == 0
    ensures Flatten(Pairs(ws)) == Some(ws)
  {
    if ws != [] {
      FlattenPairs(ws[2..]);
      assert Pairs(ws)[1..] == Pairs(ws[2..]);
      assert ws == [ws[0], ws[1]] + ws[2..];
    }
  }

  // ---- Fields and markers through encoding ----

  lemma {:induction false} FieldEncoded(c: Codec, names: seq<string>, vs: seq<Value>, name: string)
    ensures Field<Wire>(names, EncodeAll(c, vs), name)
         == match Field<Value>(names, vs, name) case Some(v) => Some(Encode(c, v)) case None => None
  {
    if names != [] && vs != [] && names[0] != name {
      assert EncodeAll(c, vs)[1..] == EncodeAll(c, vs[1..]);
      FieldEncoded(c, names[1..], vs[1..], name);
    }
  }

  lemma MarkerTypeEncoded(c: Codec, names: seq<string>, vs: seq<Value>)
    ensures MarkerType(names, EncodeAll(c, vs)).Some? <==> LooksLikeMarker(Composite(ObjectKind(names), vs))
  {
    FieldEncoded(c, names, vs, TAG);
    FieldEncoded(c, names, vs, "type");
  }

  lemma FieldStep<T>(name: string, names: seq<string>, value: T, values: seq<T>, wanted: string)
    ensures Field([name] + names, [value] + values, wanted) == if name == wanted then Some(value)
            else Field(names, values, wanted)
  {
    assert ([name] + names)[1..] == names && ([value] + values)[1..] == values;
  }

  lemma TypeNamed(t: Type)
    ensures TypeOf(TypeName(t)) == Some(t)
  {
    assert |"arraybuffer"| == 11 && |"bigint"| == 6 && |"date"| == 4 && |"undefined"| == 9 && |"map"| == 3
           && |"set"| == 3;
    assert "map"[0] != "set"[0];
  }

  lemma MarkerFields(t: Type, text: string)
    ensures Marker(t, text).WObject? && MarkerType(Marker(t, text).names, Marker(t, text).values) == Some(t)
    ensures Field<Wire>(Marker(t, text).names, Marker(t, text).values, "value") == Some(WString(text))
  {
    var w, tw, vw := WBool(true), WString(TypeName(t)), WString(text);
    var m := Marker(t, text);
    assert m.names == [TAG] + (["type"] + (["value"] + [])) && m.values == [w] + ([tw] + ([vw] + []));
    assert |TAG| == 14 && |"type"| == 4 && |"value"| == 5;
    FieldStep(TAG, ["type"] + (["value"] + []), w, [tw] + ([vw] + []), TAG);
    FieldStep(TAG, ["type"] + (["value"] + []), w, [tw] + ([vw] + []), "type");
    FieldStep(TAG, ["type"] + (["value"] + []), w, [tw] + ([vw] + []), "value");
    FieldStep("type", ["value"] + [], tw, [vw] + [], "type");
    FieldStep("type", ["value"] + [], tw, [vw] + [], "value");
    FieldStep("value", [], vw, [], "value");
    TypeNamed(t);
  }

  lemma DecodeOfMarker(c: Codec, t: Type, text: string)
    requires c.Lawful()
    ensures Decode(c, Marker(t, text)) == DecodeMarker(c, t, text)
  {
    MarkerFields(t, text);
    var m := Marker(t, text);
    assert DecodeObject(c, m.names, m.values) == DecodeMarker(c, t, text);
  }

  lemma BytesSurvive(bytes: seq<Byte>)
    ensures CodesOf(Latin1(bytes)) == Some(bytes)
  {
    var binary := Latin1(bytes);
    assert CodesOf(binary).value == bytes;
  }

  // ---- Encodings are JSON ----

  lemma MarkerIsJson(t: Type, text: string)
    ensures Json(Marker(t, text))
  {
    var m := Marker(t, text);
    assert |TAG| == 14 && |"type"| == 4 && |"value"| == 5;
    assert TAG[0] == '_' && "type"[0] == 't' && "value"[0] == 'v';
    forall i | 0 <= i < 3 ensures Json(m.values[i]) && !IndexName(m.names[i]) {
    }
  }

  lemma {:induction false} PairsAreJson(ws: seq<Wire>)
    requires forall i | 0 <= i < |ws| :: Json(ws[i])
    ensures forall i | 0 <= i < |Pairs(ws)| :: Json(Pairs(ws)[i])
  {
    if |ws| >= 2 {
      PairsAreJson(ws[2..]);
      assert Json(WArray([ws[0], ws[1]]));
    }
  }

  /** The encoded form holds only nodes that JSON can represent. */
  lemma {:induction false} EncodingIsJson(c: Codec, v: Value)
    requires WellFormed(v)
    ensures Json(Encode(c, v))
    decreases v
  {
    match v {
      case Undefined => MarkerIsJson(TUndefined, "");
      case BigInt(i) => MarkerIsJson(TBigInt, c.digitsOf(i));
      case Date(t) => MarkerIsJson(TDate, c.isoOf(t));
      case Buffer(bytes) => MarkerIsJson(TBuffer, c.btoa(Latin1(bytes)));
      case Composite(kind, children) =>
        ChildrenAreJson(c, v);
        var ws := EncodeAll(c, children);
        match kind {
          case MapKind => MarkerIsJson(TMap, c.stringify(WArray(Pairs(ws))));
          case SetKind => MarkerIsJson(TSet, c.stringify(WArray(ws)));
          case _ =>
        }
      case _ =>
    }
  }

  lemma {:induction false} ChildrenAreJson(c: Codec, v: Value)
    requires WellFormed(v) && v.Composite?
    ensures forall i | 0 <= i < |v.children| :: Json(EncodeAll(c, v.children)[i])
    decreases v, 0
  {
    forall i | 0 <= i < |v.children| ensures Json(EncodeAll(c, v.children)[i]) {
      EncodingIsJson(c, v.children[i]);
    }
  }

  // ---- The round trip ----

  lemma {:induction false} RoundTrip(c: Codec, v: Value)
    requires c.Lawful() && WellFormed(v)
    ensures Decode(c, Encode(c, v)) == Some(v) <==> Transparent(v)
    decreases v, 2
  {
    match v {
      case Undefined => DecodeOfMarker(c, TUndefined, "");
      case BigInt(i) => DecodeOfMarker(c, TBigInt, c.digitsOf(i));
      case Date(t) => DecodeOfMarker(c, TDate, c.isoOf(t));
      case Buffer(bytes) =>
        BytesSurvive(bytes);
        DecodeOfMarker(c, TBuffer, c.btoa(Latin1(bytes)));
      case Composite(kind, children) =>
        CompositeRoundTrip(c, v, kind, children);
      case _ =>
    }
  }

  lemma {:induction false} CompositeRoundTrip(c: Codec, v: Value, kind: Kind, children: seq<Value>)
    requires c.Lawful() && WellFormed(v) && v == Composite(kind, children)
    ensures Decode(c, Encode(c, v)) == Some(v) <==> Transparent(v)
    decreases v, 1
  {
    ChildrenRoundTrip(c, v);
    ChildrenAreJson(c, v);
    match kind {
      case ArrayKind =>
      case SetKind =>
        SetDecoded(c, children);
        DecodedLength(c, children);
        SetOfKeeps(DecodeAll(c, EncodeAll(c, children)), children);
      case MapKind =>
        MapDecoded(c, children);
        DecodedLength(c, children);
        MapOfKeeps(DecodeAll(c, EncodeAll(c, children)), children);
      case ObjectKind(names) =>
        ObjectDecoded(c, names, children);
    }
  }

  ghost predicate AllDecode(c: Codec, vs: seq<Value>)
    requires c.Lawful()
  {
    DecodeAll(c, EncodeAll(c, vs)) == Some(vs)
  }

  ghost predicate AllTransparent(vs: seq<Value>) {
    forall i | 0 <= i < |vs| :: Transparent(vs[i])
  }

  lemma AllDecodeEach(c: Codec, vs: seq<Value>)
    requires c.Lawful()
    ensures AllDecode(c, vs) <==> forall i | 0 <= i < |vs| :: Decode(c, Encode(c, vs[i])) == Some(vs[i])
  {
    DecodeAllMembers(c, EncodeAll(c, vs), vs);
    assert forall i | 0 <= i < |vs| :: EncodeAll(c, vs)[i] == Encode(c, vs[i]);
  }

  lemma {:induction false} ChildrenRoundTrip(c: Codec, v: Value)
    requires c.Lawful() && WellFormed(v) && v.Composite?
    ensures AllDecode(c, v.children) <==> AllTransparent(v.children)
    decreases v, 0
  {
    var vs := v.children;
    AllDecodeEach(c, vs);
    forall i | 0 <= i < |vs| ensures Decode(c, Encode(c, vs[i])) == Some(vs[i]) <==> Transparent(vs[i]) {
      RoundTrip(c, vs[i]);
    }
  }

  lemma DecodedLength(c: Codec, vs: seq<Value>)
    requires c.Lawful()
    ensures DecodeAll(c, EncodeAll(c, vs)).Some? ==> |DecodeAll(c, EncodeAll(c, vs)).value| == |vs|
  {
    match DecodeAll(c, EncodeAll(c, vs)) {
      case Some(ds) => DecodeAllMembers(c, EncodeAll(c, vs), ds);
      case None =>
    }
  }

  lemma DecodeSetText(c: Codec, text: string, ws: seq<Wire>)
    requires c.Lawful() && c.parse(text) == Some(WArray(ws))
    ensures DecodeMarker(c, TSet, text) == SetOf(DecodeAll(c, ws))
  {
  }

  lemma DecodeMapText(c: Codec, text: string, entries: seq<Wire>, ws: seq<Wire>)
    requires c.Lawful() && c.parse(text) == Some(WArray(entries)) && Flatten(entries) == Some(ws)
    ensures DecodeMarker(c, TMap, text) == MapOf(DecodeAll(c, ws))
  {
  }

  lemma SetDecoded(c: Codec, vs: seq<Value>)
    requires c.Lawful() && forall i | 0 <= i < |vs| :: Json(EncodeAll(c, vs)[i])
    ensures Decode(c, Encode(c, Composite(SetKind, vs))) == SetOf(DecodeAll(c, EncodeAll(c, vs)))
  {
    var ws := EncodeAll(c, vs);
    var text := c.stringify(WArray(ws));
    assert c.ReadsBack(WArray(ws));
    assert Encode(c, Composite(SetKind, vs)) == Marker(TSet, text);
    DecodeOfMarker(c, TSet, text);
    DecodeSetText(c, text, ws);
  }

  lemma SetOfKeeps(ds: Option<seq<Value>>, vs: seq<Value>)
    requires DistinctFrom(vs, 1) && (ds.Some? ==> |ds.value| == |vs|)
    ensures SetOf(ds) == Some(Composite(SetKind, vs)) <==> ds == Some(vs)
  {
    MakeSetKeeps(vs);
    if ds.Some? { MakeSetKeeps(ds.value); }
  }

  lemma MapDecoded(c: Codec, vs: seq<Value>)
    requires c.Lawful() && |vs| % 2 == 0 && forall i | 0 <= i < |vs| :: Json(EncodeAll(c, vs)[i])
    ensures Decode(c, Encode(c, Composite(MapKind, vs))) == MapOf(DecodeAll(c, EncodeAll(c, vs)))
  {
    var ws := EncodeAll(c, vs);
    var text := c.stringify(WArray(Pairs(ws)));
    PairsAreJson(ws);
    assert c.ReadsBack(WArray(Pairs(ws)));
    assert Encode(c, Composite(MapKind, vs)) == Marker(TMap, text);
    DecodeOfMarker(c, TMap, text);
    FlattenPairs(ws);
    DecodeMapText(c, text, Pairs(ws), ws);
  }

  lemma MapOfKeeps(ds: Option<seq<Value>>, vs: seq<Value>)
    requires |vs| % 2 == 0 && DistinctFrom(vs, 2) && (ds.Some? ==> |ds.value| == |vs|)
    ensures MapOf(ds) == Some(Composite(MapKind, vs)) <==> ds == Some(vs)
  {
    MakeMapKeeps(vs);
    if ds.Some? { MakeMapKeeps(ds.value); }
  }

  lemma ObjectDecoded(c: Codec, names: seq<string>, vs: seq<Value>)
    requires c.Lawful()
    ensures var v := Composite(ObjectKind(names), vs);
            if LooksLikeMarker(v) then Decode(c, Encode(c, v)) != Some(v)
            else Decode(c, Encode(c, v)) == WithKind(ObjectKind(names), DecodeAll(c, EncodeAll(c, vs)))
  {
    var ws := EncodeAll(c, vs);
    MarkerTypeEncoded(c, names, vs);
    assert Decode(c, WObject(names, ws)) == DecodeObject(c, names, ws);
    match MarkerType(names, ws) {
      case None =>
      case Some(t) => NeverAnObject(c, t, ws, names);
    }
  }

  /** Whatever a marker decodes to, it is not a plain object. */
  lemma NeverAnObject(c: Codec, t: Type, ws: seq<Wire>, names: seq<string>)
    requires c.Lawful() && MarkerType(names, ws) == Some(t)
    ensures match DecodeObject(c, names, ws) case Some(Composite(kind, _)) => !kind.ObjectKind? case _ => true
  {
    if t != TUndefined {
      match Field<Wire>(names, ws, "value") {
        case Some(WString(text)) => assert DecodeObject(c, names, ws) == DecodeMarker(c, t, text);
        case _ =>
      }
    }
  }

  // ---- The byte loops ----

  /** Binary text of a buffer, built from chunks of 8192 bytes. */
  method BinaryOf(bytes: seq<Byte>) returns (binary: string)
    ensures binary == Latin1(bytes)
  {
    binary := "";
    var i := 0;
    while i < |bytes|
      invariant 0 <= i && binary == Latin1(bytes[..if i < |bytes| then i else |bytes|])
    {
      var end := if i + 8192 < |bytes| then i + 8192 else |bytes|;
      binary := binary + Latin1(bytes[i..end]);
      assert bytes[..i] + bytes[i..end] == bytes[..end];
      i := i + 8192;
    }
    assert bytes[..|bytes|] == bytes;
  }

  method BytesOf(binary: string) returns (bytes: seq<Byte>)
    requires CodesOf(binary).Some?
    ensures Some(bytes) == CodesOf(binary)
  {
    bytes := [];
    for i := 0 to |binary|
      invariant bytes == CodesOf(binary).value[..i]
    {
      bytes := bytes + [binary[i] as int];
    }
    assert CodesOf(binary).value[..|binary|] == CodesOf(binary).value;
  }
}
