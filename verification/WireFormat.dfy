/** Serialization of values for transfer between workers: the tagged encoding and its decoder. */
module WireFormat {
  import opened Options

  type Byte = b: int | 0 <= b < 256

  function Pow2(n: nat): int {
    if n == 0 then 1 else 2 * Pow2(n - 1)
  }

  /** `mantissa * 2^exponent` */
  datatype Binary = Binary(mantissa: int, exponent: int) {
    /** The one way to write an ordinary finite number: an odd mantissa of at most 53 bits, or zero. */
    predicate Canonical() {
      if mantissa == 0 then exponent == 0
      else
        && mantissa % 2 == 1 && -0x20_0000_0000_0000 < mantissa < 0x20_0000_0000_0000
        && -1074 <= exponent <= 1023
        && (exponent >= 0 ==> -Pow2(1024 - exponent) < mantissa < Pow2(1024 - exponent))
    }
  }

  type Double = d: Binary | d.Canonical() witness Binary(0, 0)

  /** Times that a `Date` can hold: a hundred million days either side of the epoch, in milliseconds. */
  predicate ValidTime(t: int) {
    -8_640_000_000_000_000 <= t <= 8_640_000_000_000_000
  }

  // ---- Property order ----

  predicate Digit(c: char) {
    '0' <= c <= '9'
  }

  function DigitValue(c: char): nat {
    if Digit(c) then c as int - '0' as int else 0
  }

  /** The number that a digit text denotes. */
  function IndexValue(digits: string): nat {
    if digits == "" then 0 else 10 * IndexValue(digits[..|digits| - 1]) + DigitValue(digits[|digits| - 1])
  }

  /** An array index as a property name. */
  predicate IndexName(name: string) {
    && name != "" && (forall i | 0 <= i < |name| :: Digit(name[i]))
    && (name[0] == '0' ==> |name| == 1) && IndexValue(name) < 0xFFFF_FFFF
  }

  /** The names of an object's own properties: each once, array indices first and ascending. */
  ghost predicate OwnNames(names: seq<string>) {
    forall i, j | 0 <= i < j < |names| ::
      names[i] != names[j] && (IndexName(names[j])
          ==> IndexName(names[i]) && IndexValue(names[i]) < IndexValue(names[j]))
  }

  /** What a composite value is. An object lists the names of its own enumerable properties; the
      children of a map are its keys and values in turn. */
  datatype Kind = ArrayKind | MapKind | SetKind | ObjectKind(names: seq<string>)

  datatype Value =
    | Null
    | Undefined
    | Bool(b: bool)
    | Number(n: Double)
    | Str(s: string)
    | BigInt(i: int)
    | Date(time: int)
    | Buffer(bytes: seq<Byte>)
    | Composite(kind: Kind, children: seq<Value>)

  /** JSON-representable nodes. */
  datatype Wire =
    | WNull
    | WBool(b: bool)
    | WNumber(n: Double)
    | WString(s: string)
    | WArray(items: seq<Wire>)
    | WObject(names: seq<string>, values: seq<Wire>)

  /** The library functions that the encoding relies on. */
  datatype Codec = Codec(
    stringify: Wire -> string, parse: string -> Option<Wire>,
    btoa: string -> string, atob: string -> Option<string>,
    isoOf: int -> string, timeOf: string -> Option<int>,
    digitsOf: int -> string, bigOf: string -> Option<int>)
  {
    /** Each pair is an inverse pair on what it is for, and parsed JSON text is no smaller than what it denotes. */
    ghost predicate Lawful() {
      && (forall w {:trigger ReadsBack(w)} :: ReadsBack(w))
      && (forall s {:trigger ParsesWithin(s)} :: ParsesWithin(s))
      && (forall s | CodesOf(s).Some? :: atob(btoa(s)) == Some(s))
      && (forall t | ValidTime(t) :: timeOf(isoOf(t)) == Some(t))
      && (forall i :: bigOf(digitsOf(i)) == Some(i))
    }

    ghost predicate ReadsBack(w: Wire) {
      Json(w) ==> parse(stringify(w)) == Some(w)
    }

    ghost predicate ParsesWithin(s: string) {
      parse(s).Some? ==> Size(parse(s).value) <= |s|
    }
  }

  /** A node that JSON text can denote. */
  ghost predicate Json(w: Wire) {
    match w
    case WArray(items) => forall i | 0 <= i < |items| :: Json(items[i])
    case WObject(names, values) =>
      |names| == |values| && OwnNames(names) && forall i | 0 <= i < |values| :: Json(values[i])
    case _ => true
  }

  // ---- Sizes of wire nodes ----

  function Size(w: Wire): nat {
    match w
    case WString(s) => 1 + |s|
    case WArray(items) => 1 + SizeAll(items)
    case WObject(_, values) => 1 + SizeAll(values)
    case _ => 1
  }

  function SizeAll(ws: seq<Wire>): nat {
    if ws == [] then 0 else Size(ws[0]) + SizeAll(ws[1..])
  }

  lemma {:induction false} SizeOfMember(ws: seq<Wire>, i: nat)
    requires i < |ws|
    ensures Size(ws[i]) <= SizeAll(ws)
  {
    if i > 0 {
      SizeOfMember(ws[1..], i - 1);
    }
  }

  // ---- Encoding ----

  const TAG := "__serialized__"
  datatype Type = TBuffer | TBigInt | TDate | TUndefined | TMap | TSet

  function TypeName(t: Type): string {
    match t
    case TBuffer => "arraybuffer"
    case TBigInt => "bigint"
    case TDate => "date"
    case TUndefined => "undefined"
    case TMap => "map"
    case TSet => "set"
  }

  function TypeOf(name: string): Option<Type> {
    if name == "arraybuffer" then Some(TBuffer)
    else if name == "bigint" then Some(TBigInt)
    else if name == "date" then Some(TDate)
    else if name == "undefined" then Some(TUndefined)
    else if name == "map" then Some(TMap)
    else if name == "set" then Some(TSet)
    else None
  }

  function Marker(t: Type, text: string): Wire {
    WObject([TAG, "type", "value"], [WBool(true), WString(TypeName(t)), WString(text)])
  }

  function Latin1(bytes: seq<Byte>): string {
    seq(|bytes|, i requires 0 <= i < |bytes| => bytes[i] as char)
  }

  function Pairs(ws: seq<Wire>): seq<Wire> {
    if |ws| < 2 then [] else [WArray([ws[0], ws[1]])] + Pairs(ws[2..])
  }

  /** Assembles the encoding of a composite from the encodings of its children. */
  function Assemble(c: Codec, kind: Kind, ws: seq<Wire>): Wire {
    match kind
    case ArrayKind => WArray(ws)
    case MapKind => Marker(TMap, c.stringify(WArray(Pairs(ws))))
    case SetKind => Marker(TSet, c.stringify(WArray(ws)))
    case ObjectKind(names) => WObject(names, ws)
  }

  function Encode(c: Codec, v: Value): Wire {
    match v
    case Null => WNull
    case Undefined => Marker(TUndefined, "")
    case Bool(b) => WBool(b)
    case Number(n) => WNumber(n)
    case Str(s) => WString(s)
    case BigInt(i) => Marker(TBigInt, c.digitsOf(i))
    case Date(t) => Marker(TDate, c.isoOf(t))
    case Buffer(bytes) => Marker(TBuffer, c.btoa(Latin1(bytes)))
    case Composite(kind, children) => Assemble(c, kind, EncodeAll(c, children))
  }

  function EncodeAll(c: Codec, vs: seq<Value>): (ws: seq<Wire>)
    ensures |ws| == |vs|
    ensures forall i | 0 <= i < |vs| :: ws[i] == Encode(c, vs[i])
  {
    if vs == [] then [] else [Encode(c, vs[0])] + EncodeAll(c, vs[1..])
  }

  // ---- Decoding ----

  function Field<T>(names: seq<string>, values: seq<T>, name: string): Option<T> {
    if names == [] || values == [] then None
    else if names[0] == name then Some(values[0])
    else Field(names[1..], values[1..], name)
  }

  /** The marker's type, if an object is a serialization marker of a known type. */
  function MarkerType(names: seq<string>, values: seq<Wire>): Option<Type> {
    if Field(names, values, TAG) != Some(WBool(true)) then None
    else
      match Field<Wire>(names, values, "type")
      case Some(WString(t)) => TypeOf(t)
      case _ => None
  }

  predicate Primitive(v: Value) {
    !v.Date? && !v.Buffer? && !v.Composite?
  }

  /** `new Set(list)`: a repeated primitive is dropped; objects are never equal. */
  function MakeSet(vs: seq<Value>): (r: seq<Value>)
    ensures |r| <= |vs|
  {
    if vs == [] then []
    else
      var rest := MakeSet(vs[..|vs| - 1]);
      var last := vs[|vs| - 1];
      if Primitive(last) && last in rest then rest else rest + [last]
  }

  /** Where a primitive key stands among the keys of a flattened map. */
  function KeyIndex(vs: seq<Value>, key: Value): Option<nat> {
    if |vs| < 2 then None
    else if vs[0] == key then Some(0)
    else
      match KeyIndex(vs[2..], key)
      case Some(i) => Some(i + 2)
      case None => None
  }

  /** `new Map(list)` on flattened entries: a repeated primitive key keeps its place and takes the new value. */
  function MakeMap(vs: seq<Value>): (r: seq<Value>)
    ensures |r| <= |vs|
  {
    if |vs| < 2 then []
    else
      var rest := MakeMap(vs[..|vs| - 2]);
      var key, value := vs[|vs| - 2], vs[|vs| - 1];
      match (if Primitive(key) then KeyIndex(rest, key) else None)
      case Some(i) => if i + 1 < |rest| then rest[i + 1 := value] else rest
      case None => rest + [key, value]
  }

  function Flatten(ws: seq<Wire>): Option<seq<Wire>> {
    if ws == [] then Some([])
    else if ws[0].WArray? && |ws[0].items| == 2 then
      match Flatten(ws[1..])
      case Some(rest) => Some(ws[0].items + rest)
      case None => None
    else None
  }

  lemma {:induction false} FlattenSize(ws: seq<Wire>)
    requires Flatten(ws).Some?
    ensures SizeAll(Flatten(ws).value) <= SizeAll(ws)
  {
    if ws != [] {
      FlattenSize(ws[1..]);
      var a, b, rest := ws[0].items[0], ws[0].items[1], Flatten(ws[1..]).value;
      assert ws[0].items == [a, b] + [] && Flatten(ws).value == [a, b] + rest;
      SizeOfTwo(a, b, []);
      SizeOfTwo(a, b, rest);
    }
  }

  lemma SizeOfTwo(a: Wire, b: Wire, rest: seq<Wire>)
    ensures SizeAll([a, b] + rest) == Size(a) + Size(b) + SizeAll(rest)
  {
    assert ([a, b] + rest)[1..] == [b] + rest && ([b] + rest)[1..] == rest;
  }

  function CodesOf(binary: string): Option<seq<Byte>> {
    if forall i | 0 <= i < |binary| :: binary[i] as int < 256
    then Some(seq(|binary|, i requires 0 <= i < |binary| => binary[i] as int))
    else None
  }

  /** Decoding fails where the source throws. */
  function Decode(c: Codec, w: Wire): Option<Value>
    requires c.Lawful()
    decreases Size(w), 1
  {
    match w
    case WNull => Some(Null)
    case WBool(b) => Some(Bool(b))
    case WNumber(n) => Some(Number(n))
    case WString(s) => Some(Str(s))
    case WArray(items) => WithKind(ArrayKind, DecodeAll(c, items))
    case WObject(names, values) => DecodeObject(c, names, values)
  }

  function DecodeObject(c: Codec, names: seq<string>, values: seq<Wire>): Option<Value>
    requires c.Lawful()
    decreases SizeAll(values) + 1, 0
  {
    match MarkerType(names, values)
    case None => WithKind(ObjectKind(names), DecodeAll(c, values))
    case Some(TUndefined) => Some(Undefined)
    case Some(t) =>
      match Field<Wire>(names, values, "value")
      case Some(WString(text)) => (FieldSize(names, values, "value"); DecodeMarker(c, t, text))
      case _ => None
  }

  lemma {:induction false} FieldSize(names: seq<string>, values: seq<Wire>, name: string)
    requires Field(names, values, name).Some?
    ensures Size(Field(names, values, name).value) <= SizeAll(values)
  {
    if names[0] != name {
      FieldSize(names[1..], values[1..], name);
    }
  }

  function DecodeMarker(c: Codec, t: Type, text: string): Option<Value>
    requires c.Lawful()
    decreases |text| + 1, 1
  {
    assert c.ParsesWithin(text);
    match t
    case TUndefined => Some(Undefined)
    case TBigInt => (match c.bigOf(text) case Some(i) => Some(BigInt(i)) case None => None)
    case TDate => (match c.timeOf(text) case Some(t) => Some(Date(t)) case None => None)
    case TBuffer => (match c.atob(text) case Some(binary) => BufferOf(binary) case None => None)
    case TSet => (match c.parse(text) case Some(WArray(items)) => SetOf(DecodeAll(c, items)) case _ => None)
    case TMap =>
      match c.parse(text)
      case Some(WArray(items)) =>
        (match Flatten(items) case Some(flat) => (FlattenSize(items); MapOf(DecodeAll(c, flat))) case None => None)
      case _ => None
  }

  function BufferOf(binary: string): Option<Value> {
    match CodesOf(binary) case Some(bytes) => Some(Buffer(bytes)) case None => None
  }

  function SetOf(vs: Option<seq<Value>>): Option<Value> {
    match vs case Some(members) => Some(Composite(SetKind, MakeSet(members))) case None => None
  }

  function MapOf(vs: Option<seq<Value>>): Option<Value> {
    match vs case Some(members) => Some(Composite(MapKind, MakeMap(members))) case None => None
  }

  function WithKind(kind: Kind, vs: Option<seq<Value>>): Option<Value> {
    match vs
    case Some(children) => Some(Composite(kind, children))
    case None => None
  }

  function DecodeAll(c: Codec, ws: seq<Wire>): (r: Option<seq<Value>>)
    requires c.Lawful()
    decreases SizeAll(ws), 2, |ws|
  {
    if ws == [] then Some([])
    else
      match Decode(c, ws[0])
      case None => None
      case Some(v) =>
        match DecodeAll(c, ws[1..])
        case None => None
        case Some(vs) => Some([v] + vs)
  }

  lemma {:induction false} DecodeAllMembers(c: Codec, ws: seq<Wire>, vs: seq<Value>)
    requires c.Lawful()
    ensures DecodeAll(c, ws) == Some(vs) <==>
              |vs| == |ws|
              && forall i | 0 <= i < |ws| :: Decode(c, ws[i]) == Some(vs[i])
  {
    if ws != [] && vs != [] {
      DecodeAllMembers(c, ws[1..], vs[1..]);
      assert vs == [vs[0]] + vs[1..];
      if DecodeAll(c, ws) == Some(vs) {
        assert DecodeAll(c, ws[1..]) == Some(vs[1..]);
        forall i | 0 <= i < |ws| ensures Decode(c, ws[i]) == Some(vs[i]) {
          if i > 0 { assert Decode(c, ws[1..][i - 1]) == Some(vs[1..][i - 1]); }
        }
      }
    }
  }
}
