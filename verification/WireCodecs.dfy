/** Library functions that meet the laws of a codec: a plain prefix code for JSON nodes. */
module WireCodecs {
  import opened Options
  import opened WireFormat

  function Unary(n: nat): string {
    if n == 0 then ";" else ['1'] + Unary(n - 1)
  }

  function IntText(i: int): string {
    if i < 0 then ['-'] + Unary(-i) else ['+'] + Unary(i)
  }

  function CharsText(s: string): string {
    if s == "" then ";" else ['c'] + ([s[0]] + CharsText(s[1..]))
  }

  function NamesText(names: seq<string>): string {
    if names == [] then ";" else [','] + (CharsText(names[0]) + NamesText(names[1..]))
  }

  function Text(w: Wire): string
    decreases w, 0
  {
    match w
    case WNull => "n"
    case WBool(b) => if b then "t" else "f"
    case WNumber(n) => ['d'] + (IntText(n.mantissa) + IntText(n.exponent))
    case WString(s) => ['s'] + CharsText(s)
    case WArray(items) => ['a'] + TextAll(items)
    case WObject(names, values) => ['o'] + (NamesText(names) + TextAll(values))
  }

  function TextAll(ws: seq<Wire>): string
    decreases ws, 1
  {
    if ws == [] then ";" else [','] + (Text(ws[0]) + TextAll(ws[1..]))
  }

  // ---- No text is the beginning of another ----

  lemma HeadCut(x: char, a: string, r: string, y: char, b: string, s: string)
    requires ([x] + a) + r == ([y] + b) + s
    ensures x == y && a + r == b + s
  {
    assert (([x] + a) + r)[0] == x && (([y] + b) + s)[0] == y;
    assert a + r == (([x] + a) + r)[1..] && b + s == (([y] + b) + s)[1..];
  }

  /** Texts that begin differently are different, whatever follows. */
  lemma HeadsDiffer(x: char, a: string, r: string, y: char, b: string, s: string)
    requires x != y
    ensures ([x] + a) + r != ([y] + b) + s
  {
    if ([x] + a) + r == ([y] + b) + s {
      HeadCut(x, a, r, y, b, s);
    }
  }

  lemma {:induction false} UnaryCut(m: nat, n: nat, r: string, s: string)
    requires Unary(m) + r == Unary(n) + s
    ensures m == n && r == s
  {
    var a, b := if m == 0 then "" else Unary(m - 1), if n == 0 then "" else Unary(n - 1);
    var x, y := if m == 0 then ';' else '1', if n == 0 then ';' else '1';
    assert Unary(m) == [x] + a && Unary(n) == [y] + b;
    HeadCut(x, a, r, y, b, s);
    if m > 0 {
      UnaryCut(m - 1, n - 1, r, s);
    } else {
      assert a + r == r && b + s == s;
    }
  }

  lemma IntCut(i: int, j: int, r: string, s: string)
    requires IntText(i) + r == IntText(j) + s
    ensures i == j && r == s
  {
    var m, n := if i < 0 then -i else i, if j < 0 then -j else j;
    HeadCut(if i < 0 then '-' else '+', Unary(m), r, if j < 0 then '-' else '+', Unary(n), s);
    UnaryCut(m, n, r, s);
  }

  lemma {:induction false} CharsCut(a: string, b: string, r: string, s: string)
    requires CharsText(a) + r == CharsText(b) + s
    ensures a == b && r == s
  {
    if a == "" && b == "" {
      assert r == (CharsText(a) + r)[1..] && s == (CharsText(b) + s)[1..];
    } else if a == "" {
      assert CharsText(a) == [';'] + "";
      HeadsDiffer(';', "", r, 'c', [b[0]] + CharsText(b[1..]), s);
    } else if b == "" {
      assert CharsText(b) == [';'] + "";
      HeadsDiffer('c', [a[0]] + CharsText(a[1..]), r, ';', "", s);
    } else {
      HeadCut('c', [a[0]] + CharsText(a[1..]), r, 'c', [b[0]] + CharsText(b[1..]), s);
      HeadCut(a[0], CharsText(a[1..]), r, b[0], CharsText(b[1..]), s);
      CharsCut(a[1..], b[1..], r, s);
      assert a == [a[0]] + a[1..] && b == [b[0]] + b[1..];
    }
  }

  lemma Regroup(a: string, b: string, r: string)
    ensures (a + b) + r == a + (b + r)
  {
  }

  /** Takes the head off two texts made of a head and two parts. */
  lemma PartsCut(x: char, a: string, a': string, r: string, y: char, b: string, b': string, s: string)
    requires ([x] + (a + a')) + r == ([y] + (b + b')) + s
    ensures x == y && a + (a' + r) == b + (b' + s)
  {
    HeadCut(x, a + a', r, y, b + b', s);
    Regroup(a, a', r);
    Regroup(b, b', s);
  }

  lemma {:induction false} NamesCut(a: seq<string>, b: seq<string>, r: string, s: string)
    requires NamesText(a) + r == NamesText(b) + s
    ensures a == b && r == s
  {
    if a == [] && b == [] {
      assert r == (NamesText(a) + r)[1..] && s == (NamesText(b) + s)[1..];
    } else if a == [] {
      assert NamesText(a) == [';'] + "";
      HeadsDiffer(';', "", r, ',', CharsText(b[0]) + NamesText(b[1..]), s);
    } else if b == [] {
      assert NamesText(b) == [';'] + "";
      HeadsDiffer(',', CharsText(a[0]) + NamesText(a[1..]), r, ';', "", s);
    } else {
      PartsCut(',', CharsText(a[0]), NamesText(a[1..]), r, ',', CharsText(b[0]), NamesText(b[1..]), s);
      CharsCut(a[0], b[0], NamesText(a[1..]) + r, NamesText(b[1..]) + s);
      NamesCut(a[1..], b[1..], r, s);
      assert a == [a[0]] + a[1..] && b == [b[0]] + b[1..];
    }
  }

  lemma {:induction false} TextAllCut(a: seq<Wire>, b: seq<Wire>, r: string, s: string)
    requires TextAll(a) + r == TextAll(b) + s
    ensures a == b && r == s
    decreases a, 3
  {
    if a == [] && b == [] {
      assert r == (TextAll(a) + r)[1..] && s == (TextAll(b) + s)[1..];
    } else if a == [] {
      assert TextAll(a) == [';'] + "";
      HeadsDiffer(';', "", r, ',', Text(b[0]) + TextAll(b[1..]), s);
    } else if b == [] {
      assert TextAll(b) == [';'] + "";
      HeadsDiffer(',', Text(a[0]) + TextAll(a[1..]), r, ';', "", s);
    } else {
      PartsCut(',', Text(a[0]), TextAll(a[1..]), r, ',', Text(b[0]), TextAll(b[1..]), s);
      TextCut(a[0], b[0], TextAll(a[1..]) + r, TextAll(b[1..]) + s);
      TextAllCut(a[1..], b[1..], r, s);
      assert a == [a[0]] + a[1..] && b == [b[0]] + b[1..];
    }
  }

  /** The character that says what kind of node follows. */
  function Head(w: Wire): char {
    match w
    case WNull => 'n'
    case WBool(b) => if b then 't' else 'f'
    case WNumber(_) => 'd'
    case WString(_) => 's'
    case WArray(_) => 'a'
    case WObject(_, _) => 'o'
  }

  function Tail(w: Wire): string {
    match w
    case WNull => ""
    case WBool(_) => ""
    case WNumber(n) => IntText(n.mantissa) + IntText(n.exponent)
    case WString(s) => CharsText(s)
    case WArray(items) => TextAll(items)
    case WObject(names, values) => NamesText(names) + TextAll(values)
  }

  lemma HeadAndTail(w: Wire)
    ensures Text(w) == [Head(w)] + Tail(w)
  {
  }

  lemma NumberCut(m: Double, n: Double, r: string, s: string)
    requires (IntText(m.mantissa) + IntText(m.exponent)) + r == (IntText(n.mantissa) + IntText(n.exponent)) + s
    ensures m == n && r == s
  {
    Regroup(IntText(m.mantissa), IntText(m.exponent), r);
    Regroup(IntText(n.mantissa), IntText(n.exponent), s);
    IntCut(m.mantissa, n.mantissa, IntText(m.exponent) + r, IntText(n.exponent) + s);
    IntCut(m.exponent, n.exponent, r, s);
  }

  lemma {:induction false} ObjectCut(a: Wire, b: Wire, r: string, s: string)
    requires a.WObject? && b.WObject? && Tail(a) + r == Tail(b) + s
    ensures a == b && r == s
    decreases a, 0
  {
    Regroup(NamesText(a.names), TextAll(a.values), r);
    Regroup(NamesText(b.names), TextAll(b.values), s);
    NamesCut(a.names, b.names, TextAll(a.values) + r, TextAll(b.values) + s);
    TextAllCut(a.values, b.values, r, s);
  }

  lemma {:induction false} TailCut(a: Wire, b: Wire, r: string, s: string)
    requires Head(a) == Head(b) && Tail(a) + r == Tail(b) + s
    ensures a == b && r == s
    decreases a, 1
  {
    match a {
      case WNumber(n) => NumberCut(n, b.n, r, s);
      case WString(t) => CharsCut(t, b.s, r, s);
      case WArray(items) => TextAllCut(items, b.items, r, s);
      case WObject(_, _) => ObjectCut(a, b, r, s);
      case _ =>
        assert Tail(a) + r == r && Tail(b) + s == s;
    }
  }

  lemma {:induction false} TextCut(a: Wire, b: Wire, r: string, s: string)
    requires Text(a) + r == Text(b) + s
    ensures a == b && r == s
    decreases a, 2
  {
    HeadAndTail(a);
    HeadAndTail(b);
    HeadCut(Head(a), Tail(a), r, Head(b), Tail(b), s);
    TailCut(a, b, r, s);
  }

  // ---- Texts are no smaller than what they denote ----

  lemma {:induction false} CharsSize(s: string)
    ensures |s| < |CharsText(s)|
  {
    if s != "" {
      CharsSize(s[1..]);
    }
  }

  lemma {:induction false} TextSize(w: Wire)
    ensures Size(w) <= |Text(w)|
    decreases w, 0
  {
    match w {
      case WString(s) => CharsSize(s);
      case WArray(items) => TextAllSize(items);
      case WObject(names, values) => TextAllSize(values);
      case _ =>
    }
  }

  lemma {:induction false} TextAllSize(ws: seq<Wire>)
    ensures SizeAll(ws) < |TextAll(ws)|
    decreases ws, 1
  {
    if ws != [] {
      TextSize(ws[0]);
      TextAllSize(ws[1..]);
    }
  }

  // ---- Reading back ----

  ghost function WireOf(s: string): Option<Wire> {
    if w :| Text(w) == s then Some(w) else None
  }

  ghost function IntOf(s: string): Option<int> {
    if i :| IntText(i) == s then Some(i) else None
  }

  lemma WireReadsBack(w: Wire)
    ensures WireOf(Text(w)) == Some(w)
  {
    var u := WireOf(Text(w)).value;
    TextCut(u, w, "", "");
  }

  lemma IntReadsBack(i: int)
    ensures IntOf(IntText(i)) == Some(i)
  {
    var j := IntOf(IntText(i)).value;
    IntCut(j, i, "", "");
  }

  /** Some library functions meet the laws, so the theorems about lawful codecs are not about nothing. */
  lemma LawfulCodecExists() returns (c: Codec)
    ensures c.Lawful()
  {
    c := Codec(Text, WireOf, s => s, s => Some(s), IntText, IntOf, IntText, IntOf);
    forall w ensures c.ReadsBack(w) {
      WireReadsBack(w);
    }
    forall s ensures c.ParsesWithin(s) {
      if WireOf(s).Some? {
        TextSize(WireOf(s).value);
      }
    }
    forall i ensures IntOf(IntText(i)) == Some(i) {
      IntReadsBack(i);
    }
  }
}
