/** Hydration paths as text: how the hydrator reads back what the walkers wrote. */
module HydrationPaths {
  import opened Options
  import opened SchemaPlan
  import opened TextParts

  // ---- Reading a path ----

  /** `s.split('.')` */
  function Split(s: string): seq<string> {
    SplitOn(s, '.')
  }

  function NonEmpty(parts: seq<string>): seq<string> {
    if parts == [] then []
    else (if parts[0] == "" then [] else [parts[0]]) + NonEmpty(parts[1..])
  }

  /** `path.split('.').filter(Boolean)` */
  function Parts(path: string): seq<string> {
    NonEmpty(Split(path))
  }

  datatype Segment = AnyKey | Elements(key: string) | Element(key: string, index: nat) | Property(key: string)

  predicate IsDigit(c: char) {
    '0' <= c <= '9'
  }

  /** What `.` matches in a regular expression: anything but a line terminator. */
  predicate IsDot(c: char) {
    c != '\n' && c != '\r' && c != '\U{2028}' && c != '\U{2029}'
  }

  predicate AllDots(s: string) {
    forall i | 0 <= i < |s| :: IsDot(s[i])
  }

  predicate NoPeriod(s: string) {
    forall i | 0 <= i < |s| :: s[i] != '.'
  }

  predicate AllDigits(s: string) {
    forall i | 0 <= i < |s| :: IsDigit(s[i])
  }

  /** The length of the longest run of digits at the end of a string. */
  function TrailingDigits(s: string): (n: nat)
    ensures n <= |s| && forall i | |s| - n <= i < |s| :: IsDigit(s[i])
    ensures n < |s| ==> !IsDigit(s[|s| - n - 1])
  {
    if s == "" || !IsDigit(s[|s| - 1]) then 0 else TrailingDigits(s[..|s| - 1]) + 1
  }

  function NumberOf(digits: string): nat {
    if digits == "" then 0
    else NumberOf(digits[..|digits| - 1]) * 10
         + if IsDigit(digits[|digits| - 1]) then digits[|digits| - 1] as nat - '0' as nat else 0
  }

  /** `/^(.+)\[(\d+)\]$/` */
  function MatchIndex(head: string): Option<(string, nat)> {
    if head == "" || head[|head| - 1] != ']' then None
    else
      var body := head[..|head| - 1];
      var n := TrailingDigits(body);
      if 1 <= n && n + 2 <= |body| && body[|body| - n - 1] == '['
         && AllDots(body[..|body| - n - 1])
      then Some((body[..|body| - n - 1], NumberOf(body[|body| - n..])))
      else None
  }

  /** How the hydrator classifies one path segment. */
  function Classify(head: string): Segment {
    if head == "*" then AnyKey
    else if |head| > 2 && head[|head| - 2..] == "[]" && AllDots(head[..|head| - 2]) then
      Elements(head[..|head| - 2])
    else
      match MatchIndex(head)
      case Some((key, index)) => Element(key, index)
      case None => Property(head)
  }

  // ---- Well-formed paths ----

  /** A key that path syntax leaves alone. Keys of digits only are excluded as well, since they
      would also index into strings and arrays. */
  predicate PlainKey(k: string) {
    && k != "" && k != "*"
    && (forall i | 0 <= i < |k| :: k[i] != '.' && k[i] != '[' && k[i] != ']' && IsDot(k[i]))
    && exists i | 0 <= i < |k| :: !IsDigit(k[i])
  }

  /** Array steps come directly after a key; `afterKey` says whether the path starts there. */
  predicate WellFormed(p: seq<Tok>, afterKey: bool) {
    if p == [] then true
    else
      match p[0]
      case Key(k) => PlainKey(k) && WellFormed(p[1..], true)
      case All => afterKey && WellFormed(p[1..], false)
      case Idx(i) => afterKey && WellFormed(p[1..], false)
      case Star => WellFormed(p[1..], false)
  }

  /** The segments of a path: a key takes the array step that follows it. */
  function Segments(p: seq<Tok>): seq<Segment> {
    if p == [] then []
    else if p[0].Key? then
      if |p| > 1 && p[1].All? then [Elements(p[0].name)] + Segments(p[2..])
      else if |p| > 1 && p[1].Idx? then [Element(p[0].name, p[1].i)] + Segments(p[2..])
      else [Property(p[0].name)] + Segments(p[1..])
    else [AnyKey] + Segments(p[1..])
  }

  function SegmentText(s: Segment): string {
    match s
    case AnyKey => "*"
    case Elements(k) => k + "[]"
    case Element(k, i) => k + "[" + Decimal(i) + "]"
    case Property(k) => k
  }

  function Texts(ss: seq<Segment>): seq<string> {
    if ss == [] then [] else [SegmentText(ss[0])] + Texts(ss[1..])
  }

  // ---- Reading inverts writing ----

  lemma {:induction false} RenderConcat(a: seq<Tok>, b: seq<Tok>)
    ensures Render(a + b) == Render(a) + Render(b)
  {
    if a == [] {
      assert a + b == b;
    } else {
      assert (a + b)[1..] == a[1..] + b;
      RenderConcat(a[1..], b);
    }
  }

  lemma {:induction false} DecimalDigits(n: nat)
    ensures AllDigits(Decimal(n))
    ensures NumberOf(Decimal(n)) == n
  {
    if n < 10 {
      assert DIGITS[n] as nat - '0' as nat == n;
    } else {
      DecimalDigits(n / 10);
      var d := Decimal(n);
      assert d[..|d| - 1] == Decimal(n / 10);
      assert DIGITS[n % 10] as nat - '0' as nat == n % 10;
    }
  }

  lemma {:induction false} TrailingDigitsOf(a: string, digits: string)
    requires a != "" && !IsDigit(a[|a| - 1]) && AllDigits(digits)
    ensures TrailingDigits(a + digits) == |digits|
  {
    if digits == "" {
      assert a + digits == a;
    } else {
      var s := a + digits;
      assert s[..|s| - 1] == a + digits[..|digits| - 1];
      TrailingDigitsOf(a, digits[..|digits| - 1]);
    }
  }

  lemma ClassifyText(s: Segment)
    requires s.AnyKey? || PlainKey(s.key)
    ensures Classify(SegmentText(s)) == s
  {
    match s {
      case AnyKey =>
      case Elements(k) =>
        assert (k + "[]")[|k|..] == "[]" && (k + "[]")[..|k|] == k;
      case Element(k, i) =>
        IndexTextMatches(k, i);
        IndexTextEnds(k, i);
      case Property(k) =>
        KeyEnds(k);
    }
  }

  /** A text that does not end in brackets is no list step. */
  lemma NoListStep(head: string)
    requires |head| > 2 && (head[|head| - 2] != '[' || head[|head| - 1] != ']')
    ensures head[|head| - 2..] != "[]"
  {
    assert head[|head| - 2..][0] == head[|head| - 2] && head[|head| - 2..][1] == head[|head| - 1];
    assert "[]"[0] == '[' && "[]"[1] == ']';
  }

  lemma IndexTextEnds(k: string, i: nat)
    requires PlainKey(k)
    ensures var head := k + "[" + Decimal(i) + "]"; |head| > 2 && head != "*" && head[|head| - 2..] != "[]"
  {
    var head := k + "[" + Decimal(i) + "]";
    DecimalDigits(i);
    assert head[|head| - 2] == Decimal(i)[|Decimal(i)| - 1];
    NoListStep(head);
  }

  lemma KeyEnds(k: string)
    requires PlainKey(k)
    ensures |k| > 2 ==> k[|k| - 2..] != "[]"
    ensures MatchIndex(k) == None
  {
    assert k[|k| - 1] != ']';
    if |k| > 2 { NoListStep(k); }
  }

  lemma IndexTextMatches(k: string, i: nat)
    requires PlainKey(k)
    ensures MatchIndex(k + "[" + Decimal(i) + "]") == Some((k, i))
  {
    var head := k + "[" + Decimal(i) + "]";
    DecimalDigits(i);
    assert head[..|head| - 1] == (k + "[") + Decimal(i);
    TrailingDigitsOf(k + "[", Decimal(i));
    IndexTextParts(k, Decimal(i));
  }

  lemma IndexTextParts(k: string, digits: string)
    ensures var body := (k + "[") + digits; var from := |body| - |digits|;
            from == |k| + 1 && body[..from - 1] == k && body[from - 1] == '[' && body[from..] == digits
  {
  }

  lemma {:induction false} SplitText(a: string, rest: string)
    requires NoPeriod(a)
    ensures Split(a + rest) == [a + Split(rest)[0]] + Split(rest)[1..]
  {
    if a == "" {
      assert a + rest == rest && a + Split(rest)[0] == Split(rest)[0];
    } else {
      assert (a + rest)[1..] == a[1..] + rest;
      SplitText(a[1..], rest);
      assert [a[0]] + (a[1..] + Split(rest)[0]) == a + Split(rest)[0];
      assert Split(a + rest) == [[a[0]] + Split(a[1..] + rest)[0]] + Split(a[1..] + rest)[1..];
    }
  }

  lemma PartsStep(a: string, rest: string)
    requires a != "" && NoPeriod(a) && (rest == "" || rest[0] == '.')
    ensures Parts("." + a + rest) == [a] + Parts(rest)
  {
    var s := "." + a + rest;
    assert s[1..] == a + rest;
    SplitText(a, rest);
    assert Split(rest)[0] == "" && a + "" == a;
    assert Split(s) == [""] + ([a] + Split(rest)[1..]);
    NonEmptyStep("", [a] + Split(rest)[1..]);
    NonEmptyStep(a, Split(rest)[1..]);
    assert Split(rest) == [""] + Split(rest)[1..];
    NonEmptyStep("", Split(rest)[1..]);
  }

  lemma NonEmptyStep(a: string, rest: seq<string>)
    ensures NonEmpty([a] + rest) == (if a == "" then [] else [a]) + NonEmpty(rest)
  {
    assert ([a] + rest)[1..] == rest;
  }

  lemma RenderStarts(p: seq<Tok>)
    requires WellFormed(p, false)
    ensures Render(p) == "" || Render(p)[0] == '.'
  {
  }

  lemma DecimalHasNoPeriod(i: nat)
    ensures NoPeriod(Decimal(i))
  {
    DecimalDigits(i);
  }

  /** How many steps the first segment of a path takes. */
  function FirstLength(p: seq<Tok>): nat
    requires p != []
  {
    if p[0].Key? && |p| > 1 && (p[1].All? || p[1].Idx?) then 2 else 1
  }

  function FirstSegment(p: seq<Tok>): Segment
    requires p != []
  {
    if !p[0].Key? then AnyKey
    else if FirstLength(p) == 1 then Property(p[0].name)
    else if p[1].All? then Elements(p[0].name)
    else Element(p[0].name, p[1].i)
  }

  lemma SegmentsStep(p: seq<Tok>)
    requires p != []
    ensures Segments(p) == [FirstSegment(p)] + Segments(p[FirstLength(p)..])
  {
  }

  lemma WellFormedStep(p: seq<Tok>)
    requires WellFormed(p, false) && p != []
    ensures FirstSegment(p).AnyKey? || PlainKey(FirstSegment(p).key)
    ensures WellFormed(p[FirstLength(p)..], false)
  {
    if |p| > 1 {
      assert p[1..][0] == p[1] && p[1..][1..] == p[2..];
    }
  }

  lemma BracketsText(k: string, brackets: string)
    ensures ("." + k) + brackets == "." + (k + brackets)
  {
  }

  lemma IndexText(k: string, digits: string)
    ensures k + ("[" + digits + "]") == k + "[" + digits + "]"
  {
  }

  lemma ListStepText(k: string, t: Tok)
    requires t.All? || t.Idx?
    ensures RenderTok(Key(k)) + RenderTok(t) == "." + SegmentText(if t.All? then Elements(k) else Element(k, t.i))
  {
    BracketsText(k, RenderTok(t));
    if t.Idx? { IndexText(k, Decimal(t.i)); }
  }

  lemma RenderTwo(p: seq<Tok>)
    requires |p| > 1
    ensures Render(p) == RenderTok(p[0]) + RenderTok(p[1]) + Render(p[2..])
  {
    assert p[1..][1..] == p[2..];
    assert Render(p[1..]) == RenderTok(p[1]) + Render(p[2..]);
  }

  /** How a well-formed path renders: one period and one text per segment. */
  lemma RenderStep(p: seq<Tok>)
    requires WellFormed(p, false) && p != []
    ensures Render(p) == "." + SegmentText(FirstSegment(p)) + Render(p[FirstLength(p)..])
  {
    if FirstLength(p) == 2 {
      RenderTwo(p);
      ListStepText(p[0].name, p[1]);
    } else {
      assert RenderTok(p[0]) == "." + SegmentText(FirstSegment(p));
    }
  }

  lemma {:induction false} PartsOfRender(p: seq<Tok>)
    requires WellFormed(p, false)
    ensures Parts(Render(p)) == Texts(Segments(p))
  {
    if p == [] {
      assert Split("") == [""];
      assert [""][1..] == [];
    } else {
      var rest := p[FirstLength(p)..];
      WellFormedStep(p);
      PartsOfStep(p);
      PartsOfRender(rest);
      TextsStep(p);
    }
  }

  lemma PartsOfStep(p: seq<Tok>)
    requires WellFormed(p, false) && p != []
    ensures Parts(Render(p)) == [SegmentText(FirstSegment(p))] + Parts(Render(p[FirstLength(p)..]))
  {
    var s, rest := FirstSegment(p), p[FirstLength(p)..];
    WellFormedStep(p);
    RenderStep(p);
    TextHasNoPeriod(s);
    RenderStarts(rest);
    PartsStep(SegmentText(s), Render(rest));
  }

  lemma TextHasNoPeriod(s: Segment)
    requires s.AnyKey? || PlainKey(s.key)
    ensures SegmentText(s) != "" && NoPeriod(SegmentText(s))
  {
    if s.Element? { DecimalHasNoPeriod(s.index); }
  }

  /** Paths whose first segments read alike start with the same steps. */
  lemma SameFirstStep(p: seq<Tok>, q: seq<Tok>)
    requires WellFormed(p, false) && WellFormed(q, false) && p != [] && q != []
    requires SegmentText(FirstSegment(p)) == SegmentText(FirstSegment(q))
    ensures FirstLength(p) == FirstLength(q) && p[..FirstLength(p)] == q[..FirstLength(q)]
  {
    WellFormedStep(p);
    WellFormedStep(q);
    ClassifyText(FirstSegment(p));
    ClassifyText(FirstSegment(q));
    assert FirstSegment(p) == FirstSegment(q);
  }

  lemma {:induction false} SegmentsInjective(p: seq<Tok>, q: seq<Tok>)
    requires WellFormed(p, false) && WellFormed(q, false) && Texts(Segments(p)) == Texts(Segments(q))
    ensures p == q
  {
    if p != [] && q != [] {
      TextsStep(p);
      TextsStep(q);
      SameHeads(SegmentText(FirstSegment(p)), Texts(Segments(p[FirstLength(p)..])),
                SegmentText(FirstSegment(q)), Texts(Segments(q[FirstLength(q)..])));
      SameFirstStep(p, q);
      WellFormedStep(p);
      WellFormedStep(q);
      var n := FirstLength(p);
      SegmentsInjective(p[n..], q[n..]);
      assert p == p[..n] + p[n..] && q == q[..n] + q[n..];
    }
  }

  lemma SameHeads(a: string, s: seq<string>, b: string, t: seq<string>)
    requires [a] + s == [b] + t
    ensures a == b && s == t
  {
    assert ([a] + s)[0] == a && ([b] + t)[0] == b;
    assert ([a] + s)[1..] == s && ([b] + t)[1..] == t;
  }

  lemma TextsStep(p: seq<Tok>)
    requires p != []
    ensures Texts(Segments(p)) == [SegmentText(FirstSegment(p))] + Texts(Segments(p[FirstLength(p)..]))
  {
    SegmentsStep(p);
    assert ([FirstSegment(p)] + Segments(p[FirstLength(p)..]))[1..] == Segments(p[FirstLength(p)..]);
  }

  /** Different well-formed paths never render alike. */
  lemma RenderInjective(p: seq<Tok>, q: seq<Tok>)
    requires WellFormed(p, false) && WellFormed(q, false) && Render(p) == Render(q)
    ensures p == q
  {
    PartsOfRender(p);
    PartsOfRender(q);
    SegmentsInjective(p, q);
  }
}
