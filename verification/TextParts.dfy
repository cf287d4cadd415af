/** Splitting and joining text. */
module TextParts {

  predicate Has(s: string, c: char) {
    exists i | 0 <= i < |s| :: s[i] == c
  }

  /** `s.split(sep)` */
  function SplitOn(s: string, sep: char): (r: seq<string>)
    ensures r != []
  {
    if s == "" then [""]
    else
      var r := SplitOn(s[1..], sep);
      if s[0] == sep then [""] + r else [[s[0]] + r[0]] + r[1..]
  }

  /** `parts.join(sep)` */
  function Join(parts: seq<string>, sep: char): string {
    if parts == [] then ""
    else if |parts| == 1 then parts[0]
    else parts[0] + [sep] + Join(parts[1..], sep)
  }

  function Count(s: string, c: char): nat {
    if s == "" then 0 else (if s[0] == c then 1 else 0) + Count(s[1..], c)
  }

  lemma {:induction false} CountConcat(a: string, b: string, c: char)
    ensures Count(a + b, c) == Count(a, c) + Count(b, c)
  {
    if a == "" {
      assert a + b == b;
    } else {
      assert (a + b)[1..] == a[1..] + b;
      CountConcat(a[1..], b, c);
    }
  }

  lemma {:induction false} CountZero(s: string, c: char)
    ensures Count(s, c) == 0 <==> !Has(s, c)
  {
    if s != "" {
      CountZero(s[1..], c);
      if Has(s[1..], c) {
        var i :| 0 <= i < |s[1..]| && s[1..][i] == c;
        assert s[i + 1] == c;
      }
      if i :| 0 <= i < |s| && s[i] == c {
        if i > 0 { assert s[1..][i - 1] == c; }
      }
    }
  }

  /** There is one more part than there are separators. */
  lemma {:induction false} SplitLength(s: string, sep: char)
    ensures |SplitOn(s, sep)| == Count(s, sep) + 1
  {
    if s != "" { SplitLength(s[1..], sep); }
  }

  function CountAll(parts: seq<string>, c: char): nat {
    if parts == [] then 0 else Count(parts[0], c) + CountAll(parts[1..], c)
  }

  lemma {:induction false} JoinCount(parts: seq<string>, sep: char)
    requires parts != []
    ensures Count(Join(parts, sep), sep) == CountAll(parts, sep) + |parts| - 1
  {
    if |parts| > 1 {
      JoinCount(parts[1..], sep);
      CountConcat(parts[0], [sep] + Join(parts[1..], sep), sep);
      CountConcat([sep], Join(parts[1..], sep), sep);
      assert parts[0] + [sep] + Join(parts[1..], sep) == parts[0] + ([sep] + Join(parts[1..], sep));
    }
  }

  lemma {:induction false} SplitFirst(a: string, b: string, sep: char)
    requires !Has(a, sep)
    ensures SplitOn(a + [sep] + b, sep) == [a] + SplitOn(b, sep)
    ensures SplitOn(a, sep) == [a]
  {
    if a == "" {
      assert a + [sep] + b == [sep] + b;
      assert ([sep] + b)[1..] == b;
    } else {
      assert (a + [sep] + b)[1..] == a[1..] + [sep] + b;
      assert a[0] != sep;
      forall i | 0 <= i < |a[1..]| ensures a[1..][i] != sep {
        assert a[1..][i] == a[i + 1];
      }
      SplitFirst(a[1..], b, sep);
      assert [a[0]] + a[1..] == a;
    }
  }

  /** Splitting undoes joining exactly when no part holds the separator. */
  lemma {:induction false} SplitJoin(parts: seq<string>, sep: char)
    requires parts != []
    ensures SplitOn(Join(parts, sep), sep) == parts <==> forall p | p in parts :: !Has(p, sep)
  {
    if forall p | p in parts :: !Has(p, sep) {
      SplitJoined(parts, sep);
    } else {
      SplitLength(Join(parts, sep), sep);
      JoinCount(parts, sep);
      CountAllZero(parts, sep);
    }
  }

  lemma {:induction false} SplitJoined(parts: seq<string>, sep: char)
    requires parts != [] && forall p | p in parts :: !Has(p, sep)
    ensures SplitOn(Join(parts, sep), sep) == parts
  {
    assert !Has(parts[0], sep);
    SplitFirst(parts[0], Join(parts[1..], sep), sep);
    if |parts| == 1 {
      assert parts == [parts[0]];
    } else {
      SplitJoined(parts[1..], sep);
    }
  }

  lemma {:induction false} CountAllZero(parts: seq<string>, c: char)
    ensures CountAll(parts, c) == 0 <==> forall p | p in parts :: !Has(p, c)
  {
    if parts != [] {
      CountAllZero(parts[1..], c);
      CountZero(parts[0], c);
      assert parts == [parts[0]] + parts[1..];
    }
  }

  /** A joined text holds another character exactly when some part does. */
  lemma {:induction false} JoinHas(parts: seq<string>, sep: char, c: char)
    requires c != sep
    ensures Has(Join(parts, sep), c) <==> exists p :: p in parts && Has(p, c)
  {
    if |parts| == 1 {
      assert parts == [parts[0]];
    } else if |parts| > 1 {
      JoinHas(parts[1..], sep, c);
      HasConcat(parts[0], [sep] + Join(parts[1..], sep), c);
      HasConcat([sep], Join(parts[1..], sep), c);
      assert parts[0] + [sep] + Join(parts[1..], sep) == parts[0] + ([sep] + Join(parts[1..], sep));
      assert parts == [parts[0]] + parts[1..];
    }
  }

  lemma HasConcat(a: string, b: string, c: char)
    ensures Has(a + b, c) <==> Has(a, c) || Has(b, c)
  {
    if i :| 0 <= i < |a| && a[i] == c { assert (a + b)[i] == c; }
    if i :| 0 <= i < |b| && b[i] == c { assert (a + b)[|a| + i] == c; }
  }
}
