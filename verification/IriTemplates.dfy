/** URI templates whose query expansion is derived from variable mappings. */
module IriTemplates {
  import opened Options
  import opened TextParts

  datatype Mapping = Mapping(variable: string)

  datatype TemplateError = MissingId | MissingTemplate | QueryExpansionInTemplate | DuplicateVariable

  datatype IriTemplate = IriTemplate(id: string, template: string, mappings: seq<Mapping>) {
    function BaseHref(): string {
      StripFrom(template, 0)
    }

    /** `/\{\?[^}]*\}/.test(template)` */
    predicate HasQueryExpansion() {
      exists i: nat | i + 2 < |template| :: ExpansionStarts(template, i) && Closing(template, i + 2) < |template|
    }
  }

  datatype Built = Built(made: IriTemplate) | Refused(error: TemplateError)

  // ---- Path variables ----

  /** The index of the first `}` from `i` on, or the length of the text. */
  function Closing(t: string, i: nat): (j: nat)
    requires i <= |t|
    ensures i <= j <= |t|
    ensures forall k | i <= k < j :: t[k] != '}'
    ensures j < |t| ==> t[j] == '}'
    decreases |t| - i
  {
    if i == |t| || t[i] == '}' then i else Closing(t, i + 1)
  }

  /** Whether `/\{([^\}?][^}]*)\}/` matches at `i`. */
  predicate VariableAt(t: string, i: nat) {
    i + 1 < |t| && t[i] == '{' && t[i + 1] != '}' && t[i + 1] != '?' && Closing(t, i + 1) < |t|
  }

  /** All matches from `i` on, each search going on behind the last match. */
  function PathVariables(t: string, i: nat): seq<string>
    requires i <= |t|
    decreases |t| - i
  {
    if i == |t| then []
    else if VariableAt(t, i) then
      var j := Closing(t, i + 1);
      [t[i + 1..j]] + PathVariables(t, j + 1)
    else PathVariables(t, i + 1)
  }

  function PathNames(t: string): set<string> {
    set v | v in PathVariables(t, 0)
  }

  method GetPathVariables(t: string) returns (vars: set<string>)
    ensures vars == PathNames(t)
  {
    vars := {};
    var i := 0;
    ghost var found := [];
    while i < |t|
      invariant i <= |t| && PathVariables(t, 0) == found + PathVariables(t, i)
      invariant vars == set v | v in found
      decreases |t| - i
    {
      if VariableAt(t, i) {
        var j := Closing(t, i + 1);
        assert found + ([t[i + 1..j]] + PathVariables(t, j + 1)) == found + [t[i + 1..j]] + PathVariables(t, j + 1);
        vars, found := vars + {t[i + 1..j]}, found + [t[i + 1..j]];
        i := j + 1;
      } else {
        i := i + 1;
      }
    }
    assert found + [] == found;
  }

  datatype Piece = Literal(text: string) | Variable(name: string)

  predicate PlainPiece(p: Piece) {
    match p
    case Literal(text) => !Has(text, '{')
    case Variable(name) => name != "" && !Has(name, '}') && name[0] != '?'
  }

  function Written(p: Piece): string {
    match p case Literal(text) => text case Variable(name) => "{" + name + "}"
  }

  function Named(p: Piece): seq<string> {
    match p case Literal(_) => [] case Variable(name) => [name]
  }

  function RenderPath(pieces: seq<Piece>): string {
    if pieces == [] then "" else Written(pieces[0]) + RenderPath(pieces[1..])
  }

  function NamesIn(pieces: seq<Piece>): seq<string> {
    if pieces == [] then [] else Named(pieces[0]) + NamesIn(pieces[1..])
  }

  /** The text from `i` on is the written path. */
  predicate StandsAt(t: string, i: nat, pieces: seq<Piece>) {
    i <= |t| && t[i..] == RenderPath(pieces)
  }

  predicate AllPlain(pieces: seq<Piece>) {
    forall p | p in pieces :: PlainPiece(p)
  }

  /** What scanning finds from `i` on is what it finds there first, and then from `n` on, where the rest stands. */
  predicate Finds(t: string, i: nat, first: seq<string>, n: nat, rest: string) {
    i <= |t| && n <= |t| && t[n..] == rest && PathVariables(t, i) == first + PathVariables(t, n)
  }

  lemma FirstPiece(t: string, i: nat, pieces: seq<Piece>) returns (n: nat)
    requires pieces != [] && AllPlain(pieces) && StandsAt(t, i, pieces)
    ensures AllPlain(pieces[1..]) && Finds(t, i, Named(pieces[0]), n, RenderPath(pieces[1..]))
  {
    n := PieceTaken(t, i, pieces[0], RenderPath(pieces[1..]));
  }

  /** Scanning finds exactly the variables that a path was written with. */
  lemma {:induction false} ScanFindsVariables(t: string, i: nat, pieces: seq<Piece>)
    requires AllPlain(pieces) && StandsAt(t, i, pieces)
    ensures PathVariables(t, i) == NamesIn(pieces)
    decreases |pieces|
  {
    if pieces == [] {
      assert i == |t|;
    } else {
      var n := FirstPiece(t, i, pieces);
      ScanFindsVariables(t, n, pieces[1..]);
      Together(PathVariables(t, i), Named(pieces[0]), PathVariables(t, n), NamesIn(pieces[1..]), NamesIn(pieces));
    }
  }

  lemma Together(found: seq<string>, first: seq<string>, rest: seq<string>, others: seq<string>, named: seq<string>)
    requires found == first + rest && rest == others && named == first + others
    ensures found == named
  {
  }

  lemma PieceTaken(t: string, i: nat, p: Piece, rest: string) returns (n: nat)
    requires i <= |t| && t[i..] == Written(p) + rest && PlainPiece(p)
    ensures Finds(t, i, Named(p), n, rest)
  {
    match p {
      case Literal(text) =>
        n := i + |text|;
        LiteralSkipped(t, i, text, rest);
      case Variable(name) =>
        n := i + |name| + 2;
        NameTaken(t, i, name, rest);
    }
  }

  lemma LiteralSkipped(t: string, i: nat, text: string, rest: string)
    requires i <= |t| && t[i..] == text + rest && !Has(text, '{')
    ensures Finds(t, i, [], i + |text|, rest)
  {
    LiteralAt(t, i, text, rest);
    SkipLiteral(t, i, i + |text|);
  }

  lemma NameTaken(t: string, i: nat, name: string, rest: string)
    requires i <= |t| && t[i..] == "{" + name + "}" + rest && PlainPiece(Variable(name))
    ensures Finds(t, i, [name], i + |name| + 2, rest)
  {
    NameAt(t, i, name, rest);
    VariableTaken(t, i, i + |name| + 1);
  }

  lemma LiteralAt(t: string, i: nat, text: string, rest: string)
    requires i <= |t| && t[i..] == text + rest && !Has(text, '{')
    ensures i + |text| <= |t| && t[i + |text|..] == rest && forall k | i <= k < i + |text| :: t[k] != '{'
  {
    assert |t| == i + |text| + |rest|;
    forall k | i <= k < i + |text| ensures t[k] != '{' {
      assert t[k] == t[i..][k - i] == text[k - i];
    }
    assert t[i + |text|..] == t[i..][|text|..];
  }

  lemma {:induction false} SkipLiteral(t: string, i: nat, n: nat)
    requires i <= n <= |t| && forall k | i <= k < n :: t[k] != '{'
    ensures PathVariables(t, i) == PathVariables(t, n)
    decreases n - i
  {
    if i < n { SkipLiteral(t, i + 1, n); }
  }

  lemma NameAt(t: string, i: nat, name: string, rest: string)
    requires i <= |t| && t[i..] == "{" + name + "}" + rest && PlainPiece(Variable(name))
    ensures var j := i + |name| + 1;
            && i + 1 < j < |t| && t[i] == '{' && t[j] == '}' && t[i + 1] != '?' && t[i + 1..j] == name
                && t[j + 1..] == rest
            && forall k | i < k < j :: t[k] != '}'
  {
    var s, j := t[i..], i + |name| + 1;
    assert |t| == i + |name| + 2 + |rest|;
    assert t[i] == s[0] && t[j] == s[|name| + 1] && t[i + 1] == s[1] == name[0];
    forall k | i < k < j ensures t[k] != '}' {
      assert t[k] == s[k - i] == name[k - i - 1];
    }
    assert t[i + 1..j] == s[1..|name| + 1] == name;
    assert t[j + 1..] == s[|name| + 2..] == rest;
  }

  lemma VariableTaken(t: string, i: nat, j: nat)
    requires i + 1 < j < |t| && t[i] == '{' && t[j] == '}' && t[i + 1] != '?' && forall k | i < k < j :: t[k] != '}'
    ensures PathVariables(t, i) == [t[i + 1..j]] + PathVariables(t, j + 1)
  {
    ClosingAt(t, i + 1, j);
  }

  lemma ClosingAt(t: string, i: nat, j: nat)
    requires i <= j < |t| && t[j] == '}' && forall k | i <= k < j :: t[k] != '}'
    ensures Closing(t, i) == j
  {
    var c := Closing(t, i);
    assert !(c < j) && !(j < c);
  }

  // ---- Query variables ----

  /** The mapped variables that are not path variables, in mapping order. */
  function QueryVariables(mappings: seq<Mapping>, pathVars: set<string>): seq<string> {
    if mappings == [] then []
    else
      var init, v := QueryVariables(mappings[..|mappings| - 1], pathVars), mappings[|mappings| - 1].variable;
      if v == "" || v in pathVars then init else init + [v]
  }

  lemma {:induction false} QueryVariablesHold(mappings: seq<Mapping>, pathVars: set<string>, v: string)
    ensures v in QueryVariables(mappings, pathVars) <==> v != "" && v !in pathVars && Mapping(v) in mappings
  {
    if mappings != [] {
      QueryVariablesHold(mappings[..|mappings| - 1], pathVars, v);
      assert mappings == mappings[..|mappings| - 1] + [mappings[|mappings| - 1]];
    }
  }

  predicate Comes(vars: seq<string>, i: nat, v: string, j: nat, w: string) {
    i < j < |vars| && vars[i] == v && vars[j] == w
  }

  /** Derived variables come in the order of their mappings. */
  lemma {:induction false} MappingOrder(mappings: seq<Mapping>, pathVars: set<string>, p: nat, q: nat)
    requires p < q < |mappings|
    requires forall v | v in [mappings[p].variable, mappings[q].variable] :: v != "" && v !in pathVars
    ensures exists i: nat, j: nat ::
              Comes(QueryVariables(mappings, pathVars), i, mappings[p].variable, j, mappings[q].variable)
  {
    var init, vars := mappings[..|mappings| - 1], QueryVariables(mappings, pathVars);
    var v, w := mappings[p].variable, mappings[q].variable;
    assert v in [v, w] && w in [v, w];
    if q < |init| {
      MappingOrder(init, pathVars, p, q);
      var i: nat, j: nat :| Comes(QueryVariables(init, pathVars), i, v, j, w);
      assert Comes(vars, i, v, j, w);
    } else {
      QueryVariablesHold(init, pathVars, v);
      assert init[p] == Mapping(v) && init[p] in init;
      var was := QueryVariables(init, pathVars);
      var i: nat :| i < |was| && was[i] == v;
      assert Comes(vars, i, v, |was|, w);
    }
  }

  predicate Distinct(vars: seq<string>) {
    forall i, j | 0 <= i < j < |vars| :: vars[i] != vars[j]
  }

  /** Two mappings are of one variable that is not empty and not in the path. */
  predicate MappedTwice(mappings: seq<Mapping>, pathVars: set<string>, p: nat, q: nat) {
    && p < q < |mappings| && mappings[p].variable == mappings[q].variable
    && mappings[p].variable != "" && mappings[p].variable !in pathVars
  }

  lemma {:induction false} RepeatedIffMappedTwice(mappings: seq<Mapping>, pathVars: set<string>)
    ensures Distinct(QueryVariables(mappings, pathVars))
            <==> !exists p: nat, q: nat :: MappedTwice(mappings, pathVars, p, q)
  {
    if p: nat, q: nat :| MappedTwice(mappings, pathVars, p, q) {
      var v := mappings[p].variable;
      MappingOrder(mappings, pathVars, p, q);
      var i: nat, j: nat :| Comes(QueryVariables(mappings, pathVars), i, v, j, v);
    }
    if !Distinct(QueryVariables(mappings, pathVars)) {
      var init, last := mappings[..|mappings| - 1], mappings[|mappings| - 1];
      RepeatedIffMappedTwice(init, pathVars);
      if p: nat, q: nat :| MappedTwice(init, pathVars, p, q) {
        assert MappedTwice(mappings, pathVars, p, q);
      } else {
        DistinctSnoc(QueryVariables(init, pathVars), last.variable);
        QueryVariablesHold(init, pathVars, last.variable);
        var p :| 0 <= p < |init| && init[p] == last;
        assert MappedTwice(mappings, pathVars, p, |init|);
      }
    }
  }

  method DeriveQueryVars(template: string, mappings: seq<Mapping>) returns (vars: Option<seq<string>>)
    ensures var all := QueryVariables(mappings, PathNames(template));
            vars == if Distinct(all) then Some(all) else None
  {
    var pathVars := GetPathVariables(template);
    var seen: set<string>, duplicates: set<string>, list: seq<string> := {}, {}, [];
    for i := 0 to |mappings|
      invariant seen == set v | v in QueryVariables(mappings[..i], pathVars)
      invariant duplicates == {} <==> Distinct(QueryVariables(mappings[..i], pathVars))
      invariant duplicates == {} ==> list == QueryVariables(mappings[..i], pathVars)
    {
      var v := mappings[i].variable;
      assert mappings[..i + 1][..i] == mappings[..i];
      ghost var was := QueryVariables(mappings[..i], pathVars);
      if v == "" || v in pathVars { continue; }
      DistinctSnoc(was, v);
      if v in seen {
        duplicates := duplicates + {v};
      } else {
        seen := seen + {v};
        list := list + [v];
      }
    }
    assert mappings[..|mappings|] == mappings;
    vars := if duplicates == {} then Some(list) else None;
  }

  lemma DistinctSnoc(vars: seq<string>, v: string)
    ensures Distinct(vars + [v]) <==> Distinct(vars) && v !in vars
  {
    var more := vars + [v];
    if Distinct(more) {
      assert forall i | 0 <= i < |vars| :: more[i] == vars[i] && more[i] != more[|vars|];
    }
  }

  // ---- The template ----

  function QueryExpansion(vars: seq<string>): string {
    "{?" + Join(vars, ',') + "}"
  }

  predicate ExpansionStarts(t: string, i: nat) {
    i + 1 < |t| && t[i] == '{' && t[i + 1] == '?'
  }

  predicate IncludesExpansion(t: string) {
    exists i: nat | i < |t| :: ExpansionStarts(t, i)
  }

  method BuildTemplateIri(path: string, params: seq<string>) returns (iri: Option<string>)
    ensures iri == if !Distinct(params) then None else if params == [] then Some(path)
            else Some(path + QueryExpansion(params))
  {
    if params == [] { return Some(path); }
    var seen, duplicates := {}, {};
    for i := 0 to |params|
      invariant seen == set v | v in params[..i]
      invariant duplicates == {} <==> Distinct(params[..i])
    {
      assert params[..i + 1] == params[..i] + [params[i]];
      DistinctSnoc(params[..i], params[i]);
      if params[i] in seen {
        duplicates := duplicates + {params[i]};
      } else {
        seen := seen + {params[i]};
      }
    }
    assert params[..|params|] == params;
    if duplicates != {} { return None; }
    iri := Some(path + QueryExpansion(params));
  }

  function QueryVars(path: string, mappings: seq<Mapping>): seq<string> {
    QueryVariables(mappings, PathNames(path))
  }

  /** What the constructor makes of a path and its mappings. */
  function BuiltFrom(id: string, path: string, mappings: seq<Mapping>): Built {
    var vars := QueryVars(path, mappings);
    if id == "" then Refused(MissingId)
    else if path == "" then Refused(MissingTemplate)
    else if IncludesExpansion(path) then Refused(QueryExpansionInTemplate)
    else if !Distinct(vars) then Refused(DuplicateVariable)
    else Built(IriTemplate(id, if vars == [] then path else path + QueryExpansion(vars), mappings))
  }

  /** The path holds the two characters one after the other. */
  predicate HoldsPair(path: string, c: char, d: char) {
    exists i | 0 <= i < |path| - 1 :: path[i] == c && path[i + 1] == d
  }

  /** When the constructor refuses, in the order of its checks, and the text that it makes otherwise. */
  lemma RefusedWhen(id: string, path: string, mappings: seq<Mapping>)
    ensures var r, pathVars := BuiltFrom(id, path, mappings), PathNames(path);
            && (r == Refused(MissingId) <==> id == "")
            && (r == Refused(MissingTemplate) <==> id != "" && path == "")
            && (r == Refused(QueryExpansionInTemplate) <==> id != "" && HoldsPair(path, '{', '?'))
            && (r == Refused(DuplicateVariable) <==>
                  id != "" && path != "" && !HoldsPair(path, '{', '?')
                  && exists p: nat, q: nat :: MappedTwice(mappings, pathVars, p, q))
            && (r.Built? ==> r.made.id == id && r.made.mappings == mappings)
            && (r.Built? ==> r.made.template == path + if QueryVars(path, mappings) == [] then ""
                                                       else "{?" + Join(QueryVars(path, mappings), ',') + "}")
  {
    RepeatedIffMappedTwice(mappings, PathNames(path));
    assert HoldsPair(path, '{', '?') <==> IncludesExpansion(path) by {
      forall i: nat ensures ExpansionStarts(path, i) <==> i < |path| - 1 && path[i] == '{' && path[i + 1] == '?' {
      }
      if i: nat :| i < |path| && ExpansionStarts(path, i) {
        assert path[i] == '{' && path[i + 1] == '?';
      }
    }
    assert path + "" == path;
  }

  /** `template.replace(/\{\?[^}]*\}$/, '')`: where the expansion starts that ends the text. */
  predicate Strips(t: string, i: nat) {
    ExpansionStarts(t, i) && i + 2 < |t| && Closing(t, i + 2) == |t| - 1
  }

  function StripFrom(t: string, i: nat): string
    requires i <= |t|
    decreases |t| - i
  {
    if i == |t| then t else if Strips(t, i) then t[..i] else StripFrom(t, i + 1)
  }

  method Create(id: string, path: string, mappings: seq<Mapping>) returns (r: Built)
    ensures r == BuiltFrom(id, path, mappings)
  {
    if id == "" { return Refused(MissingId); }
    if path == "" { return Refused(MissingTemplate); }
    if IncludesExpansion(path) { return Refused(QueryExpansionInTemplate); }
    var vars := DeriveQueryVars(path, mappings);
    if vars.None? { return Refused(DuplicateVariable); }
    if vars.value == [] { return Built(IriTemplate(id, path, mappings)); }
    var iri := BuildTemplateIri(path, vars.value);
    r := Built(IriTemplate(id, iri.value, mappings));
  }

  // ---- Building and stripping undo each other ----

  /** The variables that a template's expansion names. */
  function ExpandedVariables(t: IriTemplate): seq<string>
  {
    var n := |t.BaseHref()|;
    if n + 3 <= |t.template| then SplitOn(t.template[n + 2..|t.template| - 1], ',') else []
  }

  lemma {:induction false} NothingToStrip(t: string, i: nat, n: nat)
    requires i <= n <= |t| && forall k | i <= k < n :: !Strips(t, k)
    ensures StripFrom(t, i) == StripFrom(t, n)
    decreases n - i
  {
    if i < n { NothingToStrip(t, i + 1, n); }
  }

  lemma {:induction false} StripsLater(t: string, i: nat)
    requires i <= |t|
    ensures |StripFrom(t, i)| >= i
    decreases |t| - i
  {
    if i < |t| && !Strips(t, i) { StripsLater(t, i + 1); }
  }

  lemma NoExpansionInPath(path: string, vars: seq<string>, i: nat)
    requires !IncludesExpansion(path) && i < |path|
    ensures !ExpansionStarts(path + QueryExpansion(vars), i) && !ExpansionStarts(path, i)
  {
    var t := path + QueryExpansion(vars);
    assert t[i] == path[i];
    if i + 1 < |path| { assert t[i + 1] == path[i + 1]; } else { assert t[i + 1] == '{'; }
    assert !ExpansionStarts(path, i);
  }

  /** The expansion is the end of the text exactly when no variable closes it early. */
  lemma ExpansionStrips(path: string, vars: seq<string>)
    ensures Strips(path + QueryExpansion(vars), |path|) <==> forall v | v in vars :: !Has(v, '}')
  {
    var t, n, j := path + QueryExpansion(vars), |path|, Join(vars, ',');
    assert t[n] == '{' && t[n + 1] == '?' && t[|t| - 1] == '}' && t[n + 2..|t| - 1] == j;
    JoinHas(vars, ',', '}');
    var c := Closing(t, n + 2);
    if !Has(j, '}') {
      forall k | n + 2 <= k < |t| - 1 ensures t[k] != '}' {
        assert t[k] == j[k - n - 2];
      }
      ClosingAt(t, n + 2, |t| - 1);
    } else {
      var k :| 0 <= k < |j| && j[k] == '}';
      assert t[n + 2 + k] == '}';
    }
  }

  /** Stripping gives back the path exactly when no derived variable holds a closing brace. */
  lemma BaseHrefIsPath(id: string, path: string, mappings: seq<Mapping>)
    requires BuiltFrom(id, path, mappings).Built?
    ensures BuiltFrom(id, path, mappings).made.BaseHref() == path
            <==> forall v | v in QueryVars(path, mappings) :: !Has(v, '}')
  {
    var vars := QueryVars(path, mappings);
    var t := BuiltFrom(id, path, mappings).made.template;
    forall i | 0 <= i < |path| ensures !Strips(t, i) {
      NoExpansionInPath(path, vars, i);
    }
    NothingToStrip(t, 0, |path|);
    if vars != [] {
      ExpansionStrips(path, vars);
      assert t[..|path|] == path;
      if !Strips(t, |path|) {
        StripsLater(t, |path| + 1);
      }
    }
  }

  lemma ExpansionText(path: string, vars: seq<string>)
    ensures var t, n := path + QueryExpansion(vars), |path|;
            n + 3 <= |t| && t[n + 2..|t| - 1] == Join(vars, ',')
  {
    var t, n, j := path + QueryExpansion(vars), |path|, Join(vars, ',');
    assert |t| == n + |j| + 3;
    assert forall k | 0 <= k < |j| :: t[n + 2 + k] == j[k];
  }

  lemma ReadsBack(t: IriTemplate, path: string, vars: seq<string>)
    requires t.template == path + QueryExpansion(vars) && |t.BaseHref()| == |path| && vars != []
    ensures ExpandedVariables(t) == vars <==> forall v | v in vars :: !Has(v, ',')
  {
    ExpansionText(path, vars);
    SplitJoin(vars, ',');
  }

  /** Reading the expansion back gives the derived variables, in order, exactly when none holds a comma. */
  lemma VariablesReadBack(id: string, path: string, mappings: seq<Mapping>)
    requires BuiltFrom(id, path, mappings).Built? && forall v | v in QueryVars(path, mappings) :: !Has(v, '}')
    ensures ExpandedVariables(BuiltFrom(id, path, mappings).made) == QueryVars(path, mappings)
            <==> forall v | v in QueryVars(path, mappings) :: !Has(v, ',')
  {
    BaseHrefIsPath(id, path, mappings);
    if QueryVars(path, mappings) != [] {
      ReadsBack(BuiltFrom(id, path, mappings).made, path, QueryVars(path, mappings));
    }
  }

  /** Two mapped variables that are not empty and not in the path come, in the query, in the order of their
      mappings. */
  lemma DerivedInOrder(id: string, path: string, mappings: seq<Mapping>, p: nat, q: nat)
    requires BuiltFrom(id, path, mappings).Built? && p < q < |mappings|
    requires forall v | v in [mappings[p].variable, mappings[q].variable] :: v != "" && v !in PathVariables(path, 0)
    ensures exists i: nat, j: nat ::
              Comes(QueryVars(path, mappings), i, mappings[p].variable, j, mappings[q].variable)
  {
    MappingOrder(mappings, PathNames(path), p, q);
  }

  /** The derived variables are distinct, non-empty, and no path variables. */
  lemma DerivedVariables(id: string, path: string, mappings: seq<Mapping>, v: string)
    requires BuiltFrom(id, path, mappings).Built?
    ensures Distinct(QueryVars(path, mappings))
    ensures v in QueryVars(path, mappings) <==> v != "" && v !in PathVariables(path, 0) && Mapping(v) in mappings
  {
    QueryVariablesHold(mappings, PathNames(path), v);
  }

  /** A template has an expansion exactly when there are derived variables, whatever they hold. */
  lemma ExpansionIffVariables(id: string, path: string, mappings: seq<Mapping>)
    requires BuiltFrom(id, path, mappings).Built?
    ensures BuiltFrom(id, path, mappings).made.HasQueryExpansion() <==> QueryVars(path, mappings) != []
  {
    var vars, t := QueryVars(path, mappings), BuiltFrom(id, path, mappings).made.template;
    if vars == [] {
      forall i: nat | i + 2 < |t| ensures !ExpansionStarts(t, i) {
        NoExpansionInPath(path, vars, i);
      }
    } else {
      var n := |path|;
      assert t[n] == '{' && t[n + 1] == '?' && t[|t| - 1] == '}';
      assert ExpansionStarts(t, n) && Closing(t, n + 2) < |t|;
    }
  }
}
