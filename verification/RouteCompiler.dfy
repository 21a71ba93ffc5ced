/** Route templates such as `/user/<id:int>` and the regular expressions made of them. */
module RouteCompiler {
  import opened Wrappers
  import opened Text
  import opened Sequences

  // ---- Templates

  predicate IsWord(c: char) {
    'a' <= c <= 'z' || 'A' <= c <= 'Z' || '0' <= c <= '9' || c == '_'
  }

  predicate IsPlain(c: char) {
    IsWord(c) || c == '/' || c == '-' || c == '.' || c == ':'
  }

  /** A template is a list of literal characters and parameters; the type of `<id>` is empty. */
  datatype Piece = Lit(c: char) | Param(name: string, typ: string)

  predicate AllWord(s: string) { WordEnd(s, 0) == |s| }

  predicate Good(p: Piece) {
    match p
    case Lit(c) => IsPlain(c)
    case Param(name, typ) => name != "" && AllWord(name) && AllWord(typ)
  }

  predicate GoodAll(ps: seq<Piece>) { ps == [] || (Good(ps[0]) && GoodAll(ps[1..])) }

  function Print(p: Piece): string {
    match p
    case Lit(c) => [c]
    case Param(name, typ) => ['<'] + name + (if typ == "" then [] else [':'] + typ) + ['>']
  }

  function PrintAll(ps: seq<Piece>): string {
    if ps == [] then [] else Print(ps[0]) + PrintAll(ps[1..])
  }

  // ---- Reading a template

  function WordEnd(s: string, i: nat): (e: nat)
    requires i <= |s|
    ensures i <= e <= |s|
    decreases |s| - i
  {
    if i == |s| || !IsWord(s[i]) then i else WordEnd(s, i + 1)
  }

  lemma {:induction false} WordEndIs(s: string, i: nat, e: nat)
    requires i <= |s|
    ensures WordEnd(s, i) == e <==>
            (i <= e <= |s| && (forall j :: i <= j < e ==> IsWord(s[j])) && (e < |s| ==> !IsWord(s[e])))
    decreases |s| - i
  {
    if i < |s| && IsWord(s[i]) { WordEndIs(s, i + 1, e); }
  }

  datatype Found = Found(param: Piece, end: nat)

  /** `<(\w+)(?::(\w+))?>` at a position. */
  function ParamAt(s: string, i: nat): (r: Option<Found>)
    ensures r.Some? ==> i < r.value.end <= |s| && r.value.param.Param?
  {
    if i >= |s| || s[i] != '<' then None
    else
      var e := WordEnd(s, i + 1);
      if e == i + 1 || e == |s| then None
      else if s[e] == '>' then Some(Found(Param(s[i + 1..e], ""), e + 1))
      else if s[e] == ':' then
        var f := WordEnd(s, e + 1);
        if f == e + 1 || f == |s| || s[f] != '>' then None
        else Some(Found(Param(s[i + 1..e], s[e + 1..f]), f + 1))
      else None
  }

  /** Matching `^(?:[\/\w\-.:]+|<\w+(?::\w+)?>)+$` from a position on, and what it is made of. */
  function Scan(s: string, i: nat): Option<seq<Piece>>
    requires i <= |s|
    decreases |s| - i
  {
    if i == |s| then Some([])
    else if IsPlain(s[i]) then
      var rest := Scan(s, i + 1);
      if rest.Some? then Some([Lit(s[i])] + rest.value) else None
    else
      var p := ParamAt(s, i);
      if p.None? then None
      else
        var rest := Scan(s, p.value.end);
        if rest.Some? then Some([p.value.param] + rest.value) else None
  }

  predicate IsValidRoute(route: string) {
    route != "" && Scan(route, 0).Some?
  }

  lemma Bracketed(s: string, i: nat, e: nat)
    requires i < e < |s| && s[i] == '<' && s[e] == '>'
    ensures ['<'] + s[i + 1..e] + [] + ['>'] == s[i..e + 1]
  {
  }

  lemma BracketedPair(s: string, i: nat, e: nat, f: nat)
    requires i < e < f < |s| && s[i] == '<' && s[e] == ':' && s[f] == '>'
    ensures ['<'] + s[i + 1..e] + ([':'] + s[e + 1..f]) + ['>'] == s[i..f + 1]
  {
    var name, typ := s[i + 1..e], s[e + 1..f];
    assert ([':'] + typ) + ['>'] == s[e..f + 1];
    Assoc(['<'] + name, [':'] + typ, ['>']);
    assert ['<'] + name == s[i..e];
    assert s[i..e] + s[e..f + 1] == s[i..f + 1];
  }

  lemma WordSlice(s: string, i: nat)
    requires i <= |s|
    ensures AllWord(s[i..WordEnd(s, i)])
  {
    var e := WordEnd(s, i);
    WordEndIs(s, i, e);
    WordEndIs(s[i..e], 0, e - i);
  }

  lemma ParamText(s: string, i: nat)
    requires ParamAt(s, i).Some?
    ensures var f := ParamAt(s, i).value; Good(f.param) && Print(f.param) == s[i..f.end]
  {
    var e := WordEnd(s, i + 1);
    WordSlice(s, i + 1);
    if s[e] == ':' {
      WordSlice(s, e + 1);
      BracketedPair(s, i, e, WordEnd(s, e + 1));
    } else {
      Bracketed(s, i, e);
    }
  }

  lemma CutSlice(s: string, i: nat, j: nat)
    requires i <= j <= |s|
    ensures s[i..j] + s[j..] == s[i..]
  {
  }

  lemma FirstSlice(s: string, i: nat)
    requires i < |s|
    ensures s[i..i + 1] == [s[i]]
  {
  }

  lemma {:induction false} ScanPrints(s: string, i: nat)
    requires i <= |s| && Scan(s, i).Some?
    ensures GoodAll(Scan(s, i).value) && PrintAll(Scan(s, i).value) == s[i..]
    decreases |s| - i
  {
    if i < |s| {
      var j := if IsPlain(s[i]) then i + 1 else ParamAt(s, i).value.end;
      if IsPlain(s[i]) { FirstSlice(s, i); } else { ParamText(s, i); }
      CutSlice(s, i, j);
      ScanPrints(s, j);
      assert Scan(s, i).value[1..] == Scan(s, j).value;
    }
  }

  /** The characters of a printed parameter. */
  lemma ParamChars(p: Piece)
    requires p.Param?
    ensures var t, n := Print(p), |p.name|;
            && |t| == n + 2 + (if p.typ == "" then 0 else 1 + |p.typ|)
            && t[0] == '<' && t[|t| - 1] == '>' && t[1..n + 1] == p.name
            && (p.typ != "" ==> t[n + 1] == ':' && t[n + 2..|t| - 1] == p.typ)
  {
  }

  lemma WordEndAt(s: string, i: nat, w: string)
    requires i + |w| < |s| && s[i..i + |w|] == w && AllWord(w) && !IsWord(s[i + |w|])
    ensures WordEnd(s, i) == i + |w|
  {
    WordEndIs(w, 0, |w|);
    forall j | i <= j < i + |w| ensures IsWord(s[j]) { assert s[j] == w[j - i]; }
    WordEndIs(s, i, i + |w|);
  }

  lemma SubSlice(s: string, i: nat, t: string, a: nat, b: nat)
    requires Occurs(s, t, i) && a <= b <= |t|
    ensures s[i + a..i + b] == t[a..b]
  {
    forall j | 0 <= j < b - a ensures s[i + a..i + b][j] == t[a..b][j] {
      OccursAt(s, t, i, a + j);
    }
  }

  lemma PrintedParamIsFound(s: string, i: nat, p: Piece)
    requires p.Param? && Good(p) && Occurs(s, Print(p), i)
    ensures ParamAt(s, i) == Some(Found(p, i + |Print(p)|))
  {
    var t, n := Print(p), |p.name|;
    ParamChars(p);
    OccursAt(s, t, i, 0);
    SubSlice(s, i, t, 1, n + 1);
    OccursAt(s, t, i, n + 1);
    OccursAt(s, t, i, |t| - 1);
    if p.typ == "" {
      BareParamAt(s, i, p.name);
    } else {
      SubSlice(s, i, t, n + 2, |t| - 1);
      TypedParamAt(s, i, p.name, p.typ);
    }
  }

  lemma BareParamAt(s: string, i: nat, name: string)
    requires i + |name| + 1 < |s| && s[i] == '<' && s[i + 1..i + 1 + |name|] == name && s[i + 1 + |name|] == '>'
    requires name != "" && AllWord(name)
    ensures ParamAt(s, i) == Some(Found(Param(name, ""), i + |name| + 2))
  {
    WordEndAt(s, i + 1, name);
  }

  lemma TypedParamAt(s: string, i: nat, name: string, typ: string)
    requires i + |name| + |typ| + 2 < |s|
    requires s[i] == '<' && s[i + 1..i + 1 + |name|] == name && s[i + 1 + |name|] == ':'
    requires s[i + |name| + 2..i + |name| + 2 + |typ|] == typ && s[i + |name| + 2 + |typ|] == '>'
    requires name != "" && typ != "" && AllWord(name) && AllWord(typ)
    ensures ParamAt(s, i) == Some(Found(Param(name, typ), i + |name| + |typ| + 3))
  {
    WordEndAt(s, i + 1, name);
    WordEndAt(s, i + |name| + 2, typ);
  }

  lemma ScanStep(s: string, i: nat, p: Piece, j: nat)
    requires i < j <= |s|
    requires p.Lit? ==> IsPlain(s[i]) && s[i] == p.c && j == i + 1
    requires p.Param? ==> s[i] == '<' && ParamAt(s, i) == Some(Found(p, j))
    ensures Scan(s, i) == if Scan(s, j).Some? then Some([p] + Scan(s, j).value) else None
  {
  }

  lemma FrontOccurs(pre: string, t: string, rest: string)
    ensures Occurs(pre + (t + rest), t, |pre|)
    ensures pre + (t + rest) == (pre + t) + rest
  {
    assert (pre + (t + rest))[|pre|..|pre| + |t|] == t;
  }

  lemma HeadTail<T>(s: seq<T>)
    requires s != []
    ensures s == [s[0]] + s[1..]
  {
  }

  lemma PieceScans(s: string, i: nat, p: Piece, t: string)
    requires Good(p) && t == Print(p) && Occurs(s, t, i)
    ensures Scan(s, i) == if Scan(s, i + |t|).Some? then Some([p] + Scan(s, i + |t|).value) else None
  {
    if p.Param? {
      ParamChars(p);
      PrintedParamIsFound(s, i, p);
    }
    OccursAt(s, t, i, 0);
    ScanStep(s, i, p, i + |t|);
  }

  lemma FrontOf(s: string, i: nat, t: string, rest: string)
    requires i <= |s| && s[i..] == t + rest
    ensures Occurs(s, t, i) && s[i + |t|..] == rest
  {
    assert s[i..i + |t|] == (t + rest)[..|t|] == t;
    assert s[i + |t|..] == (t + rest)[|t|..];
  }

  lemma FrontPiece(s: string, i: nat, p: Piece, rest: string) returns (j: nat)
    requires i <= |s| && Good(p) && s[i..] == Print(p) + rest
    ensures i <= j <= |s| && s[j..] == rest
    ensures Scan(s, i) == if Scan(s, j).Some? then Some([p] + Scan(s, j).value) else None
  {
    var t := Print(p);
    FrontOf(s, i, t, rest);
    j := i + |t|;
    PieceScans(s, i, p, t);
  }

  lemma {:induction false} PrintedScans(s: string, i: nat, ps: seq<Piece>)
    requires i <= |s| && GoodAll(ps) && s[i..] == PrintAll(ps)
    ensures Scan(s, i) == Some(ps)
    decreases |ps|
  {
    if ps != [] {
      var j := FrontPiece(s, i, ps[0], PrintAll(ps[1..]));
      PrintedScans(s, j, ps[1..]);
      HeadTail(ps);
    }
  }

  /** A route reads as a list of pieces exactly when it is the text of that list: valid routes and
      well-formed templates are the same thing, and the reading is unique. */
  lemma ScanExactly(route: string, ps: seq<Piece>)
    ensures Scan(route, 0) == Some(ps) <==> GoodAll(ps) && PrintAll(ps) == route
  {
    if Scan(route, 0) == Some(ps) {
      ScanPrints(route, 0);
      assert route[0..] == route;
    }
    if GoodAll(ps) && PrintAll(ps) == route {
      assert route[0..] == route;
      PrintedScans(route, 0, ps);
    }
  }

  // ---- The iterator over the parameters

  /** `std::sregex_iterator`: from a position on, the leftmost match, then on behind it. */
  function Matches(s: string, i: nat): seq<Piece>
    requires i <= |s|
    decreases |s| - i
  {
    if i == |s| then []
    else
      var p := ParamAt(s, i);
      if p.Some? then [p.value.param] + Matches(s, p.value.end) else Matches(s, i + 1)
  }

  function ParamsOf(ps: seq<Piece>): seq<Piece> {
    if ps == [] then [] else (if ps[0].Param? then [ps[0]] else []) + ParamsOf(ps[1..])
  }

  lemma {:induction false} IteratesParams(s: string, i: nat)
    requires i <= |s| && Scan(s, i).Some?
    ensures Matches(s, i) == ParamsOf(Scan(s, i).value)
    decreases |s| - i
  {
    if i < |s| {
      var j := if IsPlain(s[i]) then i + 1 else ParamAt(s, i).value.end;
      IteratesParams(s, j);
      assert Scan(s, i).value[1..] == Scan(s, j).value;
    }
  }

  // ---- The rewriting loop

  datatype Kind = INT | FLOAT | BOOL | STRING

  function KindOf(typ: string): Kind {
    if typ == "int" then INT else if typ == "float" then FLOAT else if typ == "bool" then BOOL else STRING
  }

  /** The capture group of a kind. */
  function Source(k: Kind): string {
    match k
    case INT => "(\\d+)"
    case FLOAT => "(\\d+\\.\\d+)"
    case BOOL => "(true|false|1|0)"
    case STRING => "([^/]+)"
  }

  /** The text rewritten so far and the two lists kept beside it. */
  datatype Build = Build(text: string, types: seq<Kind>, names: seq<string>)

  function ReplaceAt(text: string, pos: nat, n: nat, group: string): string
    requires pos + n <= |text|
  {
    text[..pos] + group + text[pos + n..]
  }

  /** One turn: the first occurrence of the matched text goes; the name is kept only if there is one. */
  function Turn(b: Build, p: Piece): Build
    requires p.Param?
  {
    var kind := KindOf(p.typ);
    var pos := Find(b.text, Print(p));
    if pos.None? then b.(types := b.types + [kind])
    else Build(ReplaceAt(b.text, pos.value, |Print(p)|, Source(kind)), b.types + [kind], b.names + [p.name])
  }

  ghost predicate AllParams(params: seq<Piece>) { forall i :: 0 <= i < |params| ==> params[i].Param? }

  function Rewrite(b: Build, params: seq<Piece>): Build
    requires AllParams(params)
    decreases |params|
  {
    if params == [] then b else Rewrite(Turn(b, params[0]), params[1..])
  }

  // ---- What the loop is for: all parameters substituted at once

  function Body(ps: seq<Piece>): string {
    if ps == [] then [] else (if ps[0].Lit? then [ps[0].c] else Source(KindOf(ps[0].typ))) + Body(ps[1..])
  }

  function Kinds(ps: seq<Piece>): seq<Kind> {
    if ps == [] then [] else (if ps[0].Param? then [KindOf(ps[0].typ)] else []) + Kinds(ps[1..])
  }

  function Names(ps: seq<Piece>): seq<string> {
    if ps == [] then [] else (if ps[0].Param? then [ps[0].name] else []) + Names(ps[1..])
  }

  ghost predicate NoOpening(s: string) { forall i :: 0 <= i < |s| ==> s[i] != '<' }

  lemma SourceHasNoOpening(k: Kind)
    ensures NoOpening(Source(k))
  {
  }

  lemma FindBehind(pre: string, t: string, rest: string)
    requires NoOpening(pre) && t != "" && t[0] == '<'
    ensures Find(pre + (t + rest), t) == Some(|pre|)
  {
    var s := pre + (t + rest);
    FrontOccurs(pre, t, rest);
    forall j | 0 <= j < |pre| ensures !Occurs(s, t, j) {
      assert s[j] == pre[j];
      if Occurs(s, t, j) { OccursAt(s, t, j, 0); }
    }
    FindIs(s, t, |pre|);
  }

  lemma ReplacedBehind(pre: string, t: string, rest: string, group: string)
    ensures ReplaceAt(pre + (t + rest), |pre|, |t|, group) == (pre + group) + rest
  {
    assert (pre + (t + rest))[|pre| + |t|..] == rest;
  }

  lemma {:induction false} ParamsAreParams(ps: seq<Piece>)
    ensures AllParams(ParamsOf(ps))
  {
    if ps != [] { ParamsAreParams(ps[1..]); }
  }

  /** The leftmost remaining `<` is always the current parameter's, so every turn replaces the right
      text, even if the same parameter is written twice, and the lists stay in step. */
  lemma {:induction false} RewriteSubstitutes(pre: string, ps: seq<Piece>, types: seq<Kind>, names: seq<string>)
    requires NoOpening(pre) && GoodAll(ps)
    ensures AllParams(ParamsOf(ps))
    ensures Rewrite(Build(pre + PrintAll(ps), types, names), ParamsOf(ps))
         == Build(pre + Body(ps), types + Kinds(ps), names + Names(ps))
    decreases |ps|
  {
    ParamsAreParams(ps);
    if ps == [] {
      assert types + [] == types && names + [] == names;
    } else if ps[0].Lit? {
      RewriteSubstitutes(pre + [ps[0].c], ps[1..], types, names);
      RewriteLit(pre, ps, types, names);
    } else {
      var group := Source(KindOf(ps[0].typ));
      SourceHasNoOpening(KindOf(ps[0].typ));
      RewriteSubstitutes(pre + group, ps[1..], types + [KindOf(ps[0].typ)], names + [ps[0].name]);
      ParamsAreParams(ps[1..]);
      RewriteParam(pre, ps, types, names);
    }
  }

  lemma {:induction false} RewriteLit(pre: string, ps: seq<Piece>, types: seq<Kind>, names: seq<string>)
    requires ps != [] && ps[0].Lit? && AllParams(ParamsOf(ps)) && AllParams(ParamsOf(ps[1..]))
    requires Rewrite(Build((pre + [ps[0].c]) + PrintAll(ps[1..]), types, names), ParamsOf(ps[1..]))
          == Build((pre + [ps[0].c]) + Body(ps[1..]), types + Kinds(ps[1..]), names + Names(ps[1..]))
    ensures Rewrite(Build(pre + PrintAll(ps), types, names), ParamsOf(ps))
         == Build(pre + Body(ps), types + Kinds(ps), names + Names(ps))
  {
    Assoc(pre, [ps[0].c], PrintAll(ps[1..]));
    Assoc(pre, [ps[0].c], Body(ps[1..]));
    assert ParamsOf(ps) == ParamsOf(ps[1..]);
    assert Kinds(ps) == Kinds(ps[1..]) && Names(ps) == Names(ps[1..]);
  }

  lemma {:induction false} RewriteParam(pre: string, ps: seq<Piece>, types: seq<Kind>, names: seq<string>)
    requires ps != [] && ps[0].Param? && NoOpening(pre)
    requires AllParams(ParamsOf(ps)) && AllParams(ParamsOf(ps[1..]))
    requires var kind := KindOf(ps[0].typ);
             Rewrite(Build((pre + Source(kind)) + PrintAll(ps[1..]), types + [kind], names + [ps[0].name]),
                     ParamsOf(ps[1..]))
             == Build((pre + Source(kind)) + Body(ps[1..]), types + [kind] + Kinds(ps[1..]),
                      names + [ps[0].name] + Names(ps[1..]))
    ensures Rewrite(Build(pre + PrintAll(ps), types, names), ParamsOf(ps))
         == Build(pre + Body(ps), types + Kinds(ps), names + Names(ps))
  {
    var kind := KindOf(ps[0].typ);
    ParamTurn(pre, ps, types, names);
    assert ParamsOf(ps)[1..] == ParamsOf(ps[1..]);
    Assoc(pre, Source(kind), Body(ps[1..]));
    Assoc(types, [kind], Kinds(ps[1..]));
    Assoc(names, [ps[0].name], Names(ps[1..]));
  }

  lemma RewriteSubstitutesAll(ps: seq<Piece>)
    requires GoodAll(ps)
    ensures AllParams(ParamsOf(ps))
    ensures Rewrite(Build(PrintAll(ps), [], []), ParamsOf(ps)) == Build(Body(ps), Kinds(ps), Names(ps))
  {
    RewriteSubstitutes("", ps, [], []);
    assert "" + PrintAll(ps) == PrintAll(ps) && "" + Body(ps) == Body(ps);
    assert [] + Kinds(ps) == Kinds(ps) && [] + Names(ps) == Names(ps);
  }

  lemma ParamTurn(pre: string, ps: seq<Piece>, types: seq<Kind>, names: seq<string>)
    requires NoOpening(pre) && ps != [] && ps[0].Param?
    ensures var kind := KindOf(ps[0].typ);
            Turn(Build(pre + PrintAll(ps), types, names), ps[0])
            == Build((pre + Source(kind)) + PrintAll(ps[1..]), types + [kind], names + [ps[0].name])
  {
    ParamChars(ps[0]);
    FindBehind(pre, Print(ps[0]), PrintAll(ps[1..]));
    ReplacedBehind(pre, Print(ps[0]), PrintAll(ps[1..]), Source(KindOf(ps[0].typ)));
  }

  // ---- The result

  /** What `std::regex` is given, and the lists. `Invalid` is the exception. */
  datatype Compiled = Compiled(found: bool, regex: string, types: seq<Kind>, names: seq<string>) | Invalid

  function CompiledOf(ps: seq<Piece>): Compiled {
    if ParamsOf(ps) == [] then Compiled(false, PrintAll(ps), [], [])
    else Compiled(true, ['^'] + Body(ps) + ['$'], Kinds(ps), Names(ps))
  }

  /** `_route_contains_params`. A route without parameters is its own regular expression; with
      parameters it is the template with every parameter replaced by its group, between anchors. */
  method RouteContainsParams(route: string) returns (r: Compiled)
    ensures r.Invalid? <==> !IsValidRoute(route)
    ensures IsValidRoute(route) ==> r == CompiledOf(Scan(route, 0).value)
  {
    if !IsValidRoute(route) { return Invalid; }
    ghost var ps := Scan(route, 0).value;
    IteratesParams(route, 0);
    ScanExactly(route, ps);
    var params := Matches(route, 0);
    if params == [] { return Compiled(false, route, [], []); }
    RewriteSubstitutesAll(ps);
    var b := RewriteLoop(route, params);
    r := Compiled(true, ['^'] + b.text + ['$'], b.types, b.names);
  }

  method RewriteLoop(route: string, params: seq<Piece>) returns (b: Build)
    requires AllParams(params)
    ensures b == Rewrite(Build(route, [], []), params)
  {
    var routeRegex, paramTypes: seq<Kind>, paramNames: seq<string> := route, [], [];
    var i := 0;
    while i < |params|
      invariant i <= |params|
      invariant Rewrite(Build(routeRegex, paramTypes, paramNames), params[i..]) == Rewrite(Build(route, [], []), params)
    {
      var fullMatch := Print(params[i]);
      var kind := KindOf(params[i].typ);
      assert params[i..][1..] == params[i + 1..];
      ghost var was := Build(routeRegex, paramTypes, paramNames);
      paramTypes := paramTypes + [kind];
      var pos := Find(routeRegex, fullMatch);
      if pos.Some? {
        routeRegex := ReplaceAt(routeRegex, pos.value, |fullMatch|, Source(kind));
        paramNames := paramNames + [params[i].name];
      }
      assert Build(routeRegex, paramTypes, paramNames) == Turn(was, params[i]);
      i := i + 1;
    }
    b := Build(routeRegex, paramTypes, paramNames);
  }

  // ---- The characters and the groups, written out

  /** `\w` is a letter, a digit or an underscore; outside parameters a route may also have `/`, `-`, `.`
      and `:`. */
  lemma CharactersExactly(c: char)
    ensures IsWord(c) <==> 48 <= c as int <= 57 || 65 <= c as int <= 90 || 97 <= c as int <= 122 || c == '_'
    ensures IsPlain(c) <==> IsWord(c) || c in "/-.:"
  {
  }

  /** What each type becomes in the regular expression; an unknown type, or none, is a string. */
  lemma GroupsExactly(name: string, typ: string)
    ensures Body([Param(name, typ)])
         == if typ == "int" then "(\\d+)" else if typ == "float" then "(\\d+\\.\\d+)"
            else if typ == "bool" then "(true|false|1|0)" else "([^/]+)"
  {
    assert [Param(name, typ)][1..] == [];
    assert Source(KindOf(typ)) + [] == Source(KindOf(typ));
  }
}
