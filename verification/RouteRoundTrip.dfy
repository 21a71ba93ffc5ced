/** Matching a path against a route undoes putting values into the route. */
module RouteRoundTrip {
  import opened Wrappers
  import opened Numbers
  import opened RouteCompiler
  import opened RouteMatching
  import opened RouteReading

  // ---- Conversion

  datatype ParamValue = IntValue(i: int) | FloatValue(f: real) | BoolValue(b: bool) | StringValue(s: string)

  /** `std::stof` on digits, dot, digits: `None` where it throws. */
  type Stof = string -> Option<real>

  const INT_MAX := 0x7FFF_FFFF

  function Convert(k: Kind, s: string, stof: Stof): Option<ParamValue> {
    match k
    case INT => if Value(10, s) <= INT_MAX then Some(IntValue(Value(10, s))) else None
    case FLOAT => if stof(s).Some? then Some(FloatValue(stof(s).value)) else None
    case BOOL => Some(BoolValue(s == "true" || s == "1"))
    case STRING => Some(StringValue(s))
  }

  /** The loop over the captures: the first one that does not convert ends it with `false`. */
  function Bind(kinds: seq<Kind>, names: seq<string>, cs: seq<string>, params: map<string, ParamValue>, stof: Stof)
    : (bool, map<string, ParamValue>)
    requires |kinds| == |names| == |cs|
  {
    if cs == [] then (true, params)
    else
      var v := Convert(kinds[0], cs[0], stof);
      if v.None? then (false, params)
      else Bind(kinds[1..], names[1..], cs[1..], params[names[0] := v.value], stof)
  }

  ghost predicate Converts(kinds: seq<Kind>, cs: seq<string>, stof: Stof)
    requires |kinds| == |cs|
  {
    forall j :: 0 <= j < |cs| ==> Convert(kinds[j], cs[j], stof).Some?
  }

  ghost predicate Distinct(names: seq<string>) {
    forall j, k :: 0 <= j < k < |names| ==> names[j] != names[k]
  }

  /** Binding succeeds exactly when every capture converts. */
  lemma {:induction false} BindsExactly(kinds: seq<Kind>, names: seq<string>, cs: seq<string>,
                                        params: map<string, ParamValue>, stof: Stof)
    requires |kinds| == |names| == |cs|
    ensures Bind(kinds, names, cs, params, stof).0 <==> Converts(kinds, cs, stof)
    decreases |cs|
  {
    if cs != [] && Convert(kinds[0], cs[0], stof).Some? {
      BindsExactly(kinds[1..], names[1..], cs[1..], params[names[0] := Convert(kinds[0], cs[0], stof).value], stof);
      assert Converts(kinds, cs, stof) <==> Converts(kinds[1..], cs[1..], stof) by {
        assert forall j :: 0 < j < |cs| ==> kinds[j] == kinds[1..][j - 1] && cs[j] == cs[1..][j - 1];
      }
    }
  }

  lemma {:induction false} BindKeepsOthers(kinds: seq<Kind>, names: seq<string>, cs: seq<string>,
                                           params: map<string, ParamValue>, stof: Stof, n: string)
    requires |kinds| == |names| == |cs| && n !in names
    ensures var r := Bind(kinds, names, cs, params, stof).1;
            (n in r <==> n in params) && (n in params ==> r[n] == params[n])
    decreases |cs|
  {
    if cs != [] && Convert(kinds[0], cs[0], stof).Some? {
      var next := params[names[0] := Convert(kinds[0], cs[0], stof).value];
      BindKeepsOthers(kinds[1..], names[1..], cs[1..], next, stof, n);
    }
  }

  /** With distinct names every parameter ends up with the value of its own capture. */
  lemma {:induction false} BindBinds(kinds: seq<Kind>, names: seq<string>, cs: seq<string>,
                                     params: map<string, ParamValue>, stof: Stof, j: nat)
    requires |kinds| == |names| == |cs| && j < |cs| && Converts(kinds, cs, stof) && Distinct(names)
    ensures var r := Bind(kinds, names, cs, params, stof).1;
            names[j] in r && Some(r[names[j]]) == Convert(kinds[j], cs[j], stof)
    decreases |cs|
  {
    var next := params[names[0] := Convert(kinds[0], cs[0], stof).value];
    if j == 0 {
      BindKeepsOthers(kinds[1..], names[1..], cs[1..], next, stof, names[0]);
    } else {
      BindBinds(kinds[1..], names[1..], cs[1..], next, stof, j - 1);
    }
  }

  /** A capture that does not convert leaves the bindings of those before it behind. */
  lemma {:induction false} FailureLeavesBindings(kinds: seq<Kind>, names: seq<string>, cs: seq<string>,
                                                 params: map<string, ParamValue>, stof: Stof, j: nat)
    requires |kinds| == |names| == |cs| && j < |cs|
    requires Converts(kinds[..j], cs[..j], stof) && Convert(kinds[j], cs[j], stof).None?
    ensures Bind(kinds, names, cs, params, stof) == (false, Bind(kinds[..j], names[..j], cs[..j], params, stof).1)
    decreases |cs|
  {
    if j > 0 {
      assert kinds[..j][0] == kinds[0] && cs[..j][0] == cs[0];
      var next := params[names[0] := Convert(kinds[0], cs[0], stof).value];
      assert kinds[..j][1..] == kinds[1..][..j - 1] && names[..j][1..] == names[1..][..j - 1];
      assert cs[..j][1..] == cs[1..][..j - 1];
      FailureLeavesBindings(kinds[1..], names[1..], cs[1..], next, stof, j - 1);
    }
  }

  // ---- The matching function

  /** What the regular expression object and the two lists have to be for matching to be defined. */
  predicate Usable(r: Compiled) {
    r.Compiled? && ParseRegex(r.regex, 0).Some? && |r.types| == |r.names|
  }

  function MatchPath(path: string, r: Compiled, params: map<string, ParamValue>, stof: Stof)
    : (bool, map<string, ParamValue>)
    requires Usable(r)
  {
    var m := Match(ParseRegex(r.regex, 0).value, path, 0);
    if !r.found then (m.Some?, params)
    else if m.None? || |m.value| != |r.types| then (false, params)
    else Bind(r.types, r.names, m.value, params, stof)
  }

  /** `_match_path_with_route`, writing the parameters one by one. */
  method MatchPathWithRoute(path: string, route: Compiled, urlParams: map<string, ParamValue>, stof: Stof)
    returns (ok: bool, params: map<string, ParamValue>)
    requires Usable(route)
    ensures (ok, params) == MatchPath(path, route, urlParams, stof)
  {
    params := urlParams;
    var matches := Match(ParseRegex(route.regex, 0).value, path, 0);
    if !route.found { return matches.Some?, params; }
    if matches.None? || |matches.value| != |route.types| { return false, params; }
    var cs := matches.value;
    var i := 0;
    while i < |cs|
      invariant i <= |cs|
      invariant Bind(route.types[i..], route.names[i..], cs[i..], params, stof)
             == Bind(route.types[0..], route.names[0..], cs[0..], urlParams, stof)
    {
      var v := Convert(route.types[i], cs[i], stof);
      BindStep(route.types, route.names, cs, params, stof, i);
      if v.None? {
        WholeLists(route.types, route.names, cs);
        return false, params;
      }
      params := params[route.names[i] := v.value];
      i := i + 1;
    }
    WholeLists(route.types, route.names, cs);
    ok := true;
  }

  lemma WholeLists(kinds: seq<Kind>, names: seq<string>, cs: seq<string>)
    ensures kinds[0..] == kinds && names[0..] == names && cs[0..] == cs
  {
  }

  lemma BindStep(kinds: seq<Kind>, names: seq<string>, cs: seq<string>, params: map<string, ParamValue>, stof: Stof,
                 i: nat)
    requires |kinds| == |names| == |cs| && i < |cs|
    ensures var v := Convert(kinds[i], cs[i], stof);
            Bind(kinds[i..], names[i..], cs[i..], params, stof)
            == if v.None? then (false, params)
               else Bind(kinds[i + 1..], names[i + 1..], cs[i + 1..], params[names[i] := v.value], stof)
  {
    assert kinds[i..][1..] == kinds[i + 1..] && names[i..][1..] == names[i + 1..] && cs[i..][1..] == cs[i + 1..];
  }

  // ---- The route compiled, then matched

  lemma {:induction false} ListsMatch(ps: seq<Piece>)
    ensures |Kinds(ps)| == |Names(ps)|
  {
    if ps != [] { ListsMatch(ps[1..]); }
  }

  lemma {:induction false} FitsLength(ps: seq<Piece>, vs: seq<string>)
    requires Fits(ps, vs)
    ensures |vs| == |Kinds(ps)|
    decreases |ps|
  {
    if ps != [] {
      if ps[0].Param? { FitsLength(ps[1..], vs[1..]); } else { FitsLength(ps[1..], vs); }
    }
  }

  lemma {:induction false} DerivesFits(ps: seq<Piece>, cs: seq<string>, path: string, i: nat)
    requires i <= |path| && Derives(Items(ps), cs, path, i)
    ensures Fits(ps, cs)
    decreases |ps|
  {
    if ps != [] {
      assert Items(ps)[1..] == Items(ps[1..]);
      if ps[0].Param? {
        DerivesFits(ps[1..], cs[1..], path, i + |cs[0]|);
      } else {
        DerivesFits(ps[1..], cs, path, i + Simple(PieceItem(ps[0]), path, i).value);
      }
    }
  }

  /** A compiled valid route can be matched. */
  lemma CompiledIsUsable(ps: seq<Piece>)
    requires GoodAll(ps)
    ensures Usable(CompiledOf(ps))
  {
    ListsMatch(ps);
    if ParamsOf(ps) == [] { PlainParses(ps); } else { AnchoredParses(ps); }
  }

  /** What the matcher says about a route: it matches if there is a way, and captures the greediest. */
  lemma RouteMatches(ps: seq<Piece>, path: string, cs: seq<string>)
    requires GoodAll(ps) && Usable(CompiledOf(ps))
    ensures var m := Match(ParseRegex(CompiledOf(ps).regex, 0).value, path, 0);
            && (m == Some(cs) ==> Derives(Items(ps), cs, path, 0))
            && (Derives(Items(ps), cs, path, 0) ==> m.Some?)
  {
    var items := ParseRegex(CompiledOf(ps).regex, 0).value;
    if ParamsOf(ps) == [] { PlainParses(ps); } else { AnchoredParses(ps); AnchorsDerive(Items(ps), cs, path); }
    if Match(items, path, 0) == Some(cs) { MatchDerives(items, path, 0); }
    if Derives(items, cs, path, 0) { MatchIsGreediest(items, cs, path, 0); }
  }

  /** A route without parameters and dots matches its own text and nothing else. */
  lemma StaticRouteIsLiteral(route: string, path: string, params: map<string, ParamValue>, stof: Stof)
    requires IsValidRoute(route) && ParamsOf(Scan(route, 0).value) == [] && DotFree(Scan(route, 0).value)
    ensures var ps := Scan(route, 0).value;
            Usable(CompiledOf(ps)) && MatchPath(path, CompiledOf(ps), params, stof) == (path == route, params)
  {
    var ps := Scan(route, 0).value;
    ScanExactly(route, ps);
    CompiledIsUsable(ps);
    StaticPath(ps);
    DerivesExactly(ps, [], path, 0);
    assert path[0..] == path;
    RouteMatches(ps, path, []);
    var m := Match(ParseRegex(CompiledOf(ps).regex, 0).value, path, 0);
    if m.Some? {
      RouteMatches(ps, path, m.value);
      DerivesFits(ps, m.value, path, 0);
      FitsLength(ps, m.value);
      NoKinds(ps);
    }
  }

  lemma {:induction false} NoKinds(ps: seq<Piece>)
    requires ParamsOf(ps) == []
    ensures Kinds(ps) == []
  {
    if ps != [] { NoKinds(ps[1..]); }
  }

  lemma {:induction false} StaticPath(ps: seq<Piece>)
    requires ParamsOf(ps) == []
    ensures Fits(ps, []) && PathOf(ps, []) == PrintAll(ps)
  {
    if ps != [] { StaticPath(ps[1..]); }
  }

  /** The values put into the route come back. */
  predicate ComesBack(ps: seq<Piece>, vs: seq<string>)
    requires Usable(CompiledOf(ps)) && Fits(ps, vs)
  {
    Match(ParseRegex(CompiledOf(ps).regex, 0).value, PathOf(ps, vs), 0) == Some(vs)
  }

  lemma ReadableComesBack(ps: seq<Piece>, vs: seq<string>)
    requires GoodAll(ps) && DotFree(ps) && Readable(ps) && Fits(ps, vs) && Usable(CompiledOf(ps))
    ensures ComesBack(ps, vs)
  {
    var path := PathOf(ps, vs);
    assert path[0..] == path;
    DerivesExactly(ps, vs, path, 0);
    RouteMatches(ps, path, vs);
    var cs := Match(ParseRegex(CompiledOf(ps).regex, 0).value, path, 0).value;
    RouteMatches(ps, path, cs);
    DerivesExactly(ps, cs, path, 0);
    ReadsOneWay(ps, cs, vs);
  }

  /** Matching undoes instantiation: values put into a readable route come back as the
      captures, in order, and are bound one by one to the names. */
  lemma InstanceBindsItsValues(route: string, vs: seq<string>, params: map<string, ParamValue>, stof: Stof)
    requires IsValidRoute(route)
    requires var ps := Scan(route, 0).value;
             ParamsOf(ps) != [] && DotFree(ps) && Readable(ps) && Fits(ps, vs)
    ensures var ps := Scan(route, 0).value;
            && Usable(CompiledOf(ps)) && |Kinds(ps)| == |Names(ps)| == |vs|
            && MatchPath(PathOf(ps, vs), CompiledOf(ps), params, stof) == Bind(Kinds(ps), Names(ps), vs, params, stof)
  {
    var ps := Scan(route, 0).value;
    ScanExactly(route, ps);
    CompiledIsUsable(ps);
    ListsMatch(ps);
    FitsLength(ps, vs);
    ReadableComesBack(ps, vs);
  }

  /** A path is accepted exactly when it is the route with well-typed, convertible values put in. */
  lemma AcceptsExactlyInstances(route: string, path: string, params: map<string, ParamValue>, stof: Stof)
    requires IsValidRoute(route)
    requires var ps := Scan(route, 0).value; ParamsOf(ps) != [] && DotFree(ps) && Readable(ps)
    ensures var ps := Scan(route, 0).value;
            && Usable(CompiledOf(ps))
            && (MatchPath(path, CompiledOf(ps), params, stof).0
                <==> exists vs :: IsInstance(ps, vs, path) && |Kinds(ps)| == |vs| && Converts(Kinds(ps), vs, stof))
  {
    var ps := Scan(route, 0).value;
    ScanExactly(route, ps);
    CompiledIsUsable(ps);
    forall vs | IsInstance(ps, vs, path)
      ensures |Kinds(ps)| == |vs|
      ensures MatchPath(path, CompiledOf(ps), params, stof).0 <==> Converts(Kinds(ps), vs, stof)
    {
      InstanceBindsItsValues(route, vs, params, stof);
      BindsExactly(Kinds(ps), Names(ps), vs, params, stof);
    }
    if MatchPath(path, CompiledOf(ps), params, stof).0 {
      var cs := Match(ParseRegex(CompiledOf(ps).regex, 0).value, path, 0).value;
      RouteMatches(ps, path, cs);
      DerivesExactly(ps, cs, path, 0);
      assert path[0..] == path;
      assert IsInstance(ps, cs, path);
    }
  }

  // ---- Values printed, matched and converted

  /** `text` is how a value is written where a parameter of kind `k` stands. */
  ghost predicate Prints(k: Kind, v: ParamValue, text: string, stof: Stof) {
    match v
    case IntValue(i) => k.INT? && 0 <= i <= 2147483647 && text == Decimal(i)
    case FloatValue(f) => k.FLOAT? && Typed(FLOAT, text) && stof(text) == Some(f)
    case BoolValue(b) => k.BOOL? && (if b then text == "true" || text == "1" else text == "false" || text == "0")
    case StringValue(s) => k.STRING? && s != "" && '/' !in s && text == s
  }

  /** A printed value fits its parameter and converts back. */
  lemma PrintedConverts(k: Kind, v: ParamValue, text: string, stof: Stof)
    requires Prints(k, v, text, stof)
    ensures Typed(k, text) && Convert(k, text, stof) == Some(v)
  {
    if k.INT? { DigitsEndIs(text, 0, |text|); }
  }

  /** Conversion fails for a number that does not fit an `int`, where `std::stof` throws, and for nothing
      else that a group takes. */
  lemma ConvertFailsExactly(k: Kind, text: string, stof: Stof)
    requires Typed(k, text)
    ensures Convert(k, text, stof).None?
       <==> (k.INT? && Value(10, text) > 2147483647) || (k.FLOAT? && stof(text).None?)
  {
  }

  lemma {:induction false} FitsEach(ps: seq<Piece>, vs: seq<string>)
    requires |vs| == |Kinds(ps)| && forall j :: 0 <= j < |vs| ==> Typed(Kinds(ps)[j], vs[j])
    ensures Fits(ps, vs)
    decreases |ps|
  {
    if ps != [] {
      if ps[0].Param? {
        assert Kinds(ps) == [KindOf(ps[0].typ)] + Kinds(ps[1..]);
        forall j | 0 <= j < |vs[1..]| ensures Typed(Kinds(ps[1..])[j], vs[1..][j]) {
          assert Kinds(ps[1..])[j] == Kinds(ps)[j + 1] && vs[1..][j] == vs[j + 1];
        }
        FitsEach(ps[1..], vs[1..]);
      } else {
        assert Kinds(ps) == [] + Kinds(ps[1..]);
        FitsEach(ps[1..], vs);
      }
    }
  }

  /** Values printed into a readable route with distinct names come back under their names, as they were:
      the path is accepted, each name is bound to the value that was printed, and other keys are untouched. */
  lemma PrintedValuesBind(route: string, values: seq<ParamValue>, vs: seq<string>, params: map<string, ParamValue>,
                          stof: Stof)
    requires IsValidRoute(route)
    requires var ps := Scan(route, 0).value;
             && ParamsOf(ps) != [] && DotFree(ps) && Readable(ps) && Distinct(Names(ps))
             && |values| == |vs| == |Kinds(ps)| == |Names(ps)|
             && forall j :: 0 <= j < |vs| ==> Prints(Kinds(ps)[j], values[j], vs[j], stof)
    ensures var ps := Scan(route, 0).value;
            && Usable(CompiledOf(ps)) && Fits(ps, vs)
            && var r := MatchPath(PathOf(ps, vs), CompiledOf(ps), params, stof);
               && r.0
               && (forall j :: 0 <= j < |values| ==> Names(ps)[j] in r.1 && r.1[Names(ps)[j]] == values[j])
               && (forall n :: n !in Names(ps) ==> (n in r.1 <==> n in params) && (n in params ==> r.1[n] == params[n]))
  {
    var ps := Scan(route, 0).value;
    forall j | 0 <= j < |vs|
      ensures Typed(Kinds(ps)[j], vs[j]) && Convert(Kinds(ps)[j], vs[j], stof) == Some(values[j])
    {
      PrintedConverts(Kinds(ps)[j], values[j], vs[j], stof);
    }
    FitsEach(ps, vs);
    InstanceBindsItsValues(route, vs, params, stof);
    AllBind(Kinds(ps), Names(ps), vs, values, params, stof);
  }

  lemma AllBind(kinds: seq<Kind>, names: seq<string>, vs: seq<string>, values: seq<ParamValue>,
                params: map<string, ParamValue>, stof: Stof)
    requires |kinds| == |names| == |vs| == |values| && Distinct(names)
    requires forall j :: 0 <= j < |vs| ==> Convert(kinds[j], vs[j], stof) == Some(values[j])
    ensures var r := Bind(kinds, names, vs, params, stof);
            && r.0 && (forall j :: 0 <= j < |values| ==> names[j] in r.1 && r.1[names[j]] == values[j])
            && (forall n :: n !in names ==> (n in r.1 <==> n in params) && (n in params ==> r.1[n] == params[n]))
  {
    BindsExactly(kinds, names, vs, params, stof);
    var r := Bind(kinds, names, vs, params, stof);
    forall j | 0 <= j < |values| ensures names[j] in r.1 && r.1[names[j]] == values[j] {
      BindBinds(kinds, names, vs, params, stof, j);
    }
    forall n | n !in names ensures (n in r.1 <==> n in params) && (n in params ==> r.1[n] == params[n]) {
      BindKeepsOthers(kinds, names, vs, params, stof, n);
    }
  }
}
