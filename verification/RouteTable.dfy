/** The search for the first route that takes a path. */
module RouteTable {
  import opened RouteCompiler
  import opened RouteMatching
  import opened RouteReading
  import opened RouteRoundTrip

  type Params = map<string, ParamValue>

  /** A registered route: its text, and what `_route_contains_params` made of it. */
  datatype Route = Route(path: string, regex: Compiled)

  predicate Registered(r: Route) {
    IsValidRoute(r.path) && r.regex == CompiledOf(Scan(r.path, 0).value)
  }

  ghost predicate AllRegistered(routes: seq<Route>) {
    forall i :: 0 <= i < |routes| ==> Registered(routes[i])
  }

  lemma RegisteredIsUsable(r: Route)
    requires Registered(r)
    ensures Usable(r.regex)
  {
    ScanExactly(r.path, Scan(r.path, 0).value);
    CompiledIsUsable(Scan(r.path, 0).value);
  }

  /** One turn of the loop: a route without parameters is compared as text. */
  function Try(r: Route, path: string, params: Params, stof: Stof): (bool, Params)
    requires Registered(r)
  {
    RegisteredIsUsable(r);
    if r.regex.found then MatchPath(path, r.regex, params, stof) else (r.path == path, params)
  }

  function FirstMatch(routes: seq<Route>, path: string, i: nat, params: Params, stof: Stof): (int, Params)
    requires AllRegistered(routes) && i <= |routes|
    decreases |routes| - i
  {
    if i == |routes| then (-1, params)
    else
      var t := Try(routes[i], path, params, stof);
      if t.0 then (i, t.1) else FirstMatch(routes, path, i + 1, t.1, stof)
  }

  /** `_route_matcher`: one map for all routes. */
  method RouteMatcher(routes: seq<Route>, httpRoute: string, urlParams: Params, stof: Stof)
    returns (index: int, params: Params)
    requires AllRegistered(routes)
    ensures (index, params) == FirstMatch(routes, httpRoute, 0, urlParams, stof)
  {
    params := urlParams;
    var i := 0;
    while i < |routes|
      invariant i <= |routes|
      invariant FirstMatch(routes, httpRoute, i, params, stof) == FirstMatch(routes, httpRoute, 0, urlParams, stof)
    {
      var route := routes[i];
      RegisteredIsUsable(route);
      if route.regex.found {
        var ok;
        ok, params := MatchPathWithRoute(httpRoute, route.regex, params, stof);
        if ok { return i, params; }
      } else if route.path == httpRoute {
        return i, params;
      }
      i := i + 1;
    }
    return -1, params;
  }

  // ---- What ends up in the map

  /** Binding writes over what is there and reads nothing of it. */
  lemma {:induction false} BindMerges(kinds: seq<Kind>, names: seq<string>, cs: seq<string>, params: Params, stof: Stof)
    requires |kinds| == |names| == |cs|
    ensures var own := Bind(kinds, names, cs, map[], stof);
            Bind(kinds, names, cs, params, stof) == (own.0, params + own.1)
    decreases |cs|
  {
    if cs == [] || Convert(kinds[0], cs[0], stof).None? {
      assert params + map[] == params;
    } else {
      var v := Convert(kinds[0], cs[0], stof).value;
      BindMerges(kinds[1..], names[1..], cs[1..], params[names[0] := v], stof);
      BindMerges(kinds[1..], names[1..], cs[1..], map[][names[0] := v], stof);
      Overwrite(params, names[0], v, Bind(kinds[1..], names[1..], cs[1..], map[], stof).1);
    }
  }

  lemma Overwrite(params: Params, n: string, v: ParamValue, own: Params)
    ensures params[n := v] + own == params + (map[][n := v] + own)
  {
  }

  /** Whether a route takes the path, and what it writes on its own. */
  function Own(r: Route, path: string, stof: Stof): (bool, Params)
    requires Registered(r)
  {
    Try(r, path, map[], stof)
  }

  lemma TryMerges(r: Route, path: string, params: Params, stof: Stof)
    requires Registered(r)
    ensures Try(r, path, params, stof) == (Own(r, path, stof).0, params + Own(r, path, stof).1)
  {
    RegisteredIsUsable(r);
    assert params + map[] == params;
    if r.regex.found {
      var m := Match(ParseRegex(r.regex.regex, 0).value, path, 0);
      if m.Some? && |m.value| == |r.regex.types| {
        BindMerges(r.regex.types, r.regex.names, m.value, params, stof);
      }
    }
  }

  /** Every route by itself. */
  function Owns(routes: seq<Route>, path: string, stof: Stof): seq<(bool, Params)>
    requires AllRegistered(routes)
  {
    seq(|routes|, i requires 0 <= i < |routes| => Own(routes[i], path, stof))
  }

  /** What the routes `i`, `i + 1`, up to `k` write, later ones over earlier ones. */
  function Written(owns: seq<(bool, Params)>, i: nat, k: int): Params
    requires k < |owns|
    decreases k + 1 - i
  {
    if i > k then map[] else owns[i].1 + Written(owns, i + 1, k)
  }

  /** The route at `k` is the first from `i` on that takes the path. */
  ghost predicate IsFirst(owns: seq<(bool, Params)>, i: nat, k: int) {
    i <= k < |owns| && owns[k].0 && forall j :: i <= j < k ==> !owns[j].0
  }

  ghost predicate NoneTakes(owns: seq<(bool, Params)>, i: nat) {
    forall j :: i <= j < |owns| ==> !owns[j].0
  }

  /** What a search from `i` on is to answer. */
  ghost predicate Answers(r: (int, Params), owns: seq<(bool, Params)>, i: nat, params: Params) {
    && r.0 < |owns|
    && (if r.0 == -1 then NoneTakes(owns, i) else IsFirst(owns, i, r.0))
    && r.1 == params + Written(owns, i, if r.0 == -1 then |owns| - 1 else r.0)
  }

  /** The answer is the first route that takes the path by itself, or none; and the map holds, on top
      of what was in it, what every route tried up to then has written, the refused ones included. */
  lemma {:induction false} FirstMatchExactly(routes: seq<Route>, path: string, i: nat, params: Params, stof: Stof)
    requires AllRegistered(routes) && i <= |routes|
    ensures Answers(FirstMatch(routes, path, i, params, stof), Owns(routes, path, stof), i, params)
    decreases |routes| - i
  {
    var owns := Owns(routes, path, stof);
    if i == |routes| {
      assert params + map[] == params;
    } else {
      TryMerges(routes[i], path, params, stof);
      if owns[i].0 {
        AnswersHere(owns, i, params);
      } else {
        FirstMatchExactly(routes, path, i + 1, params + owns[i].1, stof);
        AnswersLater(FirstMatch(routes, path, i + 1, params + owns[i].1, stof), owns, i, params);
      }
    }
  }

  lemma AnswersHere(owns: seq<(bool, Params)>, i: nat, params: Params)
    requires i < |owns| && owns[i].0
    ensures Answers((i, params + owns[i].1), owns, i, params)
  {
    assert Written(owns, i + 1, i) == map[];
    assert owns[i].1 + map[] == owns[i].1;
  }

  lemma AnswersLater(r: (int, Params), owns: seq<(bool, Params)>, i: nat, params: Params)
    requires i < |owns| && !owns[i].0 && Answers(r, owns, i + 1, params + owns[i].1)
    ensures Answers(r, owns, i, params)
  {
    MergeMore(params, owns[i].1, Written(owns, i + 1, if r.0 == -1 then |owns| - 1 else r.0));
  }

  lemma MergeMore(a: Params, b: Params, c: Params)
    ensures (a + b) + c == a + (b + c)
  {
  }

  lemma {:induction false} WrittenBy(owns: seq<(bool, Params)>, i: nat, k: int, n: string)
    requires k < |owns|
    ensures n in Written(owns, i, k) <==> exists j :: i <= j <= k && n in owns[j].1
    decreases k + 1 - i
  {
    if i <= k { WrittenBy(owns, i + 1, k, n); }
  }

  lemma {:induction false} LastWrites(owns: seq<(bool, Params)>, i: nat, k: int, n: string)
    requires i <= k < |owns| && n in owns[k].1
    ensures n in Written(owns, i, k) && Written(owns, i, k)[n] == owns[k].1[n]
    decreases k - i
  {
    if i < k { LastWrites(owns, i + 1, k, n); }
  }

  /** For the handler of the route that is found: its own parameters have its own values, and another
      name is bound exactly when the map had it or a refused route wrote it before it failed. */
  lemma HandlerSees(routes: seq<Route>, path: string, params: Params, stof: Stof, n: string)
    requires AllRegistered(routes) && FirstMatch(routes, path, 0, params, stof).0 != -1
    ensures var r := FirstMatch(routes, path, 0, params, stof);
            var owns := Owns(routes, path, stof);
            && IsFirst(owns, 0, r.0)
            && if n in owns[r.0].1 then n in r.1 && r.1[n] == owns[r.0].1[n]
               else n in r.1 <==> n in params || exists j :: 0 <= j < r.0 && n in owns[j].1
  {
    FirstMatchExactly(routes, path, 0, params, stof);
    SeenBy(FirstMatch(routes, path, 0, params, stof), Owns(routes, path, stof), params, n);
  }

  lemma SeenBy(r: (int, Params), owns: seq<(bool, Params)>, params: Params, n: string)
    requires r.0 != -1 && Answers(r, owns, 0, params)
    ensures if n in owns[r.0].1 then n in r.1 && r.1[n] == owns[r.0].1[n]
            else n in r.1 <==> n in params || exists j :: 0 <= j < r.0 && n in owns[j].1
  {
    WrittenBy(owns, 0, r.0, n);
    if n in owns[r.0].1 { LastWrites(owns, 0, r.0, n); }
  }

  /** Which routes take a path: one without parameters takes its own text, dots and all; one with
      parameters, if it is read in one way, the paths that are it with convertible values put in. */
  lemma TakesExactly(r: Route, path: string, stof: Stof)
    requires Registered(r)
    ensures var ps := Scan(r.path, 0).value;
            && (ParamsOf(ps) == [] ==> (Own(r, path, stof).0 <==> path == r.path))
            && (ParamsOf(ps) != [] && DotFree(ps) && Readable(ps) ==>
                  (Own(r, path, stof).0
                   <==> exists vs :: IsInstance(ps, vs, path) && |Kinds(ps)| == |vs| && Converts(Kinds(ps), vs, stof)))
  {
    var ps := Scan(r.path, 0).value;
    RegisteredIsUsable(r);
    if ParamsOf(ps) != [] && DotFree(ps) && Readable(ps) { AcceptsExactlyInstances(r.path, path, map[], stof); }
  }

  // ---- When a route writes

  /** The first `j + 1` values convert, and the last of them goes under `n`. */
  ghost predicate WritesAt(kinds: seq<Kind>, names: seq<string>, vs: seq<string>, stof: Stof, n: string, j: int) {
    && |kinds| == |names| == |vs| && 0 <= j < |vs| && names[j] == n
    && forall i :: 0 <= i <= j ==> Convert(kinds[i], vs[i], stof).Some?
  }

  /** Binding writes a name exactly when its value and all values before it convert. */
  lemma {:induction false} BindWrites(kinds: seq<Kind>, names: seq<string>, cs: seq<string>, params: Params,
                                      stof: Stof, n: string)
    requires |kinds| == |names| == |cs|
    ensures n in Bind(kinds, names, cs, params, stof).1
       <==> n in params || exists j :: WritesAt(kinds, names, cs, stof, n, j)
    decreases |cs|
  {
    if cs != [] && Convert(kinds[0], cs[0], stof).Some? {
      var next := params[names[0] := Convert(kinds[0], cs[0], stof).value];
      BindWrites(kinds[1..], names[1..], cs[1..], next, stof, n);
      WritesBehind(kinds, names, cs, stof, n);
    }
  }

  lemma WritesBehind(kinds: seq<Kind>, names: seq<string>, cs: seq<string>, stof: Stof, n: string)
    requires |kinds| == |names| == |cs| > 0 && Convert(kinds[0], cs[0], stof).Some?
    ensures (exists j :: WritesAt(kinds, names, cs, stof, n, j))
       <==> n == names[0] || exists j :: WritesAt(kinds[1..], names[1..], cs[1..], stof, n, j)
  {
    if n == names[0] { assert WritesAt(kinds, names, cs, stof, n, 0); }
    forall j | WritesAt(kinds[1..], names[1..], cs[1..], stof, n, j)
      ensures WritesAt(kinds, names, cs, stof, n, j + 1)
    {
      forall i | 0 < i <= j + 1 ensures Convert(kinds[i], cs[i], stof).Some? {
        assert kinds[i] == kinds[1..][i - 1] && cs[i] == cs[1..][i - 1];
      }
    }
    forall j | WritesAt(kinds, names, cs, stof, n, j) && j > 0
      ensures WritesAt(kinds[1..], names[1..], cs[1..], stof, n, j - 1)
    {
    }
  }

  /** A route whose paths are read in one way. */
  predicate Plain(r: Route) {
    Registered(r) && var ps := Scan(r.path, 0).value; DotFree(ps) && Readable(ps)
  }

  /** The path is the route with values put in of which those up to the one called `n` convert. */
  ghost predicate Writes(r: Route, path: string, n: string, stof: Stof)
    requires Registered(r)
  {
    var ps := Scan(r.path, 0).value;
    exists vs, j :: IsInstance(ps, vs, path) && WritesAt(Kinds(ps), Names(ps), vs, stof, n, j)
  }

  /** Whether it takes the path or refuses it: a route writes a name exactly when the path is an instance
      of it whose values convert up to and including the one of that name. */
  lemma OwnWritesExactly(r: Route, path: string, n: string, stof: Stof)
    requires Plain(r)
    ensures n in Own(r, path, stof).1 <==> Writes(r, path, n, stof)
  {
    var ps := Scan(r.path, 0).value;
    RegisteredIsUsable(r);
    if ParamsOf(ps) == [] {
      NoKinds(ps);
      assert !Writes(r, path, n, stof);
    } else {
      forall vs | IsInstance(ps, vs, path)
        ensures n in Own(r, path, stof).1 <==> exists j :: WritesAt(Kinds(ps), Names(ps), vs, stof, n, j)
      {
        InstanceBindsItsValues(r.path, vs, map[], stof);
        BindWrites(Kinds(ps), Names(ps), vs, map[], stof, n);
      }
      if n in Own(r, path, stof).1 { MatchedIsInstance(r, path, stof); }
    }
  }

  /** A route that writes has matched, so the path is an instance of it. */
  lemma MatchedIsInstance(r: Route, path: string, stof: Stof)
    requires Plain(r) && Own(r, path, stof).1 != map[]
    ensures exists vs :: IsInstance(Scan(r.path, 0).value, vs, path)
  {
    var ps := Scan(r.path, 0).value;
    ScanExactly(r.path, ps);
    RegisteredIsUsable(r);
    var cs := Match(ParseRegex(r.regex.regex, 0).value, path, 0).value;
    RouteMatches(ps, path, cs);
    DerivesExactly(ps, cs, path, 0);
    assert path[0..] == path;
    assert IsInstance(ps, cs, path);
  }

  /** So a route leaves the map alone exactly when the path is no instance of it, or the first value
      does not convert. */
  lemma LeavesTraceExactly(r: Route, path: string, stof: Stof)
    requires Plain(r)
    ensures var ps := Scan(r.path, 0).value;
            Own(r, path, stof).1 != map[]
            <==> exists vs :: IsInstance(ps, vs, path) && |vs| == |Kinds(ps)| > 0
                              && Convert(Kinds(ps)[0], vs[0], stof).Some?
  {
    var ps, own := Scan(r.path, 0).value, Own(r, path, stof).1;
    if own != map[] {
      var n :| n in own;
      OwnWritesExactly(r, path, n, stof);
      var vs, j :| IsInstance(ps, vs, path) && WritesAt(Kinds(ps), Names(ps), vs, stof, n, j);
      assert Convert(Kinds(ps)[0], vs[0], stof).Some?;
    }
    forall vs | IsInstance(ps, vs, path) && |vs| == |Kinds(ps)| > 0 && Convert(Kinds(ps)[0], vs[0], stof).Some?
      ensures own != map[]
    {
      ListsMatch(ps);
      assert WritesAt(Kinds(ps), Names(ps), vs, stof, Names(ps)[0], 0);
      OwnWritesExactly(r, path, Names(ps)[0], stof);
    }
  }

  /** What the handler of the route that is found sees, told by routes and path alone: a name is bound
      exactly when the map had it, or the path is an instance of that route or of an earlier, refused one
      whose values convert up to the one of that name. */
  lemma HandlerSeesExactly(routes: seq<Route>, path: string, params: Params, stof: Stof, n: string)
    requires AllRegistered(routes) && forall i :: 0 <= i < |routes| ==> Plain(routes[i])
    requires FirstMatch(routes, path, 0, params, stof).0 != -1
    ensures var r := FirstMatch(routes, path, 0, params, stof);
            && 0 <= r.0 < |routes|
            && (n in r.1 <==> n in params || exists j :: 0 <= j <= r.0 && Writes(routes[j], path, n, stof))
  {
    var r, owns := FirstMatch(routes, path, 0, params, stof), Owns(routes, path, stof);
    HandlerSees(routes, path, params, stof, n);
    forall j | 0 <= j < |routes| ensures n in owns[j].1 <==> Writes(routes[j], path, n, stof) {
      OwnWritesExactly(routes[j], path, n, stof);
    }
  }
}
