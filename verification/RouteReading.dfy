/** Paths made from a route template, and when they can be read in one way only. */
module RouteReading {
  import opened Wrappers
  import opened Text
  import opened Numbers
  import opened RouteCompiler
  import opened RouteMatching
  import opened Sequences

  // ---- Paths made from a template

  /** One well-typed value for every parameter. */
  predicate Fits(ps: seq<Piece>, vs: seq<string>) {
    if ps == [] then vs == []
    else if ps[0].Lit? then Fits(ps[1..], vs)
    else vs != [] && Typed(KindOf(ps[0].typ), vs[0]) && Fits(ps[1..], vs[1..])
  }

  function PathOf(ps: seq<Piece>, vs: seq<string>): string
    requires Fits(ps, vs)
  {
    if ps == [] then []
    else if ps[0].Lit? then [ps[0].c] + PathOf(ps[1..], vs)
    else vs[0] + PathOf(ps[1..], vs[1..])
  }

  /** The path is the route with these values put in. */
  predicate IsInstance(ps: seq<Piece>, vs: seq<string>, path: string) {
    Fits(ps, vs) && path == PathOf(ps, vs)
  }

  predicate DotFree(ps: seq<Piece>) {
    ps == [] || (ps[0] != Lit('.') && DotFree(ps[1..]))
  }

  lemma SuffixSplits(s: string, i: nat, a: string, b: string)
    requires i <= |s|
    ensures s[i..] == a + b <==> Occurs(s, a, i) && s[i + |a|..] == b
  {
    if s[i..] == a + b { FrontOf(s, i, a, b); }
    if Occurs(s, a, i) { CutSlice(s, i, i + |a|); }
  }

  lemma OneOccurs(s: string, i: nat, c: char)
    ensures Occurs(s, [c], i) <==> i < |s| && s[i] == c
  {
    if i < |s| { FirstSlice(s, i); }
    if Occurs(s, [c], i) { OccursAt(s, [c], i, 0); }
  }

  /** Without dots, the ways to match a path are the ways to make it. */
  lemma {:induction false} DerivesExactly(ps: seq<Piece>, cs: seq<string>, path: string, i: nat)
    requires i <= |path| && DotFree(ps)
    ensures Derives(Items(ps), cs, path, i) <==> Fits(ps, cs) && path[i..] == PathOf(ps, cs)
    decreases |ps|
  {
    if ps != [] {
      if ps[0].Lit? {
        if i < |path| { DerivesExactly(ps[1..], cs, path, i + 1); }
        LitExactly(ps, cs, path, i);
      } else {
        if cs != [] && i + |cs[0]| <= |path| { DerivesExactly(ps[1..], cs[1..], path, i + |cs[0]|); }
        ParamExactly(ps, cs, path, i);
      }
    }
  }

  lemma LitExactly(ps: seq<Piece>, cs: seq<string>, path: string, i: nat)
    requires i <= |path| && ps != [] && ps[0].Lit? && ps[0].c != '.'
    requires i < |path| ==>
               (Derives(Items(ps[1..]), cs, path, i + 1) <==> Fits(ps[1..], cs) && path[i + 1..] == PathOf(ps[1..], cs))
    ensures Derives(Items(ps), cs, path, i) <==> Fits(ps, cs) && path[i..] == PathOf(ps, cs)
  {
    LitDerives(ps, cs, path, i);
    if Fits(ps, cs) {
      SuffixSplits(path, i, [ps[0].c], PathOf(ps[1..], cs));
      OneOccurs(path, i, ps[0].c);
    }
  }

  lemma ParamExactly(ps: seq<Piece>, cs: seq<string>, path: string, i: nat)
    requires i <= |path| && ps != [] && ps[0].Param?
    requires cs != [] && i + |cs[0]| <= |path| ==>
               (Derives(Items(ps[1..]), cs[1..], path, i + |cs[0]|)
                <==> Fits(ps[1..], cs[1..]) && path[i + |cs[0]|..] == PathOf(ps[1..], cs[1..]))
    ensures Derives(Items(ps), cs, path, i) <==> Fits(ps, cs) && path[i..] == PathOf(ps, cs)
  {
    ParamDerives(ps, cs, path, i);
    if Fits(ps, cs) { SuffixSplits(path, i, cs[0], PathOf(ps[1..], cs[1..])); }
  }

  lemma ParamDerives(ps: seq<Piece>, cs: seq<string>, path: string, i: nat)
    requires i <= |path| && ps != [] && ps[0].Param?
    ensures Derives(Items(ps), cs, path, i) <==>
            (cs != [] && Typed(KindOf(ps[0].typ), cs[0]) && Occurs(path, cs[0], i)
             && Derives(Items(ps[1..]), cs[1..], path, i + |cs[0]|))
  {
    assert Items(ps)[1..] == Items(ps[1..]);
  }

  lemma LitDerives(ps: seq<Piece>, cs: seq<string>, path: string, i: nat)
    requires i <= |path| && ps != [] && ps[0].Lit? && ps[0].c != '.'
    ensures Derives(Items(ps), cs, path, i) <==>
            i < |path| && path[i] == ps[0].c && Derives(Items(ps[1..]), cs, path, i + 1)
  {
    assert Items(ps)[1..] == Items(ps[1..]);
  }

  lemma {:induction false} EndDerives(items: seq<Item>, cs: seq<string>, path: string, i: nat)
    requires i <= |path|
    ensures Derives(items + [End], cs, path, i) <==> Derives(items, cs, path, i)
    decreases |items|
  {
    if items == [] {
      assert [] + [End] == [End];
      assert [End][1..] == [];
    } else {
      assert (items + [End])[1..] == items[1..] + [End];
      if items[0].Group? {
        if cs != [] && i + |cs[0]| <= |path| { EndDerives(items[1..], cs[1..], path, i + |cs[0]|); }
      } else {
        var n := Simple(items[0], path, i);
        if n.Some? { EndDerives(items[1..], cs, path, i + n.value); }
      }
    }
  }

  /** The anchors say nothing that matching the whole path does not. */
  lemma AnchorsDerive(items: seq<Item>, cs: seq<string>, path: string)
    ensures Derives([Begin] + (items + [End]), cs, path, 0) <==> Derives(items, cs, path, 0)
  {
    assert ([Begin] + (items + [End]))[1..] == items + [End];
    EndDerives(items, cs, path, 0);
  }

  // ---- Parameters with a recognisable end

  /** A character that a text of the kind can go on with, if it can go on at all. */
  predicate GoesOnWith(k: Kind, c: char) {
    if k.STRING? then c != '/' else IsDigit(c)
  }

  /** A parameter ends at the end of the route or, perhaps behind some other literals, at a literal
      that none of its texts can go on with; the texts of a bool cannot go on at all. */
  predicate Stops(k: Kind, rest: seq<Piece>) {
    || k.BOOL?
    || rest == []
    || (rest[0].Lit? && rest[0].c != '.' && (!GoesOnWith(k, rest[0].c) || Stops(k, rest[1..])))
  }

  /** How many of the next pieces are literals that the kind can go on with. */
  function Reach(k: Kind, rest: seq<Piece>): (n: nat)
    ensures n <= |rest|
  {
    if rest == [] || rest[0].Param? || !GoesOnWith(k, rest[0].c) then 0 else 1 + Reach(k, rest[1..])
  }

  predicate Delimited(ps: seq<Piece>) {
    ps == [] || ((ps[0].Param? ==> Stops(KindOf(ps[0].typ), ps[1..])) && Delimited(ps[1..]))
  }

  lemma {:induction false} DigitsEndIs(s: string, i: nat, e: nat)
    requires i <= |s|
    ensures DigitsEnd(s, i) == e <==>
            (i <= e <= |s| && (forall j :: i <= j < e ==> IsDigit(s[j])) && (e < |s| ==> !IsDigit(s[e])))
    decreases |s| - i
  {
    if i < |s| && IsDigit(s[i]) { DigitsEndIs(s, i + 1, e); }
  }

  ghost predicate DecimalText(s: string) { s != "" && forall i :: 0 <= i < |s| ==> 48 <= s[i] as int <= 57 }

  /** What each group takes: digits; digits, a dot and digits; one of four words; anything without a
      slash; and never nothing. */
  lemma TypedExactly(s: string)
    ensures Typed(INT, s) <==> DecimalText(s)
    ensures Typed(FLOAT, s) <==> exists a, b :: DecimalText(a) && DecimalText(b) && s == a + ("." + b)
    ensures Typed(BOOL, s) <==> s in {"true", "false", "1", "0"}
    ensures Typed(STRING, s) <==> s != "" && '/' !in s
  {
    DigitsEndIs(s, 0, |s|);
    FloatExactly(s);
  }

  lemma FloatExactly(s: string)
    ensures Typed(FLOAT, s) <==> exists a, b :: DecimalText(a) && DecimalText(b) && s == a + ("." + b)
  {
    if Typed(FLOAT, s) {
      var e := DigitsEnd(s, 0);
      DigitsEndIs(s, 0, e);
      DigitsEndIs(s, e + 1, |s|);
      assert DecimalText(s[..e]) && DecimalText(s[e + 1..]) && s == s[..e] + ("." + s[e + 1..]);
    }
    forall a, b | DecimalText(a) && DecimalText(b) && s == a + ("." + b) ensures Typed(FLOAT, s) {
      assert s[|a|] == '.' && forall i :: 0 <= i < |b| ==> s[|a| + 1 + i] == b[i];
      DigitsEndIs(s, 0, |a|);
      forall j | |a| + 1 <= j < |s| ensures IsDigit(s[j]) { assert s[j] == b[j - |a| - 1]; }
      DigitsEndIs(s, |a| + 1, |s|);
    }
  }

  lemma FloatGoesOn(a: string, b: string)
    requires Typed(FLOAT, a) && Typed(FLOAT, b) && a <= b
    ensures forall j :: |a| <= j < |b| ==> IsDigit(b[j])
  {
    var e, f := DigitsEnd(a, 0), DigitsEnd(b, 0);
    DigitsEndIs(a, 0, e);
    DigitsEndIs(b, 0, f);
    assert a[e] == b[e];
    DigitsEndIs(b, 0, e);
    DigitsEndIs(b, e + 1, |b|);
  }

  /** A longer text of the same kind goes on with characters that do not stop the kind. */
  lemma GoesOn(k: Kind, a: string, b: string)
    requires Typed(k, a) && Typed(k, b) && a <= b
    ensures k.BOOL? ==> a == b
    ensures !k.BOOL? ==> forall j :: |a| <= j < |b| ==> GoesOnWith(k, b[j])
  {
    match k
    case INT => DigitsEndIs(b, 0, |b|);
    case FLOAT => FloatGoesOn(a, b);
    case BOOL => assert a[0] == b[0];
    case STRING =>
  }

  lemma NestedSlices(s: string, i: nat, a: string, b: string)
    requires Occurs(s, a, i) && Occurs(s, b, i) && |a| <= |b|
    ensures a <= b
  {
    assert s[i..i + |a|] == s[i..i + |b|][..|a|];
  }

  /** Where the text of a parameter cannot be going on any more. */
  lemma {:induction false} StopsThere(k: Kind, rest: seq<Piece>, cs: seq<string>, path: string, i: nat)
    requires i <= |path| && !k.BOOL? && Stops(k, rest) && Derives(Items(rest), cs, path, i)
    ensures var n := Reach(k, rest);
            && i + n <= |path|
            && (forall j :: i <= j < i + n ==> GoesOnWith(k, path[j]))
            && (i + n < |path| ==> !GoesOnWith(k, path[i + n]))
    decreases |rest|
  {
    if rest != [] {
      LitDerives(rest, cs, path, i);
      if GoesOnWith(k, rest[0].c) { StopsThere(k, rest[1..], cs, path, i + 1); }
    }
  }

  lemma SameText(ps: seq<Piece>, a: seq<string>, b: seq<string>, path: string, i: nat)
    requires i <= |path| && ps != [] && ps[0].Param? && Stops(KindOf(ps[0].typ), ps[1..])
    requires Derives(Items(ps), a, path, i) && Derives(Items(ps), b, path, i) && |a[0]| <= |b[0]|
    ensures a[0] == b[0]
  {
    var k := KindOf(ps[0].typ);
    assert Items(ps)[1..] == Items(ps[1..]);
    NestedSlices(path, i, a[0], b[0]);
    GoesOn(k, a[0], b[0]);
    if !k.BOOL? {
      StopsThere(k, ps[1..], a[1..], path, i + |a[0]|);
      LongerGoesOn(k, ps[1..], a[0], b[0], b[1..], path, i);
      EndsBefore(k, path, i + |a[0]|, i + |a[0]| + Reach(k, ps[1..]), i + |b[0]| + Reach(k, ps[1..]));
    }
  }

  /** Behind the shorter text the longer one and the literals behind it go on. */
  lemma LongerGoesOn(k: Kind, rest: seq<Piece>, a: string, b: string, cs: seq<string>, path: string, i: nat)
    requires !k.BOOL? && Stops(k, rest) && a <= b && Occurs(path, b, i) && Derives(Items(rest), cs, path, i + |b|)
    requires forall j :: |a| <= j < |b| ==> GoesOnWith(k, b[j])
    ensures i + |b| + Reach(k, rest) <= |path|
    ensures forall j :: i + |a| <= j < i + |b| + Reach(k, rest) ==> GoesOnWith(k, path[j])
  {
    StopsThere(k, rest, cs, path, i + |b|);
    forall j | i + |a| <= j < i + |b| ensures GoesOnWith(k, path[j]) { OccursAt(path, b, i, j - i); }
  }

  lemma EndsBefore(k: Kind, path: string, from: nat, stop: nat, end: nat)
    requires from <= stop <= |path| && (stop < |path| ==> !GoesOnWith(k, path[stop]))
    requires end <= |path| && forall j :: from <= j < end ==> GoesOnWith(k, path[j])
    ensures end <= stop
  {
  }

  /** Then there is at most one way to match. */
  lemma {:induction false} OneWay(ps: seq<Piece>, a: seq<string>, b: seq<string>, path: string, i: nat)
    requires i <= |path| && Delimited(ps)
    requires Derives(Items(ps), a, path, i) && Derives(Items(ps), b, path, i)
    ensures a == b
    decreases |ps|
  {
    if ps != [] {
      assert Items(ps)[1..] == Items(ps[1..]);
      if ps[0].Param? {
        if |a[0]| <= |b[0]| { SameText(ps, a, b, path, i); } else { SameText(ps, b, a, path, i); }
        OneWay(ps[1..], a[1..], b[1..], path, i + |a[0]|);
        assert a == [a[0]] + a[1..] && b == [b[0]] + b[1..];
      } else {
        OneWay(ps[1..], a, b, path, i + 1);
      }
    }
  }

  // ---- Reading a path back

  predicate IsNumber(k: Kind) { k.INT? || k.FLOAT? }

  /** The kind of the next parameter, if nothing but digits is written in front of it. */
  function NextKind(rest: seq<Piece>): Option<Kind> {
    if rest == [] then None
    else if rest[0].Param? then Some(KindOf(rest[0].typ))
    else if IsDigit(rest[0].c) then NextKind(rest[1..])
    else None
  }

  /** A string parameter with no slash in front of it. */
  predicate StringAhead(rest: seq<Piece>) {
    rest != [] &&
    if rest[0].Param? && KindOf(rest[0].typ).STRING? then true
    else rest[0] != Lit('/') && StringAhead(rest[1..])
  }

  /** Two parameters of which both could take what is written between them: two strings without a
      slash between them, or a string or number and then another, with nothing but digits between. */
  predicate Collides(ps: seq<Piece>) {
    ps != [] && (
      || Collides(ps[1..])
      || (ps[0].Param? && RunsOn(KindOf(ps[0].typ), ps[1..])))
  }

  predicate RunsOn(k: Kind, rest: seq<Piece>) {
    || (k.STRING? && StringAhead(rest))
    || (!k.BOOL? && NextKind(rest).Some? && !NextKind(rest).value.BOOL?)
  }

  /** A number in front of a bool with nothing but digits between; or behind it, if both are `behind` a
      string without a slash between. */
  predicate BoolBeside(ps: seq<Piece>, behind: bool) {
    ps != [] &&
    match ps[0]
    case Lit(c) => BoolBeside(ps[1..], behind && c != '/')
    case Param(_, typ) =>
      match KindOf(typ)
      case STRING => BoolBeside(ps[1..], true)
      case BOOL => (behind && NumberNext(ps[1..])) || BoolBeside(ps[1..], behind)
      case _ => (!behind && NextKind(ps[1..]) == Some(BOOL)) || BoolBeside(ps[1..], behind)
  }

  predicate NumberNext(rest: seq<Piece>) { NextKind(rest).Some? && IsNumber(NextKind(rest).value) }

  /** No two parameters run into each other. */
  predicate Readable(ps: seq<Piece>) { !Collides(ps) && !BoolBeside(ps, false) }

  lemma {:induction false} NumberStops(k: Kind, rest: seq<Piece>)
    requires IsNumber(k) && DotFree(rest) && NextKind(rest).None?
    ensures Stops(k, rest)
  {
    if rest != [] && IsDigit(rest[0].c) { NumberStops(k, rest[1..]); }
  }

  lemma Cancel(a: string, x: string, y: string)
    requires a + x == a + y
    ensures x == y
  {
    assert (a + x)[|a|..] == x && (a + y)[|a|..] == y;
  }

  lemma FirstText(ps: seq<Piece>, vs: seq<string>, ws: seq<string>)
    requires DotFree(ps) && ps != [] && ps[0].Param? && Stops(KindOf(ps[0].typ), ps[1..])
    requires Fits(ps, vs) && Fits(ps, ws) && PathOf(ps, vs) == PathOf(ps, ws)
    ensures vs[0] == ws[0] && PathOf(ps[1..], vs[1..]) == PathOf(ps[1..], ws[1..])
  {
    var path := PathOf(ps, vs);
    assert path[0..] == path;
    DerivesExactly(ps, vs, path, 0);
    DerivesExactly(ps, ws, path, 0);
    if |vs[0]| <= |ws[0]| { SameText(ps, vs, ws, path, 0); } else { SameText(ps, ws, vs, path, 0); }
    Cancel(vs[0], PathOf(ps[1..], vs[1..]), PathOf(ps[1..], ws[1..]));
  }

  function TrailingDigits(s: string): nat {
    if s == "" || !IsDigit(s[|s| - 1]) then 0 else 1 + TrailingDigits(s[..|s| - 1])
  }

  lemma {:induction false} TrailingJoined(a: string, u: string)
    requires forall j :: 0 <= j < |u| ==> IsDigit(u[j])
    ensures TrailingDigits(a + u) == |u| + TrailingDigits(a)
    decreases |u|
  {
    if u == "" {
      assert a + u == a;
    } else {
      assert (a + u)[..|a + u| - 1] == a + u[..|u| - 1];
      TrailingJoined(a, u[..|u| - 1]);
    }
  }

  lemma FrontDigits(k: Kind, u: string, v: string)
    requires IsNumber(k) && Typed(k, v) && Typed(k, u + v)
    ensures forall j :: 0 <= j < |u| ==> IsDigit(u[j])
  {
    var w := u + v;
    var e, f := DigitsEnd(w, 0), DigitsEnd(v, 0);
    DigitsEndIs(w, 0, e);
    DigitsEndIs(v, 0, f);
    if k.FLOAT? {
      DigitsEndIs(w, e + 1, |w|);
      assert w[|u| + f] == v[f];
    }
    assert forall j :: 0 <= j < |u| ==> u[j] == w[j];
  }

  lemma SplitsApart(x: string, v: string, y: string, w: string)
    requires x + v == y + w && |v| <= |w|
    ensures var u := w[..|w| - |v|]; w == u + v && x == y + u
  {
    var n, s := |w| - |v|, x + v;
    assert w == s[|y|..] && v == s[|x|..];
    assert w[n..] == v;
    assert x == s[..|x|] == y + w[..n];
  }

  /** A number is read from its end back to where the digits written before it begin. */
  lemma LastNumber(k: Kind, x: string, v: string, y: string, w: string)
    requires IsNumber(k) && Typed(k, v) && Typed(k, w) && x + v == y + w && |v| <= |w|
    requires TrailingDigits(x) == TrailingDigits(y)
    ensures v == w && x == y
  {
    SplitsApart(x, v, y, w);
    var u := w[..|w| - |v|];
    FrontDigits(k, u, v);
    TrailingJoined(y, u);
  }

  lemma LastBool(x: string, v: string, y: string, w: string)
    requires Typed(BOOL, v) && Typed(BOOL, w) && x + v == y + w && |v| <= |w|
    ensures v == w && x == y
  {
    SplitsApart(x, v, y, w);
    assert w[|w| - 1] == v[|v| - 1];
  }

  ghost predicate NoSlash(s: string) { forall j :: 0 <= j < |s| ==> s[j] != '/' }

  lemma TypedHasNoSlash(k: Kind, v: string)
    requires Typed(k, v)
    ensures NoSlash(v)
  {
    match k
    case INT => DigitsEndIs(v, 0, |v|);
    case FLOAT =>
      DigitsEndIs(v, 0, DigitsEnd(v, 0));
      DigitsEndIs(v, DigitsEnd(v, 0) + 1, |v|);
    case BOOL =>
    case STRING =>
  }

  lemma UpToSlash(x: string, p: string, y: string, q: string)
    requires NoSlash(x) && NoSlash(y) && x + (['/'] + p) == y + (['/'] + q)
    ensures x == y && p == q
  {
    var s := x + (['/'] + p);
    assert s[|x|] == '/' && s[|y|] == '/';
    assert x == s[..|x|] && y == s[..|y|];
    assert p == s[|x| + 1..] && q == s[|y| + 1..];
  }

  /** At most one way: parameters are read from the left; but what stands behind a string and before the
      next slash is read from the right, and the string is what remains. */
  lemma {:induction false} ReadsOneWay(ps: seq<Piece>, vs: seq<string>, ws: seq<string>)
    requires DotFree(ps) && Readable(ps)
    requires Fits(ps, vs) && Fits(ps, ws) && PathOf(ps, vs) == PathOf(ps, ws)
    ensures vs == ws
    decreases |ps|
  {
    if ps != [] {
      var rest := ps[1..];
      if ps[0].Lit? {
        Cancel([ps[0].c], PathOf(rest, vs), PathOf(rest, ws));
        ReadsOneWay(rest, vs, ws);
      } else if KindOf(ps[0].typ).STRING? {
        BehindString(rest, false, vs[0], ws[0], vs[1..], ws[1..]);
      } else {
        if IsNumber(KindOf(ps[0].typ)) { NumberStops(KindOf(ps[0].typ), rest); }
        FirstText(ps, vs, ws);
        ReadsOneWay(rest, vs[1..], ws[1..]);
      }
    }
  }

  /** `x` and `y` are what has been read of one path from a string on, in two ways; `marked` says that a
      literal other than a digit was the last thing but digits. */
  lemma {:induction false} BehindString(rest: seq<Piece>, marked: bool, x: string, y: string,
                                        vs: seq<string>, ws: seq<string>)
    requires DotFree(rest) && !Collides(rest) && !BoolBeside(rest, true) && !StringAhead(rest)
    requires !marked ==> !NumberNext(rest)
    requires marked ==> TrailingDigits(x) == TrailingDigits(y)
    requires Fits(rest, vs) && Fits(rest, ws) && NoSlash(x) && NoSlash(y)
    requires x + PathOf(rest, vs) == y + PathOf(rest, ws)
    ensures x == y && vs == ws
    decreases |rest|
  {
    if rest == [] {
      assert x + "" == x && y + "" == y;
    } else if rest[0] == Lit('/') {
      UpToSlash(x, PathOf(rest[1..], vs), y, PathOf(rest[1..], ws));
      ReadsOneWay(rest[1..], vs, ws);
    } else if rest[0].Lit? {
      var c := rest[0].c;
      MoveOn(x, [c], PathOf(rest[1..], vs), y, [c], PathOf(rest[1..], ws));
      MarkedOn(x, y, c);
      BehindString(rest[1..], marked || !IsDigit(c), x + [c], y + [c], vs, ws);
      assert x == (x + [c])[..|x|] && y == (y + [c])[..|y|];
    } else {
      var k, v, w := KindOf(rest[0].typ), vs[0], ws[0];
      TypedHasNoSlash(k, v);
      TypedHasNoSlash(k, w);
      MoveOn(x, v, PathOf(rest[1..], vs[1..]), y, w, PathOf(rest[1..], ws[1..]));
      BehindString(rest[1..], false, x + v, y + w, vs[1..], ws[1..]);
      LastText(k, x, v, y, w);
      assert vs == [v] + vs[1..] && ws == [w] + ws[1..];
    }
  }

  lemma MoveOn(x: string, v: string, p: string, y: string, w: string, q: string)
    requires x + (v + p) == y + (w + q)
    ensures (x + v) + p == (y + w) + q
  {
    Assoc(x, v, p);
    Assoc(y, w, q);
  }

  lemma MarkedOn(x: string, y: string, c: char)
    ensures TrailingDigits(x) == TrailingDigits(y) || !IsDigit(c) ==> TrailingDigits(x + [c]) == TrailingDigits(y + [c])
  {
    assert (x + [c])[..|x|] == x && (y + [c])[..|y|] == y;
  }

  lemma LastText(k: Kind, x: string, v: string, y: string, w: string)
    requires !k.STRING? && Typed(k, v) && Typed(k, w) && x + v == y + w
    requires IsNumber(k) ==> TrailingDigits(x) == TrailingDigits(y)
    ensures v == w && x == y
  {
    if k.BOOL? {
      if |v| <= |w| { LastBool(x, v, y, w); } else { LastBool(y, w, x, v); }
    } else {
      if |v| <= |w| { LastNumber(k, x, v, y, w); } else { LastNumber(k, y, w, x, v); }
    }
  }

  /** Parameters that all stop by themselves make a route readable. */
  lemma {:induction false} DelimitedIsReadable(ps: seq<Piece>)
    requires Delimited(ps)
    ensures Readable(ps)
  {
    if ps != [] {
      DelimitedIsReadable(ps[1..]);
      if ps[0].Param? {
        if !KindOf(ps[0].typ).BOOL? { StopsApart(KindOf(ps[0].typ), ps[1..]); }
        if KindOf(ps[0].typ).STRING? { StopsBeforeSlash(ps[1..]); }
      }
    }
  }

  lemma {:induction false} StopsApart(k: Kind, rest: seq<Piece>)
    requires !k.BOOL? && Stops(k, rest)
    ensures NextKind(rest).None? && (k.STRING? ==> !StringAhead(rest))
  {
    if rest != [] && GoesOnWith(k, rest[0].c) { StopsApart(k, rest[1..]); }
  }

  lemma {:induction false} StopsBeforeSlash(rest: seq<Piece>)
    requires Stops(STRING, rest)
    ensures BoolBeside(rest, true) ==> BoolBeside(rest, false)
  {
    if rest != [] && rest[0].c != '/' { StopsBeforeSlash(rest[1..]); }
  }
}
