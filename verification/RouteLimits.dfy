/** Dots, and parameters that run together. */
module RouteLimits {
  import opened Wrappers
  import opened Text
  import opened RouteCompiler
  import opened RouteMatching
  import opened Sequences
  import opened RouteReading
  import opened RouteRoundTrip

  // ---- Dots

  /** Some text of every kind. */
  function Sample(k: Kind): string {
    match k
    case INT => "0"
    case FLOAT => "0.0"
    case BOOL => "1"
    case STRING => "x"
  }

  lemma SampleTyped(k: Kind)
    ensures Typed(k, Sample(k)) && Sample(k) != ""
  {
    if k.INT? {
      DigitsEndIs("0", 0, 1);
    } else if k.FLOAT? {
      DigitsEndIs("0.0", 0, 1);
      DigitsEndIs("0.0", 2, 3);
    }
  }

  function Samples(ps: seq<Piece>): seq<string> {
    if ps == [] then [] else (if ps[0].Param? then [Sample(KindOf(ps[0].typ))] else []) + Samples(ps[1..])
  }

  /** The route with sample values and an `x` for every dot. */
  function Imitation(ps: seq<Piece>): string {
    if ps == [] then [] else Imitated(ps[0]) + Imitation(ps[1..])
  }

  function SampleOf(p: Piece): string {
    if p.Param? then Sample(KindOf(p.typ)) else [p.c]
  }

  function Imitated(p: Piece): string {
    if p == Lit('.') then ['x'] else SampleOf(p)
  }

  lemma SimpleDerives(item: Item, rest: seq<Item>, cs: seq<string>, path: string, i: nat)
    requires i < |path| && !item.Group? && Simple(item, path, i) == Some(1) && Derives(rest, cs, path, i + 1)
    ensures Derives([item] + rest, cs, path, i)
  {
    assert ([item] + rest)[1..] == rest;
  }

  lemma TextDerives(k: Kind, rest: seq<Item>, text: string, cs: seq<string>, path: string, i: nat)
    requires Occurs(path, text, i) && Typed(k, text) && Derives(rest, cs, path, i + |text|)
    ensures Derives([Group(k)] + rest, [text] + cs, path, i)
  {
    assert ([Group(k)] + rest)[1..] == rest;
    DerivesGroup([Group(k)] + rest, path, i, text, cs);
  }

  lemma {:induction false} ImitationDerives(ps: seq<Piece>, path: string, i: nat)
    requires i <= |path| && path[i..] == Imitation(ps)
    ensures Derives(Items(ps), Samples(ps), path, i)
    decreases |ps|
  {
    if ps == [] {
      assert |path[i..]| == 0;
    } else {
      ImitatedInFront(ps, Imitated(ps[0]), Imitation(ps[1..]), path, i);
      ImitationDerives(ps[1..], path, i + |Imitated(ps[0])|);
      ImitatedDerives(ps, Imitated(ps[0]), path, i);
    }
  }

  lemma {:induction false} ImitatedInFront(ps: seq<Piece>, front: string, more: string, path: string, i: nat)
    requires ps != [] && front == Imitated(ps[0]) && more == Imitation(ps[1..])
    requires i <= |path| && path[i..] == Imitation(ps)
    ensures Occurs(path, front, i) && path[i + |front|..] == more
  {
    FrontOf(path, i, front, more);
  }

  lemma ImitatedDerives(ps: seq<Piece>, front: string, path: string, i: nat)
    requires ps != [] && front == Imitated(ps[0]) && Occurs(path, front, i)
    requires Derives(Items(ps[1..]), Samples(ps[1..]), path, i + |front|)
    ensures Derives(Items(ps), Samples(ps), path, i)
  {
    var rest := ps[1..];
    if ps[0].Param? {
      SampleTyped(KindOf(ps[0].typ));
      TextDerives(KindOf(ps[0].typ), Items(rest), front, Samples(rest), path, i);
    } else {
      OneOccurs(path, i, front[0]);
      SimpleDerives(PieceItem(ps[0]), Items(rest), Samples(rest), path, i);
      assert Samples(ps) == Samples(rest);
    }
  }

  function Dots(s: string): nat {
    if s == "" then 0 else (if s[0] == '.' then 1 else 0) + Dots(s[1..])
  }

  lemma {:induction false} DotsJoined(a: string, b: string)
    ensures Dots(a + b) == Dots(a) + Dots(b)
  {
    if a == "" {
      assert a + b == b;
    } else {
      assert (a + b)[1..] == a[1..] + b;
      DotsJoined(a[1..], b);
    }
  }

  lemma DotInside(s: string, e: nat)
    requires e < |s| && s[e] == '.'
    ensures Dots(s) >= 1
  {
    assert s == s[..e] + s[e..];
    DotsJoined(s[..e], s[e..]);
  }

  lemma FewestDots(k: Kind, v: string)
    requires Typed(k, v)
    ensures Dots(Sample(k)) <= Dots(v)
  {
    match k
    case FLOAT =>
      DotInside(v, DigitsEnd(v, 0));
      FloatDots();
    case INT => OneChar('0');
    case BOOL => OneChar('1');
    case STRING => OneChar('x');
  }

  lemma OneChar(c: char)
    requires c != '.'
    ensures Dots([c]) == 0
  {
  }

  lemma FloatDots()
    ensures Dots("0.0") == 1
  {
    assert "0.0" == ['0'] + (['.'] + ['0']);
    DotsJoined(['0'], ['.'] + ['0']);
    DotsJoined(['.'], ['0']);
  }

  /** An instance of a route with dots has more dots than the imitation. */
  lemma {:induction false} MoreDots(ps: seq<Piece>, vs: seq<string>)
    requires Fits(ps, vs)
    ensures Dots(PathOf(ps, vs)) >= Dots(Imitation(ps)) + (if DotFree(ps) then 0 else 1)
    decreases |ps|
  {
    if ps != [] {
      if ps[0].Param? {
        MoreDots(ps[1..], vs[1..]);
        FewestDots(KindOf(ps[0].typ), vs[0]);
        DotsJoined(vs[0], PathOf(ps[1..], vs[1..]));
        DotsJoined(Imitated(ps[0]), Imitation(ps[1..]));
      } else {
        MoreDots(ps[1..], vs);
        DotsJoined([ps[0].c], PathOf(ps[1..], vs));
        DotsJoined(Imitated(ps[0]), Imitation(ps[1..]));
      }
    }
  }

  /** A dot in a route is taken over into the regular expression as it is. A compiled route accepts
      nothing but instances of the template exactly when the template has no dot. */
  lemma DotsAreWildcards(ps: seq<Piece>)
    requires GoodAll(ps)
    ensures Usable(CompiledOf(ps))
    ensures (forall path :: Match(ParseRegex(CompiledOf(ps).regex, 0).value, path, 0).Some? ==>
               exists vs :: IsInstance(ps, vs, path))
       <==> DotFree(ps)
  {
    CompiledIsUsable(ps);
    var items := ParseRegex(CompiledOf(ps).regex, 0).value;
    if DotFree(ps) {
      forall path | Match(items, path, 0).Some? ensures exists vs :: IsInstance(ps, vs, path) {
        var cs := Match(items, path, 0).value;
        RouteMatches(ps, path, cs);
        DerivesExactly(ps, cs, path, 0);
        assert path[0..] == path;
        assert IsInstance(ps, cs, path);
      }
    } else {
      var path := Imitation(ps);
      assert path[0..] == path;
      ImitationDerives(ps, path, 0);
      RouteMatches(ps, path, Samples(ps));
      forall vs ensures !IsInstance(ps, vs, path) {
        if Fits(ps, vs) { MoreDots(ps, vs); }
      }
      assert Match(items, path, 0).Some?;
    }
  }

  /** What a dot stands for: any one character but a line feed or a carriage return. */
  lemma DotMatches(path: string)
    ensures Match([Any], path, 0).Some? <==> |path| == 1 && path[0] as int != 10 && path[0] as int != 13
  {
    assert [Any][1..] == [];
  }

  // ---- Parameters that run together

  lemma {:induction false} PathJoined(ps: seq<Piece>, vs: seq<string>, qs: seq<Piece>, ws: seq<string>)
    requires Fits(ps, vs) && Fits(qs, ws)
    ensures Fits(ps + qs, vs + ws) && PathOf(ps + qs, vs + ws) == PathOf(ps, vs) + PathOf(qs, ws)
    decreases |ps|
  {
    if ps == [] {
      assert ps + qs == qs && vs + ws == ws;
    } else {
      assert (ps + qs)[1..] == ps[1..] + qs;
      if ps[0].Lit? {
        PathJoined(ps[1..], vs, qs, ws);
        Assoc([ps[0].c], PathOf(ps[1..], vs), PathOf(qs, ws));
      } else {
        assert (vs + ws)[1..] == vs[1..] + ws;
        PathJoined(ps[1..], vs[1..], qs, ws);
        Assoc(vs[0], PathOf(ps[1..], vs[1..]), PathOf(qs, ws));
      }
    }
  }

  lemma {:induction false} SamplesFit(ps: seq<Piece>)
    ensures Fits(ps, Samples(ps))
  {
    if ps != [] {
      SamplesFit(ps[1..]);
      if ps[0].Param? {
        SampleTyped(KindOf(ps[0].typ));
        assert Samples(ps)[1..] == Samples(ps[1..]);
      } else {
        assert Samples(ps) == Samples(ps[1..]);
      }
    }
  }

  ghost predicate AllGoOn(k: Kind, s: string) { forall j :: 0 <= j < |s| ==> GoesOnWith(k, s[j]) }

  lemma Lengthened(k: Kind, a: string, t: string)
    requires !k.BOOL? && Typed(k, a) && AllGoOn(k, t)
    ensures Typed(k, a + t)
  {
    var s := a + t;
    match k
    case INT =>
      DigitsEndIs(a, 0, |a|);
      DigitsEndIs(s, 0, |s|);
    case FLOAT =>
      var e := DigitsEnd(a, 0);
      DigitsEndIs(a, 0, e);
      DigitsEndIs(a, e + 1, |a|);
      DigitsEndIs(s, 0, e);
      DigitsEndIs(s, e + 1, |s|);
    case STRING =>
  }

  lemma LengthenedInFront(k: Kind, t: string, a: string)
    requires !k.BOOL? && Typed(k, a) && AllGoOn(k, t)
    ensures Typed(k, t + a)
  {
    var s := t + a;
    match k
    case INT =>
      DigitsEndIs(a, 0, |a|);
      DigitsEndIs(s, 0, |s|);
    case FLOAT =>
      var e := DigitsEnd(a, 0);
      DigitsEndIs(a, 0, e);
      DigitsEndIs(a, e + 1, |a|);
      DigitsEndIs(s, 0, |t| + e);
      DigitsEndIs(s, |t| + e + 1, |s|);
    case STRING =>
  }

  /** What is written before the next kind, and that it is digits. */
  lemma {:induction false} DigitsAhead(rest: seq<Piece>) returns (n: nat)
    requires NextKind(rest).Some?
    ensures n < |rest| && rest[n].Param? && KindOf(rest[n].typ) == NextKind(rest).value
    ensures Fits(rest[..n], Samples(rest[..n])) && AllGoOn(INT, PathOf(rest[..n], Samples(rest[..n])))
  {
    if rest[0].Param? { return 0; }
    n := DigitsAhead(rest[1..]);
    BeforeMore(rest, n);
    n := n + 1;
  }

  lemma {:induction false} SlashlessAhead(rest: seq<Piece>) returns (n: nat)
    requires StringAhead(rest)
    ensures n < |rest| && rest[n].Param? && KindOf(rest[n].typ) == STRING
    ensures Fits(rest[..n], Samples(rest[..n])) && AllGoOn(STRING, PathOf(rest[..n], Samples(rest[..n])))
  {
    if rest[0].Param? && KindOf(rest[0].typ).STRING? { return 0; }
    n := SlashlessAhead(rest[1..]);
    BeforeMore(rest, n);
    if rest[0].Param? {
      SampleTyped(KindOf(rest[0].typ));
      TypedHasNoSlash(KindOf(rest[0].typ), Sample(KindOf(rest[0].typ)));
    }
    n := n + 1;
  }

  /** The text in front of a piece, and in front of the piece before it. */
  lemma BeforeMore(rest: seq<Piece>, n: nat)
    requires n + 1 < |rest|
    ensures Fits(rest[..n + 1], Samples(rest[..n + 1])) && Fits(rest[1..][..n], Samples(rest[1..][..n]))
    ensures PathOf(rest[..n + 1], Samples(rest[..n + 1]))
         == SampleOf(rest[0]) + PathOf(rest[1..][..n], Samples(rest[1..][..n]))
  {
    assert rest[..n + 1] == [rest[0]] + rest[1..][..n];
    SampledFirst(rest[0], rest[1..][..n]);
  }

  lemma SampledFirst(p: Piece, more: seq<Piece>)
    ensures Fits(more, Samples(more)) && Fits([p] + more, Samples([p] + more))
    ensures PathOf([p] + more, Samples([p] + more)) == SampleOf(p) + PathOf(more, Samples(more))
  {
    SamplesFit(more);
    SamplesFit([p] + more);
    assert ([p] + more)[1..] == more;
    if p.Param? {
      assert ([SampleOf(p)] + Samples(more))[1..] == Samples(more);
    } else {
      assert [] + Samples(more) == Samples(more);
    }
  }

  /** Two ways to fill in the template with the same path. */
  ghost predicate Confusable(ps: seq<Piece>, vs: seq<string>, ws: seq<string>) {
    vs != ws && Fits(ps, vs) && Fits(ps, ws) && PathOf(ps, vs) == PathOf(ps, ws)
  }

  lemma Shifted(a: string, m: string, b: string, p: string)
    ensures a + (m + (("0" + m + b) + p)) == (a + (m + "0")) + (m + (b + p))
  {
  }

  lemma Stretched(k: Kind, k': Kind, m: string)
    requires !k.BOOL? && !k'.BOOL? && AllGoOn(k, m) && AllGoOn(k', m)
    ensures Typed(k, Sample(k)) && Typed(k, Sample(k) + (m + "0"))
    ensures Typed(k', Sample(k')) && Typed(k', "0" + m + Sample(k'))
  {
    SampleTyped(k);
    SampleTyped(k');
    assert AllGoOn(k, m + "0") && AllGoOn(k', "0" + m);
    Lengthened(k, Sample(k), m + "0");
    LengthenedInFront(k', "0" + m, Sample(k'));
  }

  /** The text between two parameters that can both go on with it can be repeated inside the second, or
      inside the first. */
  lemma StretchEither(ps: seq<Piece>, mid: seq<Piece>, q: Piece, post: seq<Piece>, m: string)
    returns (vs: seq<string>, ws: seq<string>)
    requires ps != [] && ps[0].Param? && q.Param? && ps[1..] == mid + ([q] + post)
    requires Fits(mid, Samples(mid)) && m == PathOf(mid, Samples(mid))
    requires var k, k' := KindOf(ps[0].typ), KindOf(q.typ);
             !k.BOOL? && !k'.BOOL? && AllGoOn(k, m) && AllGoOn(k', m)
    ensures Confusable(ps, vs, ws)
  {
    var a, b, p := Sample(KindOf(ps[0].typ)), Sample(KindOf(q.typ)), Samples(post);
    SamplesFit(post);
    Stretched(KindOf(ps[0].typ), KindOf(q.typ), m);
    vs := [a] + (Samples(mid) + (["0" + m + b] + p));
    ws := [a + (m + "0")] + (Samples(mid) + ([b] + p));
    TwoValues(ps, mid, q, post, vs, a, "0" + m + b);
    TwoValues(ps, mid, q, post, ws, a + (m + "0"), b);
    Shifted(a, m, b, PathOf(post, p));
    assert |vs[0]| < |ws[0]|;
  }

  lemma {:induction false} TwoValues(ps: seq<Piece>, mid: seq<Piece>, q: Piece, post: seq<Piece>, vs: seq<string>,
                                     x: string, y: string)
    requires ps != [] && ps[0].Param? && q.Param? && ps[1..] == mid + ([q] + post)
    requires Typed(KindOf(ps[0].typ), x) && Typed(KindOf(q.typ), y)
    requires Fits(mid, Samples(mid)) && Fits(post, Samples(post))
    requires vs == [x] + (Samples(mid) + ([y] + Samples(post)))
    ensures Fits(ps, vs)
    ensures PathOf(ps, vs) == x + (PathOf(mid, Samples(mid)) + (y + PathOf(post, Samples(post))))
  {
    SecondValue(q, post, y);
    PathJoined(mid, Samples(mid), [q] + post, [y] + Samples(post));
    assert vs[1..] == Samples(mid) + ([y] + Samples(post));
  }

  lemma SecondValue(p: Piece, post: seq<Piece>, y: string)
    requires p.Param? && Typed(KindOf(p.typ), y)
    ensures Fits(post, Samples(post)) && Fits([p] + post, [y] + Samples(post))
    ensures PathOf([p] + post, [y] + Samples(post)) == y + PathOf(post, Samples(post))
  {
    SamplesFit(post);
    assert ([p] + post)[1..] == post && ([y] + Samples(post))[1..] == Samples(post);
  }

  lemma RunTogether(ps: seq<Piece>) returns (vs: seq<string>, ws: seq<string>)
    requires ps != [] && ps[0].Param? && RunsOn(KindOf(ps[0].typ), ps[1..])
    ensures Confusable(ps, vs, ws)
  {
    var n: nat;
    if KindOf(ps[0].typ).STRING? && StringAhead(ps[1..]) {
      n := SlashlessAhead(ps[1..]);
    } else {
      n := DigitsAhead(ps[1..]);
    }
    var mid, post := ps[1..][..n], ps[1..][n + 1..];
    assert ps[1..] == mid + ([ps[1..][n]] + post);
    vs, ws := StretchEither(ps, mid, ps[1..][n], post, PathOf(mid, Samples(mid)));
  }

  lemma {:induction false} CollidingConfusable(ps: seq<Piece>) returns (vs: seq<string>, ws: seq<string>)
    requires Collides(ps)
    ensures Confusable(ps, vs, ws)
    decreases |ps|
  {
    if ps[0].Lit? {
      vs, ws := CollidingConfusable(ps[1..]);
    } else if RunsOn(KindOf(ps[0].typ), ps[1..]) {
      vs, ws := RunTogether(ps);
    } else {
      var vs', ws' := CollidingConfusable(ps[1..]);
      var x := Sample(KindOf(ps[0].typ));
      SampleTyped(KindOf(ps[0].typ));
      vs, ws := [x] + vs', [x] + ws';
      assert vs[1..] == vs' && ws[1..] == ws';
    }
  }

  ghost predicate AllComeBack(ps: seq<Piece>)
    requires Usable(CompiledOf(ps))
  {
    forall vs :: Fits(ps, vs) ==> ComesBack(ps, vs)
  }

  /** Whatever values are put into a route, they come back as its captures: never if two of its
      parameters collide, and always if none do, numbers beside bools apart. */
  lemma ValuesComeBackExactly(ps: seq<Piece>)
    requires GoodAll(ps)
    ensures Usable(CompiledOf(ps))
    ensures Collides(ps) ==> !AllComeBack(ps)
    ensures DotFree(ps) && !BoolBeside(ps, false) ==> (AllComeBack(ps) <==> !Collides(ps))
  {
    CompiledIsUsable(ps);
    if Collides(ps) {
      var vs, ws := CollidingConfusable(ps);
      OneComesBack(ps, vs, ws);
    } else if DotFree(ps) && !BoolBeside(ps, false) {
      forall vs | Fits(ps, vs) ensures ComesBack(ps, vs) { ReadableComesBack(ps, vs); }
    }
  }

  lemma OneComesBack(ps: seq<Piece>, vs: seq<string>, ws: seq<string>)
    requires Usable(CompiledOf(ps)) && Confusable(ps, vs, ws)
    ensures !ComesBack(ps, vs) || !ComesBack(ps, ws)
  {
  }
}
