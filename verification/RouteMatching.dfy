/** Matching a request path against the regular expression of a route, and what it captures. */
module RouteMatching {
  import opened Wrappers
  import opened Text
  import opened Numbers
  import opened RouteCompiler
  import opened Sequences

  // ---- The regular expression

  /** What a route's regular expression is made of; `Any` is the dot. */
  datatype Item = Begin | End | Char(c: char) | Any | Group(kind: Kind)

  function GroupAt(t: string, i: nat): Option<Kind> {
    if Occurs(t, Source(INT), i) then Some(INT)
    else if Occurs(t, Source(FLOAT), i) then Some(FLOAT)
    else if Occurs(t, Source(BOOL), i) then Some(BOOL)
    else if Occurs(t, Source(STRING), i) then Some(STRING)
    else None
  }

  function ItemOf(c: char): Option<Item> {
    if c == '^' then Some(Begin) else if c == '$' then Some(End) else if c == '.' then Some(Any)
    else if IsPlain(c) then Some(Char(c)) else None
  }

  /** The `std::regex` constructor on the texts that routes become; `None` for any other text. */
  function ParseRegex(t: string, i: nat): Option<seq<Item>>
    requires i <= |t|
    decreases |t| - i
  {
    if i == |t| then Some([])
    else
      var group := GroupAt(t, i);
      var item := if group.Some? then Some(Group(group.value)) else ItemOf(t[i]);
      var j := if group.Some? then i + SourceLength(group.value) else i + 1;
      if item.None? || j > |t| then None
      else
        var rest := ParseRegex(t, j);
        if rest.None? then None else Some([item.value] + rest.value)
  }

  function SourceLength(k: Kind): (n: nat)
    ensures n == |Source(k)| > 0
  {
    |Source(k)|
  }

  lemma SourceChars(k: Kind)
    ensures |Source(k)| >= 5 && Source(k)[0] == '('
    ensures Source(k)[1] == if k.BOOL? then 't' else if k.STRING? then '[' else '\\'
    ensures Source(k)[4] == if k.INT? then ')' else if k.FLOAT? then '\\' else if k.BOOL? then 'e' else ']'
  {
  }

  lemma OneSourceAt(t: string, i: nat, k: Kind, k': Kind)
    requires Occurs(t, Source(k), i) && Occurs(t, Source(k'), i)
    ensures k == k'
  {
    SourceChars(k);
    SourceChars(k');
    OccursAt(t, Source(k), i, 1);
    OccursAt(t, Source(k'), i, 1);
    OccursAt(t, Source(k), i, 4);
    OccursAt(t, Source(k'), i, 4);
  }

  lemma GroupFound(t: string, i: nat, k: Kind)
    requires Occurs(t, Source(k), i)
    ensures GroupAt(t, i) == Some(k)
  {
    if GroupAt(t, i).Some? { OneSourceAt(t, i, GroupAt(t, i).value, k); }
  }

  lemma NoGroup(t: string, i: nat)
    requires i < |t| && t[i] != '('
    ensures GroupAt(t, i) == None
  {
    if GroupAt(t, i).Some? {
      SourceChars(GroupAt(t, i).value);
      OccursAt(t, Source(GroupAt(t, i).value), i, 0);
    }
  }

  function PieceItem(p: Piece): Item {
    if p.Param? then Group(KindOf(p.typ)) else if p.c == '.' then Any else Char(p.c)
  }

  function Items(ps: seq<Piece>): seq<Item> {
    if ps == [] then [] else [PieceItem(ps[0])] + Items(ps[1..])
  }

  lemma LitParses(t: string, i: nat, c: char, rest: seq<Item>)
    requires i < |t| && t[i] == c && IsPlain(c) && ParseRegex(t, i + 1) == Some(rest)
    ensures ParseRegex(t, i) == Some([if c == '.' then Any else Char(c)] + rest)
  {
    NoGroup(t, i);
  }

  lemma GroupParses(t: string, i: nat, k: Kind, rest: seq<Item>)
    requires Occurs(t, Source(k), i) && ParseRegex(t, i + |Source(k)|) == Some(rest)
    ensures ParseRegex(t, i) == Some([Group(k)] + rest)
  {
    GroupFound(t, i, k);
  }

  function PieceSource(p: Piece): string {
    if p.Lit? then [p.c] else Source(KindOf(p.typ))
  }

  lemma {:induction false} PieceParses(t: string, i: nat, p: Piece, rest: seq<Item>, a: string)
    requires Good(p) && a == PieceSource(p) && Occurs(t, a, i) && ParseRegex(t, i + |a|) == Some(rest)
    ensures ParseRegex(t, i) == Some([PieceItem(p)] + rest)
  {
    if p.Lit? { LitPieceParses(t, i, p.c, rest, a); } else { GroupPieceParses(t, i, KindOf(p.typ), rest, a); }
  }

  lemma {:induction false} LitPieceParses(t: string, i: nat, c: char, rest: seq<Item>, a: string)
    requires IsPlain(c) && a == [c] && Occurs(t, a, i) && ParseRegex(t, i + |a|) == Some(rest)
    ensures ParseRegex(t, i) == Some([if c == '.' then Any else Char(c)] + rest)
  {
    OccursAt(t, a, i, 0);
    LitParses(t, i, c, rest);
  }

  lemma {:induction false} GroupPieceParses(t: string, i: nat, k: Kind, rest: seq<Item>, a: string)
    requires a == Source(k) && Occurs(t, a, i) && ParseRegex(t, i + |a|) == Some(rest)
    ensures ParseRegex(t, i) == Some([Group(k)] + rest)
  {
    GroupParses(t, i, k, rest);
  }

  lemma SliceFront(t: string, i: nat, j: nat, a: string, b: string)
    requires i <= j <= |t| && t[i..j] == a + b
    ensures Occurs(t, a, i) && i + |a| <= j && t[i + |a|..j] == b
  {
    assert |t[i..j]| == |a| + |b|;
    assert t[i..i + |a|] == t[i..j][..|a|] == a;
    assert t[i + |a|..j] == t[i..j][|a|..] == b;
  }

  lemma {:induction false} BodyParses(t: string, i: nat, j: nat, ps: seq<Piece>, rest: seq<Item>)
    requires i <= j <= |t| && t[i..j] == Body(ps) && GoodAll(ps) && ParseRegex(t, j) == Some(rest)
    ensures ParseRegex(t, i) == Some(Items(ps) + rest)
    decreases |ps|
  {
    if ps == [] {
      assert i == j;
      assert [] + rest == rest;
    } else {
      var a := PieceSource(ps[0]);
      FirstPiece(t, i, j, ps, a);
      BodyParses(t, i + |a|, j, ps[1..], rest);
      FirstParses(t, i, ps, Items(ps[1..]), rest, a);
    }
  }

  lemma {:induction false} FirstPiece(t: string, i: nat, j: nat, ps: seq<Piece>, a: string)
    requires i <= j <= |t| && ps != [] && t[i..j] == Body(ps) && a == PieceSource(ps[0])
    ensures Occurs(t, a, i) && i + |a| <= j && t[i + |a|..j] == Body(ps[1..])
  {
    SliceFront(t, i, j, a, Body(ps[1..]));
  }

  lemma {:induction false} FirstParses(t: string, i: nat, ps: seq<Piece>, more: seq<Item>, rest: seq<Item>, a: string)
    requires ps != [] && Good(ps[0]) && a == PieceSource(ps[0]) && more == Items(ps[1..])
    requires Occurs(t, a, i) && ParseRegex(t, i + |a|) == Some(more + rest)
    ensures ParseRegex(t, i) == Some(Items(ps) + rest)
  {
    PieceParses(t, i, ps[0], more + rest, a);
    Assoc([PieceItem(ps[0])], more, rest);
    assert Items(ps) == [PieceItem(ps[0])] + more;
  }

  lemma EndParses(t: string, i: nat)
    requires i + 1 == |t| && t[i] == '$'
    ensures ParseRegex(t, i) == Some([End])
  {
    NoGroup(t, i);
    assert ParseRegex(t, i + 1) == Some([]);
    assert [End] + [] == [End];
  }

  lemma BeginParses(t: string, rest: seq<Item>)
    requires |t| > 0 && t[0] == '^' && ParseRegex(t, 1) == Some(rest)
    ensures ParseRegex(t, 0) == Some([Begin] + rest)
  {
    NoGroup(t, 0);
  }

  /** The rewritten text, between its anchors, is the regular expression of the template's pieces. */
  lemma AnchoredParses(ps: seq<Piece>)
    requires GoodAll(ps)
    ensures ParseRegex(['^'] + Body(ps) + ['$'], 0) == Some([Begin] + (Items(ps) + [End]))
  {
    var t, n := ['^'] + Body(ps) + ['$'], |Body(ps)|;
    assert t[1..1 + n] == Body(ps);
    EndParses(t, 1 + n);
    BodyParses(t, 1, 1 + n, ps, [End]);
    BeginParses(t, Items(ps) + [End]);
  }

  lemma {:induction false} PlainBody(ps: seq<Piece>)
    requires ParamsOf(ps) == []
    ensures Body(ps) == PrintAll(ps)
  {
    if ps != [] { PlainBody(ps[1..]); }
  }

  lemma PlainParses(ps: seq<Piece>)
    requires GoodAll(ps) && ParamsOf(ps) == []
    ensures ParseRegex(PrintAll(ps), 0) == Some(Items(ps))
  {
    var t := PrintAll(ps);
    PlainBody(ps);
    assert t[0..|t|] == t;
    BodyParses(t, 0, |t|, ps, []);
    assert Items(ps) + [] == Items(ps);
  }

  // ---- Matching

  function DigitsEnd(s: string, i: nat): (e: nat)
    requires i <= |s|
    ensures i <= e <= |s|
    decreases |s| - i
  {
    if i == |s| || !IsDigit(s[i]) then i else DigitsEnd(s, i + 1)
  }

  /** What each group matches. */
  predicate Typed(k: Kind, s: string) {
    match k
    case INT => s != "" && DigitsEnd(s, 0) == |s|
    case FLOAT =>
      var e := DigitsEnd(s, 0);
      0 < e < |s| && s[e] == '.' && e + 1 < |s| && DigitsEnd(s, e + 1) == |s|
    case BOOL => s == "true" || s == "false" || s == "1" || s == "0"
    case STRING => s != "" && forall i :: 0 <= i < |s| ==> s[i] != '/'
  }

  /** The dot matches everything but a line terminator. */
  predicate Ordinary(c: char) { c != '\n' && c != '\r' }

  /** Whether one item that is not a group matches at a position, and how many characters it takes. */
  function Simple(item: Item, path: string, i: nat): (n: Option<nat>)
    requires i <= |path| && !item.Group?
    ensures n.Some? ==> i + n.value <= |path|
  {
    match item
    case Begin => if i == 0 then Some(0) else None
    case End => if i == |path| then Some(0) else None
    case Char(c) => if i < |path| && path[i] == c then Some(1) else None
    case Any => if i < |path| && Ordinary(path[i]) then Some(1) else None
  }

  /** The backtracking matcher: a group tries its longest text first, and the first way to match the
      whole path gives the captures. */
  function Match(items: seq<Item>, path: string, i: nat): Option<seq<string>>
    requires i <= |path|
    decreases |items|, |path| + 1
  {
    if items == [] then if i == |path| then Some([]) else None
    else if items[0].Group? then TryGroup(items, path, i, |path| - i)
    else
      var n := Simple(items[0], path, i);
      if n.None? then None else Match(items[1..], path, i + n.value)
  }

  function TryGroup(items: seq<Item>, path: string, i: nat, n: nat): Option<seq<string>>
    requires i + n <= |path| && items != [] && items[0].Group?
    decreases |items|, n
  {
    if n == 0 then None
    else
      var rest := if Typed(items[0].kind, path[i..i + n]) then Match(items[1..], path, i + n) else None;
      if rest.Some? then Some([path[i..i + n]] + rest.value) else TryGroup(items, path, i, n - 1)
  }

  /** All the ways the items can match the path from a position on. */
  predicate Derives(items: seq<Item>, cs: seq<string>, path: string, i: nat)
    requires i <= |path|
    decreases |items|
  {
    if items == [] then cs == [] && i == |path|
    else if items[0].Group? then
      && cs != [] && Typed(items[0].kind, cs[0]) && Occurs(path, cs[0], i)
      && Derives(items[1..], cs[1..], path, i + |cs[0]|)
    else
      var n := Simple(items[0], path, i);
      n.Some? && Derives(items[1..], cs, path, i + n.value)
  }

  /** The first difference, if any, is a longer text on the left. */
  predicate Greedier(a: seq<string>, b: seq<string>) {
    a == b || (a != [] && b != [] && (|a[0]| > |b[0]| || (a[0] == b[0] && Greedier(a[1..], b[1..]))))
  }

  lemma TypedNotEmpty(k: Kind)
    ensures !Typed(k, "")
  {
  }

  lemma {:induction false} MatchDerives(items: seq<Item>, path: string, i: nat)
    requires i <= |path| && Match(items, path, i).Some?
    ensures Derives(items, Match(items, path, i).value, path, i)
    decreases |items|, |path| + 1
  {
    if items != [] {
      if items[0].Group? {
        TryDerives(items, path, i, |path| - i);
      } else {
        MatchDerives(items[1..], path, i + Simple(items[0], path, i).value);
      }
    }
  }

  lemma {:induction false} TryDerives(items: seq<Item>, path: string, i: nat, n: nat)
    requires i + n <= |path| && items != [] && items[0].Group? && TryGroup(items, path, i, n).Some?
    ensures Derives(items, TryGroup(items, path, i, n).value, path, i)
    decreases |items|, n
  {
    var text := path[i..i + n];
    if Typed(items[0].kind, text) && Match(items[1..], path, i + n).Some? {
      MatchDerives(items[1..], path, i + n);
      DerivesGroup(items, path, i, text, Match(items[1..], path, i + n).value);
    } else {
      TryDerives(items, path, i, n - 1);
    }
  }

  lemma DerivesGroup(items: seq<Item>, path: string, i: nat, text: string, cs: seq<string>)
    requires i + |text| <= |path| && items != [] && items[0].Group?
    requires Typed(items[0].kind, text) && Occurs(path, text, i) && Derives(items[1..], cs, path, i + |text|)
    ensures Derives(items, [text] + cs, path, i)
  {
    assert ([text] + cs)[1..] == cs;
  }

  lemma {:induction false} MatchIsGreediest(items: seq<Item>, cs: seq<string>, path: string, i: nat)
    requires i <= |path| && Derives(items, cs, path, i)
    ensures Match(items, path, i).Some? && Greedier(Match(items, path, i).value, cs)
    decreases |items|, |path| + 1
  {
    if items != [] {
      if items[0].Group? {
        TypedNotEmpty(items[0].kind);
        TryIsGreediest(items, cs, path, i, |path| - i);
      } else {
        MatchIsGreediest(items[1..], cs, path, i + Simple(items[0], path, i).value);
      }
    }
  }

  lemma {:induction false} TryIsGreediest(items: seq<Item>, cs: seq<string>, path: string, i: nat, n: nat)
    requires i + n <= |path| && items != [] && items[0].Group? && Derives(items, cs, path, i)
    requires 0 < |cs[0]| <= n
    ensures TryGroup(items, path, i, n).Some? && Greedier(TryGroup(items, path, i, n).value, cs)
    decreases |items|, n
  {
    var text := path[i..i + n];
    if n == |cs[0]| {
      MatchIsGreediest(items[1..], cs[1..], path, i + n);
      GreedierBehind(text, Match(items[1..], path, i + n).value, cs);
    } else if !(Typed(items[0].kind, text) && Match(items[1..], path, i + n).Some?) {
      TryIsGreediest(items, cs, path, i, n - 1);
    }
  }

  lemma GreedierBehind(text: string, rest: seq<string>, cs: seq<string>)
    requires cs != [] && cs[0] == text && Greedier(rest, cs[1..])
    ensures Greedier([text] + rest, cs)
  {
    assert ([text] + rest)[1..] == rest;
  }

  lemma {:induction false} GreedierIsAntisymmetric(a: seq<string>, b: seq<string>)
    requires Greedier(a, b) && Greedier(b, a)
    ensures a == b
    decreases |a|
  {
    if a != b { GreedierIsAntisymmetric(a[1..], b[1..]); }
  }

  ghost predicate Greediest(items: seq<Item>, cs: seq<string>, path: string, i: nat)
    requires i <= |path|
  {
    Derives(items, cs, path, i) && forall o :: Derives(items, o, path, i) ==> Greedier(cs, o)
  }

  /** The matcher finds a way to match whenever there is one, and of all ways the one whose captures
      are longest, counted from the left. */
  lemma MatchExactly(items: seq<Item>, cs: seq<string>, path: string, i: nat)
    requires i <= |path|
    ensures Match(items, path, i) == Some(cs) <==> Greediest(items, cs, path, i)
  {
    var m := Match(items, path, i);
    if m.Some? { MatchDerives(items, path, i); }
    if m == Some(cs) {
      forall o | Derives(items, o, path, i) ensures Greedier(cs, o) { MatchIsGreediest(items, o, path, i); }
    } else if Greediest(items, cs, path, i) {
      MatchIsGreediest(items, cs, path, i);
      GreedierIsAntisymmetric(cs, m.value);
    }
  }
}
