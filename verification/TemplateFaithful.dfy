/** Which templates are rendered as they are written. */
module TemplateFaithful {
  import opened TemplateSyntax
  import opened TemplateRender
  import opened TemplateMeaning

  /** No `elif`; an else-branch holds no `if` and no include, and its loops stand together behind as many
      text lines as the then-branch has, or behind all its lines, below lines plus loops. */
  predicate Faithful(t: Template)
    decreases t, 2
  {
    match t
    case Done => true
    case TextLine(_, next) => Faithful(next)
    case IncludeFile(_, next) => Faithful(next)
    case ForLoop(_, body, next) => Faithful(body) && Faithful(next)
    case IfElse(_, thn, els, next) =>
      && Faithful(thn) && !els.ElifThen? && Faithful(next)
      && (els.ElseThen? ==> FaithfulElse(els.body, |TextLines(thn)|))
  }

  predicate FaithfulElse(e: Template, c: nat)
    decreases e, 1
  {
    var n := |TextLines(e)|;
    && ElseInPlace(e, 0, if c < n then c else n)
    && (LoopCount(e) > 0 ==> c < n + LoopCount(e))
  }

  /** Text lines, and loops behind exactly `k` of them; `n` lines precede `e`. */
  predicate ElseInPlace(e: Template, n: nat, k: nat)
    decreases e, 0
  {
    match e
    case Done => true
    case TextLine(_, next) => ElseInPlace(next, n + 1, k)
    case IncludeFile(_, _) => false
    case ForLoop(_, body, next) => n == k && Faithful(body) && ElseInPlace(next, n, k)
    case IfElse(_, _, _, _) => false
  }

  lemma {:induction false} FaithfulWithoutElif(t: Template)
    requires Faithful(t)
    ensures WithoutElif(t)
    decreases t, 1
  {
    match t
    case Done =>
    case TextLine(_, next) => FaithfulWithoutElif(next);
    case IncludeFile(_, next) => FaithfulWithoutElif(next);
    case ForLoop(_, body, next) => FaithfulWithoutElif(body); FaithfulWithoutElif(next);
    case IfElse(_, thn, els, next) =>
      FaithfulWithoutElif(thn);
      FaithfulWithoutElif(next);
      if els.ElseThen? {
        var c, n := |TextLines(thn)|, |TextLines(els.body)|;
        InPlaceWithoutElif(els.body, 0, if c < n then c else n);
      }
  }

  lemma {:induction false} InPlaceWithoutElif(e: Template, n: nat, k: nat)
    requires ElseInPlace(e, n, k)
    ensures WithoutElif(e)
    decreases e, 0
  {
    match e
    case Done =>
    case TextLine(_, next) => InPlaceWithoutElif(next, n + 1, k);
    case ForLoop(_, body, next) => FaithfulWithoutElif(body); InPlaceWithoutElif(next, n, k);
  }

  // ---- Sizes

  function Count(t: Template): nat { if t.Done? then 0 else 1 + Count(t.next) }

  lemma {:induction false} CountRendered(t: Template)
    requires WithoutElif(t)
    ensures Count(AsRendered(t)) == Count(t)
  {
    if !t.Done? { CountRendered(t.next); }
  }

  lemma {:induction false} CountAppend(a: Template, b: Template)
    ensures Count(Append(a, b)) == Count(a) + Count(b)
    ensures b.Done? ==> Append(a, b) == a
  {
    if !a.Done? { CountAppend(a.next, b); }
  }

  lemma ThenExactly(thn: Template, strays: Template)
    requires WithoutElif(thn)
    ensures Append(AsRendered(thn), strays) == thn <==> AsRendered(thn) == thn && strays.Done?
  {
    CountRendered(thn);
    CountAppend(AsRendered(thn), strays);
  }

  // ---- Else-branches

  lemma {:induction false} InPlaceHasNoStrays(e: Template, n: nat, k: nat)
    requires WithoutElif(e) && ElseInPlace(e, n, k)
    ensures Strays(e) == Done
  {
    match e
    case Done =>
    case TextLine(_, next) => InPlaceHasNoStrays(next, n + 1, k);
    case ForLoop(_, _, next) => InPlaceHasNoStrays(next, n, k);
  }

  /** Text lines only. */
  lemma {:induction false} OnlyLines(e: Template, n: nat, k: nat)
    requires WithoutElif(e)
    ensures e == Lines(TextLines(e)) <==> ElseInPlace(e, n, k) && LoopCount(e) == 0
    ensures k < n ==> (ElseInPlace(e, n, k) <==> e == Lines(TextLines(e)))
    ensures LoopCount(e) == 0 <==> Loops(e) == Done
  {
    match e
    case Done =>
    case TextLine(_, next) =>
      OnlyLines(next, n + 1, k);
      assert TextLines(e)[1..] == TextLines(next);
    case IncludeFile(_, next) => OnlyLines(next, n, k); LinesStart(TextLines(e));
    case ForLoop(_, _, next) => LinesStart(TextLines(e));
    case IfElse(_, _, _, next) => OnlyLines(next, n, k); LinesStart(TextLines(e));
  }

  lemma LinesStart(ls: seq<Line>)
    ensures Lines(ls).Done? || Lines(ls).TextLine?
  {
  }

  lemma {:induction false} LoopsStart(e: Template, rest: Template)
    requires WithoutElif(e)
    ensures Append(Loops(e), rest).ForLoop? || (Loops(e).Done? && Append(Loops(e), rest) == rest)
  {
    match e
    case Done =>
    case TextLine(_, next) => LoopsStart(next, rest);
    case IncludeFile(_, next) => LoopsStart(next, rest);
    case ForLoop(_, _, _) =>
    case IfElse(_, _, _, next) => LoopsStart(next, rest);
  }

  /** The else-branch is `j` lines, its loops and the other lines exactly if it is in place. */
  lemma {:induction false} InPlaceExactly(e: Template, n: nat, j: nat)
    requires WithoutElif(e) && j <= |TextLines(e)|
    ensures var ls := TextLines(e);
            e == Append(Lines(ls[..j]), Append(Loops(e), Lines(ls[j..]))) <==> ElseInPlace(e, n, n + j)
    decreases e, 0
  {
    var ls := TextLines(e);
    var behind := Append(Loops(e), Lines(ls[j..]));
    LoopsStart(e, Lines(ls[j..]));
    LinesStart(ls[j..]);
    match e
    case Done =>
    case TextLine(line, next) =>
      assert ls[1..] == TextLines(next);
      if j > 0 {
        assert ls[..j][1..] == TextLines(next)[..j - 1] && ls[j..] == TextLines(next)[j - 1..];
        InPlaceExactly(next, n + 1, j - 1);
      } else {
        assert ls[0..] == ls && ls[..0] == [];
        OnlyLines(next, n + 1, n);
      }
    case IncludeFile(_, _) =>
    case ForLoop(header, body, next) =>
      if j == 0 {
        assert ls[..0] == [];
        InPlaceExactly(next, n, 0);
        FaithfulExactly(body);
      }
    case IfElse(_, _, _, _) =>
  }

  lemma {:induction false} ElseFaithfully(t: Template)
    requires t.IfElse? && WithoutElif(t) && t.els.ElseThen?
    ensures ElseAsRendered(t) == t.els && Strays(t.els.body) == Done <==> FaithfulElse(t.els.body, |TextLines(t.thn)|)
    decreases t, 0
  {
    var e, c := t.els.body, |TextLines(t.thn)|;
    var ls := TextLines(e);
    var k := if c < |ls| then c else |ls|;
    OnlyLines(e, 0, k);
    if ElseInPlace(e, 0, k) { InPlaceHasNoStrays(e, 0, k); }
    if c < |ls| + LoopCount(e) { InPlaceExactly(e, 0, k); }
  }

  /** A template is rendered as it is written exactly if it is faithful. */
  lemma {:induction false} FaithfulExactly(t: Template)
    requires WithoutElif(t)
    ensures AsRendered(t) == t <==> Faithful(t)
    decreases t, 1
  {
    match t
    case Done =>
    case TextLine(_, next) => FaithfulExactly(next);
    case IncludeFile(_, next) => FaithfulExactly(next);
    case ForLoop(_, body, next) => FaithfulExactly(body); FaithfulExactly(next);
    case IfElse(_, thn, els, next) =>
      FaithfulExactly(thn);
      FaithfulExactly(next);
      if els.ElseThen? {
        ElseFaithfully(t);
        ThenExactly(thn, Strays(els.body));
      }
  }

  /** Templates that parse to the right tree are faithful, but not only they: a loop at the end of an
      else-branch of fewer lines than the then-branch is misplaced in the tree and not in the output. */
  lemma {:induction false} GoodIsFaithful(t: Template)
    requires Good(t)
    ensures Faithful(t)
    decreases t, 1
  {
    match t
    case Done =>
    case TextLine(_, next) => GoodIsFaithful(next);
    case IncludeFile(_, next) => GoodIsFaithful(next);
    case ForLoop(_, body, next) => GoodIsFaithful(body); GoodIsFaithful(next);
    case IfElse(_, thn, els, next) =>
      GoodIsFaithful(thn);
      GoodIsFaithful(next);
      if els.ElseThen? { GoodElseInPlace(els.body, 0, |TextLines(thn)|); }
  }

  lemma {:induction false} GoodElseInPlace(e: Template, n: nat, c: nat)
    requires GoodElse(e, n, c)
    ensures var m := n + |TextLines(e)|;
            ElseInPlace(e, n, if c < m then c else m) && (LoopCount(e) > 0 ==> n <= c <= m)
    decreases e, 0
  {
    match e
    case Done =>
    case TextLine(_, next) => GoodElseInPlace(next, n + 1, c);
    case ForLoop(_, body, next) => GoodIsFaithful(body); GoodElseInPlace(next, n, c);
  }

  // ---- Faithful sites

  ghost predicate FaithfulSite(files: Files) { forall p :: p in files ==> Faithful(files[p]) }

  lemma SiteAsRendered(files: Files)
    requires FaithfulSite(files)
    ensures NoElifs(files) && Rendered(files) == files
  {
    forall p | p in files ensures WithoutElif(files[p]) && AsRendered(files[p]) == files[p] {
      FaithfulWithoutElif(files[p]);
      FaithfulExactly(files[p]);
    }
  }

  /** Meaning preservation: on a site of faithful files a faithful template is rendered to its meaning,
      whatever the engine, the environment and the include depth. */
  lemma RenderingIsInterpreting(g: Engine, cache: Cache, files: Files, depth: nat, t: Template, env: Env)
    requires Faithful(t) && FaithfulSite(files) && Cached(cache, files) && Closed(cache.Keys, t)
    ensures RenderLines(g, cache, depth, Print(t, []), env) == Interpret(g, files, depth, t, env)
  {
    FaithfulWithoutElif(t);
    FaithfulExactly(t);
    SiteAsRendered(files);
    RenderedAs(g, cache, files, depth, t, env);
  }
}
