/** What parser and renderer together make of a template. */
module TemplateMeaning {
  import opened Sequences
  import opened TemplateSyntax
  import opened TemplateRender
  import opened TemplateMerge

  // ---- One template after another

  /** The lines of `a`, then the lines of `b`. */
  function Append(a: Template, b: Template): Template {
    match a
    case Done => b
    case TextLine(line, next) => TextLine(line, Append(next, b))
    case IncludeFile(path, next) => IncludeFile(path, Append(next, b))
    case ForLoop(header, body, next) => ForLoop(header, body, Append(next, b))
    case IfElse(cond, thn, els, next) => IfElse(cond, thn, els, Append(next, b))
  }

  function Sequence(g: Engine, files: Files, depth: nat, o: Outcome, b: Template): Outcome {
    if o.Ok? then Before(o.out, Interpret(g, files, depth, b, o.env)) else o
  }

  lemma SequenceBefore(g: Engine, files: Files, depth: nat, s: string, o: Outcome, b: Template)
    ensures Sequence(g, files, depth, Before(s, o), b) == Before(s, Sequence(g, files, depth, o, b))
  {
    if o.Ok? { BeforeTwice(s, o.out, Interpret(g, files, depth, b, o.env)); }
  }

  lemma {:induction false} InterpretAppend(g: Engine, files: Files, depth: nat, a: Template, b: Template, env: Env)
    ensures Interpret(g, files, depth, Append(a, b), env)
         == Sequence(g, files, depth, Interpret(g, files, depth, a, env), b)
    decreases a, 0
  {
    match a
    case Done => BeforeNothing(Interpret(g, files, depth, b, env));
    case TextLine(line, next) =>
      InterpretAppend(g, files, depth, next, b, env);
      var s := RenderLine(g, line, env);
      if s.Some? { SequenceBefore(g, files, depth, s.value + "\n", Interpret(g, files, depth, next, env), b); }
    case IncludeFile(path, next) =>
      if depth > 0 && path in files {
        AppendAfter(g, files, depth, Interpret(g, files, depth - 1, files[path], env), next, b);
      }
    case ForLoop(header, body, next) =>
      AppendAfter(g, files, depth, InterpretLoop(g, files, depth, body, PlanOf(g, header, env), env), next, b);
    case IfElse(cond, thn, els, next) =>
      var truth := g.truth(cond, env);
      if truth.Some? {
        var o := if truth.value then Interpret(g, files, depth, thn, env) else InterpretElse(g, files, depth, els, env);
        AppendAfter(g, files, depth, o, next, b);
      }
  }

  lemma {:induction false} AppendAfter(g: Engine, files: Files, depth: nat, o: Outcome, next: Template, b: Template)
    ensures Sequence(g, files, depth, o, Append(next, b))
         == Sequence(g, files, depth, Sequence(g, files, depth, o, next), b)
    decreases next, 1
  {
    if o.Ok? {
      InterpretAppend(g, files, depth, next, b, o.env);
      SequenceBefore(g, files, depth, o.out, Interpret(g, files, depth, next, o.env), b);
    }
  }

  // ---- The template that is rendered in the place of the one that was written

  function Lines(ls: seq<Line>): Template {
    if ls == [] then Done else TextLine(ls[0], Lines(ls[1..]))
  }

  /** Outside else-branches nothing moves. */
  function AsRendered(t: Template): Template
    requires WithoutElif(t)
    decreases t, 1
  {
    match t
    case Done => Done
    case TextLine(line, next) => TextLine(line, AsRendered(next))
    case IncludeFile(path, next) => IncludeFile(path, AsRendered(next))
    case ForLoop(header, body, next) => ForLoop(header, AsRendered(body), AsRendered(next))
    case IfElse(cond, _, _, next) => IfElse(cond, ThenAsRendered(t), ElseAsRendered(t), AsRendered(next))
  }

  /** The then-branch, and behind it the `if`s and includes of the else-branch. */
  function ThenAsRendered(t: Template): Template
    requires t.IfElse? && WithoutElif(t)
    decreases t, 0
  {
    if t.els.NoElse? then AsRendered(t.thn) else Append(AsRendered(t.thn), Strays(t.els.body))
  }

  /** The text lines of the else-branch, with all its loops together behind as many of them as the
      then-branch has, or behind all of them; if that is at or beyond lines plus loops, without loops. */
  function ElseAsRendered(t: Template): Branches
    requires t.IfElse? && WithoutElif(t)
    decreases t, 0
  {
    if t.els.NoElse? then NoElse
    else
      var e, ls, c := t.els.body, TextLines(t.els.body), |TextLines(t.thn)|;
      if c < |ls| + LoopCount(e) then ElseThen(Bunched(ls, Loops(e), c)) else ElseThen(Lines(ls))
  }

  function Bunched(ls: seq<Line>, loops: Template, c: nat): Template {
    var k := if c < |ls| then c else |ls|;
    Append(Lines(ls[..k]), Append(loops, Lines(ls[k..])))
  }

  function LoopCount(e: Template): nat {
    match e
    case Done => 0
    case TextLine(_, next) => LoopCount(next)
    case IncludeFile(_, next) => LoopCount(next)
    case ForLoop(_, _, next) => 1 + LoopCount(next)
    case IfElse(_, _, _, next) => LoopCount(next)
  }

  /** The loops of an else-branch. */
  function Loops(e: Template): Template
    requires WithoutElif(e)
    decreases e, 1
  {
    match e
    case Done => Done
    case TextLine(_, next) => Loops(next)
    case IncludeFile(_, next) => Loops(next)
    case ForLoop(header, body, next) => ForLoop(header, AsRendered(body), Loops(next))
    case IfElse(_, _, _, next) => Loops(next)
  }

  /** The `if`s and includes of an else-branch. */
  function Strays(e: Template): Template
    requires WithoutElif(e)
    decreases e, 1
  {
    match e
    case Done => Done
    case TextLine(_, next) => Strays(next)
    case IncludeFile(path, next) => IncludeFile(path, Strays(next))
    case ForLoop(_, _, next) => Strays(next)
    case IfElse(cond, _, _, next) => IfElse(cond, ThenAsRendered(e), ElseAsRendered(e), Strays(next))
  }

  ghost predicate NoElifs(files: Files) { forall p :: p in files ==> WithoutElif(files[p]) }

  function Rendered(files: Files): Files
    requires NoElifs(files)
  {
    map p | p in files :: AsRendered(files[p])
  }

  // ---- The merges of a parsed block

  function LineItems(ls: seq<Line>): seq<Item> {
    if ls == [] then [] else [LineItem(ls[0])] + LineItems(ls[1..])
  }

  function ChildItems(bs: seq<Block>): seq<Item> {
    if bs == [] then [] else [ChildItem(bs[0])] + ChildItems(bs[1..])
  }

  /** The statements of a template in order, as the blocks they are parsed to. */
  function ParsedItems(t: Template, n: nat): seq<Item>
    requires WithoutElif(t)
  {
    match t
    case Done => []
    case TextLine(line, next) => [LineItem(line)] + ParsedItems(next, n + 1)
    case IncludeFile(path, next) => [ChildItem(Open(INCLUDE, path, n))] + ParsedItems(next, n)
    case ForLoop(header, body, next) => [ChildItem(ParsedLoop(header, body, n))] + ParsedItems(next, n)
    case IfElse(_, _, _, next) => [ChildItem(ParsedIf(t, n))] + ParsedItems(next, n)
  }

  lemma {:induction false} FirstKid(t: Template, n: nat)
    requires WithoutElif(t)
    ensures ParsedKids(t, n) != [] ==> ParsedKids(t, n)[0].indexToPlace >= n
  {
    match t
    case TextLine(_, next) => FirstKid(next, n + 1);
    case _ =>
  }

  lemma {:induction false} MergeItems(t: Template, n: nat)
    requires WithoutElif(t)
    ensures Merge(TextLines(t), ParsedKids(t, n), n) == ParsedItems(t, n)
  {
    match t
    case Done =>
    case TextLine(line, next) =>
      FirstKid(next, n + 1);
      MergeItems(next, n + 1);
      MergeLine(line, TextLines(next), ParsedKids(next, n + 1), n);
    case IncludeFile(path, next) =>
      MergeItems(next, n);
      MergeChild(TextLines(next), Open(INCLUDE, path, n), ParsedKids(next, n), n);
    case ForLoop(header, body, next) =>
      MergeItems(next, n);
      MergeChild(TextLines(next), ParsedLoop(header, body, n), ParsedKids(next, n), n);
    case IfElse(_, _, _, next) =>
      MergeItems(next, n);
      MergeChild(TextLines(next), ParsedIf(t, n), ParsedKids(next, n), n);
  }

  lemma MergeLine(line: Line, lines: seq<Line>, kids: seq<Block>, n: nat)
    requires kids != [] ==> n < kids[0].indexToPlace
    ensures Merge([line] + lines, kids, n) == [LineItem(line)] + Merge(lines, kids, n + 1)
  {
    assert ([line] + lines)[1..] == lines;
  }

  lemma MergeChild(lines: seq<Line>, child: Block, kids: seq<Block>, n: nat)
    requires child.indexToPlace <= n || lines == []
    ensures Merge(lines, [child] + kids, n) == [ChildItem(child)] + Merge(lines, kids, n)
  {
    assert ([child] + kids)[1..] == kids;
  }

  /** Children placed at `c`. */
  ghost predicate At(bunch: seq<Block>, c: int) { forall i :: 0 <= i < |bunch| ==> bunch[i].indexToPlace == c }

  lemma {:induction false} MergeFront(lines: seq<Line>, bunch: seq<Block>, n: nat, c: nat)
    requires At(bunch, c) && (c <= n || lines == [])
    ensures Merge(lines, bunch, n) == ChildItems(bunch) + LineItems(lines)
    decreases |lines| + |bunch|
  {
    if bunch != [] {
      MergeFront(lines, bunch[1..], n, c);
      Assoc([ChildItem(bunch[0])], ChildItems(bunch[1..]), LineItems(lines));
    } else if lines != [] {
      MergeFront(lines[1..], bunch, n + 1, n + 1);
      assert [] + LineItems(lines) == LineItems(lines) && [] + LineItems(lines[1..]) == LineItems(lines[1..]);
    }
  }

  /** A bunch of children stands behind `c` lines, or behind all of them. */
  lemma {:induction false} MergeBunch(lines: seq<Line>, bunch: seq<Block>, n: nat, c: nat)
    requires At(bunch, c) && n <= c
    ensures var k := if c - n < |lines| then c - n else |lines|;
            Merge(lines, bunch, n) == LineItems(lines[..k]) + (ChildItems(bunch) + LineItems(lines[k..]))
    decreases |lines|
  {
    if n == c || lines == [] {
      MergeFront(lines, bunch, n, c);
      assert lines[0..] == lines;
      assert [] + (ChildItems(bunch) + LineItems(lines)) == ChildItems(bunch) + LineItems(lines);
    } else {
      var k := if c - n < |lines| then c - n else |lines|;
      MergeBunch(lines[1..], bunch, n + 1, c);
      assert lines[..k][1..] == lines[1..][..k - 1] && lines[1..][k - 1..] == lines[k..];
      Assoc([LineItem(lines[0])], LineItems(lines[1..][..k - 1]), ChildItems(bunch) + LineItems(lines[k..]));
    }
  }

  /** Children placed behind everything come last. */
  lemma {:induction false} MergeTail(lines: seq<Line>, kids: seq<Block>, tail: seq<Block>, n: nat)
    requires forall i :: 0 <= i < |tail| ==> tail[i].indexToPlace == n + |lines|
    ensures Merge(lines, kids + tail, n) == Merge(lines, kids, n) + ChildItems(tail)
    decreases |lines| + |kids|
  {
    if kids != [] && (kids[0].indexToPlace <= n || lines == []) {
      assert (kids + tail)[1..] == kids[1..] + tail;
      MergeTail(lines, kids[1..], tail, n);
      Assoc([ChildItem(kids[0])], Merge(lines, kids[1..], n), ChildItems(tail));
    } else if lines != [] {
      MergeTail(lines[1..], kids, tail, n + 1);
      Assoc([LineItem(lines[0])], Merge(lines[1..], kids, n + 1), ChildItems(tail));
    } else {
      assert kids + tail == tail;
      MergeFront([], tail, n, n);
      assert ChildItems(tail) + LineItems([]) == ChildItems(tail);
      assert [] + ChildItems(tail) == ChildItems(tail);
    }
  }

  lemma {:induction false} StraysAt(e: Template, c: nat)
    requires WithoutElif(e)
    ensures At(StrayKids(e, c), c)
  {
    match e
    case Done =>
    case TextLine(_, next) => StraysAt(next, c);
    case IncludeFile(_, next) => StraysAt(next, c);
    case ForLoop(_, _, next) => StraysAt(next, c);
    case IfElse(_, _, _, next) => StraysAt(next, c);
  }

  lemma {:induction false} LoopsAt(e: Template, c: nat)
    requires WithoutElif(e)
    ensures At(ElseLoops(e, c), c) && |ElseLoops(e, c)| == LoopCount(e)
  {
    match e
    case Done =>
    case TextLine(_, next) => LoopsAt(next, c);
    case IncludeFile(_, next) => LoopsAt(next, c);
    case ForLoop(_, _, next) => LoopsAt(next, c);
    case IfElse(_, _, _, next) => LoopsAt(next, c);
  }

  // ---- What is visited in the two branches of a parsed `if`

  lemma {:induction false} KidsPlaced(t: Template, n: nat)
    requires WithoutElif(t)
    ensures forall i :: 0 <= i < |ParsedKids(t, n)| ==> n <= ParsedKids(t, n)[i].indexToPlace <= n + |TextLines(t)|
    ensures Ordered(ParsedKids(t, n))
  {
    match t
    case Done =>
    case TextLine(_, next) => KidsPlaced(next, n + 1);
    case IncludeFile(_, next) => KidsPlaced(next, n);
    case ForLoop(_, _, next) => KidsPlaced(next, n);
    case IfElse(_, _, _, next) => KidsPlaced(next, n);
  }

  lemma TreeVisits(t: Template)
    requires WithoutElif(t)
    ensures Visits(TextLines(t), ParsedKids(t, 0), 0, 0) == ParsedItems(t, 0)
  {
    KidsPlaced(t, 0);
    PlacedVisits(TextLines(t), ParsedKids(t, 0));
    MergeItems(t, 0);
  }

  lemma ThenVisits(thn: Template, e: Template)
    requires WithoutElif(thn) && WithoutElif(e)
    ensures var c := |TextLines(thn)|;
            Visits(TextLines(thn), ParsedKids(thn, 0) + StrayKids(e, c), 0, 0)
            == ParsedItems(thn, 0) + ChildItems(StrayKids(e, c))
  {
    var c := |TextLines(thn)|;
    KidsPlaced(thn, 0);
    StraysAt(e, c);
    PlacedVisits(TextLines(thn), ParsedKids(thn, 0) + StrayKids(e, c));
    MergeTail(TextLines(thn), ParsedKids(thn, 0), StrayKids(e, c), 0);
    MergeItems(thn, 0);
  }

  lemma ElseVisits(e: Template, c: nat)
    requires WithoutElif(e)
    ensures var ls, loops := TextLines(e), ElseLoops(e, c);
            var k := if c < |ls| then c else |ls|;
            Visits(ls, loops, 0, 0)
            == if c < |ls| + LoopCount(e) then LineItems(ls[..k]) + (ChildItems(loops) + LineItems(ls[k..]))
               else LineItems(ls)
  {
    LoopsAt(e, c);
    BunchVisits(TextLines(e), ElseLoops(e, c), c);
  }

  /** Children at one place: all are visited, or none. */
  lemma {:induction false} BunchVisits(ls: seq<Line>, loops: seq<Block>, c: nat)
    requires At(loops, c)
    ensures var k := if c < |ls| then c else |ls|;
            Visits(ls, loops, 0, 0)
            == if c < |ls| + |loops| then LineItems(ls[..k]) + (ChildItems(loops) + LineItems(ls[k..]))
               else LineItems(ls)
  {
    VisitsAreMerge(ls, loops);
    if loops != [] {
      ReachedExactly(loops, |ls| + |loops|, 0);
      ReachedExactly(loops, |ls| + |loops|, |loops| - 1);
    }
    if c < |ls| + |loops| {
      assert loops[..|loops|] == loops;
      MergeBunch(ls, loops, 0, c);
    } else {
      assert loops[..0] == [];
      MergeFront(ls, [], 0, 0);
      assert [] + LineItems(ls) == LineItems(ls);
    }
  }

  // ---- What is rendered

  /** Every file that `t` itself includes is known. */
  predicate Closed(known: set<string>, t: Template) {
    match t
    case Done => true
    case TextLine(_, next) => Closed(known, next)
    case IncludeFile(path, next) => path in known && Closed(known, next)
    case ForLoop(_, body, next) => Closed(known, body) && Closed(known, next)
    case IfElse(_, thn, els, next) => Closed(known, thn) && ClosedElse(known, els) && Closed(known, next)
  }

  predicate ClosedElse(known: set<string>, els: Branches) {
    match els
    case NoElse => true
    case ElseThen(body) => Closed(known, body)
    case ElifThen(_, body, more) => Closed(known, body) && ClosedElse(known, more)
  }

  function ParsedTree(t: Template): Block
    requires WithoutElif(t)
  {
    Block(ROOT, "", -1, TextLines(t), [], ParsedKids(t, 0))
  }

  lemma ParsesToParsedTree(t: Template)
    requires WithoutElif(t)
    ensures Parse(Print(t, []), Root) == Parsed(ParsedTree(t), [])
  {
    ParsePrinted(t, Root, []);
    assert [] + TextLines(t) == TextLines(t) && [] + ParsedKids(t, 0) == ParsedKids(t, 0);
  }

  /** The cache holds, for every path in it, what its file is parsed to, and what the file includes. */
  ghost predicate Cached(cache: Cache, files: Files) {
    && NoElifs(files)
    && forall p :: p in cache ==> p in files && cache[p] == ParsedTree(files[p]) && Closed(cache.Keys, files[p])
  }

  /** Rendering what a template is parsed to is interpreting the template it is rendered as: same output,
      same environment, same failure, for every engine, every environment and every include depth. */
  lemma {:induction false} TreeRenders(g: Engine, cache: Cache, files: Files, depth: nat, t: Template, env: Env)
    requires Cached(cache, files) && Closed(cache.Keys, t) && WithoutElif(t)
    ensures RenderAll(g, cache, depth, TextLines(t), ParsedKids(t, 0), env)
         == Interpret(g, Rendered(files), depth, AsRendered(t), env)
    decreases depth, t, 3, 0
  {
    RenderVisits(g, cache, depth, TextLines(t), ParsedKids(t, 0), 0, 0, env);
    TreeVisits(t);
    ItemsRender(g, cache, files, depth, t, 0, env);
  }

  lemma {:induction false} ItemsRender(g: Engine, cache: Cache, files: Files, depth: nat, t: Template, n: nat, env: Env)
    requires Cached(cache, files) && Closed(cache.Keys, t) && WithoutElif(t)
    ensures RenderItems(g, cache, depth, ParsedItems(t, n), env)
         == Interpret(g, Rendered(files), depth, AsRendered(t), env)
    decreases depth, t, 2, 0
  {
    match t
    case Done =>
    case TextLine(line, next) =>
      RenderItemsCons(g, cache, depth, LineItem(line), ParsedItems(next, n + 1), env);
      ItemsRender(g, cache, files, depth, next, n + 1, env);
    case IncludeFile(path, next) =>
      RenderItemsCons(g, cache, depth, ChildItem(Open(INCLUDE, path, n)), ParsedItems(next, n), env);
      IncludeRenders(g, cache, files, depth, t, path, n, env);
      var o := RenderChild(g, cache, depth, Open(INCLUDE, path, n), env);
      if o.Ok? { ItemsRender(g, cache, files, depth, next, n, o.env); }
    case ForLoop(header, body, next) =>
      RenderItemsCons(g, cache, depth, ChildItem(ParsedLoop(header, body, n)), ParsedItems(next, n), env);
      var plan := PlanOf(g, header, env);
      LoopRenders(g, cache, files, depth, header, body, n, plan, env);
      var o := RenderLoop(g, cache, depth, ParsedLoop(header, body, n), plan, env);
      if o.Ok? { ItemsRender(g, cache, files, depth, next, n, o.env); }
    case IfElse(_, _, _, next) =>
      RenderItemsCons(g, cache, depth, ChildItem(ParsedIf(t, n)), ParsedItems(next, n), env);
      IfRenders(g, cache, files, depth, t, n, env);
      var o := RenderIf(g, cache, depth, ParsedIf(t, n), env);
      if o.Ok? { ItemsRender(g, cache, files, depth, next, n, o.env); }
  }

  lemma {:induction false} IncludeRenders(g: Engine, cache: Cache, files: Files, depth: nat, t: Template, path: string,
                                          n: nat, env: Env)
    requires t.IncludeFile? && t.path == path && Cached(cache, files) && path in cache
    ensures RenderChild(g, cache, depth, Open(INCLUDE, path, n), env)
         == if depth == 0 then TooDeep else Interpret(g, Rendered(files), depth - 1, Rendered(files)[path], env)
    decreases depth, t, 0, 0
  {
    if depth > 0 { TreeRenders(g, cache, files, depth - 1, files[path], env); }
  }

  // ---- Branches

  lemma {:induction false} IfRenders(g: Engine, cache: Cache, files: Files, depth: nat, t: Template, n: nat, env: Env)
    requires t.IfElse? && Cached(cache, files) && Closed(cache.Keys, t) && WithoutElif(t)
    ensures RenderIf(g, cache, depth, ParsedIf(t, n), env)
         == var truth := g.truth(t.cond, env);
            if truth.None? then Threw
            else if truth.value then Interpret(g, Rendered(files), depth, ThenAsRendered(t), env)
            else InterpretElse(g, Rendered(files), depth, ElseAsRendered(t), env)
    decreases depth, t, 1, 0
  {
    if t.els.NoElse? {
      TreeRenders(g, cache, files, depth, t.thn, env);
    } else {
      ThenRenders(g, cache, files, depth, t, env);
      ElseRenders(g, cache, files, depth, t.els.body, |TextLines(t.thn)|, env);
    }
  }

  lemma {:induction false} ThenRenders(g: Engine, cache: Cache, files: Files, depth: nat, t: Template, env: Env)
    requires t.IfElse? && t.els.ElseThen? && Cached(cache, files) && Closed(cache.Keys, t) && WithoutElif(t)
    ensures var thn, e := t.thn, t.els.body;
            RenderAll(g, cache, depth, TextLines(thn), ParsedKids(thn, 0) + StrayKids(e, |TextLines(thn)|), env)
            == Interpret(g, Rendered(files), depth, Append(AsRendered(thn), Strays(e)), env)
    decreases depth, t, 0, 0
  {
    var thn, e := t.thn, t.els.body;
    var c := |TextLines(thn)|;
    RenderVisits(g, cache, depth, TextLines(thn), ParsedKids(thn, 0) + StrayKids(e, c), 0, 0, env);
    ThenVisits(thn, e);
    RenderItemsJoined(g, cache, depth, ParsedItems(thn, 0), ChildItems(StrayKids(e, c)), env);
    InterpretAppend(g, Rendered(files), depth, AsRendered(thn), Strays(e), env);
    ItemsRender(g, cache, files, depth, thn, 0, env);
    var o := RenderItems(g, cache, depth, ParsedItems(thn, 0), env);
    if o.Ok? { StraysRender(g, cache, files, depth, e, c, o.env); }
  }

  lemma {:induction false} StraysRender(g: Engine, cache: Cache, files: Files, depth: nat, e: Template, c: nat,
                                        env: Env)
    requires Cached(cache, files) && Closed(cache.Keys, e) && WithoutElif(e)
    ensures RenderItems(g, cache, depth, ChildItems(StrayKids(e, c)), env)
         == Interpret(g, Rendered(files), depth, Strays(e), env)
    decreases depth, e, 2, 0
  {
    match e
    case Done =>
    case TextLine(_, next) => StraysRender(g, cache, files, depth, next, c, env);
    case IncludeFile(path, next) =>
      var child := Open(INCLUDE, path, c);
      FirstChildItem(child, StrayKids(next, c));
      RenderItemsCons(g, cache, depth, ChildItem(child), ChildItems(StrayKids(next, c)), env);
      IncludeRenders(g, cache, files, depth, e, path, c, env);
      var o := RenderChild(g, cache, depth, child, env);
      if o.Ok? { StraysRender(g, cache, files, depth, next, c, o.env); }
    case ForLoop(_, _, next) => StraysRender(g, cache, files, depth, next, c, env);
    case IfElse(_, _, _, next) =>
      var child := ParsedIf(e, c);
      FirstChildItem(child, StrayKids(next, c));
      RenderItemsCons(g, cache, depth, ChildItem(child), ChildItems(StrayKids(next, c)), env);
      IfRenders(g, cache, files, depth, e, c, env);
      var o := RenderIf(g, cache, depth, child, env);
      if o.Ok? { StraysRender(g, cache, files, depth, next, c, o.env); }
  }

  lemma FirstChildItem(child: Block, rest: seq<Block>)
    ensures ChildItems([child] + rest) == [ChildItem(child)] + ChildItems(rest)
  {
    assert ([child] + rest)[1..] == rest;
  }

  lemma {:induction false} LinesRender(g: Engine, cache: Cache, files: Files, depth: nat, ls: seq<Line>, env: Env)
    ensures RenderItems(g, cache, depth, LineItems(ls), env) == Interpret(g, files, depth, Lines(ls), env)
    decreases |ls|
  {
    if ls != [] {
      RenderItemsCons(g, cache, depth, LineItem(ls[0]), LineItems(ls[1..]), env);
      LinesRender(g, cache, files, depth, ls[1..], env);
    }
  }

  lemma {:induction false} LoopsRender(g: Engine, cache: Cache, files: Files, depth: nat, e: Template, c: nat, env: Env)
    requires Cached(cache, files) && Closed(cache.Keys, e) && WithoutElif(e)
    ensures RenderItems(g, cache, depth, ChildItems(ElseLoops(e, c)), env)
         == Interpret(g, Rendered(files), depth, Loops(e), env)
    decreases depth, e, 2, 0
  {
    match e
    case Done =>
    case TextLine(_, next) => LoopsRender(g, cache, files, depth, next, c, env);
    case IncludeFile(_, next) => LoopsRender(g, cache, files, depth, next, c, env);
    case ForLoop(header, body, next) =>
      var child := ParsedLoop(header, body, c);
      FirstChildItem(child, ElseLoops(next, c));
      RenderItemsCons(g, cache, depth, ChildItem(child), ChildItems(ElseLoops(next, c)), env);
      var plan := PlanOf(g, header, env);
      LoopRenders(g, cache, files, depth, header, body, c, plan, env);
      var o := RenderLoop(g, cache, depth, child, plan, env);
      if o.Ok? { LoopsRender(g, cache, files, depth, next, c, o.env); }
    case IfElse(_, _, _, next) => LoopsRender(g, cache, files, depth, next, c, env);
  }

  lemma {:induction false} ElseRenders(g: Engine, cache: Cache, files: Files, depth: nat, e: Template, c: nat, env: Env)
    requires Cached(cache, files) && Closed(cache.Keys, e) && WithoutElif(e)
    ensures var ls := TextLines(e);
            RenderAll(g, cache, depth, ls, ElseLoops(e, c), env)
            == Interpret(g, Rendered(files), depth,
                         if c < |ls| + LoopCount(e) then Bunched(ls, Loops(e), c) else Lines(ls), env)
    decreases depth, e, 3, 0
  {
    var ls := TextLines(e);
    RenderVisits(g, cache, depth, ls, ElseLoops(e, c), 0, 0, env);
    ElseVisits(e, c);
    if c < |ls| + LoopCount(e) {
      var k := if c < |ls| then c else |ls|;
      BunchRenders(g, cache, files, depth, ls[..k], e, c, ls[k..], env);
    } else {
      LinesRender(g, cache, Rendered(files), depth, ls, env);
    }
  }

  lemma {:induction false} BunchRenders(g: Engine, cache: Cache, files: Files, depth: nat, before: seq<Line>,
                                        e: Template, c: nat, behind: seq<Line>, env: Env)
    requires Cached(cache, files) && Closed(cache.Keys, e) && WithoutElif(e)
    ensures RenderItems(g, cache, depth, LineItems(before) + (ChildItems(ElseLoops(e, c)) + LineItems(behind)), env)
         == Interpret(g, Rendered(files), depth, Append(Lines(before), Append(Loops(e), Lines(behind))), env)
    decreases depth, e, 2, 1
  {
    var site := Rendered(files);
    RenderItemsJoined(g, cache, depth, LineItems(before), ChildItems(ElseLoops(e, c)) + LineItems(behind), env);
    InterpretAppend(g, site, depth, Lines(before), Append(Loops(e), Lines(behind)), env);
    LinesRender(g, cache, site, depth, before, env);
    var o := Interpret(g, site, depth, Lines(before), env);
    if o.Ok? {
      RenderItemsJoined(g, cache, depth, ChildItems(ElseLoops(e, c)), LineItems(behind), o.env);
      InterpretAppend(g, site, depth, Loops(e), Lines(behind), o.env);
      LoopsRender(g, cache, files, depth, e, c, o.env);
      var p := Interpret(g, site, depth, Loops(e), o.env);
      if p.Ok? { LinesRender(g, cache, site, depth, behind, p.env); }
    }
  }

  // ---- Loops

  lemma LoopRenders(g: Engine, cache: Cache, files: Files, depth: nat, header: string, body: Template,
                    n: nat, plan: Plan, env: Env)
    requires Cached(cache, files) && Closed(cache.Keys, body) && WithoutElif(body)
    ensures RenderLoop(g, cache, depth, ParsedLoop(header, body, n), plan, env)
         == InterpretLoop(g, Rendered(files), depth, AsRendered(body), plan, env)
    decreases depth, body, 5
  {
    match plan
    case Bad =>
    case Range(name, from, to) => RangeRenders(g, cache, files, depth, header, body, n, name, from, to, env);
    case Each(name, values) => EachRenders(g, cache, files, depth, header, body, n, name, values, env);
    case Scoped(name, values) => ScopedRenders(g, cache, files, depth, header, body, n, name, values, env);
  }

  lemma {:induction false} RangeRenders(g: Engine, cache: Cache, files: Files, depth: nat, header: string,
                                        body: Template, n: nat, name: string, from: int, to: int, env: Env)
    requires Cached(cache, files) && Closed(cache.Keys, body) && WithoutElif(body)
    ensures RenderLoop(g, cache, depth, ParsedLoop(header, body, n), Range(name, from, to), env)
         == InterpretLoop(g, Rendered(files), depth, AsRendered(body), Range(name, from, to), env)
    decreases depth, body, 4, Rounds(Range(name, from, to))
  {
    if from < to {
      var round := env[name := Number(from)];
      TreeRenders(g, cache, files, depth, body, round);
      var o := Interpret(g, Rendered(files), depth, AsRendered(body), round);
      if o.Ok? { RangeRenders(g, cache, files, depth, header, body, n, name, from + 1, to, o.env); }
    }
  }

  lemma {:induction false} EachRenders(g: Engine, cache: Cache, files: Files, depth: nat, header: string,
                                       body: Template, n: nat, name: string, values: seq<Value>, env: Env)
    requires Cached(cache, files) && Closed(cache.Keys, body) && WithoutElif(body)
    ensures RenderLoop(g, cache, depth, ParsedLoop(header, body, n), Each(name, values), env)
         == InterpretLoop(g, Rendered(files), depth, AsRendered(body), Each(name, values), env)
    decreases depth, body, 4, |values|
  {
    if values != [] {
      var round := env[name := values[0]];
      TreeRenders(g, cache, files, depth, body, round);
      var o := Interpret(g, Rendered(files), depth, AsRendered(body), round);
      if o.Ok? { EachRenders(g, cache, files, depth, header, body, n, name, values[1..], o.env); }
    }
  }

  lemma {:induction false} ScopedRenders(g: Engine, cache: Cache, files: Files, depth: nat, header: string,
                                         body: Template, n: nat, name: string, values: seq<Value>, env: Env)
    requires Cached(cache, files) && Closed(cache.Keys, body) && WithoutElif(body)
    ensures RenderLoop(g, cache, depth, ParsedLoop(header, body, n), Scoped(name, values), env)
         == InterpretLoop(g, Rendered(files), depth, AsRendered(body), Scoped(name, values), env)
    decreases depth, body, 4, |values|
  {
    if values != [] {
      TreeRenders(g, cache, files, depth, body, env[name := values[0]]);
      ScopedRenders(g, cache, files, depth, header, body, n, name, values[1..], env);
    }
  }

  // ---- Lines in, text out

  /** Parse the lines, then render the tree. */
  function RenderLines(g: Engine, cache: Cache, depth: nat, lines: seq<Token>, env: Env): Outcome {
    match Parse(lines, Root)
    case Parsed(b, _) => RenderAll(g, cache, depth, b.content, b.children, env)
    case Undefined => Undetermined
    case _ => Threw
  }

  /** What the code renders, for every template without `elif` and every site of such files: the meaning
      of the template with the statements of its else-branches moved as `AsRendered` says. */
  lemma RenderedAs(g: Engine, cache: Cache, files: Files, depth: nat, t: Template, env: Env)
    requires WithoutElif(t) && Cached(cache, files) && Closed(cache.Keys, t)
    ensures RenderLines(g, cache, depth, Print(t, []), env) == Interpret(g, Rendered(files), depth, AsRendered(t), env)
  {
    ParsesToParsedTree(t);
    TreeRenders(g, cache, files, depth, t, env);
  }

  /** With an `elif` anywhere nothing can be said. */
  lemma ElifIsUndetermined(g: Engine, cache: Cache, depth: nat, t: Template, env: Env)
    requires !WithoutElif(t)
    ensures RenderLines(g, cache, depth, Print(t, []), env) == Undetermined
  {
    ElifIsUndefined(t, Root, []);
  }
}
