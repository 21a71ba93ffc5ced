/** Includes and inlining, and an `if` that is lost. */
module TemplateInlining {
  import opened Wrappers
  import opened TemplateSyntax
  import opened TemplateRender
  import opened TemplateMeaning
  import opened TemplateFaithful

  /** `t` with the lines of every included file in the place of the include line. */
  function Inline(files: Files, depth: nat, t: Template): Template
    requires Fits(files, depth, t)
    decreases depth, t
  {
    match t
    case Done => Done
    case TextLine(line, next) => TextLine(line, Inline(files, depth, next))
    case IncludeFile(path, next) => Append(Inline(files, depth - 1, files[path]), Inline(files, depth, next))
    case ForLoop(header, body, next) => ForLoop(header, Inline(files, depth, body), Inline(files, depth, next))
    case IfElse(cond, thn, els, next) =>
      IfElse(cond, Inline(files, depth, thn), InlineElse(files, depth, els), Inline(files, depth, next))
  }

  function InlineElse(files: Files, depth: nat, els: Branches): Branches
    requires FitsElse(files, depth, els)
    decreases depth, els
  {
    match els
    case NoElse => NoElse
    case ElseThen(body) => ElseThen(Inline(files, depth, body))
    case ElifThen(cond, body, more) =>
      ElifThen(cond, Inline(files, depth, body), InlineElse(files, depth, more))
  }

  /** Every include is a known file, and includes are nested at most `depth` deep. */
  predicate Fits(files: Files, depth: nat, t: Template)
    decreases depth, t
  {
    match t
    case Done => true
    case TextLine(_, next) => Fits(files, depth, next)
    case IncludeFile(path, next) =>
      path in files && depth > 0 && Fits(files, depth - 1, files[path]) && Fits(files, depth, next)
    case ForLoop(_, body, next) => Fits(files, depth, body) && Fits(files, depth, next)
    case IfElse(_, thn, els, next) =>
      Fits(files, depth, thn) && FitsElse(files, depth, els) && Fits(files, depth, next)
  }

  predicate FitsElse(files: Files, depth: nat, els: Branches)
    decreases depth, els
  {
    match els
    case NoElse => true
    case ElseThen(body) => Fits(files, depth, body)
    case ElifThen(_, body, more) => Fits(files, depth, body) && FitsElse(files, depth, more)
  }

  /** The include graph is acyclic: every file includes only files of smaller rank. */
  ghost predicate Acyclic(files: Files, rank: string -> nat) {
    forall p :: p in files ==> Below(files, rank, files[p], rank(p))
  }

  ghost predicate Below(files: Files, rank: string -> nat, t: Template, bound: nat) {
    match t
    case Done => true
    case TextLine(_, next) => Below(files, rank, next, bound)
    case IncludeFile(path, next) => path in files && rank(path) < bound && Below(files, rank, next, bound)
    case ForLoop(_, body, next) => Below(files, rank, body, bound) && Below(files, rank, next, bound)
    case IfElse(_, thn, els, next) =>
      Below(files, rank, thn, bound) && BelowElse(files, rank, els, bound) && Below(files, rank, next, bound)
  }

  ghost predicate BelowElse(files: Files, rank: string -> nat, els: Branches, bound: nat) {
    match els
    case NoElse => true
    case ElseThen(body) => Below(files, rank, body, bound)
    case ElifThen(_, body, more) => Below(files, rank, body, bound) && BelowElse(files, rank, more, bound)
  }

  /** In an acyclic include graph the nesting is bounded by the rank. */
  lemma {:induction false} AcyclicFits(files: Files, rank: string -> nat, t: Template, depth: nat)
    requires Acyclic(files, rank) && Below(files, rank, t, depth)
    ensures Fits(files, depth, t)
    decreases depth, t
  {
    match t
    case Done =>
    case TextLine(_, next) => AcyclicFits(files, rank, next, depth);
    case IncludeFile(path, next) =>
      Lower(files, rank, files[path], rank(path), depth - 1);
      AcyclicFits(files, rank, files[path], depth - 1);
      AcyclicFits(files, rank, next, depth);
    case ForLoop(_, body, next) => AcyclicFits(files, rank, body, depth); AcyclicFits(files, rank, next, depth);
    case IfElse(_, thn, els, next) =>
      AcyclicFits(files, rank, thn, depth);
      AcyclicFitsElse(files, rank, els, depth);
      AcyclicFits(files, rank, next, depth);
  }

  lemma {:induction false} AcyclicFitsElse(files: Files, rank: string -> nat, els: Branches, depth: nat)
    requires Acyclic(files, rank) && BelowElse(files, rank, els, depth)
    ensures FitsElse(files, depth, els)
    decreases depth, els
  {
    match els
    case NoElse =>
    case ElseThen(body) => AcyclicFits(files, rank, body, depth);
    case ElifThen(_, body, more) => AcyclicFits(files, rank, body, depth); AcyclicFitsElse(files, rank, more, depth);
  }

  lemma {:induction false} Lower(files: Files, rank: string -> nat, t: Template, bound: nat, higher: nat)
    requires Below(files, rank, t, bound) && bound <= higher
    ensures Below(files, rank, t, higher)
  {
    match t
    case Done =>
    case TextLine(_, next) => Lower(files, rank, next, bound, higher);
    case IncludeFile(_, next) => Lower(files, rank, next, bound, higher);
    case ForLoop(_, body, next) => Lower(files, rank, body, bound, higher); Lower(files, rank, next, bound, higher);
    case IfElse(_, thn, els, next) =>
      Lower(files, rank, thn, bound, higher);
      LowerElse(files, rank, els, bound, higher);
      Lower(files, rank, next, bound, higher);
  }

  lemma {:induction false} LowerElse(files: Files, rank: string -> nat, els: Branches, bound: nat, higher: nat)
    requires BelowElse(files, rank, els, bound) && bound <= higher
    ensures BelowElse(files, rank, els, higher)
  {
    match els
    case NoElse =>
    case ElseThen(body) => Lower(files, rank, body, bound, higher);
    case ElifThen(_, body, more) =>
      Lower(files, rank, body, bound, higher);
      LowerElse(files, rank, more, bound, higher);
  }

  // ---- Inlining keeps the meaning

  /** A template means the same as its inlined form, which needs no include at all. */
  lemma {:induction false} InlineMeansTheSame(g: Engine, files: Files, depth: nat, t: Template, env: Env)
    requires Fits(files, depth, t)
    ensures Interpret(g, map[], 0, Inline(files, depth, t), env) == Interpret(g, files, depth, t, env)
    decreases depth, t, 1, 0
  {
    match t
    case Done =>
    case TextLine(_, next) => InlineMeansTheSame(g, files, depth, next, env);
    case IncludeFile(path, next) =>
      var a := Inline(files, depth - 1, files[path]);
      InterpretAppend(g, map[], 0, a, Inline(files, depth, next), env);
      InlineMeansTheSame(g, files, depth - 1, files[path], env);
      var o := Interpret(g, files, depth - 1, files[path], env);
      if o.Ok? { InlineMeansTheSame(g, files, depth, next, o.env); }
    case ForLoop(header, body, next) =>
      var plan := PlanOf(g, header, env);
      InlineLoop(g, files, depth, body, plan, env);
      var o := InterpretLoop(g, files, depth, body, plan, env);
      if o.Ok? { InlineMeansTheSame(g, files, depth, next, o.env); }
    case IfElse(cond, thn, els, next) =>
      InlineMeansTheSame(g, files, depth, thn, env);
      InlineElseMeansTheSame(g, files, depth, els, env);
      var truth := g.truth(cond, env);
      if truth.Some? {
        var o := if truth.value then Interpret(g, files, depth, thn, env) else InterpretElse(g, files, depth, els, env);
        if o.Ok? { InlineMeansTheSame(g, files, depth, next, o.env); }
      }
  }

  lemma {:induction false} InlineElseMeansTheSame(g: Engine, files: Files, depth: nat, els: Branches, env: Env)
    requires FitsElse(files, depth, els)
    ensures InterpretElse(g, map[], 0, InlineElse(files, depth, els), env) == InterpretElse(g, files, depth, els, env)
    decreases depth, els, 1, 0
  {
    match els
    case NoElse =>
    case ElseThen(body) => InlineMeansTheSame(g, files, depth, body, env);
    case ElifThen(_, body, more) =>
      InlineMeansTheSame(g, files, depth, body, env);
      InlineElseMeansTheSame(g, files, depth, more, env);
  }

  /** A loop that has a round left: the variable, its value, and what is left of the loop. */
  predicate HasRound(plan: Plan) {
    match plan
    case Bad => false
    case Range(_, from, to) => from < to
    case Each(_, values) => values != []
    case Scoped(_, values) => values != []
  }

  function Bound(plan: Plan, env: Env): Env
    requires HasRound(plan)
  {
    match plan
    case Range(name, from, _) => env[name := Number(from)]
    case Each(name, values) => env[name := values[0]]
    case Scoped(name, values) => env[name := values[0]]
  }

  function Left(plan: Plan): (r: Plan)
    requires HasRound(plan)
    ensures Rounds(r) < Rounds(plan)
  {
    match plan
    case Range(name, from, to) => Range(name, from + 1, to)
    case Each(name, values) => Each(name, values[1..])
    case Scoped(name, values) => Scoped(name, values[1..])
  }

  lemma OneRound(g: Engine, files: Files, depth: nat, body: Template, plan: Plan, env: Env)
    requires HasRound(plan)
    ensures var o := Interpret(g, files, depth, body, Bound(plan, env));
            InterpretLoop(g, files, depth, body, plan, env)
            == if o.Ok?
               then Before(o.out,
                           InterpretLoop(g, files, depth, body, Left(plan), if plan.Scoped? then env else o.env))
               else o
  {
  }

  lemma {:induction false} InlineLoop(g: Engine, files: Files, depth: nat, body: Template, plan: Plan, env: Env)
    requires Fits(files, depth, body)
    ensures InterpretLoop(g, map[], 0, Inline(files, depth, body), plan, env)
         == InterpretLoop(g, files, depth, body, plan, env)
    decreases depth, body, 2, Rounds(plan)
  {
    if HasRound(plan) {
      InlineMeansTheSame(g, files, depth, body, Bound(plan, env));
      var o := Interpret(g, files, depth, body, Bound(plan, env));
      if o.Ok? { InlineLoop(g, files, depth, body, Left(plan), if plan.Scoped? then env else o.env); }
      OneRound(g, files, depth, body, plan, env);
      OneRound(g, map[], 0, Inline(files, depth, body), plan, env);
    }
  }

  // ---- The same for what is parsed and rendered

  /** No `elif`, and nothing but text lines in else-branches. */
  predicate PlainElse(t: Template) {
    match t
    case Done => true
    case TextLine(_, next) => PlainElse(next)
    case IncludeFile(_, next) => PlainElse(next)
    case ForLoop(_, body, next) => PlainElse(body) && PlainElse(next)
    case IfElse(_, thn, els, next) =>
      PlainElse(thn) && !els.ElifThen? && (els.ElseThen? ==> OnlyText(els.body)) && PlainElse(next)
  }

  predicate OnlyText(t: Template) {
    t.Done? || (t.TextLine? && OnlyText(t.next))
  }

  lemma {:induction false} PlainElseIsFaithful(t: Template)
    requires PlainElse(t)
    ensures Faithful(t)
  {
    match t
    case Done =>
    case TextLine(_, next) => PlainElseIsFaithful(next);
    case IncludeFile(_, next) => PlainElseIsFaithful(next);
    case ForLoop(_, body, next) => PlainElseIsFaithful(body); PlainElseIsFaithful(next);
    case IfElse(_, thn, els, next) =>
      PlainElseIsFaithful(thn);
      PlainElseIsFaithful(next);
      if els.ElseThen? {
        var c, n := |TextLines(thn)|, |TextLines(els.body)|;
        OnlyTextInPlace(els.body, 0, if c < n then c else n);
      }
  }

  lemma {:induction false} OnlyTextInPlace(e: Template, n: nat, k: nat)
    requires OnlyText(e)
    ensures ElseInPlace(e, n, k) && LoopCount(e) == 0
  {
    if e.TextLine? { OnlyTextInPlace(e.next, n + 1, k); }
  }

  lemma {:induction false} PlainAppend(a: Template, b: Template)
    ensures PlainElse(Append(a, b)) <==> PlainElse(a) && PlainElse(b)
  {
    if !a.Done? { PlainAppend(a.next, b); }
  }

  ghost predicate PlainSite(files: Files) { forall p :: p in files ==> PlainElse(files[p]) }

  lemma {:induction false} InlineIsPlain(files: Files, depth: nat, t: Template)
    requires PlainSite(files) && PlainElse(t) && Fits(files, depth, t)
    ensures PlainElse(Inline(files, depth, t))
    decreases depth, t
  {
    match t
    case Done =>
    case TextLine(_, next) => InlineIsPlain(files, depth, next);
    case IncludeFile(path, next) =>
      InlineIsPlain(files, depth - 1, files[path]);
      InlineIsPlain(files, depth, next);
      PlainAppend(Inline(files, depth - 1, files[path]), Inline(files, depth, next));
    case ForLoop(_, body, next) => InlineIsPlain(files, depth, body); InlineIsPlain(files, depth, next);
    case IfElse(_, thn, els, next) =>
      InlineIsPlain(files, depth, thn);
      InlineIsPlain(files, depth, next);
      if els.ElseThen? { InlineText(files, depth, els.body); }
  }

  lemma {:induction false} InlineText(files: Files, depth: nat, e: Template)
    requires OnlyText(e) && Fits(files, depth, e)
    ensures Inline(files, depth, e) == e
  {
    if e.TextLine? { InlineText(files, depth, e.next); }
  }

  /** Including is inlining: rendering `t`, with its includes looked up in the cache, is rendering
      the lines of `t` with the included lines spliced in, for which no cache is needed. */
  lemma IncludingIsInlining(g: Engine, cache: Cache, files: Files, depth: nat, t: Template, env: Env)
    requires PlainSite(files) && PlainElse(t) && Fits(files, depth, t)
    requires Cached(cache, files) && Closed(cache.Keys, t)
    ensures RenderLines(g, cache, depth, Print(t, []), env)
         == RenderLines(g, map[], 0, Print(Inline(files, depth, t), []), env)
  {
    var u := Inline(files, depth, t);
    PlainElseIsFaithful(t);
    InlineIsPlain(files, depth, t);
    PlainElseIsFaithful(u);
    InlineIsClosed(files, depth, t);
    forall p | p in files ensures Faithful(files[p]) { PlainElseIsFaithful(files[p]); }
    RenderingIsInterpreting(g, cache, files, depth, t, env);
    var none: Cache := map[];
    assert none.Keys == {};
    RenderingIsInterpreting(g, none, map[], 0, u, env);
    InlineMeansTheSame(g, files, depth, t, env);
  }

  lemma {:induction false} AppendIsClosed(a: Template, b: Template)
    ensures Closed({}, Append(a, b)) <==> Closed({}, a) && Closed({}, b)
  {
    if !a.Done? { AppendIsClosed(a.next, b); }
  }

  lemma {:induction false} InlineIsClosed(files: Files, depth: nat, t: Template)
    requires Fits(files, depth, t)
    ensures Closed({}, Inline(files, depth, t))
    decreases depth, t
  {
    match t
    case Done =>
    case TextLine(_, next) => InlineIsClosed(files, depth, next);
    case IncludeFile(path, next) =>
      InlineIsClosed(files, depth - 1, files[path]);
      InlineIsClosed(files, depth, next);
      AppendIsClosed(Inline(files, depth - 1, files[path]), Inline(files, depth, next));
    case ForLoop(_, body, next) => InlineIsClosed(files, depth, body); InlineIsClosed(files, depth, next);
    case IfElse(_, thn, els, next) =>
      InlineIsClosed(files, depth, thn);
      InlineElseIsClosed(files, depth, els);
      InlineIsClosed(files, depth, next);
  }

  lemma {:induction false} InlineElseIsClosed(files: Files, depth: nat, els: Branches)
    requires FitsElse(files, depth, els)
    ensures ClosedElse({}, InlineElse(files, depth, els))
    decreases depth, els
  {
    match els
    case NoElse =>
    case ElseThen(body) => InlineIsClosed(files, depth, body);
    case ElifThen(_, body, more) => InlineIsClosed(files, depth, body); InlineElseIsClosed(files, depth, more);
  }

  // ---- A template on which the code loses a statement

  /** An `if` inside an else-branch: when the outer condition is false the code renders nothing,
      whatever the inner `if` should have rendered. */
  lemma IfInElseIsLost(g: Engine, cache: Cache, depth: nat, outer: string, inner: string, body: Template, env: Env)
    requires g.truth(outer, env) == Some(false) && g.truth(inner, env) == Some(true)
    requires WithoutElif(body)
    ensures var t := IfElse(outer, Done, ElseThen(IfElse(inner, body, NoElse, Done)), Done);
            && RenderLines(g, cache, depth, Print(t, []), env) == Ok("", env)
            && forall files :: Interpret(g, files, depth, t, env) == Interpret(g, files, depth, body, env)
  {
    var i := IfElse(inner, body, NoElse, Done);
    var t := IfElse(outer, Done, ElseThen(i), Done);
    ParsePrinted(t, Root, []);
    var tree := Filled(t, Root);
    assert tree.content == [] && tree.children == [ParsedIf(t, 0)];
    var b := ParsedIf(t, 0);
    assert TextLines(i) == TextLines(Done) == [] && ElseLoops(i, 0) == ElseLoops(Done, 0) == [];
    assert b.subBlocks == [SubBlock(ELSE, "", [], [])];
    assert RenderAll(g, cache, depth, [], [], env) == Ok("", env);
    assert RenderIf(g, cache, depth, b, env) == Ok("", env);
    assert RenderChild(g, cache, depth, b, env) == Ok("", env);
    assert RenderAt(g, cache, depth, [], [b], 1, 0, env) == Ok("", env);
    assert RenderAt(g, cache, depth, [], [b], 0, 1, env) == Ok("", env);
    assert Parse(Print(t, []), Root) == Parsed(tree, []);
    assert RenderAll(g, cache, depth, [], [b], env) == Ok("", env);
    forall files ensures Interpret(g, files, depth, t, env) == Interpret(g, files, depth, body, env) {
      var o := Interpret(g, files, depth, body, env);
      assert Interpret(g, files, depth, i, env) == o by { if o.Ok? { assert o.out + "" == o.out; } }
      if o.Ok? { assert o.out + "" == o.out; }
    }
  }
}
