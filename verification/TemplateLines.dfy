/** What a text line, a loop header and a loop come to, in plain terms. */
module TemplateLines {
  import opened Wrappers
  import opened Text
  import opened TemplateSyntax
  import opened TemplateRender

  // ---- A line of text

  /** The text of each piece: itself, or what the expression evaluates to. */
  ghost predicate HasTexts(g: Engine, line: Line, env: Env, texts: seq<string>) {
    |texts| == |line| &&
    forall i :: 0 <= i < |line| ==>
      match line[i]
      case Literal(text) => texts[i] == text
      case Expr(text) => g.eval(text, env) == Some(texts[i])
  }

  /** A line is rendered exactly when each of its pieces has a text, and then to these texts in order. */
  lemma {:induction false} LineExactly(g: Engine, line: Line, env: Env, out: string)
    ensures RenderLine(g, line, env) == Some(out)
       <==> exists texts :: HasTexts(g, line, env, texts) && out == Flatten(texts)
  {
    if RenderLine(g, line, env) == Some(out) {
      var texts := TextsOf(g, line, env);
    }
    forall texts | HasTexts(g, line, env, texts) && out == Flatten(texts)
      ensures RenderLine(g, line, env) == Some(out)
    {
      TextsRender(g, line, env, texts);
    }
  }

  lemma {:induction false} TextsOf(g: Engine, line: Line, env: Env) returns (texts: seq<string>)
    requires RenderLine(g, line, env).Some?
    ensures HasTexts(g, line, env, texts) && Flatten(texts) == RenderLine(g, line, env).value
  {
    if line == [] { return []; }
    var more := TextsOf(g, line[1..], env);
    texts := [if line[0].Literal? then line[0].text else g.eval(line[0].text, env).value] + more;
    assert texts[1..] == more;
  }

  lemma {:induction false} TextsRender(g: Engine, line: Line, env: Env, texts: seq<string>)
    requires HasTexts(g, line, env, texts)
    ensures RenderLine(g, line, env) == Some(Flatten(texts))
  {
    if line != [] { TextsRender(g, line[1..], env, texts[1..]); }
  }

  /** Every line with its line end. */
  function WithEnds(outs: seq<string>): string {
    if outs == [] then "" else outs[0] + ("\n" + WithEnds(outs[1..]))
  }

  /** A block of text lines is rendered to its lines in order, each with a line end. */
  lemma {:induction false} TextBlockRenders(g: Engine, cache: Cache, depth: nat, content: seq<Line>, env: Env,
                                            outs: seq<string>, n: nat)
    requires n <= |content| == |outs|
    requires forall i :: 0 <= i < |content| ==> RenderLine(g, content[i], env) == Some(outs[i])
    ensures RenderAt(g, cache, depth, content, [], n, 0, env) == Ok(WithEnds(outs[n..]), env)
    decreases |content| - n
  {
    if n < |content| {
      TextBlockRenders(g, cache, depth, content, env, outs, n + 1);
      assert outs[n..][1..] == outs[n + 1..];
      EndOfLine(outs[n], WithEnds(outs[n + 1..]));
    }
  }

  lemma EndOfLine(out: string, more: string)
    ensures (out + "\n") + more == out + ("\n" + more)
  {
  }

  // ---- A loop header

  /** The header `name in iterable`, the name being one word, is cut where it should be. */
  lemma HeaderSplits(name: string, iterable: string)
    requires forall i :: 0 <= i < |name| ==> name[i] != ' '
    ensures SplitHeader(name + (" in " + iterable)) == Some((name, iterable))
  {
    var s := name + (" in " + iterable);
    assert s[|name|..|name| + 4] == " in ";
    forall j | 0 <= j < |name| ensures !Occurs(s, " in ", j) {
      assert s[j] == name[j];
      if Occurs(s, " in ", j) { OccursAt(s, " in ", j, 0); }
    }
    FindIs(s, " in ", |name|);
    assert s[..|name|] == name && s[|name| + 4..] == iterable;
  }

  /** Arrays and strings are gone through in order; an object must not be empty, and needs a fresh name. */
  function Over(name: string, it: Iterable, known: bool): Plan {
    match it
    case Array(values) => Each(name, values)
    case Chars(values) => Each(name, values)
    case Object(values) => if values == [] || known then Bad else Scoped(name, values)
    case Other => Bad
  }

  /** What such a header asks for: a proper range of numbers, or the values of an array, the characters of
      a string or the values of an object that is not empty, the last only under a fresh name. */
  lemma PlanExactly(g: Engine, name: string, iterable: string, env: Env, n: int, m: int)
    requires forall i :: 0 <= i < |name| ==> name[i] != ' '
    requires g.range(iterable, env) == Some((n, m))
    ensures var plan := PlanOf(g, name + (" in " + iterable), env);
            && (0 <= n < m ==> plan == Range(name, n, m))
            && (n == -1 || m == -1 ==> plan == if g.iter(iterable, env).None? then Bad
                                               else Over(name, g.iter(iterable, env).value, name in env))
            && (!(0 <= n < m) && n != -1 && m != -1 ==> plan == Bad)
  {
    HeaderSplits(name, iterable);
  }

  // ---- The rounds of a loop

  /** The values the loop variable takes: a range counts from its first number up to the one before its
      last. */
  function ValuesOf(plan: Plan): seq<Value> {
    match plan
    case Bad => []
    case Range(_, from, to) => seq(if from < to then to - from else 0, i => Number(from + i))
    case Each(_, values) => values
    case Scoped(_, values) => values
  }

  /** A loop in which every round succeeds: `envs[i]` is what round `i` finds and `outs[i]` what it prints.
      Over an object each round starts from what was there before the loop. */
  ghost predicate RoundsRun(g: Engine, files: Files, depth: nat, body: Template, name: string, values: seq<Value>,
                            scoped: bool, envs: seq<Env>, outs: seq<string>) {
    && |outs| == |values| && |envs| == |values| + 1
    && forall i :: 0 <= i < |values| ==>
         RoundRuns(g, files, depth, body, name, values[i], scoped, envs[i], outs[i], envs[i + 1])
  }

  ghost predicate RoundRuns(g: Engine, files: Files, depth: nat, body: Template, name: string, value: Value,
                            scoped: bool, env: Env, out: string, env': Env) {
    var o := Interpret(g, files, depth, body, env[name := value]);
    o.Ok? && o.out == out && env' == if scoped then env else o.env
  }

  /** The output of a loop is the outputs of its rounds in order, one round for every value. */
  lemma {:induction false} LoopRunsRounds(g: Engine, files: Files, depth: nat, body: Template, plan: Plan,
                                          envs: seq<Env>, outs: seq<string>)
    requires !plan.Bad?
    requires RoundsRun(g, files, depth, body, plan.name, ValuesOf(plan), plan.Scoped?, envs, outs)
    ensures InterpretLoop(g, files, depth, body, plan, envs[0]) == Ok(Flatten(outs), envs[|outs|])
    decreases Rounds(plan)
  {
    if ValuesOf(plan) != [] {
      var next := Shorter(plan);
      assert ValuesOf(next) == ValuesOf(plan)[1..];
      LaterRounds(g, files, depth, body, plan.name, ValuesOf(plan), plan.Scoped?, envs, outs);
      LoopRunsRounds(g, files, depth, body, next, envs[1..], outs[1..]);
      FirstRound(g, files, depth, body, plan, next, envs[0]);
    }
  }

  lemma LaterRounds(g: Engine, files: Files, depth: nat, body: Template, name: string, values: seq<Value>,
                    scoped: bool, envs: seq<Env>, outs: seq<string>)
    requires values != [] && RoundsRun(g, files, depth, body, name, values, scoped, envs, outs)
    ensures RoundRuns(g, files, depth, body, name, values[0], scoped, envs[0], outs[0], envs[1])
    ensures RoundsRun(g, files, depth, body, name, values[1..], scoped, envs[1..], outs[1..])
  {
    forall i | 0 < i < |values|
      ensures RoundRuns(g, files, depth, body, name, values[1..][i - 1], scoped, envs[1..][i - 1], outs[1..][i - 1],
                        envs[1..][i])
    {
      assert RoundRuns(g, files, depth, body, name, values[i], scoped, envs[i], outs[i], envs[i + 1]);
    }
  }

  function Shorter(plan: Plan): (next: Plan)
    requires !plan.Bad? && ValuesOf(plan) != []
    ensures Rounds(next) < Rounds(plan) && !next.Bad? && next.name == plan.name && next.Scoped? == plan.Scoped?
  {
    match plan
    case Range(name, from, to) => Range(name, from + 1, to)
    case Each(name, values) => Each(name, values[1..])
    case Scoped(name, values) => Scoped(name, values[1..])
  }

  lemma FirstRound(g: Engine, files: Files, depth: nat, body: Template, plan: Plan, next: Plan, env: Env)
    requires !plan.Bad? && ValuesOf(plan) != [] && next == Shorter(plan)
    ensures var o := Interpret(g, files, depth, body, env[plan.name := ValuesOf(plan)[0]]);
            o.Ok? ==>
              var rest := InterpretLoop(g, files, depth, body, next, if plan.Scoped? then env else o.env);
              InterpretLoop(g, files, depth, body, plan, env)
              == if rest.Ok? then Ok(o.out + rest.out, rest.env) else rest
  {
  }

  // ---- Statements by themselves

  lemma AfterNothing(o: Outcome)
    ensures (match o case Ok(out, env) => Before(out, Ok("", env)) case _ => o) == o
  {
    if o.Ok? { assert o.out + "" == o.out; }
  }

  /** An `if` is its then-branch where the condition holds, and otherwise the first `elif` that holds, or
      the else-branch, or nothing; a condition that cannot be evaluated is an exception. */
  lemma IfAlone(g: Engine, files: Files, depth: nat, cond: string, thn: Template, els: Branches, env: Env)
    ensures Interpret(g, files, depth, IfElse(cond, thn, els, Done), env)
         == match g.truth(cond, env)
            case None => Threw
            case Some(true) => Interpret(g, files, depth, thn, env)
            case Some(false) =>
              match els
              case NoElse => Ok("", env)
              case ElseThen(body) => Interpret(g, files, depth, body, env)
              case ElifThen(c, body, more) => Interpret(g, files, depth, IfElse(c, body, more, Done), env)
  {
    if g.truth(cond, env) == Some(true) {
      AfterNothing(Interpret(g, files, depth, thn, env));
    } else if g.truth(cond, env) == Some(false) {
      AfterNothing(InterpretElse(g, files, depth, els, env));
      if els.ElifThen? && g.truth(els.cond, env) == Some(true) {
        AfterNothing(Interpret(g, files, depth, els.body, env));
      }
    }
  }

  /** An include is the file, one level deeper. */
  lemma IncludeAlone(g: Engine, files: Files, depth: nat, path: string, env: Env)
    requires depth > 0 && path in files
    ensures Interpret(g, files, depth, IncludeFile(path, Done), env) == Interpret(g, files, depth - 1, files[path], env)
  {
    AfterNothing(Interpret(g, files, depth - 1, files[path], env));
  }

  /** A line that cannot be evaluated, a loop that cannot be made sense of and a file that is not there are
      exceptions, whatever follows. */
  lemma FailuresThrow(g: Engine, files: Files, depth: nat, line: Line, header: string, path: string, body: Template,
                      next: Template, env: Env)
    ensures RenderLine(g, line, env).None? ==> Interpret(g, files, depth, TextLine(line, next), env) == Threw
    ensures PlanOf(g, header, env).Bad? ==> Interpret(g, files, depth, ForLoop(header, body, next), env) == Threw
    ensures depth > 0 && path !in files ==> Interpret(g, files, depth, IncludeFile(path, next), env) == Threw
  {
  }

  /** Two statements in a row print in that order, the second in the environment of the first. */
  lemma LinesInOrder(g: Engine, files: Files, depth: nat, a: Line, b: Line, x: string, y: string, env: Env)
    requires RenderLine(g, a, env) == Some(x) && RenderLine(g, b, env) == Some(y)
    ensures Interpret(g, files, depth, TextLine(a, TextLine(b, Done)), env) == Ok(x + "\n" + y + "\n", env)
  {
    assert (y + "\n") + "" == y + "\n";
    assert Interpret(g, files, depth, TextLine(b, Done), env) == Ok(y + "\n", env);
    assert (x + "\n") + (y + "\n") == x + "\n" + y + "\n";
  }

  // ---- Marks, and branches of a parsed block

  predicate Misplaced(mark: Token, b: Block) {
    || mark.Unknown?
    || (mark.EndFor? && b.kind != FOR)
    || ((mark.EndIf? || mark.Else? || mark.Elif?) && b.kind != IF)
  }

  /** A mark where it does not belong is an exception; the mark that ends a block ends it there; and behind
      an `else`, another `else` or an `elif` ends it too. */
  lemma MarksExactly(mark: Token, rest: seq<Token>, b: Block)
    requires mark.Unknown? || mark.EndIf? || mark.EndFor? || mark.Else? || mark.Elif?
    ensures var closes := (mark.EndIf? && b.kind == IF) || (mark.EndFor? && b.kind == FOR);
            var again := (mark.Else? || mark.Elif?) && b.kind == IF && b.subBlocks != [] && Last(b).kind == ELSE;
            var r := Parse([mark] + rest, b);
            && (closes || again ==> r == Parsed(b, rest))
            && (Misplaced(mark, b) ==> r == Invalid)
  {
    assert ([mark] + rest)[1..] == rest;
  }

  /** What is rendered of an `if` block that was parsed: its lines, or its first sub-block; an `elif` that
      does not hold is an exception, whatever comes behind it. */
  lemma IfBlockExactly(g: Engine, cache: Cache, depth: nat, b: Block, env: Env)
    ensures var truth := g.truth(b.expression, env);
            && (truth.None? ==> RenderIf(g, cache, depth, b, env) == Threw)
            && (truth == Some(true) ==>
                  RenderIf(g, cache, depth, b, env) == RenderAll(g, cache, depth, b.content, b.children, env))
            && (truth == Some(false) && b.subBlocks == [] ==> RenderIf(g, cache, depth, b, env) == Ok("", env))
            && (truth == Some(false) && b.subBlocks != [] ==>
                  var s := b.subBlocks[0];
                  RenderIf(g, cache, depth, b, env)
                  == if s.kind == ELSE || g.truth(s.expression, env) == Some(true)
                     then RenderAll(g, cache, depth, s.content, s.children, env) else Threw)
  {
  }
}
