/** Rendering a block tree, and what a template means. */
module TemplateRender {
  import opened Wrappers
  import opened Text
  import opened TemplateSyntax

  // ---- The expression engine, as an oracle

  datatype Value = Number(n: int) | Json(text: string)

  type Env = map<string, Value>

  /** What an iterable evaluates to. The order of an object's values is whatever the engine says. */
  datatype Iterable = Array(values: seq<Value>) | Object(values: seq<Value>) | Chars(values: seq<Value>) | Other

  /** `eval` renders the text of a `{{ }}` place, `truth` is the number test of a condition, `range`
      is `process_range`, `iter` evaluates an iterable. `None` is an exception. */
  datatype Engine = Engine(eval: (string, Env) -> Option<string>, truth: (string, Env) -> Option<bool>,
                           range: (string, Env) -> Option<(int, int)>, iter: (string, Env) -> Option<Iterable>)

  /** Output and the environment left behind, an exception, includes nested deeper than allowed, or
      whatever undefined behaviour brings. */
  datatype Outcome = Ok(out: string, env: Env) | Threw | TooDeep | Undetermined

  function Before(s: string, o: Outcome): Outcome {
    match o
    case Ok(out, env) => Ok(s + out, env)
    case _ => o
  }

  /** `__renderExpressions`: the text before the first place, its value, and the rest of the line. */
  function RenderLine(g: Engine, line: Line, env: Env): Option<string> {
    if line == [] then Some("")
    else
      match line[0]
      case Literal(text) =>
        (match RenderLine(g, line[1..], env)
         case None => None
         case Some(right) => Some(text + right))
      case Expr(text) =>
        match RenderLine(g, line[1..], env)
        case None => None
        case Some(right) =>
          match g.eval(text, env)
          case None => None
          case Some(value) => Some(value + right)
  }

  // ---- What a loop header asks for

  datatype Plan = Range(name: string, from: int, to: int) | Each(name: string, values: seq<Value>)
                | Scoped(name: string, values: seq<Value>) | Bad

  /** `expression.substr(0, find(" in "))` and `expression.substr(find(" in ") + 4)`: without " in "
      the position wraps to 3, and a shorter header throws. */
  function SplitHeader(header: string): Option<(string, string)> {
    match Find(header, " in ")
    case Some(i) => Some((header[..i], header[i + 4..]))
    case None => if |header| < 3 then None else Some((header, header[3..]))
  }

  function PlanOf(g: Engine, header: string, env: Env): Plan {
    match SplitHeader(header)
    case None => Bad
    case Some((name, iterable)) =>
      match g.range(iterable, env)
      case None => Bad
      case Some((n, m)) =>
        if n >= 0 && m > 0 && n < m then Range(name, n, m)
        else if n != -1 && m != -1 then Bad
        else
          match g.iter(iterable, env)
          case None => Bad
          case Some(Array(values)) => Each(name, values)
          case Some(Chars(values)) => Each(name, values)
          case Some(Object(values)) => if values == [] || name in env then Bad else Scoped(name, values)
          case Some(Other) => Bad
  }

  // ---- Rendering blocks, as the code does

  type Cache = map<string, Block>

  /** The pass of `__Render` from line number `n` and child number `c` on. */
  function RenderAt(g: Engine, cache: Cache, depth: nat, content: seq<Line>, children: seq<Block>,
                    n: nat, c: nat, env: Env): Outcome
    requires n <= |content| + |children| && c <= |children|
    decreases depth, children, 0, |content| + |children| - n, |children| - c
  {
    if n == |content| + |children| then Ok("", env)
    else if c < |children| then
      if children[c].indexToPlace != n then RenderAt(g, cache, depth, content, children, n, c + 1, env)
      else
        match RenderChild(g, cache, depth, children[c], env)
        case Ok(out, env') => Before(out, RenderAt(g, cache, depth, content, children, n, c + 1, env'))
        case o => o
    else if n < |content| then
      match RenderLine(g, content[n], env)
      case None => Threw
      case Some(s) => Before(s + "\n", RenderAt(g, cache, depth, content, children, n + 1, 0, env))
    else RenderAt(g, cache, depth, content, children, n + 1, 0, env)
  }

  function RenderAll(g: Engine, cache: Cache, depth: nat, content: seq<Line>, children: seq<Block>, env: Env): Outcome
    decreases depth, children, 1, 0, 0
  {
    RenderAt(g, cache, depth, content, children, 0, 0, env)
  }

  function RenderChild(g: Engine, cache: Cache, depth: nat, b: Block, env: Env): Outcome
    decreases depth, b, 2, 0, 0
  {
    match b.kind
    case ROOT => Threw
    case IF => RenderIf(g, cache, depth, b, env)
    case FOR => RenderLoop(g, cache, depth, b, PlanOf(g, b.expression, env), env)
    case INCLUDE =>
      if depth == 0 then TooDeep
      else if b.expression !in cache then Ok("", env)
      else
        var included := cache[b.expression];
        RenderAll(g, cache, depth - 1, included.content, included.children, env)
  }

  /** `__renderIfBlock`: an `elif` whose condition is false is an error of the code. */
  function RenderIf(g: Engine, cache: Cache, depth: nat, b: Block, env: Env): Outcome
    decreases depth, b, 1, 0, 0
  {
    match g.truth(b.expression, env)
    case None => Threw
    case Some(true) => RenderAll(g, cache, depth, b.content, b.children, env)
    case Some(false) =>
      if b.subBlocks == [] then Ok("", env)
      else
        var s := b.subBlocks[0];
        if s.kind == ELSE then RenderAll(g, cache, depth, s.content, s.children, env)
        else
          match g.truth(s.expression, env)
          case Some(true) => RenderAll(g, cache, depth, s.content, s.children, env)
          case _ => Threw
  }

  function RenderLoop(g: Engine, cache: Cache, depth: nat, b: Block, plan: Plan, env: Env): Outcome
    decreases depth, b, 1, Rounds(plan), 0
  {
    match plan
    case Bad => Threw
    case Range(name, from, to) =>
      if from >= to then Ok("", env)
      else
        (match RenderAll(g, cache, depth, b.content, b.children, env[name := Number(from)])
         case Ok(out, env') => Before(out, RenderLoop(g, cache, depth, b, Range(name, from + 1, to), env'))
         case o => o)
    case Each(name, values) =>
      if values == [] then Ok("", env)
      else
        (match RenderAll(g, cache, depth, b.content, b.children, env[name := values[0]])
         case Ok(out, env') => Before(out, RenderLoop(g, cache, depth, b, Each(name, values[1..]), env'))
         case o => o)
    case Scoped(name, values) =>
      if values == [] then Ok("", env)
      else
        (match RenderAll(g, cache, depth, b.content, b.children, env[name := values[0]])
         case Ok(out, _) => Before(out, RenderLoop(g, cache, depth, b, Scoped(name, values[1..]), env))
         case o => o)
  }

  function Rounds(plan: Plan): nat {
    match plan
    case Bad => 0
    case Range(_, from, to) => if from < to then to - from else 0
    case Each(_, values) => |values|
    case Scoped(_, values) => |values|
  }

  // ---- What a template means

  type Files = map<string, Template>

  /** The direct interpreter of the line language: statements in the order they are written. */
  function Interpret(g: Engine, files: Files, depth: nat, t: Template, env: Env): Outcome
    decreases depth, t, 1, 0
  {
    match t
    case Done => Ok("", env)
    case TextLine(line, next) =>
      (match RenderLine(g, line, env)
       case None => Threw
       case Some(s) => Before(s + "\n", Interpret(g, files, depth, next, env)))
    case IncludeFile(path, next) =>
      if depth == 0 then TooDeep
      else if path !in files then Threw
      else
        (match Interpret(g, files, depth - 1, files[path], env)
         case Ok(out, env') => Before(out, Interpret(g, files, depth, next, env'))
         case o => o)
    case ForLoop(header, body, next) =>
      (match InterpretLoop(g, files, depth, body, PlanOf(g, header, env), env)
       case Ok(out, env') => Before(out, Interpret(g, files, depth, next, env'))
       case o => o)
    case IfElse(cond, thn, els, next) =>
      match g.truth(cond, env)
      case None => Threw
      case Some(yes) =>
        match if yes then Interpret(g, files, depth, thn, env) else InterpretElse(g, files, depth, els, env)
        case Ok(out, env') => Before(out, Interpret(g, files, depth, next, env'))
        case o => o
  }

  /** The first branch whose condition holds, or the else-branch. */
  function InterpretElse(g: Engine, files: Files, depth: nat, els: Branches, env: Env): Outcome
    decreases depth, els, 1, 0
  {
    match els
    case NoElse => Ok("", env)
    case ElseThen(body) => Interpret(g, files, depth, body, env)
    case ElifThen(cond, body, more) =>
      match g.truth(cond, env)
      case None => Threw
      case Some(yes) =>
        if yes then Interpret(g, files, depth, body, env) else InterpretElse(g, files, depth, more, env)
  }

  function InterpretLoop(g: Engine, files: Files, depth: nat, body: Template, plan: Plan, env: Env): Outcome
    decreases depth, body, 2, Rounds(plan)
  {
    match plan
    case Bad => Threw
    case Range(name, from, to) =>
      if from >= to then Ok("", env)
      else
        (match Interpret(g, files, depth, body, env[name := Number(from)])
         case Ok(out, env') => Before(out, InterpretLoop(g, files, depth, body, Range(name, from + 1, to), env'))
         case o => o)
    case Each(name, values) =>
      if values == [] then Ok("", env)
      else
        (match Interpret(g, files, depth, body, env[name := values[0]])
         case Ok(out, env') => Before(out, InterpretLoop(g, files, depth, body, Each(name, values[1..]), env'))
         case o => o)
    case Scoped(name, values) =>
      if values == [] then Ok("", env)
      else
        (match Interpret(g, files, depth, body, env[name := values[0]])
         case Ok(out, _) => Before(out, InterpretLoop(g, files, depth, body, Scoped(name, values[1..]), env))
         case o => o)
  }
}
