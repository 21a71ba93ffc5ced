/** Template lines, block trees, templates. */
module TemplateSyntax {
  import opened Sequences

  /** A text line, cut at its `{{ expression }}` places. */
  datatype Piece = Literal(text: string) | Expr(text: string)

  type Line = seq<Piece>

  /** A line of a file, as the statement regexes classify it. */
  datatype Token =
    | Text(line: Line)
    | Include(path: string)
    | If(cond: string)
    | For(header: string)
    | Elif(cond: string)
    | Else
    | EndIf
    | EndFor
    | Unknown(statement: string)

  // ---- Block trees

  datatype Kind = ROOT | IF | FOR | INCLUDE

  datatype SubKind = ELSE | ELIF

  /** Text lines and children live in two lists; a child's `indexToPlace` says before which line of
      the parent it belongs. */
  datatype Block = Block(kind: Kind, expression: string, indexToPlace: int, content: seq<Line>,
                         subBlocks: seq<SubBlock>, children: seq<Block>)

  datatype SubBlock = SubBlock(kind: SubKind, expression: string, content: seq<Line>, children: seq<Block>)

  const Root := Block(ROOT, "", -1, [], [], [])

  /** A block as `createBlock` makes it. */
  function Open(kind: Kind, expression: string, indexToPlace: int): Block {
    Block(kind, expression, indexToPlace, [], [], [])
  }

  function Last(b: Block): SubBlock
    requires b.subBlocks != []
  {
    b.subBlocks[|b.subBlocks| - 1]
  }

  function SetLast(b: Block, s: SubBlock): Block
    requires b.subBlocks != []
  {
    b.(subBlocks := b.subBlocks[..|b.subBlocks| - 1] + [s])
  }

  /** A text line goes to the open else-branch if there is one. */
  function AddLine(b: Block, line: Line): (r: Block)
    ensures r.kind == b.kind
  {
    if b.subBlocks == [] then b.(content := b.content + [line])
    else SetLast(b, Last(b).(content := Last(b).content + [line]))
  }

  /** An `if` or an `include` always becomes a child of the block itself. */
  function AddChild(b: Block, child: Block): Block { b.(children := b.children + [child]) }

  /** A `for` goes to the open else-branch if there is one. */
  function AddLoop(b: Block, child: Block): (r: Block)
    ensures r.kind == b.kind
  {
    if b.subBlocks == [] then AddChild(b, child)
    else SetLast(b, Last(b).(children := Last(b).children + [child]))
  }

  function AddSub(b: Block, kind: SubKind, expression: string): Block {
    b.(subBlocks := b.subBlocks + [SubBlock(kind, expression, [], [])])
  }

  // ---- The parser

  /** `Undefined` is `subBlocks.back()` on an empty vector; `Invalid` is the parser error;
      `IncludeFailed` is an included file that is missing, nested too deeply, or itself unparsable,
      possibly because its own parse is undefined. */
  datatype ParseResult = Parsed(block: Block, rest: seq<Token>) | Invalid | Undefined | IncludeFailed(undefined: bool)

  /** What `BlockParser` makes of the lines `ts` while it fills block `b`. */
  function Parse(ts: seq<Token>, b: Block): (r: ParseResult)
    ensures r.Parsed? ==> |r.rest| <= |ts|
    decreases |ts|
  {
    if ts == [] then Parsed(b, [])
    else
      match ts[0]
      case Text(line) => Parse(ts[1..], AddLine(b, line))
      case Include(path) => Parse(ts[1..], AddChild(b, Open(INCLUDE, path, |b.content|)))
      case If(cond) =>
        (var inner := Parse(ts[1..], Open(IF, cond, |b.content|));
         if inner.Parsed? then Parse(inner.rest, AddChild(b, inner.block)) else inner)
      case For(header) =>
        (var inner := Parse(ts[1..], Open(FOR, header, |b.content|));
         if inner.Parsed? then Parse(inner.rest, AddLoop(b, inner.block)) else inner)
      case Elif(cond) =>
        if b.kind != IF then Invalid
        else if b.subBlocks == [] then Undefined
        else if Last(b).kind == ELSE then Parsed(b, ts[1..])
        else Parse(ts[1..], AddSub(b, ELIF, cond))
      case Else =>
        if b.kind != IF then Invalid
        else if b.subBlocks != [] && Last(b).kind == ELSE then Parsed(b, ts[1..])
        else Parse(ts[1..], AddSub(b, ELSE, ""))
      case EndIf => if b.kind == IF then Parsed(b, ts[1..]) else Invalid
      case EndFor => if b.kind == FOR then Parsed(b, ts[1..]) else Invalid
      case Unknown(_) => Invalid
  }

  // ---- The language

  /** A balanced template: every statement with what follows it on the same level. */
  datatype Template =
    | Done
    | TextLine(line: Line, next: Template)
    | IncludeFile(path: string, next: Template)
    | ForLoop(header: string, body: Template, next: Template)
    | IfElse(cond: string, thn: Template, els: Branches, next: Template)

  /** What follows the first branch of an `if`. */
  datatype Branches = NoElse | ElseThen(body: Template) | ElifThen(cond: string, body: Template, more: Branches)

  /** The lines of `t`, followed by `rest`. */
  function Print(t: Template, rest: seq<Token>): seq<Token> {
    match t
    case Done => rest
    case TextLine(line, next) => [Text(line)] + Print(next, rest)
    case IncludeFile(path, next) => [Include(path)] + Print(next, rest)
    case ForLoop(header, body, next) => [For(header)] + Print(body, [EndFor] + Print(next, rest))
    case IfElse(cond, thn, els, next) => [If(cond)] + Print(thn, PrintElse(els, [EndIf] + Print(next, rest)))
  }

  function PrintElse(els: Branches, rest: seq<Token>): seq<Token> {
    match els
    case NoElse => rest
    case ElseThen(body) => [Else] + Print(body, rest)
    case ElifThen(cond, body, more) => [Elif(cond)] + Print(body, PrintElse(more, rest))
  }

  // ---- The tree a template should be parsed to

  /** The text lines on the top level. */
  function TextLines(t: Template): seq<Line> {
    match t
    case Done => []
    case TextLine(line, next) => [line] + TextLines(next)
    case IncludeFile(_, next) => TextLines(next)
    case ForLoop(_, _, next) => TextLines(next)
    case IfElse(_, _, _, next) => TextLines(next)
  }

  /** The children on the top level, each placed before the text lines that follow it; `n` lines
      precede `t`. */
  function Kids(t: Template, n: nat): seq<Block>
    decreases t, 1
  {
    match t
    case Done => []
    case TextLine(_, next) => Kids(next, n + 1)
    case IncludeFile(path, next) => [Open(INCLUDE, path, n)] + Kids(next, n)
    case ForLoop(header, body, next) => [LoopBlock(header, body, n)] + Kids(next, n)
    case IfElse(_, _, _, next) =>
      [IfBlock(t, n)] + Kids(next, n)
  }

  function IfBlock(t: Template, n: nat): Block
    requires t.IfElse?
    decreases t, 0
  {
    Block(IF, t.cond, n, TextLines(t.thn), ElseBlocks(t.els), Kids(t.thn, 0))
  }

  function LoopBlock(header: string, body: Template, n: nat): Block
    decreases body, 2
  {
    Block(FOR, header, n, TextLines(body), [], Kids(body, 0))
  }

  function ElseBlocks(els: Branches): seq<SubBlock>
    decreases els, 0
  {
    match els
    case NoElse => []
    case ElseThen(body) => [SubBlock(ELSE, "", TextLines(body), Kids(body, 0))]
    case ElifThen(cond, body, more) => [SubBlock(ELIF, cond, TextLines(body), Kids(body, 0))] + ElseBlocks(more)
  }

  function TreeOf(t: Template): Block { Block(ROOT, "", -1, TextLines(t), [], Kids(t, 0)) }

  // ---- The tree the parser builds

  predicate WithoutElif(t: Template) {
    match t
    case Done => true
    case TextLine(_, next) => WithoutElif(next)
    case IncludeFile(_, next) => WithoutElif(next)
    case ForLoop(_, body, next) => WithoutElif(body) && WithoutElif(next)
    case IfElse(_, thn, els, next) =>
      WithoutElif(thn) && !els.ElifThen? && (els.ElseThen? ==> WithoutElif(els.body)) && WithoutElif(next)
  }

  /** Outside else-branches children are placed as they should be. */
  function ParsedKids(t: Template, n: nat): seq<Block>
    requires WithoutElif(t)
    decreases t, 1
  {
    match t
    case Done => []
    case TextLine(_, next) => ParsedKids(next, n + 1)
    case IncludeFile(path, next) => [Open(INCLUDE, path, n)] + ParsedKids(next, n)
    case ForLoop(header, body, next) => [ParsedLoop(header, body, n)] + ParsedKids(next, n)
    case IfElse(_, _, _, next) => [ParsedIf(t, n)] + ParsedKids(next, n)
  }

  function ParsedLoop(header: string, body: Template, n: nat): Block
    requires WithoutElif(body)
    decreases body, 2
  {
    Block(FOR, header, n, TextLines(body), [], ParsedKids(body, 0))
  }

  /** Inside an else-branch every child gets the length of the then-branch as its place, and `if`
      and `include` end up among the children of the then-branch. */
  function ParsedIf(t: Template, n: nat): Block
    requires t.IfElse? && WithoutElif(t)
    decreases t, 0
  {
    match t.els
    case NoElse => Block(IF, t.cond, n, TextLines(t.thn), [], ParsedKids(t.thn, 0))
    case ElseThen(e) =>
      var c := |TextLines(t.thn)|;
      Block(IF, t.cond, n, TextLines(t.thn), [SubBlock(ELSE, "", TextLines(e), ElseLoops(e, c))],
            ParsedKids(t.thn, 0) + StrayKids(e, c))
  }

  function ElseLoops(e: Template, c: nat): seq<Block>
    requires WithoutElif(e)
    decreases e, 1
  {
    match e
    case Done => []
    case TextLine(_, next) => ElseLoops(next, c)
    case IncludeFile(_, next) => ElseLoops(next, c)
    case ForLoop(header, body, next) => [ParsedLoop(header, body, c)] + ElseLoops(next, c)
    case IfElse(_, _, _, next) => ElseLoops(next, c)
  }

  function StrayKids(e: Template, c: nat): seq<Block>
    requires WithoutElif(e)
    decreases e, 1
  {
    match e
    case Done => []
    case TextLine(_, next) => StrayKids(next, c)
    case IncludeFile(path, next) => [Open(INCLUDE, path, c)] + StrayKids(next, c)
    case ForLoop(_, _, next) => StrayKids(next, c)
    case IfElse(_, _, _, next) => [ParsedIf(e, c)] + StrayKids(next, c)
  }

  /** Block `b` after the parser has read `t` into it. */
  function Filled(t: Template, b: Block): Block
    requires WithoutElif(t)
  {
    if b.subBlocks == [] then
      b.(content := b.content + TextLines(t), children := b.children + ParsedKids(t, |b.content|))
    else
      SetLast(b.(children := b.children + StrayKids(t, |b.content|)),
              Last(b).(content := Last(b).content + TextLines(t),
                       children := Last(b).children + ElseLoops(t, |b.content|)))
  }

  // ---- The parser reads what the printer wrote

  lemma ParseIf(cond: string, ts: seq<Token>, b: Block, inner: Block, rest: seq<Token>)
    requires Parse(ts, Open(IF, cond, |b.content|)) == Parsed(inner, rest)
    ensures Parse([If(cond)] + ts, b) == Parse(rest, AddChild(b, inner))
  {
    assert ([If(cond)] + ts)[1..] == ts;
  }

  lemma ParseFor(header: string, ts: seq<Token>, b: Block, inner: Block, rest: seq<Token>)
    requires Parse(ts, Open(FOR, header, |b.content|)) == Parsed(inner, rest)
    ensures Parse([For(header)] + ts, b) == Parse(rest, AddLoop(b, inner))
  {
    assert ([For(header)] + ts)[1..] == ts;
  }

  /** A text line, an include, a closing line or an else: one step of the parser. */
  lemma ParseStep(t: Token, ts: seq<Token>, b: Block)
    requires !t.If? && !t.For?
    ensures t.Text? ==> Parse([t] + ts, b) == Parse(ts, AddLine(b, t.line))
    ensures t.Include? ==> Parse([t] + ts, b) == Parse(ts, AddChild(b, Open(INCLUDE, t.path, |b.content|)))
    ensures t.EndIf? && b.kind == IF ==> Parse([t] + ts, b) == Parsed(b, ts)
    ensures t.EndFor? && b.kind == FOR ==> Parse([t] + ts, b) == Parsed(b, ts)
    ensures t.Else? && b.kind == IF && b.subBlocks == [] ==> Parse([t] + ts, b) == Parse(ts, AddSub(b, ELSE, ""))
    ensures t.Elif? && b.kind == IF && b.subBlocks == [] ==> Parse([t] + ts, b) == Undefined
  {
    assert ([t] + ts)[1..] == ts;
  }

  lemma FilledLine(line: Line, next: Template, b: Block)
    requires WithoutElif(next)
    ensures Filled(next, AddLine(b, line)) == Filled(TextLine(line, next), b)
  {
    if b.subBlocks == [] {
      assert b.content + [line] + TextLines(next) == b.content + ([line] + TextLines(next));
    } else {
      assert Last(b).content + [line] + TextLines(next) == Last(b).content + ([line] + TextLines(next));
    }
  }

  lemma FilledChild(child: Block, kids: seq<Block>, b: Block)
    ensures AddChild(b, child).children + kids == b.children + ([child] + kids)
  {
  }

  lemma FilledInclude(path: string, next: Template, b: Block)
    requires WithoutElif(next)
    ensures Filled(next, AddChild(b, Open(INCLUDE, path, |b.content|))) == Filled(IncludeFile(path, next), b)
  {
    var child := Open(INCLUDE, path, |b.content|);
    FilledChild(child, ParsedKids(next, |b.content|), b);
    FilledChild(child, StrayKids(next, |b.content|), b);
  }

  lemma FilledIf(t: Template, b: Block)
    requires t.IfElse? && WithoutElif(t)
    ensures Filled(t.next, AddChild(b, ParsedIf(t, |b.content|))) == Filled(t, b)
  {
    var child := ParsedIf(t, |b.content|);
    FilledChild(child, ParsedKids(t.next, |b.content|), b);
    FilledChild(child, StrayKids(t.next, |b.content|), b);
  }

  lemma FilledLoop(header: string, body: Template, next: Template, b: Block)
    requires WithoutElif(body) && WithoutElif(next)
    ensures Filled(next, AddLoop(b, ParsedLoop(header, body, |b.content|))) == Filled(ForLoop(header, body, next), b)
  {
    var child := ParsedLoop(header, body, |b.content|);
    FilledChild(child, ParsedKids(next, |b.content|), b);
    if b.subBlocks != [] { Assoc(Last(b).children, [child], ElseLoops(next, |b.content|)); }
  }

  /** A body read into a fresh block. */
  lemma FilledOpen(kind: Kind, expression: string, n: nat, t: Template)
    requires WithoutElif(t)
    ensures Filled(t, Open(kind, expression, n)) == Block(kind, expression, n, TextLines(t), [], ParsedKids(t, 0))
  {
  }

  lemma FilledElse(t: Template, n: nat)
    requires t.IfElse? && WithoutElif(t) && t.els.ElseThen?
    ensures Filled(t.els.body, AddSub(Filled(t.thn, Open(IF, t.cond, n)), ELSE, "")) == ParsedIf(t, n)
  {
    FilledOpen(IF, t.cond, n, t.thn);
    var c, e := |TextLines(t.thn)|, t.els.body;
    assert [] + TextLines(e) == TextLines(e) && [] + ElseLoops(e, c) == ElseLoops(e, c);
  }

  /** Reading a printed template is filling the block, in a then-branch and in an else-branch, and
      the parser goes on with whatever follows. */
  lemma {:induction false} ParsePrinted(t: Template, b: Block, rest: seq<Token>)
    requires WithoutElif(t)
    ensures Parse(Print(t, rest), b) == Parse(rest, Filled(t, b))
    decreases t, 1
  {
    match t
    case Done =>
      FilledDone(b);
    case TextLine(line, next) =>
      ParseStep(Text(line), Print(next, rest), b);
      ParsePrinted(next, AddLine(b, line), rest);
      FilledLine(line, next, b);
    case IncludeFile(path, next) =>
      ParseStep(Include(path), Print(next, rest), b);
      ParsePrinted(next, AddChild(b, Open(INCLUDE, path, |b.content|)), rest);
      FilledInclude(path, next, b);
    case ForLoop(header, body, next) =>
      var n, after := |b.content|, Print(next, rest);
      ParsePrinted(body, Open(FOR, header, n), [EndFor] + after);
      FilledOpen(FOR, header, n, body);
      ParseStep(EndFor, after, ParsedLoop(header, body, n));
      ParseFor(header, Print(body, [EndFor] + after), b, ParsedLoop(header, body, n), after);
      ParsePrinted(next, AddLoop(b, ParsedLoop(header, body, n)), rest);
      FilledLoop(header, body, next, b);
    case IfElse(cond, thn, els, next) =>
      var n, after := |b.content|, Print(next, rest);
      ParsePrintedIf(t, n, after);
      ParseIf(cond, Print(thn, PrintElse(els, [EndIf] + after)), b, ParsedIf(t, n), after);
      ParsePrinted(next, AddChild(b, ParsedIf(t, n)), rest);
      FilledIf(t, b);
  }

  lemma FilledDone(b: Block)
    ensures Filled(Done, b) == b
  {
    assert b.content + [] == b.content && b.children + [] == b.children;
    if b.subBlocks != [] {
      assert Last(b).content + [] == Last(b).content && Last(b).children + [] == Last(b).children;
      assert b.subBlocks[..|b.subBlocks| - 1] + [Last(b)] == b.subBlocks;
    }
  }

  lemma {:induction false} ParsePrintedIf(t: Template, n: nat, after: seq<Token>)
    requires WithoutElif(t) && t.IfElse?
    ensures Parse(Print(t.thn, PrintElse(t.els, [EndIf] + after)), Open(IF, t.cond, n)) == Parsed(ParsedIf(t, n), after)
    decreases t, 0
  {
    var thenBlock := Filled(t.thn, Open(IF, t.cond, n));
    ParsePrinted(t.thn, Open(IF, t.cond, n), PrintElse(t.els, [EndIf] + after));
    FilledOpen(IF, t.cond, n, t.thn);
    if t.els.NoElse? {
      ParseStep(EndIf, after, thenBlock);
    } else {
      var e := t.els.body;
      ParseStep(Else, Print(e, [EndIf] + after), thenBlock);
      ParsePrinted(e, AddSub(thenBlock, ELSE, ""), [EndIf] + after);
      FilledElse(t, n);
      ParseStep(EndIf, after, ParsedIf(t, n));
    }
  }

  // ---- When is the parsed tree the right one?

  /** Templates that parse to the tree they denote: no `elif`; an else-branch holds no `if` and no
      `include`, and a `for` in it only where as many text lines precede it as the then-branch has
      in all. */
  predicate Good(t: Template) {
    match t
    case Done => true
    case TextLine(_, next) => Good(next)
    case IncludeFile(_, next) => Good(next)
    case ForLoop(_, body, next) => Good(body) && Good(next)
    case IfElse(_, thn, els, next) =>
      && Good(thn) && !els.ElifThen? && Good(next)
      && (els.ElseThen? ==> GoodElse(els.body, 0, |TextLines(thn)|))
  }

  predicate GoodElse(e: Template, n: nat, c: nat) {
    match e
    case Done => true
    case TextLine(_, next) => GoodElse(next, n + 1, c)
    case IncludeFile(_, _) => false
    case ForLoop(_, body, next) => n == c && Good(body) && GoodElse(next, n, c)
    case IfElse(_, _, _, _) => false
  }

  lemma {:induction false} GoodWithoutElif(t: Template)
    requires Good(t)
    ensures WithoutElif(t)
  {
    match t
    case Done =>
    case TextLine(_, next) => GoodWithoutElif(next);
    case IncludeFile(_, next) => GoodWithoutElif(next);
    case ForLoop(_, body, next) => GoodWithoutElif(body); GoodWithoutElif(next);
    case IfElse(_, thn, els, next) =>
      GoodWithoutElif(thn);
      GoodWithoutElif(next);
      if els.ElseThen? { GoodElseWithoutElif(els.body, 0, |TextLines(thn)|); }
  }

  lemma {:induction false} GoodElseWithoutElif(e: Template, n: nat, c: nat)
    requires GoodElse(e, n, c)
    ensures WithoutElif(e)
  {
    match e
    case Done =>
    case TextLine(_, next) => GoodElseWithoutElif(next, n + 1, c);
    case ForLoop(_, body, next) => GoodWithoutElif(body); GoodElseWithoutElif(next, n, c);
  }

  lemma ConsInjective<T>(x: T, xs: seq<T>, y: T, ys: seq<T>)
    ensures [x] + xs == [y] + ys <==> x == y && xs == ys
  {
    if [x] + xs == [y] + ys {
      assert ([x] + xs)[0] == ([y] + ys)[0];
      assert ([x] + xs)[1..] == xs && ([y] + ys)[1..] == ys;
    }
  }

  lemma {:induction false} SameNumberOfKids(t: Template, n: nat)
    requires WithoutElif(t)
    ensures |ParsedKids(t, n)| == |Kids(t, n)|
  {
    match t
    case Done =>
    case TextLine(_, next) => SameNumberOfKids(next, n + 1);
    case IncludeFile(_, next) => SameNumberOfKids(next, n);
    case ForLoop(_, _, next) => SameNumberOfKids(next, n);
    case IfElse(_, _, _, next) => SameNumberOfKids(next, n);
  }

  /** The children of a then-branch, a loop or a file are the right ones exactly for good templates. */
  lemma {:induction false} KidsExactly(t: Template, n: nat)
    requires WithoutElif(t)
    ensures ParsedKids(t, n) == Kids(t, n) <==> Good(t)
    decreases t, 1
  {
    match t
    case Done =>
    case TextLine(_, next) => KidsExactly(next, n + 1);
    case IncludeFile(path, next) =>
      KidsExactly(next, n);
      ConsInjective(Open(INCLUDE, path, n), ParsedKids(next, n), Open(INCLUDE, path, n), Kids(next, n));
    case ForLoop(header, body, next) =>
      KidsExactly(body, 0);
      KidsExactly(next, n);
      ConsInjective(ParsedLoop(header, body, n), ParsedKids(next, n), LoopBlock(header, body, n), Kids(next, n));
    case IfElse(_, _, _, next) =>
      IfExactly(t, n);
      KidsExactly(next, n);
      ConsInjective(ParsedIf(t, n), ParsedKids(next, n), IfBlock(t, n), Kids(next, n));
  }

  lemma {:induction false} IfExactly(t: Template, n: nat)
    requires WithoutElif(t) && t.IfElse?
    ensures ParsedIf(t, n) == IfBlock(t, n)
       <==> Good(t.thn) && (t.els.ElseThen? ==> GoodElse(t.els.body, 0, |TextLines(t.thn)|))
    decreases t, 0
  {
    KidsExactly(t.thn, 0);
    if t.els.ElseThen? {
      var e, c := t.els.body, |TextLines(t.thn)|;
      var parsed, right := ParsedKids(t.thn, 0), Kids(t.thn, 0);
      ElseExactly(e, 0, c);
      SameNumberOfKids(t.thn, 0);
      StrayMeansLonger(parsed, StrayKids(e, c), right);
      var sub, sub' := SubBlock(ELSE, "", TextLines(e), ElseLoops(e, c)), SubBlock(ELSE, "", TextLines(e), Kids(e, 0));
      assert [sub] == [sub'] <==> sub == sub' by { assert [sub][0] == sub && [sub'][0] == sub'; }
    }
  }

  lemma StrayMeansLonger<T>(parsed: seq<T>, stray: seq<T>, right: seq<T>)
    requires |parsed| == |right|
    ensures parsed + stray == right <==> parsed == right && stray == []
  {
    if parsed + stray == right {
      assert |parsed + stray| == |parsed| + |stray|;
      assert parsed + [] == parsed;
    } else if stray == [] {
      assert parsed + stray == parsed;
    }
  }

  /** The same for an else-branch behind a then-branch of `c` text lines. */
  lemma {:induction false} ElseExactly(e: Template, n: nat, c: nat)
    requires WithoutElif(e)
    ensures ElseLoops(e, c) == Kids(e, n) && StrayKids(e, c) == [] <==> GoodElse(e, n, c)
    decreases e, 1
  {
    match e
    case Done =>
    case TextLine(_, next) => ElseExactly(next, n + 1, c);
    case IncludeFile(_, next) =>
    case ForLoop(header, body, next) =>
      KidsExactly(body, 0);
      ElseExactly(next, n, c);
      ConsInjective(ParsedLoop(header, body, c), ElseLoops(next, c), LoopBlock(header, body, n), Kids(next, n));
    case IfElse(_, _, _, _) =>
  }

  /** Wherever an `elif` stands, the parser reads the last element of an empty vector. */
  lemma {:induction false} ElifIsUndefined(t: Template, b: Block, rest: seq<Token>)
    requires !WithoutElif(t)
    ensures Parse(Print(t, rest), b) == Undefined
    decreases t
  {
    match t
    case TextLine(line, next) =>
      ParseStep(Text(line), Print(next, rest), b);
      ElifIsUndefined(next, AddLine(b, line), rest);
    case IncludeFile(path, next) =>
      ParseStep(Include(path), Print(next, rest), b);
      ElifIsUndefined(next, AddChild(b, Open(INCLUDE, path, |b.content|)), rest);
    case ForLoop(header, body, next) =>
      var n, after := |b.content|, Print(next, rest);
      assert Print(t, rest)[1..] == Print(body, [EndFor] + after);
      if WithoutElif(body) {
        ParsePrinted(body, Open(FOR, header, n), [EndFor] + after);
        FilledOpen(FOR, header, n, body);
        ParseStep(EndFor, after, ParsedLoop(header, body, n));
        ElifIsUndefined(next, AddLoop(b, ParsedLoop(header, body, n)), rest);
      } else {
        ElifIsUndefined(body, Open(FOR, header, n), [EndFor] + after);
      }
    case IfElse(cond, thn, els, next) =>
      var n, after := |b.content|, Print(next, rest);
      assert Print(t, rest)[1..] == Print(thn, PrintElse(els, [EndIf] + after));
      if WithoutElif(thn) && !els.ElifThen? && (els.ElseThen? ==> WithoutElif(els.body)) {
        var t' := IfElse(cond, thn, els, Done);
        ParsePrintedIf(t', n, after);
        ElifIsUndefined(next, AddChild(b, ParsedIf(t', n)), rest);
      } else {
        ElifInside(t, n, after);
      }
  }

  lemma {:induction false} ElifInside(t: Template, n: nat, after: seq<Token>)
    requires t.IfElse?
    requires !(WithoutElif(t.thn) && !t.els.ElifThen? && (t.els.ElseThen? ==> WithoutElif(t.els.body)))
    ensures Parse(Print(t.thn, PrintElse(t.els, [EndIf] + after)), Open(IF, t.cond, n)) == Undefined
    decreases t, 0
  {
    var more := PrintElse(t.els, [EndIf] + after);
    if !WithoutElif(t.thn) {
      ElifIsUndefined(t.thn, Open(IF, t.cond, n), more);
    } else {
      ParsePrinted(t.thn, Open(IF, t.cond, n), more);
      FilledOpen(IF, t.cond, n, t.thn);
      var b := Filled(t.thn, Open(IF, t.cond, n));
      if t.els.ElifThen? {
        ParseStep(Elif(t.els.cond), Print(t.els.body, PrintElse(t.els.more, [EndIf] + after)), b);
      } else {
        ParseStep(Else, Print(t.els.body, [EndIf] + after), b);
        ElifIsUndefined(t.els.body, AddSub(b, ELSE, ""), [EndIf] + after);
      }
    }
  }

  /** Parsing a printed template gives the tree it denotes if and only if the template is good. */
  lemma ParsesToItsTree(t: Template)
    ensures Parse(Print(t, []), Root) == Parsed(TreeOf(t), []) <==> Good(t)
  {
    if WithoutElif(t) {
      ParsePrinted(t, Root, []);
      assert Filled(t, Root) == Block(ROOT, "", -1, TextLines(t), [], ParsedKids(t, 0));
      KidsExactly(t, 0);
    } else {
      ElifIsUndefined(t, Root, []);
      if Good(t) { GoodWithoutElif(t); }
    }
  }
}
