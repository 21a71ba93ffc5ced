/** The class `Templating`: the parser and the renderer as they run. Parsing consumes the lines of a
    stream, fills blocks and, for every include, the cache of parsed files; rendering runs over the
    blocks, looks includes up in that cache, and threads the data through loops and branches. Each
    method is proved against the functions of the modules this one imports. */
module TemplateEngine {
  import opened Wrappers
  import opened TemplateSyntax
  import opened TemplateRender
  import opened TemplateMerge
  import opened TemplateMeaning
  import opened TemplateFaithful
  import opened TemplateInlining

  /** The paths of the include lines. */
  function Includes(ts: seq<Token>): set<string> {
    set i | 0 <= i < |ts| && ts[i].Include? :: ts[i].path
  }

  type Disk = map<string, seq<Token>>

  /** Every file that `ts` includes, directly or not, exists and parses, at most `depth` deep. */
  ghost predicate Loadable(disk: Disk, depth: nat, ts: seq<Token>)
    decreases depth
  {
    forall p :: p in Includes(ts) ==>
      p in disk && depth > 0 && Parse(disk[p], Root).Parsed? && Loadable(disk, depth - 1, disk[p])
  }

  // ---- A disk that holds printed templates

  ghost predicate IsSite(disk: Disk, files: Files) {
    disk.Keys == files.Keys && forall p :: p in files ==> disk[p] == Print(files[p], []) && WithoutElif(files[p])
  }

  lemma IncludesCons(t: Token, ts: seq<Token>)
    ensures Includes([t] + ts) == Includes(ts) + (if t.Include? then {t.path} else {})
  {
    var all := [t] + ts;
    forall p | p in Includes(ts) ensures p in Includes(all) {
      var k :| 0 <= k < |ts| && ts[k].Include? && ts[k].path == p;
      assert all[k + 1] == ts[k];
    }
    assert all[0] == t;
  }

  /** The include lines of a printed template are the includes of the template. */
  lemma {:induction false} PrintedIncludes(known: set<string>, t: Template, rest: seq<Token>)
    ensures Includes(Print(t, rest)) <= known <==> Closed(known, t) && Includes(rest) <= known
    decreases t
  {
    match t
    case Done =>
    case TextLine(line, next) => PrintedIncludes(known, next, rest); IncludesCons(Text(line), Print(next, rest));
    case IncludeFile(path, next) => PrintedIncludes(known, next, rest); IncludesCons(Include(path), Print(next, rest));
    case ForLoop(header, body, next) =>
      var after := Print(next, rest);
      PrintedIncludes(known, next, rest);
      PrintedIncludes(known, body, [EndFor] + after);
      IncludesCons(EndFor, after);
      IncludesCons(For(header), Print(body, [EndFor] + after));
    case IfElse(cond, thn, els, next) =>
      var after := Print(next, rest);
      PrintedIncludes(known, next, rest);
      IncludesCons(EndIf, after);
      PrintedElseIncludes(known, els, [EndIf] + after);
      PrintedIncludes(known, thn, PrintElse(els, [EndIf] + after));
      IncludesCons(If(cond), Print(thn, PrintElse(els, [EndIf] + after)));
  }

  lemma {:induction false} PrintedElseIncludes(known: set<string>, els: Branches, rest: seq<Token>)
    ensures Includes(PrintElse(els, rest)) <= known <==> ClosedElse(known, els) && Includes(rest) <= known
    decreases els
  {
    match els
    case NoElse =>
    case ElseThen(body) => PrintedIncludes(known, body, rest); IncludesCons(Else, Print(body, rest));
    case ElifThen(cond, body, more) =>
      PrintedElseIncludes(known, more, rest);
      PrintedIncludes(known, body, PrintElse(more, rest));
      IncludesCons(Elif(cond), Print(body, PrintElse(more, rest)));
  }

  /** The known files that fit. */
  lemma {:induction false} FitsIsClosed(files: Files, depth: nat, t: Template, known: set<string>)
    requires Fits(files, depth, t)
    requires forall p :: p in files && depth > 0 && Fits(files, depth - 1, files[p]) ==> p in known
    ensures Closed(known, t)
    decreases t
  {
    match t
    case Done =>
    case TextLine(_, next) => FitsIsClosed(files, depth, next, known);
    case IncludeFile(_, next) => FitsIsClosed(files, depth, next, known);
    case ForLoop(_, body, next) => FitsIsClosed(files, depth, body, known); FitsIsClosed(files, depth, next, known);
    case IfElse(_, thn, els, next) =>
      FitsIsClosed(files, depth, thn, known);
      FitsElseIsClosed(files, depth, els, known);
      FitsIsClosed(files, depth, next, known);
  }

  lemma {:induction false} FitsElseIsClosed(files: Files, depth: nat, els: Branches, known: set<string>)
    requires FitsElse(files, depth, els)
    requires forall p :: p in files && depth > 0 && Fits(files, depth - 1, files[p]) ==> p in known
    ensures ClosedElse(known, els)
    decreases els
  {
    match els
    case NoElse =>
    case ElseThen(body) => FitsIsClosed(files, depth, body, known);
    case ElifThen(_, body, more) =>
      FitsIsClosed(files, depth, body, known);
      FitsElseIsClosed(files, depth, more, known);
  }

  lemma {:induction false} FitsIsLoadable(disk: Disk, files: Files, depth: nat, t: Template)
    requires IsSite(disk, files) && Fits(files, depth, t)
    ensures Loadable(disk, depth, Print(t, []))
    decreases depth
  {
    var known := set p | p in files && depth > 0 && Fits(files, depth - 1, files[p]);
    FitsIsClosed(files, depth, t, known);
    PrintedIncludes(known, t, []);
    forall p | p in known ensures Parse(disk[p], Root).Parsed? && Loadable(disk, depth - 1, disk[p]) {
      ParsesToParsedTree(files[p]);
      FitsIsLoadable(disk, files, depth - 1, files[p]);
    }
  }

  ghost predicate ValidCache(disk: Disk, cache: Cache) {
    forall p :: p in cache ==>
      p in disk && Parse(disk[p], Root) == Parsed(cache[p], []) && Includes(disk[p]) <= cache.Keys
  }

  lemma ValidIsCached(disk: Disk, cache: Cache, files: Files)
    requires IsSite(disk, files) && ValidCache(disk, cache)
    ensures Cached(cache, files)
  {
    forall p | p in cache ensures p in files && cache[p] == ParsedTree(files[p]) && Closed(cache.Keys, files[p]) {
      ParsesToParsedTree(files[p]);
      PrintedIncludes(cache.Keys, files[p], []);
    }
  }

  /** A whole file is read to its end: only an `if` or a `for` block stops earlier. */
  lemma {:induction false} RootReadsAll(ts: seq<Token>, b: Block)
    requires b.kind == ROOT
    ensures Parse(ts, b).Parsed? ==> Parse(ts, b).rest == []
    decreases |ts|
  {
    if ts != [] {
      match ts[0]
      case Text(line) => RootReadsAll(ts[1..], AddLine(b, line));
      case Include(path) => RootReadsAll(ts[1..], AddChild(b, Open(INCLUDE, path, |b.content|)));
      case If(cond) =>
        var inner := Parse(ts[1..], Open(IF, cond, |b.content|));
        if inner.Parsed? { RootReadsAll(inner.rest, AddChild(b, inner.block)); }
      case For(header) =>
        var inner := Parse(ts[1..], Open(FOR, header, |b.content|));
        if inner.Parsed? { RootReadsAll(inner.rest, AddLoop(b, inner.block)); }
      case _ =>
    }
  }

  /** `rest` is what is left of `stream`, and the includes before it are all `known`. */
  ghost predicate Consumed(stream: seq<Token>, rest: seq<Token>, known: set<string>) {
    && |rest| <= |stream|
    && stream[|stream| - |rest|..] == rest
    && Includes(stream[..|stream| - |rest|]) <= known
  }

  lemma ConsumedOne(stream: seq<Token>, known: set<string>)
    requires stream != [] && (stream[0].Include? ==> stream[0].path in known)
    ensures Consumed(stream, stream[1..], known)
  {
    assert stream[..1] == [stream[0]];
  }

  lemma ConsumedMore(a: seq<Token>, b: seq<Token>, c: seq<Token>, known: set<string>, more: set<string>)
    requires Consumed(a, b, known) && Consumed(b, c, more) && known <= more
    ensures Consumed(a, c, more)
  {
    var i, j := |a| - |b|, |b| - |c|;
    assert a[i + j..] == a[i..][j..];
    forall p | p in Includes(a[..i + j]) ensures p in more {
      var k :| 0 <= k < i + j && a[..i + j][k].Include? && a[..i + j][k].path == p;
      if k < i {
        assert a[..i][k] == a[k];
        assert p in Includes(a[..i]);
      } else {
        assert b[..j][k - i] == a[k];
        assert p in Includes(b[..j]);
      }
    }
  }

  lemma LoadableSuffix(disk: Disk, depth: nat, stream: seq<Token>, rest: seq<Token>, known: set<string>)
    requires Consumed(stream, rest, known) && !Loadable(disk, depth, rest)
    ensures !Loadable(disk, depth, stream)
  {
    forall p | p in Includes(rest) ensures p in Includes(stream) {
      var k :| 0 <= k < |rest| && rest[k].Include? && rest[k].path == p;
      assert stream[|stream| - |rest| + k] == rest[k];
    }
  }

  /** The child number behind the `k`-th index. */
  function After(indices: seq<nat>, k: nat): nat
    requires k <= |indices|
  {
    if k == 0 then 0 else indices[k - 1] + 1
  }

  lemma {:induction false} NoneUntil(g: Engine, cache: Cache, depth: nat, content: seq<Line>, children: seq<Block>,
                                    n: nat, c: nat, e: nat, env: Env)
    requires n < |content| + |children| && c <= e <= |children|
    requires forall i :: c <= i < e ==> children[i].indexToPlace != n
    ensures RenderAt(g, cache, depth, content, children, n, c, env)
         == RenderAt(g, cache, depth, content, children, n, e, env)
    decreases e - c
  {
    if c < e { NoneUntil(g, cache, depth, content, children, n, c + 1, e, env); }
  }

  class Templating {
    const disk: Disk
    var cachedTemplating: Cache

    constructor (disk: Disk)
      ensures Valid() && this.disk == disk && cachedTemplating == map[]
    {
      this.disk := disk;
      cachedTemplating := map[];
    }

    /** The cache holds the parse trees of files, and with a file all files it includes. */
    ghost predicate Valid()
      reads this
    {
      ValidCache(disk, cachedTemplating)
    }

    /** `generateCache` and the assignment of its result. */
    method LoadInclude(depth: nat, path: string) returns (ok: bool, undefined: bool)
      requires Valid()
      modifies this`cachedTemplating
      ensures Valid() && old(cachedTemplating.Keys) <= cachedTemplating.Keys
      ensures ok ==> path in cachedTemplating
      ensures !ok ==> forall ts :: path in Includes(ts) ==> !Loadable(disk, depth, ts)
      decreases depth, 1, 0, 0
    {
      if path !in disk || depth == 0 { return false, false; }
      var inner := BlockParser(depth - 1, disk[path], Root);
      if !inner.Parsed? { return false, inner.Undefined? || (inner.IncludeFailed? && inner.undefined); }
      RootReadsAll(disk[path], Root);
      assert disk[path][..|disk[path]|] == disk[path];
      cachedTemplating := cachedTemplating[path := inner.block];
      return true, false;
    }

    /** An `if` or a `for` with everything up to its end, and the block it is added to. */
    method ReadNested(depth: nat, stream: seq<Token>, block: Block) returns (r: ParseResult)
      requires Valid() && stream != [] && (stream[0].If? || stream[0].For?)
      modifies this`cachedTemplating
      ensures Valid() && old(cachedTemplating.Keys) <= cachedTemplating.Keys
      ensures r.IncludeFailed? ==> !Loadable(disk, depth, stream)
      ensures !r.IncludeFailed? && !r.Parsed? ==> r == Parse(stream, block)
      ensures r.Parsed? ==>
                && |r.rest| < |stream| && Consumed(stream, r.rest, cachedTemplating.Keys)
                && Parse(r.rest, r.block) == Parse(stream, block)
      decreases depth, 2, |stream|, 0
    {
      var line, more := stream[0], stream[1..];
      var newBlock :=
        if line.If? then Open(IF, line.cond, |block.content|) else Open(FOR, line.header, |block.content|);
      ConsumedOne(stream, cachedTemplating.Keys);
      ghost var known := cachedTemplating.Keys;
      var inner := BlockParser(depth, more, newBlock);
      if inner.IncludeFailed? { LoadableSuffix(disk, depth, stream, more, known); }
      if !inner.Parsed? { return inner; }
      ConsumedMore(stream, more, inner.rest, known, cachedTemplating.Keys);
      return Parsed(if line.If? then AddChild(block, inner.block) else AddLoop(block, inner.block), inner.rest);
    }

    /** A line that opens an else-branch, closes the block, or has no business in it. */
    method ReadMark(block: Block, stream: seq<Token>) returns (stop: bool, r: ParseResult, next: Block)
      requires stream != []
      requires var t := stream[0]; t.Elif? || t.Else? || t.EndIf? || t.EndFor? || t.Unknown?
      ensures stop ==> r == Parse(stream, block) && !r.IncludeFailed? && (r.Parsed? ==> r.rest == stream[1..])
      ensures !stop ==> Parse(stream[1..], next) == Parse(stream, block)
    {
      var line, more := stream[0], stream[1..];
      stop, r, next := true, Invalid, block;
      match line {
        case Elif(cond) =>
          if block.kind != IF { return; }
          if block.subBlocks == [] { r := Undefined; return; }
          if Last(block).kind == ELSE { r := Parsed(block, more); return; }
          stop, next := false, AddSub(block, ELIF, cond);
        case Else =>
          if block.kind != IF { return; }
          if block.subBlocks != [] && Last(block).kind == ELSE { r := Parsed(block, more); return; }
          stop, next := false, AddSub(block, ELSE, "");
        case EndIf => if block.kind == IF { r := Parsed(block, more); }
        case EndFor => if block.kind == FOR { r := Parsed(block, more); }
        case Unknown(_) =>
      }
    }

    /** `BlockParser`: consumes lines, fills `block`, calls itself for nested statements and parses
        included files on the way. */
    method BlockParser(depth: nat, stream: seq<Token>, parent: Block) returns (r: ParseResult)
      requires Valid() && (parent.kind == ROOT ==> parent == Root)
      modifies this`cachedTemplating
      ensures Valid() && old(cachedTemplating.Keys) <= cachedTemplating.Keys
      ensures !r.IncludeFailed? ==> r == Parse(stream, parent)
      ensures r.IncludeFailed? ==> !Loadable(disk, depth, stream)
      ensures r.Parsed? ==> Consumed(stream, r.rest, cachedTemplating.Keys)
      decreases depth, 2, |stream|, 1
    {
      var block := Root;
      if parent.kind != ROOT { block := parent; }
      var rest := stream;
      assert stream[..0] == [];
      while rest != []
        invariant Valid() && old(cachedTemplating.Keys) <= cachedTemplating.Keys
        invariant Parse(rest, block) == Parse(stream, parent)
        invariant Consumed(stream, rest, cachedTemplating.Keys)
        decreases |rest|
      {
        ghost var known, before := cachedTemplating.Keys, rest;
        match rest[0] {
          case Text(text) =>
            block, rest := AddLine(block, text), rest[1..];
            ConsumedOne(before, known);
          case Include(path) =>
            var ok, undefined := LoadInclude(depth, path);
            if !ok {
              assert path in Includes(rest);
              LoadableSuffix(disk, depth, stream, rest, known);
              return IncludeFailed(undefined);
            }
            block, rest := AddChild(block, Open(INCLUDE, path, |block.content|)), rest[1..];
            ConsumedOne(before, cachedTemplating.Keys);
          case If(_) | For(_) =>
            var inner := ReadNested(depth, rest, block);
            if inner.IncludeFailed? { LoadableSuffix(disk, depth, stream, rest, known); }
            if !inner.Parsed? { return inner; }
            block, rest := inner.block, inner.rest;
          case _ =>
            var stop, result, next := ReadMark(block, rest);
            ConsumedOne(before, known);
            if stop {
              if result.Parsed? { ConsumedMore(stream, before, result.rest, known, known); }
              return result;
            }
            block, rest := next, rest[1..];
        }
        ConsumedMore(stream, before, rest, known, cachedTemplating.Keys);
      }
      return Parsed(block, []);
    }

    // ---- Rendering

    /** `findChildren`: the children placed at a line, in order. */
    method FindChildren(children: seq<Block>, lineN: nat) returns (indices: seq<nat>)
      ensures forall k :: 0 <= k < |indices| ==> indices[k] < |children| && children[indices[k]].indexToPlace == lineN
      ensures forall j, k :: 0 <= j < k < |indices| ==> indices[j] < indices[k]
      ensures forall i :: 0 <= i < |children| && children[i].indexToPlace == lineN ==> i in indices
    {
      indices := [];
      for i := 0 to |children|
        invariant forall k :: 0 <= k < |indices| ==> indices[k] < i && children[indices[k]].indexToPlace == lineN
        invariant forall j, k :: 0 <= j < k < |indices| ==> indices[j] < indices[k]
        invariant forall j :: 0 <= j < i && children[j].indexToPlace == lineN ==> j in indices
      {
        if children[i].indexToPlace == lineN { indices := indices + [i]; }
      }
    }

    /** `__Render`: for every line number the children placed there, then the line. */
    method Render(g: Engine, depth: nat, content: seq<Line>, children: seq<Block>, data: Env) returns (o: Outcome)
      ensures o == RenderAll(g, cachedTemplating, depth, content, children, data)
      decreases depth, children, 1, 0
    {
      var result, env, lineN := "", data, 0;
      BeforeNothing(RenderAt(g, cachedTemplating, depth, content, children, 0, 0, data));
      while lineN < |content| + |children|
        invariant 0 <= lineN <= |content| + |children|
        invariant RenderAll(g, cachedTemplating, depth, content, children, data)
               == Before(result, RenderAt(g, cachedTemplating, depth, content, children, lineN, 0, env))
      {
        var indices := FindChildren(children, lineN);
        var k := 0;
        while k < |indices|
          invariant 0 <= k <= |indices|
          invariant RenderAll(g, cachedTemplating, depth, content, children, data)
                 == Before(result,
                           RenderAt(g, cachedTemplating, depth, content, children, lineN, After(indices, k), env))
        {
          NoneUntil(g, cachedTemplating, depth, content, children, lineN, After(indices, k), indices[k], env);
          var child := RenderChildBlock(g, depth, children[indices[k]], env);
          if !child.Ok? { return child; }
          BeforeTwice(result, child.out,
                      RenderAt(g, cachedTemplating, depth, content, children, lineN, indices[k] + 1, child.env));
          result, env, k := result + child.out, child.env, k + 1;
        }
        NoneUntil(g, cachedTemplating, depth, content, children, lineN, After(indices, k), |children|, env);
        if lineN < |content| {
          var line := RenderLine(g, content[lineN], env);
          if line.None? { return Threw; }
          BeforeTwice(result, line.value + "\n",
                      RenderAt(g, cachedTemplating, depth, content, children, lineN + 1, 0, env));
          result := result + (line.value + "\n");
        }
        lineN := lineN + 1;
      }
      assert result + "" == result;
      return Ok(result, env);
    }

    /** The switch over the kind of a child. */
    method RenderChildBlock(g: Engine, depth: nat, b: Block, data: Env) returns (o: Outcome)
      ensures o == RenderChild(g, cachedTemplating, depth, b, data)
      decreases depth, b, 2, 0
    {
      match b.kind
      case ROOT => o := Threw;
      case IF => o := RenderIfBlock(g, depth, b, data);
      case FOR => o := RenderForBlock(g, depth, b, PlanOf(g, b.expression, data), data);
      case INCLUDE =>
        if depth == 0 { return TooDeep; }
        if b.expression !in cachedTemplating { return Ok("", data); }
        var rootInclude := cachedTemplating[b.expression];
        o := Render(g, depth - 1, rootInclude.content, rootInclude.children, data);
    }

    method RenderIfBlock(g: Engine, depth: nat, b: Block, data: Env) returns (o: Outcome)
      ensures o == RenderIf(g, cachedTemplating, depth, b, data)
      decreases depth, b, 1, 0
    {
      var r := g.truth(b.expression, data);
      if r.None? { return Threw; }
      if r.value {
        o := Render(g, depth, b.content, b.children, data);
        return;
      }
      if b.subBlocks == [] { return Ok("", data); }
      var s := b.subBlocks[0];
      var render := s.kind == ELSE;
      if s.kind == ELIF {
        var e := g.truth(s.expression, data);
        render := e == Some(true);
      }
      if !render { return Threw; }
      o := Render(g, depth, s.content, s.children, data);
    }

    /** `__renderForBlock`. The loop variable of a range or an array stays in the environment; the
        rounds over an object each start from a copy. */
    method RenderForBlock(g: Engine, depth: nat, b: Block, plan: Plan, data: Env) returns (o: Outcome)
      ensures o == RenderLoop(g, cachedTemplating, depth, b, plan, data)
      decreases depth, b, 1, 0
    {
      var result, env, now := "", data, plan;
      BeforeNothing(RenderLoop(g, cachedTemplating, depth, b, plan, data));
      while Rounds(now) > 0
        invariant RenderLoop(g, cachedTemplating, depth, b, plan, data)
               == Before(result, RenderLoop(g, cachedTemplating, depth, b, now, env))
        decreases Rounds(now)
      {
        var round := env[now.name := if now.Range? then Number(now.from) else now.values[0]];
        var r := Render(g, depth, b.content, b.children, round);
        if !r.Ok? { return r; }
        var left := if now.Range? then now.(from := now.from + 1) else now.(values := now.values[1..]);
        if !now.Scoped? { env := r.env; }
        BeforeTwice(result, r.out, RenderLoop(g, cachedTemplating, depth, b, left, env));
        result, now := result + r.out, left;
      }
      if now.Bad? { return Threw; }
      assert result + "" == result;
      return Ok(result, env);
    }

    /** `Render` of a text: parse it, then render the tree. On a site without `elif` whose includes are
        nested at most `depth` deep the result is the meaning of the template it is rendered as, and with
        faithful files the meaning of the template itself. */
    method RenderString(g: Engine, depth: nat, lines: seq<Token>, data: Env) returns (o: Outcome)
      requires Valid()
      modifies this`cachedTemplating
      ensures Valid() && old(cachedTemplating.Keys) <= cachedTemplating.Keys
      ensures Loadable(disk, depth, lines) ==> o == RenderLines(g, cachedTemplating, depth, lines, data)
      ensures forall files, t :: IsSite(disk, files) && WithoutElif(t) && Fits(files, depth, t) && lines == Print(t, [])
                ==> o == Interpret(g, Rendered(files), depth, AsRendered(t), data)
      ensures forall files, t ::
                IsSite(disk, files) && FaithfulSite(files) && Faithful(t) && Fits(files, depth, t)
                && lines == Print(t, [])
                ==> o == Interpret(g, files, depth, t, data)
    {
      var parsed := BlockParser(depth, lines, Root);
      if parsed.Parsed? {
        RootReadsAll(lines, Root);
        assert lines[..|lines|] == lines;
        o := Render(g, depth, parsed.block.content, parsed.block.children, data);
      } else {
        o := if parsed.Undefined? || (parsed.IncludeFailed? && parsed.undefined) then Undetermined else Threw;
      }
      forall files, t | IsSite(disk, files) && WithoutElif(t) && Fits(files, depth, t) && lines == Print(t, [])
        ensures o == Interpret(g, Rendered(files), depth, AsRendered(t), data)
      {
        SiteRenders(disk, cachedTemplating, files, g, depth, t, data, parsed, o);
      }
      forall files, t | IsSite(disk, files) && FaithfulSite(files) && Faithful(t) && Fits(files, depth, t)
                        && lines == Print(t, [])
        ensures o == Interpret(g, files, depth, t, data)
      {
        FaithfulWithoutElif(t);
        FaithfulExactly(t);
        SiteAsRendered(files);
      }
    }
  }

  lemma SiteRenders(disk: Disk, cache: Cache, files: Files, g: Engine, depth: nat, t: Template, data: Env,
                    parsed: ParseResult, o: Outcome)
    requires IsSite(disk, files) && WithoutElif(t) && Fits(files, depth, t) && ValidCache(disk, cache)
    requires parsed.IncludeFailed? ==> !Loadable(disk, depth, Print(t, []))
    requires !parsed.IncludeFailed? ==> parsed == Parse(Print(t, []), Root)
    requires parsed.Parsed? ==> Includes(Print(t, [])) <= cache.Keys
    requires parsed.Parsed? ==> o == RenderAll(g, cache, depth, parsed.block.content, parsed.block.children, data)
    ensures o == Interpret(g, Rendered(files), depth, AsRendered(t), data)
  {
    FitsIsLoadable(disk, files, depth, t);
    ParsesToParsedTree(t);
    PrintedIncludes(cache.Keys, t, []);
    ValidIsCached(disk, cache, files);
    RenderedAs(g, cache, files, depth, t, data);
  }
}
