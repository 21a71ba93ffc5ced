/** In what order the lines and children of a block are rendered. */
module TemplateMerge {
  import opened TemplateSyntax
  import opened TemplateRender

  // ---- Placement: what holds of every tree the parser builds

  /** Children stand in the order of their places, none behind the last line. */
  ghost predicate Placed(children: seq<Block>, bound: nat) {
    && (forall i :: 0 <= i < |children| ==> 0 <= children[i].indexToPlace <= bound)
    && (forall i, j :: 0 <= i < j < |children| ==> children[i].indexToPlace <= children[j].indexToPlace)
  }

  ghost predicate InOrder(b: Block) {
    && Placed(b.children, |b.content|)
    && AllInOrder(b.children)
    && forall k :: 0 <= k < |b.subBlocks| ==> AllInOrder(b.subBlocks[k].children)
  }

  ghost predicate AllInOrder(children: seq<Block>) {
    forall i :: 0 <= i < |children| ==> InOrder(children[i])
  }

  lemma AddLineInOrder(b: Block, line: Line)
    requires InOrder(b)
    ensures InOrder(AddLine(b, line))
  {
  }

  lemma AddChildInOrder(b: Block, child: Block)
    requires InOrder(b) && InOrder(child) && child.indexToPlace == |b.content|
    ensures InOrder(AddChild(b, child))
  {
  }

  lemma AddLoopInOrder(b: Block, child: Block)
    requires InOrder(b) && InOrder(child) && child.indexToPlace == |b.content|
    ensures InOrder(AddLoop(b, child))
  {
    if b.subBlocks == [] {
      AddChildInOrder(b, child);
    } else {
      assert AllInOrder(Last(b).children);
    }
  }

  /** The parser never changes the place of the block it fills. */
  lemma {:induction false} ParseKeepsPlace(ts: seq<Token>, b: Block)
    ensures Parse(ts, b).Parsed? ==> Parse(ts, b).block.indexToPlace == b.indexToPlace
    decreases |ts|
  {
    if ts != [] {
      match ts[0]
      case Text(line) => ParseKeepsPlace(ts[1..], AddLine(b, line));
      case Include(path) => ParseKeepsPlace(ts[1..], AddChild(b, Open(INCLUDE, path, |b.content|)));
      case If(cond) =>
        var inner := Parse(ts[1..], Open(IF, cond, |b.content|));
        if inner.Parsed? { ParseKeepsPlace(inner.rest, AddChild(b, inner.block)); }
      case For(header) =>
        var inner := Parse(ts[1..], Open(FOR, header, |b.content|));
        if inner.Parsed? { ParseKeepsPlace(inner.rest, AddLoop(b, inner.block)); }
      case Elif(cond) => ParseKeepsPlace(ts[1..], AddSub(b, ELIF, cond));
      case Else => ParseKeepsPlace(ts[1..], AddSub(b, ELSE, ""));
      case _ =>
    }
  }

  /** In every tree that is parsed, from whatever lines, children are placed in order. */
  lemma {:induction false} ParseKeepsOrder(ts: seq<Token>, b: Block)
    requires InOrder(b)
    ensures Parse(ts, b).Parsed? ==> InOrder(Parse(ts, b).block)
    decreases |ts|, 1
  {
    if ts != [] {
      match ts[0]
      case Text(line) => AddLineInOrder(b, line); ParseKeepsOrder(ts[1..], AddLine(b, line));
      case Include(path) =>
        var child := Open(INCLUDE, path, |b.content|);
        AddChildInOrder(b, child);
        ParseKeepsOrder(ts[1..], AddChild(b, child));
      case If(cond) => ParseInnerInOrder(ts, b, Open(IF, cond, |b.content|));
      case For(header) => ParseInnerInOrder(ts, b, Open(FOR, header, |b.content|));
      case Elif(cond) => ParseKeepsOrder(ts[1..], AddSub(b, ELIF, cond));
      case Else => ParseKeepsOrder(ts[1..], AddSub(b, ELSE, ""));
      case _ =>
    }
  }

  lemma {:induction false} ParseInnerInOrder(ts: seq<Token>, b: Block, open: Block)
    requires ts != [] && InOrder(b)
    requires (ts[0].If? && open == Open(IF, ts[0].cond, |b.content|))
          || (ts[0].For? && open == Open(FOR, ts[0].header, |b.content|))
    ensures Parse(ts, b).Parsed? ==> InOrder(Parse(ts, b).block)
    decreases |ts|, 0
  {
    ParseKeepsOrder(ts[1..], open);
    ParseKeepsPlace(ts[1..], open);
    var inner := Parse(ts[1..], open);
    if inner.Parsed? {
      if ts[0].If? {
        AddChildInOrder(b, inner.block);
        ParseKeepsOrder(inner.rest, AddChild(b, inner.block));
      } else {
        AddLoopInOrder(b, inner.block);
        ParseKeepsOrder(inner.rest, AddLoop(b, inner.block));
      }
    }
  }

  // ---- The merge of the two lists

  datatype Item = LineItem(line: Line) | ChildItem(child: Block)

  /** What the loops of `__Render` visit, in the order they visit it. */
  function Visits(content: seq<Line>, children: seq<Block>, n: nat, c: nat): seq<Item>
    requires n <= |content| + |children| && c <= |children|
    decreases |content| + |children| - n, |children| - c
  {
    if n == |content| + |children| then []
    else if c < |children| then
      (if children[c].indexToPlace == n then [ChildItem(children[c])] else []) + Visits(content, children, n, c + 1)
    else (if n < |content| then [LineItem(content[n])] else []) + Visits(content, children, n + 1, 0)
  }

  /** The merge one would write: a child goes in front of the line at its place, and what is placed
      behind the last line comes last; `n` lines precede `lines`. */
  function Merge(lines: seq<Line>, children: seq<Block>, n: nat): seq<Item>
    decreases |lines| + |children|
  {
    if children != [] && (children[0].indexToPlace <= n || lines == []) then
      [ChildItem(children[0])] + Merge(lines, children[1..], n)
    else if lines != [] then [LineItem(lines[0])] + Merge(lines[1..], children, n + 1)
    else []
  }

  ghost predicate Ordered(children: seq<Block>) {
    && (forall i :: 0 <= i < |children| ==> 0 <= children[i].indexToPlace)
    && (forall i, j :: 0 <= i < j < |children| ==> children[i].indexToPlace <= children[j].indexToPlace)
  }

  /** How many of the children are placed below `total`: for ordered ones, the first so many. */
  function Reached(children: seq<Block>, total: nat): (k: nat)
    ensures k <= |children|
  {
    if children == [] || children[0].indexToPlace >= total then 0 else 1 + Reached(children[1..], total)
  }

  lemma {:induction false} ReachedExactly(children: seq<Block>, total: nat, i: nat)
    requires Ordered(children) && i < |children|
    ensures i < Reached(children, total) <==> children[i].indexToPlace < total
  {
    if children[0].indexToPlace < total && i > 0 { ReachedExactly(children[1..], total, i - 1); }
  }

  /** Where the loops stand at line `n` and child `c`: the first `k` children are visited, the others
      up to `m` are placed at `n` or later, and the rest never comes up. */
  ghost predicate Stage(children: seq<Block>, total: nat, n: nat, c: nat, k: nat, m: nat) {
    && n <= total && c <= |children| && k <= m <= |children|
    && (forall i :: 0 <= i < k ==> children[i].indexToPlace <= n)
    && (forall i :: c <= i < k ==> children[i].indexToPlace < n)
    && (forall i :: k <= i < m ==> n <= children[i].indexToPlace < total)
    && (c > k ==> forall i :: k <= i < m ==> n < children[i].indexToPlace)
    && (forall i :: m <= i < |children| ==> total <= children[i].indexToPlace)
  }

  lemma StageMoves(children: seq<Block>, total: nat, n: nat, c: nat, k: nat, m: nat)
    requires Ordered(children) && Stage(children, total, n, c, k, m) && c < |children| && n < total
    ensures if children[c].indexToPlace == n then c == k < m && Stage(children, total, n, c + 1, k + 1, m)
            else Stage(children, total, n, c + 1, k, m)
  {
  }

  lemma StageEnds(children: seq<Block>, total: nat, n: nat, k: nat, m: nat)
    requires Stage(children, total, n, |children|, k, m) && n < total
    ensures Stage(children, total, n + 1, 0, k, m)
    ensures k < m ==> n < children[k].indexToPlace
  {
  }

  lemma StageOver(children: seq<Block>, n: nat, c: nat, k: nat, m: nat)
    requires Stage(children, n, n, c, k, m)
    ensures k == m
  {
    var place := if k < |children| then children[k].indexToPlace else 0;
  }

  function Drop<T>(s: seq<T>, n: nat): seq<T> { if n <= |s| then s[n..] else [] }

  lemma {:induction false} VisitsFrom(content: seq<Line>, children: seq<Block>, n: nat, c: nat, k: nat, m: nat)
    requires Ordered(children) && Stage(children, |content| + |children|, n, c, k, m)
    ensures Visits(content, children, n, c) == Merge(Drop(content, n), children[k..m], n)
    decreases |content| + |children| - n, |children| - c, 1
  {
    if n == |content| + |children| {
      VisitsOver(content, children, n, c, k, m);
    } else if c < |children| {
      var k' := StageNext(children, |content| + |children|, n, c, k, m);
      VisitsFrom(content, children, n, c + 1, k', m);
      MergeMoves(content, children, n, c, k, k', m);
    } else {
      VisitsFromLine(content, children, n, k, m);
    }
  }

  lemma {:induction false} VisitsOver(content: seq<Line>, children: seq<Block>, n: nat, c: nat, k: nat, m: nat)
    requires n == |content| + |children| && Stage(children, n, n, c, k, m)
    ensures Visits(content, children, n, c) == Merge(Drop(content, n), children[k..m], n)
  {
    StageOver(children, n, c, k, m);
    assert children[k..m] == [];
  }

  lemma StageNext(children: seq<Block>, total: nat, n: nat, c: nat, k: nat, m: nat) returns (k': nat)
    requires Ordered(children) && Stage(children, total, n, c, k, m) && c < |children| && n < total
    ensures if children[c].indexToPlace == n then c == k < m && k' == k + 1 else k' == k
    ensures Stage(children, total, n, c + 1, k', m)
  {
    StageMoves(children, total, n, c, k, m);
    k' := if children[c].indexToPlace == n then k + 1 else k;
  }

  lemma {:induction false} VisitsFromLine(content: seq<Line>, children: seq<Block>, n: nat, k: nat, m: nat)
    requires Ordered(children) && Stage(children, |content| + |children|, n, |children|, k, m)
    requires n < |content| + |children|
    ensures Visits(content, children, n, |children|) == Merge(Drop(content, n), children[k..m], n)
    decreases |content| + |children| - n, 0, 0
  {
    StageEnds(children, |content| + |children|, n, k, m);
    VisitsFrom(content, children, n + 1, 0, k, m);
    NextLine(content, children[k..m], n);
    VisitsLine(content, children, n);
  }

  lemma MergeMoves(content: seq<Line>, children: seq<Block>, n: nat, c: nat, k: nat, k': nat, m: nat)
    requires n < |content| + |children| && c < |children| && k <= k' <= m <= |children|
    requires if children[c].indexToPlace == n then c == k < m && k' == k + 1 else k' == k
    requires Visits(content, children, n, c + 1) == Merge(Drop(content, n), children[k'..m], n)
    ensures Visits(content, children, n, c) == Merge(Drop(content, n), children[k..m], n)
  {
    if children[c].indexToPlace == n {
      assert children[k..m][1..] == children[k + 1..m];
    } else {
      assert [] + Visits(content, children, n, c + 1) == Visits(content, children, n, c + 1);
    }
  }

  lemma NextLine(content: seq<Line>, rest: seq<Block>, n: nat)
    requires rest != [] ==> n < rest[0].indexToPlace
    ensures Merge(Drop(content, n), rest, n)
         == if n < |content| then [LineItem(content[n])] + Merge(Drop(content, n + 1), rest, n + 1)
            else Merge(Drop(content, n + 1), rest, n + 1)
  {
    if n < |content| {
      assert content[n..][1..] == content[n + 1..];
    } else {
      AnyLine(rest, n);
    }
  }

  lemma {:induction false} AnyLine(rest: seq<Block>, n: nat)
    ensures Merge([], rest, n) == Merge([], rest, n + 1)
  {
    if rest != [] { AnyLine(rest[1..], n); }
  }

  /** For every block with ordered children, whatever lines it was parsed from: the loops visit every
      line once, and the children below lines plus children once, as the merge puts them. A child at
      or beyond lines plus children is lost, and no other. */
  lemma VisitsAreMerge(content: seq<Line>, children: seq<Block>)
    requires Ordered(children)
    ensures Visits(content, children, 0, 0)
         == Merge(content, children[..Reached(children, |content| + |children|)], 0)
  {
    var total := |content| + |children|;
    var m := Reached(children, total);
    forall i | 0 <= i < |children| ensures i < m <==> children[i].indexToPlace < total {
      ReachedExactly(children, total, i);
    }
    VisitsFrom(content, children, 0, 0, 0, m);
    assert children[0..m] == children[..m];
  }

  lemma PlacedVisits(content: seq<Line>, children: seq<Block>)
    requires Placed(children, |content|)
    ensures Visits(content, children, 0, 0) == Merge(content, children, 0)
  {
    VisitsAreMerge(content, children);
    var total := |content| + |children|;
    if children != [] { ReachedExactly(children, total, |children| - 1); }
    assert children[..|children|] == children;
  }

  function LinesOf(items: seq<Item>): seq<Line> {
    if items == [] then [] else (if items[0].LineItem? then [items[0].line] else []) + LinesOf(items[1..])
  }

  function ChildrenOf(items: seq<Item>): seq<Block> {
    if items == [] then [] else (if items[0].ChildItem? then [items[0].child] else []) + ChildrenOf(items[1..])
  }

  /** A merge holds every line and every child once, each list in its order. */
  lemma {:induction false} MergeHoldsBoth(lines: seq<Line>, children: seq<Block>, n: nat)
    ensures LinesOf(Merge(lines, children, n)) == lines && ChildrenOf(Merge(lines, children, n)) == children
    decreases |lines| + |children|
  {
    var items := Merge(lines, children, n);
    if children != [] && (children[0].indexToPlace <= n || lines == []) {
      MergeHoldsBoth(lines, children[1..], n);
      assert items[1..] == Merge(lines, children[1..], n);
    } else if lines != [] {
      MergeHoldsBoth(lines[1..], children, n + 1);
      assert items[1..] == Merge(lines[1..], children, n + 1);
    }
  }

  /** Whatever lines a file holds: if it parses, rendering visits every line and every child of the
      tree exactly once, each child in front of the line at its place. */
  lemma EveryParseMerges(ts: seq<Token>)
    requires Parse(ts, Root).Parsed?
    ensures var b := Parse(ts, Root).block;
            var items := Visits(b.content, b.children, 0, 0);
            items == Merge(b.content, b.children, 0) && LinesOf(items) == b.content && ChildrenOf(items) == b.children
  {
    ParseKeepsOrder(ts, Root);
    var b := Parse(ts, Root).block;
    PlacedVisits(b.content, b.children);
    MergeHoldsBoth(b.content, b.children, 0);
  }

  // ---- Rendering what is visited

  function RenderItems(g: Engine, cache: Cache, depth: nat, items: seq<Item>, env: Env): Outcome
    decreases |items|
  {
    if items == [] then Ok("", env)
    else
      match items[0]
      case LineItem(line) =>
        (match RenderLine(g, line, env)
         case None => Threw
         case Some(s) => Before(s + "\n", RenderItems(g, cache, depth, items[1..], env)))
      case ChildItem(child) =>
        match RenderChild(g, cache, depth, child, env)
        case Ok(out, env') => Before(out, RenderItems(g, cache, depth, items[1..], env'))
        case o => o
  }

  lemma RenderItemsCons(g: Engine, cache: Cache, depth: nat, item: Item, rest: seq<Item>, env: Env)
    ensures item.LineItem? ==>
              var line := RenderLine(g, item.line, env);
              RenderItems(g, cache, depth, [item] + rest, env)
              == if line.None? then Threw else Before(line.value + "\n", RenderItems(g, cache, depth, rest, env))
    ensures item.ChildItem? ==>
              var o := RenderChild(g, cache, depth, item.child, env);
              RenderItems(g, cache, depth, [item] + rest, env)
              == if o.Ok? then Before(o.out, RenderItems(g, cache, depth, rest, o.env)) else o
  {
    assert ([item] + rest)[1..] == rest;
  }

  /** The nested loops of `__Render` render what they visit. */
  lemma {:induction false} RenderVisits(g: Engine, cache: Cache, depth: nat, content: seq<Line>, children: seq<Block>,
                                       n: nat, c: nat, env: Env)
    requires n <= |content| + |children| && c <= |children|
    ensures RenderAt(g, cache, depth, content, children, n, c, env)
         == RenderItems(g, cache, depth, Visits(content, children, n, c), env)
    decreases |content| + |children| - n, |children| - c, 1
  {
    if n < |content| + |children| {
      if c < |children| {
        RenderVisitsChild(g, cache, depth, content, children, n, c, env);
      } else {
        RenderVisitsLine(g, cache, depth, content, children, n, env);
      }
    }
  }

  lemma {:induction false} RenderVisitsChild(g: Engine, cache: Cache, depth: nat, content: seq<Line>,
                                             children: seq<Block>, n: nat, c: nat, env: Env)
    requires n < |content| + |children| && c < |children|
    ensures RenderAt(g, cache, depth, content, children, n, c, env)
         == RenderItems(g, cache, depth, Visits(content, children, n, c), env)
    decreases |content| + |children| - n, |children| - c, 0
  {
    var rest := Visits(content, children, n, c + 1);
    if children[c].indexToPlace != n {
      assert [] + rest == rest;
      RenderVisits(g, cache, depth, content, children, n, c + 1, env);
    } else {
      RenderItemsCons(g, cache, depth, ChildItem(children[c]), rest, env);
      var o := RenderChild(g, cache, depth, children[c], env);
      if o.Ok? { RenderVisits(g, cache, depth, content, children, n, c + 1, o.env); }
    }
  }

  lemma {:induction false} RenderVisitsLine(g: Engine, cache: Cache, depth: nat, content: seq<Line>,
                                            children: seq<Block>, n: nat, env: Env)
    requires n < |content| + |children|
    ensures RenderAt(g, cache, depth, content, children, n, |children|, env)
         == RenderItems(g, cache, depth, Visits(content, children, n, |children|), env)
    decreases |content| + |children| - n, 0, 0
  {
    var rest := Visits(content, children, n + 1, 0);
    RenderVisits(g, cache, depth, content, children, n + 1, 0, env);
    VisitsLine(content, children, n);
    if n < |content| { RenderItemsCons(g, cache, depth, LineItem(content[n]), rest, env); }
  }

  lemma VisitsLine(content: seq<Line>, children: seq<Block>, n: nat)
    requires n < |content| + |children|
    ensures Visits(content, children, n, |children|)
         == if n < |content| then [LineItem(content[n])] + Visits(content, children, n + 1, 0)
            else Visits(content, children, n + 1, 0)
  {
  }

  lemma {:induction false} RenderItemsJoined(g: Engine, cache: Cache, depth: nat, a: seq<Item>, b: seq<Item>, env: Env)
    ensures RenderItems(g, cache, depth, a + b, env)
         == var o := RenderItems(g, cache, depth, a, env);
            if o.Ok? then Before(o.out, RenderItems(g, cache, depth, b, o.env)) else o
    decreases |a|, 0
  {
    if a == [] {
      assert a + b == b;
      BeforeNothing(RenderItems(g, cache, depth, b, env));
    } else {
      var rest := a[1..] + b;
      assert a + b == [a[0]] + rest && a == [a[0]] + a[1..];
      RenderItemsCons(g, cache, depth, a[0], rest, env);
      RenderItemsCons(g, cache, depth, a[0], a[1..], env);
      if a[0].LineItem? {
        var line := RenderLine(g, a[0].line, env);
        if line.Some? { JoinBehind(g, cache, depth, line.value + "\n", a[1..], b, env); }
      } else {
        var o := RenderChild(g, cache, depth, a[0].child, env);
        if o.Ok? { JoinBehind(g, cache, depth, o.out, a[1..], b, o.env); }
      }
    }
  }

  lemma {:induction false} JoinBehind(g: Engine, cache: Cache, depth: nat, s: string, a: seq<Item>, b: seq<Item>,
                                      env: Env)
    ensures Before(s, RenderItems(g, cache, depth, a + b, env))
         == var o := Before(s, RenderItems(g, cache, depth, a, env));
            if o.Ok? then Before(o.out, RenderItems(g, cache, depth, b, o.env)) else o
    decreases |a|, 1
  {
    RenderItemsJoined(g, cache, depth, a, b, env);
    var o := RenderItems(g, cache, depth, a, env);
    if o.Ok? { BeforeTwice(s, o.out, RenderItems(g, cache, depth, b, o.env)); }
  }

  lemma BeforeTwice(s: string, t: string, o: Outcome)
    ensures Before(s, Before(t, o)) == Before(s + t, o)
  {
    if o.Ok? { assert s + (t + o.out) == s + t + o.out; }
  }

  lemma BeforeNothing(o: Outcome)
    ensures Before("", o) == o
  {
    if o.Ok? { assert "" + o.out == o.out; }
  }
}
