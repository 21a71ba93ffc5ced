/** The file cache: a list in order of use, a map beside it, and a running size. */
module LruCache {
  import opened Wrappers

  /** 1 MiB: the limit of the whole cache and, exclusively, of one file. */
  const MAX_SIZE: nat := 1024 * 1024

  /** What `size_t` holds. */
  const SIZE_T: nat := 0x1_0000_0000_0000_0000

  datatype File = File(size: nat, path: string, content: string)

  datatype State = State(list: seq<File>, table: map<string, File>, size: nat)

  const Empty := State([], map[], 0)

  predicate Admitted(size: nat) { 0 < size < MAX_SIZE }

  // ---- What the operations do

  /** `std::find_if` by path: the first entry of that path, or the length of the list. */
  function IndexOf(list: seq<File>, path: string): (i: nat)
    ensures i <= |list|
    ensures i < |list| ==> list[i].path == path
  {
    if list == [] || list[0].path == path then 0 else 1 + IndexOf(list[1..], path)
  }

  /** `splice` to the front. */
  function ToFront(list: seq<File>, i: nat): seq<File>
    requires i < |list|
  {
    [list[i]] + list[..i] + list[i + 1..]
  }

  /** Dropping the last entry, whatever the map holds under its path; the size is unsigned. */
  function DropLast(st: State): State
    requires st.list != []
  {
    var last := st.list[|st.list| - 1];
    State(st.list[..|st.list| - 1], st.table - {last.path}, (st.size - last.size) % SIZE_T)
  }

  /** The eviction loop; `None` is the last entry of an empty list being asked for. */
  function Evict(st: State, need: nat): Option<State>
    decreases |st.list|
  {
    if st.size + need <= MAX_SIZE then Some(st)
    else if st.list == [] then None
    else Evict(DropLast(st), need)
  }

  function Push(st: State, file: File): State {
    State([file] + st.list, st.table[file.path := file], st.size + file.size)
  }

  /** What `put` does to a cached key before it makes room. */
  function Moved(st: State, key: string): State {
    var i := IndexOf(st.list, key);
    if key in st.table && i < |st.list| then st.(list := ToFront(st.list, i)) else st
  }

  /** `None` is the exception of a key that the map holds and the list does not, or a failed eviction. */
  function Put(st: State, key: string, content: string): Option<State> {
    if !Admitted(|content|) then Some(st)
    else if key in st.table && IndexOf(st.list, key) == |st.list| then None
    else
      var room := Evict(Moved(st, key), |content|);
      if room.None? then None else Some(Push(room.value, File(|content|, key, content)))
  }

  function Get(st: State, key: string): (State, Option<string>) {
    (Moved(st, key), if key in st.table then Some(st.table[key].content) else None)
  }

  // ---- The invariant

  function Total(list: seq<File>): nat {
    if list == [] then 0 else list[0].size + Total(list[1..])
  }

  /** The size is the sum over the list, stale entries included, and within the limit; a key of the
      map is the path of some entry, and its value is the front-most of them. */
  ghost predicate Valid(st: State) {
    && st.size == Total(st.list) <= MAX_SIZE
    && Sized(st.list)
    && (forall p :: p in st.table ==> Leads(st, p))
  }

  ghost predicate Sized(list: seq<File>) {
    forall k :: 0 <= k < |list| ==> list[k].size == |list[k].content| && Admitted(list[k].size)
  }

  ghost predicate Leads(st: State, p: string)
    requires p in st.table
  {
    var i := IndexOf(st.list, p);
    i < |st.list| && st.table[p] == st.list[i]
  }

  lemma {:induction false} TotalJoined(a: seq<File>, b: seq<File>)
    ensures Total(a + b) == Total(a) + Total(b)
  {
    if a == [] {
      assert a + b == b;
    } else {
      assert (a + b)[1..] == a[1..] + b;
      TotalJoined(a[1..], b);
    }
  }

  lemma {:induction false} IndexOfJoined(a: seq<File>, b: seq<File>, p: string)
    ensures IndexOf(a + b, p) == if IndexOf(a, p) < |a| then IndexOf(a, p) else |a| + IndexOf(b, p)
  {
    if a == [] {
      assert a + b == b;
    } else {
      assert (a + b)[1..] == a[1..] + b;
      IndexOfJoined(a[1..], b, p);
    }
  }

  /** The entries before the first of a path are not of that path. */
  lemma {:induction false} NoneBefore(list: seq<File>, p: string)
    ensures IndexOf(list[..IndexOf(list, p)], p) == IndexOf(list, p)
  {
    var i := IndexOf(list, p);
    if i > 0 {
      NoneBefore(list[1..], p);
      assert list[..i][1..] == list[1..][..i - 1];
    }
  }

  lemma CutAt(list: seq<File>, i: nat)
    requires i < |list|
    ensures list == list[..i] + ([list[i]] + list[i + 1..])
    ensures ToFront(list, i) == [list[i]] + (list[..i] + list[i + 1..])
  {
  }

  lemma ToFrontTotal(list: seq<File>, i: nat)
    requires i < |list|
    ensures Total(ToFront(list, i)) == Total(list)
  {
    var f, a, b := [list[i]], list[..i], list[i + 1..];
    CutAt(list, i);
    TotalJoined(a, f + b);
    TotalJoined(f, b);
    TotalJoined(f, a + b);
    TotalJoined(a, b);
  }

  /** The entry that stands for a path: its front-most one. */
  function Front(list: seq<File>, p: string): Option<File> {
    if IndexOf(list, p) < |list| then Some(list[IndexOf(list, p)]) else None
  }

  lemma FrontJoined(a: seq<File>, b: seq<File>, p: string)
    ensures Front(a + b, p) == if Front(a, p).Some? then Front(a, p) else Front(b, p)
  {
    IndexOfJoined(a, b, p);
  }

  /** Moving the front-most entry of a path to the front leaves every path its front-most entry. */
  lemma ToFrontKeepsFront(list: seq<File>, key: string, p: string)
    requires IndexOf(list, key) < |list|
    ensures Front(ToFront(list, IndexOf(list, key)), p) == Front(list, p)
  {
    var i := IndexOf(list, key);
    var f, a, b := [list[i]], list[..i], list[i + 1..];
    CutAt(list, i);
    NoneBefore(list, key);
    FrontJoined(a, f + b, p);
    FrontJoined(f, b, p);
    FrontJoined(f, a + b, p);
    FrontJoined(a, b, p);
  }

  lemma ToFrontSized(list: seq<File>, i: nat)
    requires i < |list| && Sized(list)
    ensures Sized(ToFront(list, i))
  {
    forall k | 0 <= k < |list| ensures ToFront(list, i)[k] in list {
      assert ToFront(list, i)[k] == if k == 0 then list[i] else if k <= i then list[k - 1] else list[k];
    }
  }

  lemma MovedValid(st: State, key: string)
    requires Valid(st)
    ensures Valid(Moved(st, key))
    ensures key in st.table ==> IndexOf(st.list, key) < |st.list|
  {
    if key in st.table {
      assert Leads(st, key);
      var i := IndexOf(st.list, key);
      var st' := Moved(st, key);
      ToFrontTotal(st.list, i);
      forall p | p in st'.table ensures Leads(st', p) {
        assert Leads(st, p);
        ToFrontKeepsFront(st.list, key, p);
      }
      ToFrontSized(st.list, i);
    }
  }

  lemma LastTotal(list: seq<File>)
    requires list != []
    ensures Total(list) == Total(list[..|list| - 1]) + list[|list| - 1].size
  {
    var last := [list[|list| - 1]];
    assert list == list[..|list| - 1] + last;
    TotalJoined(list[..|list| - 1], last);
    assert last[1..] == [];
  }

  lemma DropLastValid(st: State)
    requires Valid(st) && st.list != []
    ensures Valid(DropLast(st)) && DropLast(st).size == st.size - st.list[|st.list| - 1].size
  {
    var n := |st.list| - 1;
    var front, last := st.list[..n], st.list[n];
    assert st.list == front + [last];
    LastTotal(st.list);
    var st' := DropLast(st);
    forall p | p in st'.table ensures Leads(st', p) {
      assert Leads(st, p);
      IndexOfJoined(front, [last], p);
    }
  }

  /** The eviction loop never asks an empty list for its last entry, the size never wraps around, and
      it drops from the back no more than it must: with one entry more there would be no room. */
  lemma {:induction false} EvictValid(st: State, need: nat)
    requires Valid(st) && need <= MAX_SIZE
    ensures Evict(st, need).Some?
    ensures var r := Evict(st, need).value;
            && Valid(r) && r.size + need <= MAX_SIZE
            && (r == st || (r.list < st.list && r.size + st.list[|r.list|].size + need > MAX_SIZE))
    decreases |st.list|
  {
    if st.size + need > MAX_SIZE {
      if st.list != [] {
        DropLastValid(st);
        var next := DropLast(st);
        EvictValid(next, need);
        PrefixOfFront(st.list, Evict(next, need).value.list);
      }
    }
  }

  lemma PrefixOfFront(list: seq<File>, front: seq<File>)
    requires list != [] && front <= list[..|list| - 1]
    ensures front < list
    ensures |front| < |list| - 1 ==> list[..|list| - 1][|front|] == list[|front|]
  {
  }

  /** Eviction takes exactly the paths of the dropped entries out of the map. */
  lemma {:induction false} EvictTable(st: State, need: nat, p: string)
    requires Evict(st, need).Some?
    ensures var r := Evict(st, need).value;
            && |r.list| <= |st.list|
            && (p in r.table <==> p in st.table && IndexOf(st.list[|r.list|..], p) == |st.list| - |r.list|)
            && (p in r.table ==> r.table[p] == st.table[p])
    decreases |st.list|
  {
    if st.size + need > MAX_SIZE {
      var n := |st.list| - 1;
      var next := DropLast(st);
      EvictTable(next, need, p);
      var k := |Evict(next, need).value.list|;
      var last := [st.list[n]];
      assert st.list[k..] == next.list[k..] + last;
      IndexOfJoined(next.list[k..], last, p);
    }
  }

  lemma PushValid(st: State, file: File)
    requires Valid(st) && file.size == |file.content| && Admitted(file.size) && st.size + file.size <= MAX_SIZE
    ensures Valid(Push(st, file))
  {
    var st' := Push(st, file);
    assert st'.list[1..] == st.list;
    forall p | p in st'.table ensures Leads(st', p) {
      if p != file.path { assert Leads(st, p); }
    }
  }

  /** `put` keeps the invariant and neither throws nor fails. */
  lemma PutValid(st: State, key: string, content: string)
    requires Valid(st)
    ensures Put(st, key, content).Some? && Valid(Put(st, key, content).value)
  {
    if Admitted(|content|) {
      MovedValid(st, key);
      EvictValid(Moved(st, key), |content|);
      PushValid(Evict(Moved(st, key), |content|).value, File(|content|, key, content));
    }
  }

  lemma GetValid(st: State, key: string)
    requires Valid(st)
    ensures Valid(Get(st, key).0)
  {
    MovedValid(st, key);
  }

  // ---- Every run of puts and gets

  datatype Op = PutOp(key: string, content: string) | GetOp(key: string)

  function Step(st: State, op: Op): Option<State> {
    match op
    case PutOp(key, content) => Put(st, key, content)
    case GetOp(key) => Some(Get(st, key).0)
  }

  /** The cache after the operations; `None` once one of them failed. */
  function Run(ops: seq<Op>): Option<State> {
    if ops == [] then Some(Empty)
    else
      var before := Run(ops[..|ops| - 1]);
      if before.None? then None else Step(before.value, ops[|ops| - 1])
  }

  /** The content of the last admitted `put` of the key. */
  function LatestPut(ops: seq<Op>, key: string): Option<string> {
    if ops == [] then None
    else
      var op := ops[|ops| - 1];
      if op.PutOp? && op.key == key && Admitted(|op.content|) then Some(op.content)
      else LatestPut(ops[..|ops| - 1], key)
  }

  /** Whatever is put and got: nothing fails, the size is the sum over the list and at most 1 MiB. */
  lemma {:induction false} RunValid(ops: seq<Op>)
    ensures Run(ops).Some? && Valid(Run(ops).value)
  {
    if ops != [] {
      var last := ops[|ops| - 1];
      RunValid(ops[..|ops| - 1]);
      var st := Run(ops[..|ops| - 1]).value;
      if last.PutOp? { PutValid(st, last.key, last.content); } else { GetValid(st, last.key); }
    }
  }

  lemma StepTable(st: State, op: Op, key: string)
    requires Valid(st) && Step(st, op).Some?
    requires key in Step(st, op).value.table
    ensures var r := Step(st, op).value.table[key];
            if op.PutOp? && op.key == key && Admitted(|op.content|) then r.content == op.content
            else key in st.table && r == st.table[key]
  {
    if op.PutOp? && Admitted(|op.content|) { EvictTable(Moved(st, op.key), |op.content|, key); }
  }

  /** `get` answers nothing or the content of the latest admitted `put`, stale entries or not. */
  lemma {:induction false} GetReturnsLatest(ops: seq<Op>, key: string)
    ensures Run(ops).Some?
    ensures var answer := Get(Run(ops).value, key).1;
            answer.Some? ==> answer == LatestPut(ops, key)
  {
    RunValid(ops);
    if ops != [] {
      RunValid(ops[..|ops| - 1]);
      GetReturnsLatest(ops[..|ops| - 1], key);
      if key in Run(ops).value.table { StepTable(Run(ops[..|ops| - 1]).value, ops[|ops| - 1], key); }
    }
  }

  /** The entries that a step drops from the back of the list. */
  function Dropped(st: State, op: Op): seq<File> {
    if op.GetOp? || !Admitted(|op.content|) then []
    else
      var m := Moved(st, op.key);
      var room := Evict(m, |op.content|);
      if room.None? || |room.value.list| > |m.list| then [] else m.list[|room.value.list|..]
  }

  /** The step at `i` drops no entry of the key. */
  predicate Spares(ops: seq<Op>, i: nat, key: string)
    requires i < |ops|
  {
    Run(ops[..i]).Some? && Front(Dropped(Run(ops[..i]).value, ops[i]), key).None?
  }

  predicate Puts(op: Op, key: string) { op.PutOp? && op.key == key && Admitted(|op.content|) }

  /** Put by the admitted `put` at `i`, and no entry of it dropped since. */
  ghost predicate KeptSince(ops: seq<Op>, key: string, i: int) {
    0 <= i < |ops| && Puts(ops[i], key) && forall j :: i < j < |ops| ==> Spares(ops, j, key)
  }

  ghost predicate Kept(ops: seq<Op>, key: string) { exists i :: KeptSince(ops, key, i) }

  lemma StepKeeps(st: State, op: Op, key: string)
    requires Valid(st) && Step(st, op).Some?
    ensures key in Step(st, op).value.table
       <==> Puts(op, key) || (key in st.table && Front(Dropped(st, op), key).None?)
  {
    if op.PutOp? && Admitted(|op.content|) { EvictTable(Moved(st, op.key), |op.content|, key); }
  }

  lemma KeptStep(ops: seq<Op>, key: string)
    requires ops != []
    ensures var n := |ops| - 1;
            Kept(ops, key) <==> Puts(ops[n], key) || (Kept(ops[..n], key) && Spares(ops, n, key))
  {
    var n := |ops| - 1;
    forall i ensures KeptSince(ops, key, i) <==>
        if i == n then Puts(ops[n], key) else KeptSince(ops[..n], key, i) && Spares(ops, n, key)
    {
      if 0 <= i < n { KeptSinceStep(ops, ops[..n], key, i); }
    }
    if Puts(ops[n], key) { assert KeptSince(ops, key, n); }
  }

  lemma KeptSinceStep(ops: seq<Op>, earlier: seq<Op>, key: string, i: nat)
    requires ops != [] && earlier == ops[..|ops| - 1] && i < |earlier|
    ensures KeptSince(ops, key, i) <==> KeptSince(earlier, key, i) && Spares(ops, |ops| - 1, key)
  {
    forall j: nat | j < |earlier| ensures Spares(ops, j, key) == Spares(earlier, j, key) {
      assert earlier[..j] == ops[..j];
    }
    assert earlier[i] == ops[i];
  }

  /** `get` answers exactly if the key was put and no entry of it, stale or not, was dropped since; and
      the answer is the content of the latest admitted `put`. */
  lemma {:induction false} AnswersExactly(ops: seq<Op>, key: string)
    ensures Run(ops).Some?
    ensures Get(Run(ops).value, key).1 == if Kept(ops, key) then LatestPut(ops, key) else None
    ensures Kept(ops, key) ==> LatestPut(ops, key).Some?
  {
    RunValid(ops);
    if ops != [] {
      var earlier, op := ops[..|ops| - 1], ops[|ops| - 1];
      RunValid(earlier);
      AnswersExactly(earlier, key);
      KeptStep(ops, key);
      StepKeeps(Run(earlier).value, op, key);
    }
    GetReturnsLatest(ops, key);
  }

  /** Anything of 1 to 1048575 octets that was just put is answered next. */
  lemma PutThenGet(ops: seq<Op>, key: string, content: string)
    requires 1 <= |content| <= 1048575
    ensures var run := Run(ops + [PutOp(key, content)]);
            run.Some? && Get(run.value, key).1 == Some(content)
  {
    var all := ops + [PutOp(key, content)];
    assert all[..|all| - 1] == ops;
    RunValid(all);
  }

  /** Nothing, and a content of 1 MiB or more, is not cached: the cache stays as it is. */
  lemma TooLargeIsIgnored(st: State, key: string, content: string)
    requires |content| == 0 || |content| >= 1048576
    ensures Put(st, key, content) == Some(st)
  {
  }

  // ---- The configured limit

  lemma PutFresh(st: State, key: string, content: string)
    requires Admitted(|content|) && key !in st.table && st.size + |content| <= MAX_SIZE
    ensures Put(st, key, content) == Some(Push(st, File(|content|, key, content)))
  {
  }

  lemma RunSnoc(ops: seq<Op>, op: Op)
    requires Run(ops).Some?
    ensures Run(ops + [op]) == Step(Run(ops).value, op)
  {
    assert (ops + [op])[..|ops|] == ops;
  }

  /** Two puts can fill the cache to the last octet. */
  lemma TwoPutsFill(half: nat, content: string) returns (ops: seq<Op>)
    requires half > 0 && 2 * half == MAX_SIZE && |content| == half
    ensures Run(ops).Some? && Run(ops).value.size == MAX_SIZE
  {
    var first, second := PutOp("a", content), PutOp("b", content);
    ops := [] + [first] + [second];
    PutFresh(Empty, "a", content);
    RunSnoc([], first);
    var st := Run([] + [first]).value;
    PutFresh(st, "b", content);
    RunSnoc([] + [first], second);
  }

  /** A limit given to the constructor bounds the cache exactly when it is 1 MiB or more: below that
      it is exceeded. */
  lemma LimitHoldsExactly(limit: nat)
    ensures (forall ops :: Run(ops).Some? && Run(ops).value.size <= limit) <==> limit >= 1048576
  {
    if limit >= MAX_SIZE {
      forall ops ensures Run(ops).Some? && Run(ops).value.size <= limit { RunValid(ops); }
    } else {
      var half: nat := 512 * 1024;
      var ops := TwoPutsFill(half, seq(half, _ => 'x'));
    }
  }

  // ---- Stale entries, and when there are none

  /** The entry dropped takes its key out of the map even when a newer entry of that key stays in the
      list; that entry's content is then still charged for and no longer answered. */
  lemma StaleEvictionLosesKey(st: State)
    requires Valid(st) && st.list != []
    ensures var p := st.list[|st.list| - 1].path;
            var r := DropLast(st);
            && Get(r, p).1 == None
            && (Front(r.list, p).Some? <==> IndexOf(st.list, p) < |st.list| - 1)
  {
    var n := |st.list| - 1;
    assert st.list == st.list[..n] + [st.list[n]];
    IndexOfJoined(st.list[..n], [st.list[n]], st.list[n].path);
  }

  /** No path twice, and every path in the map: then list and map hold the same entries. */
  ghost predicate Clean(st: State) {
    && Distinct(st.list)
    && (forall k :: 0 <= k < |st.list| ==> st.list[k].path in st.table)
  }

  ghost predicate Distinct(list: seq<File>) {
    forall i, j :: 0 <= i < j < |list| ==> list[i].path != list[j].path
  }

  lemma ListedIsFront(list: seq<File>, k: nat)
    requires k < |list| && Distinct(list)
    ensures IndexOf(list, list[k].path) == k
  {
    NotIn(list[..k], list[k].path);
    IndexOfJoined(list[..k], list[k..], list[k].path);
    assert list == list[..k] + list[k..];
  }

  lemma {:induction false} NotIn(list: seq<File>, p: string)
    requires forall j :: 0 <= j < |list| ==> list[j].path != p
    ensures IndexOf(list, p) == |list|
  {
    if list != [] { NotIn(list[1..], p); }
  }

  lemma CleanMatches(st: State, k: nat)
    requires Valid(st) && Clean(st) && k < |st.list|
    ensures st.list[k].path in st.table && st.table[st.list[k].path] == st.list[k]
  {
    assert Leads(st, st.list[k].path);
    ListedIsFront(st.list, k);
  }

  function Slot(i: nat, k: nat): nat {
    if k == 0 then i else if k <= i then k - 1 else k
  }

  lemma ToFrontAt(list: seq<File>, i: nat, k: nat)
    requires i < |list| && k < |list|
    ensures Slot(i, k) < |list| && ToFront(list, i)[k] == list[Slot(i, k)]
  {
  }

  lemma ToFrontDistinct(list: seq<File>, i: nat)
    requires i < |list| && Distinct(list)
    ensures Distinct(ToFront(list, i))
  {
    var l := ToFront(list, i);
    forall j, k | 0 <= j < k < |l| ensures l[j].path != l[k].path {
      ToFrontAt(list, i, j);
      ToFrontAt(list, i, k);
    }
  }

  lemma MovedClean(st: State, key: string)
    requires Clean(st)
    ensures Clean(Moved(st, key))
  {
    var i := IndexOf(st.list, key);
    if i < |st.list| {
      ToFrontDistinct(st.list, i);
      var l := ToFront(st.list, i);
      forall k | 0 <= k < |l| ensures l[k].path in st.table {
        ToFrontAt(st.list, i, k);
      }
    }
  }

  lemma {:induction false} EvictClean(st: State, need: nat)
    requires Clean(st) && Evict(st, need).Some?
    ensures Clean(Evict(st, need).value)
    decreases |st.list|
  {
    if st.size + need > MAX_SIZE { EvictClean(DropLast(st), need); }
  }

  lemma PushClean(st: State, file: File)
    requires Clean(st)
    requires Valid(st)
    ensures Clean(Push(st, file)) <==> file.path !in st.table
  {
    var r := Push(st, file);
    assert forall k :: 0 < k < |r.list| ==> r.list[k] == st.list[k - 1];
    if file.path in st.table {
      assert Leads(st, file.path);
      assert r.list[1 + IndexOf(st.list, file.path)].path == r.list[0].path;
    }
  }

  /** A cached key survives the eviction made for its own replacement exactly when both fit. */
  lemma OwnEviction(st: State, key: string, need: nat)
    requires Valid(st) && Clean(st) && key in st.table && need <= MAX_SIZE
    ensures Evict(Moved(st, key), need).Some?
    ensures key in Evict(Moved(st, key), need).value.table <==> need + st.table[key].size <= MAX_SIZE
  {
    var m := Moved(st, key);
    MovedValid(st, key);
    EvictValid(m, need);
    EvictTable(m, need, key);
    assert Leads(st, key);
    var r := Evict(m, need).value;
    MovedClean(st, key);
    EvictClean(m, need);
    if r.list == [] { assert m.list[0..] == m.list; } else { assert r.list[0] == m.list[0]; }
    OwnSize(m, r, need);
  }

  lemma OwnSize(m: State, r: State, need: nat)
    requires Valid(r) && r.list <= m.list && m.list != [] && r.size + need <= MAX_SIZE
    requires r.list == [] ==> r.size + m.list[0].size + need > MAX_SIZE
    ensures r.list != [] <==> need + m.list[0].size <= MAX_SIZE
  {
  }

  /** From a state without stale entries, `put` leaves one exactly when it replaces a cached file and
      the old and the new content fit together; then the old one stays in the list. */
  lemma StaysCleanExactly(st: State, key: string, content: string)
    requires Valid(st) && Clean(st) && Admitted(|content|)
    ensures Put(st, key, content).Some?
    ensures Clean(Put(st, key, content).value)
       <==> (key in st.table ==> |content| + st.table[key].size > MAX_SIZE)
  {
    PutValid(st, key, content);
    MovedValid(st, key);
    MovedClean(st, key);
    var m := Moved(st, key);
    EvictValid(m, |content|);
    EvictClean(m, |content|);
    PushClean(Evict(m, |content|).value, File(|content|, key, content));
    if key in st.table { OwnEviction(st, key, |content|); } else { EvictTable(m, |content|, key); }
  }

  // ---- The list is in order of use

  function Paths(list: seq<File>): (ps: seq<string>)
    ensures |ps| == |list|
  {
    if list == [] then [] else [list[0].path] + Paths(list[1..])
  }

  function Remove(order: seq<string>, key: string): seq<string> {
    if order == [] then [] else if order[0] == key then order[1..] else [order[0]] + Remove(order[1..], key)
  }

  /** A use brings the key to the front. */
  function Touch(order: seq<string>, key: string): seq<string> {
    [key] + Remove(order, key)
  }

  predicate Uses(ops: seq<Op>, op: Op) {
    match op
    case PutOp(_, content) => Admitted(|content|)
    case GetOp(key) => Run(ops).Some? && key in Run(ops).value.table
  }

  /** All keys ever used, the latest first: by an admitted `put` or a `get` that found them. */
  function Recency(ops: seq<Op>): seq<string> {
    if ops == [] then []
    else
      var earlier, op := ops[..|ops| - 1], ops[|ops| - 1];
      if Uses(earlier, op) then Touch(Recency(earlier), op.key) else Recency(earlier)
  }

  predicate NeverReplaces(ops: seq<Op>) {
    ops == [] ||
    var earlier, op := ops[..|ops| - 1], ops[|ops| - 1];
    && NeverReplaces(earlier)
    && (op.PutOp? && Admitted(|op.content|) && Run(earlier).Some? ==> op.key !in Run(earlier).value.table)
  }

  lemma {:induction false} PathsPrefix(a: seq<File>, b: seq<File>)
    requires a <= b
    ensures Paths(a) <= Paths(b)
  {
    if a != [] { PathsPrefix(a[1..], b[1..]); }
  }

  lemma {:induction false} PathsToFront(list: seq<File>, key: string)
    requires IndexOf(list, key) < |list|
    ensures var i := IndexOf(list, key); Paths(list[..i] + list[i + 1..]) == Remove(Paths(list), key)
  {
    var i := IndexOf(list, key);
    if i == 0 {
      assert list[..i] + list[i + 1..] == list[1..];
    } else {
      PathsToFront(list[1..], key);
      assert (list[..i] + list[i + 1..])[1..] == list[1..][..i - 1] + list[1..][i..];
    }
  }

  lemma MovedPaths(st: State, key: string)
    requires key in st.table && IndexOf(st.list, key) < |st.list|
    ensures Paths(Moved(st, key).list) == Touch(Paths(st.list), key)
  {
    var i := IndexOf(st.list, key);
    PathsToFront(st.list, key);
    CutAt(st.list, i);
    assert ToFront(st.list, i)[1..] == st.list[..i] + st.list[i + 1..];
  }

  lemma {:induction false} IndexOfInPaths(list: seq<File>, key: string)
    ensures key in Paths(list) <==> IndexOf(list, key) < |list|
  {
    if list != [] { IndexOfInPaths(list[1..], key); }
  }

  lemma {:induction false} RemovePrefix(a: seq<string>, b: seq<string>, key: string)
    requires a <= b
    ensures Remove(a, key) <= Remove(b, key)
  {
    if a != [] && a[0] != key { RemovePrefix(a[1..], b[1..], key); }
  }

  lemma {:induction false} RemoveAbsent(a: seq<string>, key: string)
    requires key !in a
    ensures Remove(a, key) == a
  {
    if a != [] { RemoveAbsent(a[1..], key); }
  }

  lemma StepRecency(st: State, op: Op, order: seq<string>)
    requires Valid(st) && Clean(st) && Paths(st.list) <= order
    requires op.PutOp? ==> Admitted(|op.content|) && op.key !in st.table
    requires op.GetOp? ==> op.key in st.table
    ensures Step(st, op).Some? && Clean(Step(st, op).value)
    ensures Paths(Step(st, op).value.list) <= Touch(order, op.key)
  {
    RemovePrefix(Paths(st.list), order, op.key);
    if op.GetOp? {
      GetRecency(st, op.key);
    } else {
      StaysCleanExactly(st, op.key, op.content);
      UnlistedUntouched(st, op.key);
      PutPaths(st, op.key, op.content);
    }
  }

  lemma GetRecency(st: State, key: string)
    requires Valid(st) && Clean(st) && key in st.table
    ensures Clean(Moved(st, key)) && Paths(Moved(st, key).list) == Touch(Paths(st.list), key)
  {
    MovedClean(st, key);
    MovedValid(st, key);
    MovedPaths(st, key);
  }

  lemma UnlistedUntouched(st: State, key: string)
    requires Valid(st) && Clean(st) && key !in st.table
    ensures Remove(Paths(st.list), key) == Paths(st.list)
  {
    IndexOfInPaths(st.list, key);
    if IndexOf(st.list, key) < |st.list| { CleanMatches(st, IndexOf(st.list, key)); }
    RemoveAbsent(Paths(st.list), key);
  }

  lemma PutPaths(st: State, key: string, content: string)
    requires Valid(st) && Admitted(|content|) && key !in st.table && Put(st, key, content).Some?
    ensures Paths(Put(st, key, content).value.list) <= [key] + Paths(st.list)
  {
    EvictValid(st, |content|);
    var r := Evict(st, |content|).value;
    PathsPrefix(r.list, st.list);
    PushPaths(r, File(|content|, key, content));
  }

  lemma PushPaths(st: State, file: File)
    ensures Paths(Push(st, file).list) == [file.path] + Paths(st.list)
  {
    assert Push(st, file).list[1..] == st.list;
  }

  /** If no cached key is put again, list and map hold the same entries and the cached files are the
      most recently used ones, in order of use: eviction is least recently used first. */
  lemma {:induction false} CachesMostRecentlyUsed(ops: seq<Op>)
    requires NeverReplaces(ops)
    ensures Run(ops).Some? && Valid(Run(ops).value) && Clean(Run(ops).value)
    ensures Paths(Run(ops).value.list) <= Recency(ops)
  {
    RunValid(ops);
    if ops != [] {
      var earlier, op := ops[..|ops| - 1], ops[|ops| - 1];
      CachesMostRecentlyUsed(earlier);
      if Uses(earlier, op) { StepRecency(Run(earlier).value, op, Recency(earlier)); }
    }
  }

  // ---- The class

  class LRUCache {
    var cacheList: seq<File>
    var cacheMap: map<string, File>
    var maxSizeCache: nat
    var currentSize: nat

    ghost function Value(): State
      reads this
    {
      State(cacheList, cacheMap, currentSize)
    }

    /** The limit given here is stored and never looked at again. */
    constructor (maxSize: nat)
      ensures Value() == Empty && Valid(Value()) && maxSizeCache == maxSize
    {
      cacheList, cacheMap, maxSizeCache, currentSize := [], map[], maxSize, 0;
    }

    static method AdmitedSize(size: nat) returns (yes: bool)
      ensures yes == Admitted(size)
    {
      yes := size > 0 && size < MAX_SIZE;
    }

    method IsInCache(key: string) returns (yes: bool)
      requires Valid(Value())
      ensures yes == Get(Value(), key).1.Some?
    {
      yes := key in cacheMap;
    }

    method PutFile(key: string, content: string)
      requires Valid(Value())
      modifies this`cacheList, this`cacheMap, this`currentSize
      ensures Put(old(Value()), key, content) == Some(Value()) && Valid(Value())
    {
      PutValid(Value(), key, content);
      var need := |content|;
      var admitted := AdmitedSize(need);
      if !admitted { return; }
      BringToFront(key);
      MakeRoom(need);
      var file := File(need, key, content);
      ghost var room := Value();
      cacheList := [file] + cacheList;
      cacheMap := cacheMap[key := file];
      currentSize := currentSize + need;
      assert Value() == Push(room, file);
    }

    /** Where the source throws, the invariant says it cannot be. */
    method BringToFront(key: string)
      requires Valid(Value())
      modifies this`cacheList, this`cacheMap, this`currentSize
      ensures Value() == Moved(old(Value()), key) && Valid(Value())
      ensures key in old(cacheMap) ==> IndexOf(old(cacheList), key) < |old(cacheList)|
    {
      MovedValid(Value(), key);
      if key in cacheMap {
        var i := IndexOf(cacheList, key);
        if i < |cacheList| { cacheList := ToFront(cacheList, i); } else { assert false; }
      }
    }

    method MakeRoom(need: nat)
      requires Valid(Value()) && need <= MAX_SIZE
      modifies this`cacheList, this`cacheMap, this`currentSize
      ensures Evict(old(Value()), need) == Some(Value()) && Valid(Value())
    {
      EvictValid(Value(), need);
      while currentSize + need > MAX_SIZE
        invariant Valid(Value())
        invariant Evict(old(Value()), need) == Evict(Value(), need)
        decreases |cacheList|
      {
        EvictValid(Value(), need);
        DropLastValid(Value());
        var file := cacheList[|cacheList| - 1];
        cacheList := cacheList[..|cacheList| - 1];
        cacheMap := cacheMap - {file.path};
        currentSize := currentSize - file.size;
      }
    }

    method GetFile(key: string) returns (content: Option<string>)
      requires Valid(Value())
      modifies this`cacheList, this`cacheMap, this`currentSize
      ensures Get(old(Value()), key) == (Value(), content) && Valid(Value())
    {
      MovedValid(Value(), key);
      if key !in cacheMap { return None; }
      content := Some(cacheMap[key].content);
      var i := IndexOf(cacheList, key);
      if i < |cacheList| { cacheList := ToFront(cacheList, i); }
    }
  }
}
