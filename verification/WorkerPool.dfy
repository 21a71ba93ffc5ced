/** The task queue and its workers, as the interleavings of their atomic steps. */
module WorkerPool {
  import opened Sequences

  /** Where a worker is in its loop: before `pop`, between `pop` and the look at `stop`, inside the
      task, or out of the loop. */
  datatype Phase<T> = Waiting | Holding(task: T) | Running(task: T) | Exited

  /** The shared queue, the flag and the workers, with the history of what was pushed, popped, started
      and thrown away. */
  datatype State<T> = State(
    tasks: seq<T>, stop: bool, workers: seq<Phase<T>>,
    pushed: seq<T>, popped: seq<T>, started: seq<T>, discarded: seq<T>)

  datatype Step<T> = Push(task: T) | Pop(w: nat) | Check(w: nat) | Finish(w: nat) | Stop

  /** New workers on a queue that may hold tasks already. */
  function Start<T>(numWorkers: nat, tasks: seq<T>): State<T> {
    State(tasks, false, seq(numWorkers, _ => Waiting), tasks, [], [], [])
  }

  /** What can happen next; a worker waits in `pop` while the queue is empty. */
  predicate Enabled<T>(s: State<T>, step: Step<T>) {
    match step
    case Push(_) => true
    case Pop(w) => w < |s.workers| && s.workers[w].Waiting? && |s.tasks| > 0
    case Check(w) => w < |s.workers| && s.workers[w].Holding?
    case Finish(w) => w < |s.workers| && s.workers[w].Running?
    case Stop => true
  }

  function Take<T>(s: State<T>, w: nat): State<T>
    requires Enabled(s, Pop(w))
  {
    s.(tasks := s.tasks[1..], popped := s.popped + [s.tasks[0]], workers := s.workers[w := Holding(s.tasks[0])])
  }

  /** The look at `stop`: the held task is thrown away on the way out, or started. */
  function Look<T>(s: State<T>, w: nat): State<T>
    requires Enabled(s, Check(w))
  {
    var task := s.workers[w].task;
    if s.stop then s.(workers := s.workers[w := Exited], discarded := s.discarded + [task])
    else s.(workers := s.workers[w := Running(task)], started := s.started + [task])
  }

  /** A step that cannot happen leaves everything as it is. */
  function Next<T>(s: State<T>, step: Step<T>): State<T> {
    if !Enabled(s, step) then s
    else
      match step
      case Push(task) => s.(tasks := s.tasks + [task], pushed := s.pushed + [task])
      case Pop(w) => Take(s, w)
      case Check(w) => Look(s, w)
      case Finish(w) => s.(workers := s.workers[w := Waiting])
      case Stop => s.(stop := true)
  }

  function Run<T>(s: State<T>, steps: seq<Step<T>>): State<T>
    decreases |steps|
  {
    if steps == [] then s else Run(Next(s, steps[0]), steps[1..])
  }

  // ---- Safety

  function HeldBy<T>(p: Phase<T>): multiset<T> {
    if p.Holding? then multiset{p.task} else multiset{}
  }

  function Held<T>(workers: seq<Phase<T>>): multiset<T> {
    if workers == [] then multiset{} else HeldBy(workers[0]) + Held(workers[1..])
  }

  /** The tasks that have left the workers' hands. */
  function Left<T>(s: State<T>): multiset<T> {
    multiset(s.started) + multiset(s.discarded)
  }

  function Gone<T>(workers: seq<Phase<T>>): nat {
    if workers == [] then 0 else (if workers[0].Exited? then 1 else 0) + Gone(workers[1..])
  }

  /** Popped tasks followed by the queue are the pushed tasks; a popped task is held, was started or
      was thrown away, each exactly once; every task thrown away is one worker gone, after `stop`. */
  ghost predicate Safe<T>(s: State<T>) {
    && s.popped + s.tasks == s.pushed
    && multiset(s.popped) == Held(s.workers) + Left(s)
    && |s.discarded| == Gone(s.workers)
    && (s.discarded != [] ==> s.stop)
  }

  lemma {:induction false} HeldAfter<T>(workers: seq<Phase<T>>, w: nat, p: Phase<T>)
    requires w < |workers|
    ensures Held(workers[w := p]) + HeldBy(workers[w]) == Held(workers) + HeldBy(p)
  {
    if w == 0 {
      assert workers[w := p][1..] == workers[1..];
    } else {
      assert workers[w := p][1..] == workers[1..][w - 1 := p];
      HeldAfter(workers[1..], w - 1, p);
      Under(HeldBy(workers[0]), Held(workers[1..][w - 1 := p]), HeldBy(workers[w]), Held(workers[1..]), HeldBy(p));
    }
  }

  lemma Under<T>(h: multiset<T>, r': multiset<T>, x: multiset<T>, r: multiset<T>, y: multiset<T>)
    requires r' + x == r + y
    ensures (h + r') + x == (h + r) + y
  {
    assert (h + r') + x == h + (r' + x);
    assert (h + r) + y == h + (r + y);
  }

  /** A task that appears on both sides of the balance. */
  lemma Balance<T>(popped: multiset<T>, held: multiset<T>, held': multiset<T>, x: multiset<T>, y: multiset<T>,
                   rest: multiset<T>)
    requires popped == held + rest && held' + x == held + y
    ensures popped + y == held' + (rest + x)
  {
    assert (held + rest) + y == (held + y) + rest;
    assert held' + (rest + x) == (held' + x) + rest;
  }

  lemma Ended<T>(popped: seq<T>, task: T)
    ensures multiset(popped + [task]) == multiset(popped) + multiset{task}
  {
  }

  function One<T>(p: Phase<T>): nat { if p.Exited? then 1 else 0 }

  lemma {:induction false} GoneAfter<T>(workers: seq<Phase<T>>, w: nat, p: Phase<T>)
    requires w < |workers|
    ensures Gone(workers[w := p]) + One(workers[w]) == Gone(workers) + One(p)
  {
    if w == 0 {
      assert workers[w := p][1..] == workers[1..];
    } else {
      assert workers[w := p][1..] == workers[1..][w - 1 := p];
      GoneAfter(workers[1..], w - 1, p);
    }
  }

  lemma {:induction false} GoneBound<T>(workers: seq<Phase<T>>)
    ensures Gone(workers) <= |workers|
  {
    if workers != [] { GoneBound(workers[1..]); }
  }

  lemma {:induction false} AllWaiting<T>(workers: seq<Phase<T>>)
    requires forall w :: 0 <= w < |workers| ==> workers[w].Waiting?
    ensures Held(workers) == multiset{} && Gone(workers) == 0
  {
    if workers != [] { AllWaiting(workers[1..]); }
  }

  lemma StartSafe<T>(numWorkers: nat, tasks: seq<T>)
    ensures Safe(Start(numWorkers, tasks))
  {
    assert [] + tasks == tasks;
    AllWaiting(Start(numWorkers, tasks).workers);
  }

  /** One worker moves: a task it lets go of is started or thrown away, a task it gets is popped. */
  lemma MoveBalances<T>(s: State<T>, r: State<T>, w: nat, next: Phase<T>)
    requires multiset(s.popped) == Held(s.workers) + Left(s)
    requires w < |s.workers| && r.workers == s.workers[w := next]
    requires multiset(r.popped) == multiset(s.popped) + HeldBy(next)
    requires Left(r) == Left(s) + HeldBy(s.workers[w])
    ensures multiset(r.popped) == Held(r.workers) + Left(r)
  {
    HeldAfter(s.workers, w, next);
    Balance(multiset(s.popped), Held(s.workers), Held(r.workers), HeldBy(s.workers[w]), HeldBy(next), Left(s));
  }

  lemma TakeSafe<T>(s: State<T>, w: nat)
    requires Safe(s) && Enabled(s, Pop(w))
    ensures Safe(Take(s, w))
  {
    var r, task := Take(s, w), s.tasks[0];
    FirstAcross(s.popped, s.tasks);
    Ended(s.popped, task);
    assert Left(r) == Left(s) + multiset{};
    MoveBalances(s, r, w, Holding(task));
    GoneAfter(s.workers, w, Holding(task));
  }

  lemma FirstAcross<T>(a: seq<T>, b: seq<T>)
    requires b != []
    ensures (a + [b[0]]) + b[1..] == a + b
  {
  }

  lemma LookLeaves<T>(s: State<T>, w: nat)
    requires Enabled(s, Check(w))
    ensures Left(Look(s, w)) == Left(s) + multiset{s.workers[w].task}
  {
    var task := s.workers[w].task;
    Ended(s.started, task);
    Ended(s.discarded, task);
    AddLast(multiset(s.started), multiset(s.discarded), multiset{task});
  }

  lemma LookBalances<T>(s: State<T>, w: nat)
    requires Safe(s) && Enabled(s, Check(w))
    ensures multiset(Look(s, w).popped) == Held(Look(s, w).workers) + Left(Look(s, w))
  {
    var r := Look(s, w);
    LookLeaves(s, w);
    assert multiset(r.popped) == multiset(s.popped) + multiset{};
    MoveBalances(s, r, w, r.workers[w]);
  }

  lemma LookDiscards<T>(s: State<T>, w: nat)
    requires Safe(s) && Enabled(s, Check(w))
    ensures |Look(s, w).discarded| == Gone(Look(s, w).workers)
  {
    GoneAfter(s.workers, w, Look(s, w).workers[w]);
  }

  lemma LookSafe<T>(s: State<T>, w: nat)
    requires Safe(s) && Enabled(s, Check(w))
    ensures Safe(Look(s, w))
  {
    LookBalances(s, w);
    LookDiscards(s, w);
  }

  lemma AddLast<T>(a: multiset<T>, b: multiset<T>, c: multiset<T>)
    ensures a + (b + c) == (a + b) + c == (a + c) + b
  {
  }

  lemma FinishSafe<T>(s: State<T>, w: nat)
    requires Safe(s) && Enabled(s, Finish(w))
    ensures Safe(Next(s, Finish(w)))
  {
    var r := Next(s, Finish(w));
    assert Left(r) == Left(s) + multiset{};
    assert multiset(r.popped) == multiset(s.popped) + multiset{};
    MoveBalances(s, r, w, Waiting);
    GoneAfter(s.workers, w, Waiting);
  }

  lemma PushSafe<T>(s: State<T>, task: T)
    requires Safe(s)
    ensures Safe(Next(s, Push(task)))
  {
    Assoc(s.popped, s.tasks, [task]);
  }

  lemma NextSafe<T>(s: State<T>, step: Step<T>)
    requires Safe(s)
    ensures Safe(Next(s, step))
  {
    if Enabled(s, step) {
      match step
      case Push(task) => PushSafe(s, task);
      case Pop(w) => TakeSafe(s, w);
      case Check(w) => LookSafe(s, w);
      case Finish(w) => FinishSafe(s, w);
      case Stop =>
    }
  }

  lemma NextKeepsWorkers<T>(s: State<T>, step: Step<T>)
    ensures |Next(s, step).workers| == |s.workers|
  {
  }

  lemma {:induction false} RunSafe<T>(s: State<T>, steps: seq<Step<T>>)
    requires Safe(s)
    ensures Safe(Run(s, steps)) && |Run(s, steps).workers| == |s.workers|
    decreases |steps|
  {
    if steps != [] {
      NextSafe(s, steps[0]);
      NextKeepsWorkers(s, steps[0]);
      RunSafe(Next(s, steps[0]), steps[1..]);
    }
  }

  /** Over every interleaving from the start: first in first out, no task twice, none lost but at most
      one per worker, and those only after `stop`. */
  lemma EveryInterleaving<T>(numWorkers: nat, tasks: seq<T>, steps: seq<Step<T>>)
    ensures var s := Run(Start(numWorkers, tasks), steps);
            && s.popped + s.tasks == s.pushed
            && multiset(s.popped) == Held(s.workers) + (multiset(s.started) + multiset(s.discarded))
            && |s.discarded| == Gone(s.workers) <= numWorkers
            && (!s.stop ==> s.discarded == [])
  {
    StartSafe(numWorkers, tasks);
    RunSafe(Start(numWorkers, tasks), steps);
    GoneBound(Run(Start(numWorkers, tasks), steps).workers);
  }

  // ---- Joining the workers

  /** A worker that has to pop once more before it can leave. */
  function Owes<T>(p: Phase<T>): nat { if p.Waiting? || p.Running? then 1 else 0 }

  function Owing<T>(workers: seq<Phase<T>>): nat {
    if workers == [] then 0 else Owes(workers[0]) + Owing(workers[1..])
  }

  ghost predicate Joined<T>(s: State<T>) {
    forall w :: 0 <= w < |s.workers| ==> s.workers[w].Exited?
  }

  lemma {:induction false} OwingAfter<T>(workers: seq<Phase<T>>, w: nat, p: Phase<T>)
    requires w < |workers|
    ensures Owing(workers[w := p]) + Owes(workers[w]) == Owing(workers) + Owes(p)
  {
    if w == 0 {
      assert workers[w := p][1..] == workers[1..];
    } else {
      assert workers[w := p][1..] == workers[1..][w - 1 := p];
      OwingAfter(workers[1..], w - 1, p);
    }
  }

  predicate NoPush<T>(steps: seq<Step<T>>) {
    forall k :: 0 <= k < |steps| ==> !steps[k].Push?
  }

  /** Once stopped, tasks and workers that need one are used up together. */
  lemma NextBalance<T>(s: State<T>, step: Step<T>)
    requires s.stop && !step.Push?
    ensures var r := Next(s, step);
            r.stop && |r.tasks| - Owing(r.workers) == |s.tasks| - Owing(s.workers)
  {
    if Enabled(s, step) {
      match step
      case Pop(w) => OwingAfter(s.workers, w, Holding(s.tasks[0]));
      case Check(w) => OwingAfter(s.workers, w, Exited);
      case Finish(w) => OwingAfter(s.workers, w, Waiting);
      case Stop =>
    }
  }

  lemma {:induction false} RunBalance<T>(s: State<T>, steps: seq<Step<T>>)
    requires s.stop && NoPush(steps)
    ensures var r := Run(s, steps);
            r.stop && |r.tasks| - Owing(r.workers) == |s.tasks| - Owing(s.workers)
    decreases |steps|
  {
    if steps != [] {
      NextBalance(s, steps[0]);
      RunBalance(Next(s, steps[0]), steps[1..]);
    }
  }

  /** How many steps a worker is away from its exit, if there are tasks. */
  function Distance<T>(p: Phase<T>): nat {
    match p
    case Running(_) => 3
    case Waiting => 2
    case Holding(_) => 1
    case Exited => 0
  }

  function Away<T>(workers: seq<Phase<T>>): nat {
    if workers == [] then 0 else Distance(workers[0]) + Away(workers[1..])
  }

  lemma {:induction false} AwayAfter<T>(workers: seq<Phase<T>>, w: nat, p: Phase<T>)
    requires w < |workers|
    ensures Away(workers[w := p]) + Distance(workers[w]) == Away(workers) + Distance(p)
  {
    if w == 0 {
      assert workers[w := p][1..] == workers[1..];
    } else {
      assert workers[w := p][1..] == workers[1..][w - 1 := p];
      AwayAfter(workers[1..], w - 1, p);
    }
  }

  lemma {:induction false} OwedTask<T>(workers: seq<Phase<T>>, w: nat)
    requires w < |workers|
    ensures Owing(workers) >= Owes(workers[w])
  {
    if w > 0 { OwedTask(workers[1..], w - 1); }
  }

  /** The one step a worker on its way out can make. */
  function Onward<T>(p: Phase<T>, w: nat): Step<T> {
    match p
    case Running(_) => Finish(w)
    case Holding(_) => Check(w)
    case _ => Pop(w)
  }

  /** No worker can make a step: each has left, or waits for a task that is not there. */
  ghost predicate Stuck<T>(s: State<T>) {
    forall w: nat :: w < |s.workers| ==> !Enabled(s, Onward(s.workers[w], w))
  }

  lemma OnwardIsNearer<T>(s: State<T>, w: nat)
    requires s.stop && w < |s.workers| && Enabled(s, Onward(s.workers[w], w))
    ensures Away(Next(s, Onward(s.workers[w], w)).workers) < Away(s.workers)
  {
    match s.workers[w]
    case Running(_) => AwayAfter(s.workers, w, Waiting);
    case Holding(_) => AwayAfter(s.workers, w, Exited);
    case Waiting => AwayAfter(s.workers, w, Holding(s.tasks[0]));
  }

  /** Once stopped, the workers come to an end. */
  lemma {:induction false} RunOut<T>(s: State<T>) returns (steps: seq<Step<T>>)
    requires s.stop
    ensures NoPush(steps) && Stuck(Run(s, steps))
    decreases Away(s.workers)
  {
    if Stuck(s) { return []; }
    var w: nat :| w < |s.workers| && Enabled(s, Onward(s.workers[w], w));
    var step := Onward(s.workers[w], w);
    OnwardIsNearer(s, w);
    NextBalance(s, step);
    var rest := RunOut(Next(s, step));
    steps := [step] + rest;
    assert steps[1..] == rest;
  }

  lemma {:induction false} JoinedOwesNothing<T>(workers: seq<Phase<T>>)
    requires forall w :: 0 <= w < |workers| ==> workers[w].Exited?
    ensures Owing(workers) == 0
  {
    if workers != [] { JoinedOwesNothing(workers[1..]); }
  }

  /** Workers that cannot go on have all left exactly if there was a task for each that had to pop. */
  lemma StuckJoinsExactly<T>(s: State<T>, steps: seq<Step<T>>)
    requires s.stop && NoPush(steps) && Stuck(Run(s, steps))
    ensures Joined(Run(s, steps)) <==> |s.tasks| >= Owing(s.workers)
  {
    var r := Run(s, steps);
    RunBalance(s, steps);
    if Joined(r) {
      JoinedOwesNothing(r.workers);
    } else {
      var w: nat :| w < |r.workers| && !r.workers[w].Exited?;
      assert !Enabled(r, Onward(r.workers[w], w));
      OwedTask(r.workers, w);
    }
  }

  /** The destructor sets `stop` and joins, and wakes nobody. Without further pushes all its joins return,
      however the workers are scheduled until none of them can go on, exactly when the queue still holds
      a task for every worker that must pop once more; and otherwise no schedule lets them return. */
  lemma JoinsExactly<T>(s: State<T>)
    requires s.stop
    ensures (forall steps: seq<Step<T>> :: NoPush(steps) && Stuck(Run(s, steps)) ==> Joined(Run(s, steps)))
       <==> |s.tasks| >= Owing(s.workers)
    ensures (exists steps: seq<Step<T>> :: NoPush(steps) && Joined(Run(s, steps))) <==> |s.tasks| >= Owing(s.workers)
  {
    forall steps: seq<Step<T>> | NoPush(steps) && Stuck(Run(s, steps))
      ensures Joined(Run(s, steps)) <==> |s.tasks| >= Owing(s.workers)
    {
      StuckJoinsExactly(s, steps);
    }
    var steps := RunOut(s);
    forall steps: seq<Step<T>> | NoPush(steps) && Joined(Run(s, steps)) ensures |s.tasks| >= Owing(s.workers) {
      RunBalance(s, steps);
      JoinedOwesNothing(Run(s, steps).workers);
    }
  }

  // ---- The classes

  class TaskQueue<T> {
    var tasks: seq<T>

    constructor ()
      ensures tasks == []
    {
      tasks := [];
    }

    method PushTask(task: T)
      modifies this
      ensures tasks == old(tasks) + [task]
    {
      tasks := tasks + [task];
    }

    /** The condition variable holds the caller until there is a task. */
    method PopTask() returns (task: T)
      requires tasks != []
      modifies this
      ensures [task] + tasks == old(tasks)
    {
      task := tasks[0];
      tasks := tasks[1..];
    }
  }

  /** The pool around a shared queue; each method is one atomic step of a thread, and
      refines that step of the state machine. */
  class Pool<T> {
    const queue: TaskQueue<T>
    var stop: bool
    var workers: seq<Phase<T>>
    ghost var pushed: seq<T>
    ghost var popped: seq<T>
    ghost var started: seq<T>
    ghost var discarded: seq<T>

    ghost function Value(): State<T>
      reads this, queue
    {
      State(queue.tasks, stop, workers, pushed, popped, started, discarded)
    }

    constructor (numWorkers: nat, taskQueue: TaskQueue<T>)
      ensures queue == taskQueue && Value() == Start(numWorkers, old(taskQueue.tasks))
    {
      queue, stop, workers := taskQueue, false, seq(numWorkers, _ => Waiting);
      pushed, popped, started, discarded := taskQueue.tasks, [], [], [];
    }

    method Submit(task: T)
      modifies this, queue
      ensures Value() == Next(old(Value()), Push(task))
    {
      queue.PushTask(task);
      pushed := pushed + [task];
    }

    /** A worker gets past `queue.pop()`. */
    method WorkerPop(w: nat)
      requires Enabled(Value(), Pop(w))
      modifies this, queue
      ensures Value() == Next(old(Value()), Pop(w))
    {
      ghost var was := queue.tasks;
      var task := queue.PopTask();
      assert was[0] == task && was[1..] == queue.tasks;
      workers := workers[w := Holding(task)];
      popped := popped + [task];
    }

    /** The look at `stop`: out of the loop, or on to run what is held. */
    method WorkerCheck(w: nat)
      requires Enabled(Value(), Check(w))
      modifies this
      ensures Value() == Next(old(Value()), Check(w))
    {
      var task := workers[w].task;
      if stop {
        workers := workers[w := Exited];
        discarded := discarded + [task];
      } else {
        workers := workers[w := Running(task)];
        started := started + [task];
      }
    }

    method WorkerFinish(w: nat)
      requires Enabled(Value(), Finish(w))
      modifies this
      ensures Value() == Next(old(Value()), Finish(w))
    {
      workers := workers[w := Waiting];
    }

    /** The destructor's first step. */
    method SetStop()
      modifies this
      ensures Value() == Next(old(Value()), Stop)
    {
      stop := true;
    }
  }
}
