/** What every interleaving of the pool keeps: FIFO conservation, exactly-once
    execution, work conservation, and the life cycle of the closing thread. */
module PoolSafety {
  import opened Wrappers
  import opened PoolProtocol

  ghost predicate NoDup(ts: seq<TaskId>) {
    forall i, k :: 0 <= i < k < |ts| ==> ts[i] != ts[k]
  }

  /** The worker has unlinked task w.t and has not released it yet. */
  ghost predicate Busy(w: Worker) {
    w.Taken? || w.Running? || w.Finished? || w.Reclaimed?
  }

  /** ... and the task's function has not returned yet. */
  ghost predicate Executing(w: Worker) {
    w.Taken? || w.Running?
  }

  // ---- The invariant ----

  ghost predicate History(s: State) {
    && s.enqueued == s.dequeued + s.queue
    && NoDup(s.enqueued)
    && (forall t :: t in s.tasks <==> t in s.pending || t in s.enqueued)
    && (forall t :: t in s.pending ==> t !in s.enqueued)
  }

  ghost predicate Ownership(s: State) {
    && (forall w :: 0 <= w < |s.workers| && Busy(s.workers[w]) ==>
          s.workers[w].t in s.dequeued && s.workers[w].t in s.tasks)
    && (forall v, w :: 0 <= v < w < |s.workers| && Busy(s.workers[v]) && Busy(s.workers[w]) ==>
          s.workers[v].t != s.workers[w].t)
  }

  /** A task is finished exactly when the history shows one execution of it. */
  ghost predicate Execution(s: State) {
    && (forall i, k :: 0 <= i < k < |s.executed| ==> s.executed[i].1 != s.executed[k].1)
    && (forall i :: 0 <= i < |s.executed| ==>
          s.executed[i].0 < |s.workers| && s.executed[i].1 in s.tasks && s.tasks[s.executed[i].1].finished)
    && (forall t :: t in s.tasks && s.tasks[t].finished ==>
          && s.tasks[t].result == s.tasks[t].f(s.tasks[t].arg)
          && exists i :: 0 <= i < |s.executed| && s.executed[i].1 == t)
  }

  ghost predicate FinishedLeft(s: State) {
    forall t :: t in s.tasks && s.tasks[t].finished ==> t in s.dequeued
  }

  ghost predicate Staged(s: State) {
    forall w :: 0 <= w < |s.workers| && Busy(s.workers[w]) && s.workers[w].t in s.tasks ==>
      (s.tasks[s.workers[w].t].finished <==> !Executing(s.workers[w]))
  }

  ghost predicate NoneLost(s: State) {
    forall t :: t in s.dequeued && t in s.tasks && !s.tasks[t].finished ==> InProgress(s, t)
  }

  ghost predicate InProgress(s: State, t: TaskId) {
    exists w :: 0 <= w < |s.workers| && Executing(s.workers[w]) && s.workers[w].t == t
  }

  ghost predicate DestroyedLast(s: State) {
    forall t :: t in s.tasks && s.tasks[t].destroyed ==> s.tasks[t].finished && s.tasks[t].independent
  }

  ghost predicate Destruction(s: State) {
    forall w :: 0 <= w < |s.workers| && Busy(s.workers[w]) && s.workers[w].t in s.tasks ==>
      var k := s.tasks[s.workers[w].t];
      k.destroyed <==> s.workers[w].Reclaimed? && k.independent
  }

  ghost predicate Phases(c: Config, s: State) {
    && |s.workers| == c.workers
    && (s.phase == ACTIVE <==> s.closer == NotCalled)
    && (s.phase == FLUSH <==> s.closer == FlushAsleep || s.closer == FlushReady)
  }

  ghost predicate Sleepers(s: State) {
    && (s.phase == ACTIVE ==> Exited !in s.workers)
    && (s.phase == SHUTDOWN ==> Asleep !in s.workers)
  }

  /** How many threads the closing thread has joined. */
  ghost function Joined(s: State): nat {
    match s.closer
    case Joining(i) => i
    case Freed => |s.workers|
    case _ => 0
  }

  ghost predicate Exits(s: State) {
    Joined(s) <= |s.workers| && forall w :: 0 <= w < Joined(s) ==> s.workers[w] == Exited
  }

  ghost predicate Closing(c: Config, s: State) {
    Phases(c, s) && Sleepers(s) && Exits(s)
  }

  /** The total of `weight` over the workers. */
  ghost function Sum(ws: seq<Worker>, weight: Worker -> nat): nat {
    if ws == [] then 0 else Sum(ws[..|ws| - 1], weight) + weight(ws[|ws| - 1])
  }

  ghost function IsReady(w: Worker): nat {
    if w == Ready then 1 else 0
  }

  /** While the pool is active, a worker sleeps only if the awake idle workers
      are at least as many as the queued tasks. */
  ghost predicate WorkConserving(s: State) {
    s.phase == ACTIVE && Asleep in s.workers ==> |s.queue| <= Sum(s.workers, IsReady)
  }

  ghost predicate Inv(c: Config, s: State) {
    && History(s) && Ownership(s) && Execution(s) && FinishedLeft(s) && Staged(s) && NoneLost(s)
    && DestroyedLast(s) && Destruction(s) && Closing(c, s) && WorkConserving(s)
  }

  // ---- Every action keeps it ----

  lemma KeepsHistory(c: Config, s: State, a: Action)
    requires History(s) && Enabled(c, s, a)
    ensures History(Apply(c, s, a))
  {
    var s' := Apply(c, s, a);
    if a.Enqueue? {
      assert s'.enqueued == s'.dequeued + s'.queue;
    } else if a.WorkerLock? && s.queue != [] {
      assert s.queue == [s.queue[0]] + s.queue[1..];
      assert s'.enqueued == s'.dequeued + s'.queue;
    }
  }

  lemma HeadIsNew(s: State)
    requires History(s) && s.queue != []
    ensures s.queue[0] in s.tasks && s.queue[0] !in s.dequeued
  {
    var n := |s.dequeued|;
    assert s.enqueued[n] == s.queue[0];
    assert forall i :: 0 <= i < n ==> s.enqueued[i] == s.dequeued[i];
  }

  /** The steps of a core thread that is awake. */
  predicate CoreAction(a: Action) {
    a.WorkerLock? || a.LockTask? || a.Execute? || a.Reclaim? || a.Release?
  }

  ghost predicate QuietWorkers(s: State, s': State) {
    && s'.dequeued == s.dequeued && s'.executed == s.executed && |s'.workers| == |s.workers|
    && (forall w :: 0 <= w < |s.workers| && (Busy(s.workers[w]) || Busy(s'.workers[w])) ==>
          s'.workers[w] == s.workers[w])
  }

  ghost predicate QuietTasks(s: State, s': State) {
    && (forall t :: t in s.tasks ==> t in s'.tasks && s'.tasks[t] == s.tasks[t])
    && (forall t :: t in s'.tasks && t !in s.tasks ==>
          t !in s.dequeued && !s'.tasks[t].finished && !s'.tasks[t].destroyed)
  }

  /** What every other step keeps: all that has to do with tasks already taken. */
  ghost predicate Quiet(s: State, s': State) {
    QuietWorkers(s, s') && QuietTasks(s, s')
  }

  lemma OthersKeepWorkers(c: Config, s: State, a: Action)
    requires Enabled(c, s, a) && !CoreAction(a)
    ensures QuietWorkers(s, Apply(c, s, a))
  {
  }

  lemma OthersKeepTasks(c: Config, s: State, a: Action)
    requires History(s) && Enabled(c, s, a) && !CoreAction(a)
    ensures QuietTasks(s, Apply(c, s, a))
  {
  }

  lemma QuietKeeps(s: State, s': State)
    requires Ownership(s) && Execution(s) && FinishedLeft(s) && Staged(s) && DestroyedLast(s) && Destruction(s)
    requires Quiet(s, s')
    ensures Ownership(s') && Execution(s') && FinishedLeft(s') && Staged(s') && DestroyedLast(s') && Destruction(s')
  {
  }

  lemma QuietKeepsNoneLost(s: State, s': State)
    requires NoneLost(s) && Quiet(s, s')
    ensures NoneLost(s')
  {
    forall t | t in s'.dequeued && t in s'.tasks && !s'.tasks[t].finished
      ensures InProgress(s', t)
    {
      var w :| 0 <= w < |s.workers| && Executing(s.workers[w]) && s.workers[w].t == t;
      assert s'.workers[w] == s.workers[w];
    }
  }

  lemma KeepsOwnership(c: Config, s: State, a: Action)
    requires History(s) && Ownership(s) && Enabled(c, s, a) && CoreAction(a)
    ensures Ownership(Apply(c, s, a))
  {
    var s' := Apply(c, s, a);
    if a.WorkerLock? && s.queue != [] {
      HeadIsNew(s);
      assert s.queue[0] == s'.dequeued[|s.dequeued|];
    }
  }

  /** What tasks and the history of executions keep from s to s', unless a task is
      executed in between. */
  ghost predicate NothingRuns(s: State, s': State) {
    && s'.executed == s.executed && |s'.workers| == |s.workers|
    && (forall t :: t in s.tasks ==> t in s'.tasks && s'.tasks[t].finished == s.tasks[t].finished)
    && (forall t :: t in s'.tasks && s'.tasks[t].finished ==>
          t in s.tasks && s'.tasks[t] == s.tasks[t].(destroyed := s'.tasks[t].destroyed))
  }

  lemma OnlyExecuteRuns(c: Config, s: State, a: Action)
    requires Enabled(c, s, a) && CoreAction(a) && !a.Execute?
    ensures NothingRuns(s, Apply(c, s, a))
  {
  }

  lemma NothingRunsKeeps(s: State, s': State)
    requires Execution(s) && NothingRuns(s, s')
    ensures Execution(s')
  {
  }

  lemma ExecuteKeeps(s: State, w: nat, t: TaskId)
    requires Ownership(s) && Execution(s) && Staged(s)
    requires WorkerAt(s, w) && s.workers[w] == Running(t) && t in s.tasks
    ensures Execution(DoExecute(s, w, t))
  {
    var s' := DoExecute(s, w, t);
    assert Busy(s.workers[w]);
    assert s'.executed[|s.executed|] == (w, t);
    assert forall i :: 0 <= i < |s.executed| ==> s'.executed[i] == s.executed[i];
  }

  lemma KeepsExecution(c: Config, s: State, a: Action)
    requires Ownership(s) && Execution(s) && Staged(s) && Enabled(c, s, a) && CoreAction(a)
    ensures Execution(Apply(c, s, a))
  {
    if a.Execute? {
      ExecuteKeeps(s, a.w, s.workers[a.w].t);
    } else {
      OnlyExecuteRuns(c, s, a);
      NothingRunsKeeps(s, Apply(c, s, a));
    }
  }

  lemma KeepsFinishedLeft(c: Config, s: State, a: Action)
    requires Ownership(s) && FinishedLeft(s) && Enabled(c, s, a) && CoreAction(a)
    ensures FinishedLeft(Apply(c, s, a))
  {
  }

  lemma KeepsStaged(c: Config, s: State, a: Action)
    requires History(s) && Ownership(s) && FinishedLeft(s) && Staged(s) && Enabled(c, s, a) && CoreAction(a)
    ensures Staged(Apply(c, s, a))
  {
    if s.queue != [] {
      HeadIsNew(s);
    }
  }

  lemma KeepsNoneLost(c: Config, s: State, a: Action)
    requires History(s) && Ownership(s) && NoneLost(s) && Enabled(c, s, a) && CoreAction(a)
    ensures NoneLost(Apply(c, s, a))
  {
    var s' := Apply(c, s, a);
    forall t | t in s'.dequeued && t in s'.tasks && !s'.tasks[t].finished
      ensures InProgress(s', t)
    {
      if t in s.dequeued {
        assert t in s.tasks;
        var w :| 0 <= w < |s.workers| && Executing(s.workers[w]) && s.workers[w].t == t;
        assert Executing(s'.workers[w]) && s'.workers[w].t == t;
      } else {
        assert Executing(s'.workers[a.w]) && s'.workers[a.w].t == t;
      }
    }
  }

  lemma KeepsDestroyedLast(c: Config, s: State, a: Action)
    requires DestroyedLast(s) && Staged(s) && Enabled(c, s, a) && CoreAction(a)
    ensures DestroyedLast(Apply(c, s, a))
  {
  }

  lemma KeepsDestruction(c: Config, s: State, a: Action)
    requires History(s) && Ownership(s) && FinishedLeft(s) && DestroyedLast(s) && Destruction(s)
    requires Enabled(c, s, a) && CoreAction(a)
    ensures Destruction(Apply(c, s, a))
  {
    if s.queue != [] {
      HeadIsNew(s);
    }
  }

  lemma KeepsPhases(c: Config, s: State, a: Action)
    requires Phases(c, s) && Enabled(c, s, a)
    ensures Phases(c, Apply(c, s, a))
  {
  }

  lemma KeepsSleepers(c: Config, s: State, a: Action)
    requires Phases(c, s) && Sleepers(s) && Enabled(c, s, a)
    ensures Sleepers(Apply(c, s, a))
  {
  }

  lemma KeepsExits(c: Config, s: State, a: Action)
    requires Exits(s) && Enabled(c, s, a)
    ensures Exits(Apply(c, s, a))
  {
  }

  lemma {:induction false} SumUpdate(ws: seq<Worker>, w: nat, x: Worker, weight: Worker -> nat)
    requires w < |ws|
    ensures Sum(ws[w := x], weight) + weight(ws[w]) == Sum(ws, weight) + weight(x)
  {
    var n := |ws| - 1;
    if w < n {
      SumUpdate(ws[..n], w, x, weight);
      assert ws[w := x][..n] == ws[..n][w := x];
    } else {
      assert ws[w := x][..n] == ws[..n];
    }
  }

  /** The one worker whose program counter an action other than a broadcast changes. */
  ghost function Moved(a: Action): Option<nat> {
    match a
    case Enqueue(_, wake) => if wake.WakeWorker? then Some(wake.w) else None
    case WorkerLock(w) => Some(w)
    case LockTask(w) => Some(w)
    case Execute(w) => Some(w)
    case Reclaim(w) => Some(w)
    case Release(w, _) => Some(w)
    case SpuriousWorker(w) => Some(w)
    case _ => None
  }

  lemma MovedWorker(c: Config, s: State, a: Action)
    requires Enabled(c, s, a) && !a.ShutdownCall? && !a.ShutdownRecheck?
    ensures |Apply(c, s, a).workers| == |s.workers|
    ensures Moved(a) == None ==> Apply(c, s, a).workers == s.workers
    ensures Moved(a) != None ==> Moved(a).value < |s.workers|
    ensures Moved(a) != None ==>
      var w := Moved(a).value;
      Apply(c, s, a).workers == s.workers[w := Apply(c, s, a).workers[w]]
  {
  }

  lemma KeepsWorkConserving(c: Config, s: State, a: Action)
    requires Closing(c, s) && WorkConserving(s) && Enabled(c, s, a)
    ensures WorkConserving(Apply(c, s, a))
  {
    var s' := Apply(c, s, a);
    if s'.phase == ACTIVE && s.phase == ACTIVE {
      MovedWorker(c, s, a);
      if Moved(a) != None {
        SumUpdate(s.workers, Moved(a).value, s'.workers[Moved(a).value], IsReady);
      }
    }
  }

  ghost function IsAsleep(w: Worker): nat {
    if w == Asleep then 1 else 0
  }

  /** How many threads wait on qcond. */
  ghost function Sleeping(s: State): nat {
    Sum(s.workers, IsAsleep) + if s.closer == FlushAsleep then 1 else 0
  }

  lemma {:induction false} SomeAsleep(ws: seq<Worker>)
    ensures Sum(ws, IsAsleep) > 0 <==> Asleep in ws
  {
    if ws != [] {
      var n := |ws| - 1;
      SomeAsleep(ws[..n]);
      assert ws == ws[..n] + [ws[n]];
    }
  }

  /** The signal of an enqueue wakes exactly one thread, a worker or the closing thread, if
      one waits at all. */
  lemma EnqueueWakesOne(c: Config, s: State, t: TaskId, wake: Wake)
    requires Enabled(c, s, Enqueue(t, wake))
    ensures Sleeping(Apply(c, s, Enqueue(t, wake))) == if Sleeping(s) > 0 then Sleeping(s) - 1 else 0
  {
    SomeAsleep(s.workers);
    if wake.WakeWorker? {
      SumUpdate(s.workers, wake.w, Ready, IsAsleep);
    }
  }

  lemma InvStart(c: Config)
    ensures Inv(c, Start(c))
  {
  }

  lemma InvStep(c: Config, s: State, a: Action)
    requires Inv(c, s) && Enabled(c, s, a)
    ensures Inv(c, Apply(c, s, a))
  {
    KeepsHistory(c, s, a);
    KeepsPhases(c, s, a);
    KeepsSleepers(c, s, a);
    KeepsExits(c, s, a);
    KeepsWorkConserving(c, s, a);
    if CoreAction(a) {
      KeepsOwnership(c, s, a);
      KeepsExecution(c, s, a);
      KeepsFinishedLeft(c, s, a);
      KeepsStaged(c, s, a);
      KeepsNoneLost(c, s, a);
      KeepsDestroyedLast(c, s, a);
      KeepsDestruction(c, s, a);
    } else {
      OthersKeepWorkers(c, s, a);
      OthersKeepTasks(c, s, a);
      QuietKeeps(s, Apply(c, s, a));
      QuietKeepsNoneLost(s, Apply(c, s, a));
    }
  }

  // ---- Main results, for every reachable state ----

  lemma {:induction false} RunKeepsInv(c: Config, s: State, run: seq<Action>)
    requires Inv(c, s) && CanRun(c, s, run)
    ensures Inv(c, After(c, s, run))
    decreases |run|
  {
    if run != [] {
      InvStep(c, s, run[0]);
      RunKeepsInv(c, Apply(c, s, run[0]), run[1..]);
    }
  }

  lemma ReachableInv(c: Config, s: State)
    requires Reachable(c, s)
    ensures Inv(c, s)
  {
    var run :| CanRun(c, Start(c), run) && After(c, Start(c), run) == s;
    InvStart(c);
    RunKeepsInv(c, Start(c), run);
  }

  /** No wake-up is lost: while the pool is active and some worker sleeps, every
      queued task has an awake idle worker of its own. */
  lemma WorkConservation(c: Config, s: State)
    requires Reachable(c, s) && s.phase == ACTIVE && Asleep in s.workers
    ensures |s.queue| <= Sum(s.workers, IsReady)
  {
    ReachableInv(c, s);
  }

  /** Tasks leave the queue in the order in which they entered it, none twice. */
  lemma FifoConservation(c: Config, s: State)
    requires Reachable(c, s)
    ensures s.enqueued == s.dequeued + s.queue && NoDup(s.enqueued)
  {
    ReachableInv(c, s);
  }

  // ---- What a task was created with ----

  /** No step changes what a task that exists was created with. */
  lemma KeepsCreation(c: Config, s: State, a: Action, t: TaskId)
    requires Enabled(c, s, a) && t in s.tasks
    ensures var k, k' := s.tasks[t], Apply(c, s, a).tasks;
      t in k' && k'[t].f == k.f && k'[t].arg == k.arg && k'[t].independent == k.independent
  {
  }

  lemma {:induction false} RunKeepsCreation(c: Config, s: State, run: seq<Action>, t: TaskId)
    requires CanRun(c, s, run) && t in s.tasks
    ensures var k, k' := s.tasks[t], After(c, s, run).tasks;
      t in k' && k'[t].f == k.f && k'[t].arg == k.arg && k'[t].independent == k.independent
    decreases |run|
  {
    if run != [] {
      KeepsCreation(c, s, run[0], t);
      RunKeepsCreation(c, Apply(c, s, run[0]), run[1..], t);
    }
  }

  /** A task is stored as its caller passes it to pool_task_create. */
  lemma {:induction false} StoredAsPassed(c: Config, s: State, run: seq<Action>,
                                          t: TaskId, f: int -> int, arg: int, independent: bool)
    requires CanRun(c, s, run) && CreateCheck(t, f, arg, independent) in run
    ensures var k := After(c, s, run).tasks;
      t in k && k[t].f == f && k[t].arg == arg && k[t].independent == independent
    decreases |run|
  {
    var a, s1 := run[0], Apply(c, s, run[0]);
    if a == CreateCheck(t, f, arg, independent) {
      RunKeepsCreation(c, s1, run[1..], t);
    } else {
      StoredAsPassed(c, s1, run[1..], t, f, arg, independent);
    }
  }

  /** Whatever else happens on a run in which pool_task_create is called, the task it makes
      is there at the end, and if it is finished its result is that of the function that
      was passed, on the argument that was passed. */
  lemma CallersResult(c: Config, run: seq<Action>, t: TaskId, f: int -> int, arg: int, independent: bool)
    requires CanRun(c, Start(c), run) && CreateCheck(t, f, arg, independent) in run
    ensures var k := After(c, Start(c), run).tasks;
      t in k && k[t].independent == independent && (k[t].finished ==> k[t].result == f(arg))
  {
    StoredAsPassed(c, Start(c), run, t, f, arg, independent);
    InvStart(c);
    RunKeepsInv(c, Start(c), run);
  }

  /** Some run to s has this call of pool_task_create in it. */
  ghost predicate Created(c: Config, s: State, t: TaskId, f: int -> int, arg: int, independent: bool) {
    exists run ::
      CanRun(c, Start(c), run) && After(c, Start(c), run) == s && CreateCheck(t, f, arg, independent) in run
  }

  /** t is finished, and its result is what its creator asked for. */
  ghost predicate Delivered(c: Config, s: State, t: TaskId) {
    && t in s.tasks && s.tasks[t].finished
    && (exists f, arg, independent :: Created(c, s, t, f, arg, independent))
    && (forall f, arg, independent :: Created(c, s, t, f, arg, independent) ==> s.tasks[t].result == f(arg))
  }

  lemma CreatedNow(c: Config, s: State, a: Action)
    requires Reachable(c, s) && Enabled(c, s, a) && a.CreateCheck?
    ensures Created(c, Apply(c, s, a), a.t, a.f, a.arg, a.independent)
  {
    var run :| CanRun(c, Start(c), run) && After(c, Start(c), run) == s;
    assert CanRun(c, s, [a]);
    RunsCompose(c, Start(c), run, [a]);
    assert a in run + [a];
  }

  lemma StaysCreated(c: Config, s: State, a: Action, call: Action)
    requires Enabled(c, s, a) && call.CreateCheck? && Created(c, s, call.t, call.f, call.arg, call.independent)
    ensures Created(c, Apply(c, s, a), call.t, call.f, call.arg, call.independent)
  {
    var run :| CanRun(c, Start(c), run) && After(c, Start(c), run) == s && call in run;
    assert CanRun(c, s, [a]);
    RunsCompose(c, Start(c), run, [a]);
    assert call in run + [a];
  }

  /** Every task was created by somebody. */
  lemma {:induction false} HasCreator(c: Config, s: State, run: seq<Action>, t: TaskId) returns (a: Action)
    requires CanRun(c, s, run) && t !in s.tasks && t in After(c, s, run).tasks
    ensures a.CreateCheck? && a.t == t && a in run
    decreases |run|
  {
    if t in Apply(c, s, run[0]).tasks {
      a := run[0];
    } else {
      a := HasCreator(c, Apply(c, s, run[0]), run[1..], t);
    }
  }

  lemma CreatedIsDelivered(c: Config, s: State, t: TaskId, f: int -> int, arg: int, independent: bool)
    requires Created(c, s, t, f, arg, independent)
    ensures t in s.tasks && s.tasks[t].independent == independent
    ensures s.tasks[t].finished ==> s.tasks[t].result == f(arg)
  {
    var run :| CanRun(c, Start(c), run) && After(c, Start(c), run) == s && CreateCheck(t, f, arg, independent) in run;
    CallersResult(c, run, t, f, arg, independent);
  }

  /** In every reachable state a finished task holds what its creator asked for. */
  lemma FinishedIsDelivered(c: Config, s: State, t: TaskId)
    requires Reachable(c, s) && t in s.tasks && s.tasks[t].finished
    ensures Delivered(c, s, t)
  {
    var run :| CanRun(c, Start(c), run) && After(c, Start(c), run) == s;
    var a := HasCreator(c, Start(c), run, t);
    assert Created(c, s, t, a.f, a.arg, a.independent);
    forall f, arg, independent | Created(c, s, t, f, arg, independent)
      ensures s.tasks[t].result == f(arg)
    {
      CreatedIsDelivered(c, s, t, f, arg, independent);
    }
  }

  // ---- Exactly once ----

  ghost function Executions(s: State, t: TaskId): (r: set<nat>) {
    set i | 0 <= i < |s.executed| && s.executed[i].1 == t
  }

  ghost function Holders(s: State, t: TaskId): (r: set<nat>) {
    set w | 0 <= w < |s.workers| && Executing(s.workers[w]) && s.workers[w].t == t
  }

  lemma FinishedOnce(s: State, t: TaskId)
    requires Execution(s) && Staged(s) && t in s.tasks && s.tasks[t].finished
    ensures |Executions(s, t)| == 1 && |Holders(s, t)| == 0
  {
    var i :| 0 <= i < |s.executed| && s.executed[i].1 == t;
    assert Executions(s, t) == {i};
    assert Holders(s, t) == {};
  }

  lemma HeldOnce(s: State, t: TaskId)
    requires Ownership(s) && Execution(s) && t in s.tasks && !s.tasks[t].finished && InProgress(s, t)
    ensures |Executions(s, t)| == 0 && |Holders(s, t)| == 1
  {
    var w :| 0 <= w < |s.workers| && Executing(s.workers[w]) && s.workers[w].t == t;
    assert Holders(s, t) == {w};
    assert Executions(s, t) == {};
  }

  /** A task that has left the queue has been run exactly once and holds the result that
      its creator asked for, or it is held by exactly one worker that is about to run it. */
  lemma ExactlyOnce(c: Config, s: State, t: TaskId)
    requires Reachable(c, s) && t in s.dequeued
    ensures t in s.tasks
    ensures |Executions(s, t)| + |Holders(s, t)| == 1
    ensures s.tasks[t].finished <==> |Executions(s, t)| == 1
    ensures s.tasks[t].finished ==> Delivered(c, s, t)
  {
    ReachableInv(c, s);
    assert t in s.enqueued;
    if s.tasks[t].finished {
      FinishedIsDelivered(c, s, t);
      FinishedOnce(s, t);
    } else {
      HeldOnce(s, t);
    }
  }

  /** Nothing runs before it is dequeued. */
  lemma NotBefore(c: Config, s: State, t: TaskId)
    requires Reachable(c, s) && t in s.tasks && t !in s.dequeued
    ensures !s.tasks[t].finished && Executions(s, t) == {} && Holders(s, t) == {}
  {
    ReachableInv(c, s);
  }
}
