/** When pool_shutdown terminates, and what it leaves behind (pool.c 129-183). */
module PoolShutdown {
  import opened Wrappers
  import opened PoolProtocol
  import opened PoolSafety

  // ---- A measure that falls with every step of a worker or of the closing thread ----

  ghost function WorkLeft(w: Worker): nat {
    match w
    case Exited => 0
    case Ready => 1
    case Asleep => 2
    case Reclaimed(_) => 2
    case Finished(_) => 3
    case Running(_) => 4
    case Taken(_) => 5
  }

  ghost function ClosingLeft(c: Config, k: Closer): nat {
    match k
    case NotCalled => c.workers + 4
    case FlushAsleep => c.workers + 3
    case FlushReady => c.workers + 3
    case Joining(i) => if i <= c.workers then c.workers - i + 2 else 2
    case Freed => 0
  }

  ghost function Left(c: Config, s: State): nat {
    WorkersLeft(s) + ClosingLeft(c, s.closer)
  }

  datatype Actor = Core(w: nat) | ClosingThread

  /** Whose program takes this step; wake-ups, creators and joiners have no actor. */
  ghost function ActorOf(a: Action): Option<Actor> {
    match a
    case WorkerLock(w) => Some(Core(w))
    case LockTask(w) => Some(Core(w))
    case Execute(w) => Some(Core(w))
    case Reclaim(w) => Some(Core(w))
    case Release(w, _) => Some(Core(w))
    case ShutdownRecheck => Some(ClosingThread)
    case JoinThread => Some(ClosingThread)
    case FreePool => Some(ClosingThread)
    case _ => None
  }

  lemma {:induction false} WokenLeft(ws: seq<Worker>)
    ensures Sum(Woken(ws), WorkLeft) <= Sum(ws, WorkLeft)
  {
    var n := |ws| - 1;
    if n >= 0 {
      WokenLeft(ws[..n]);
      assert Woken(ws)[..n] == Woken(ws[..n]);
    }
  }

  ghost function WorkersLeft(s: State): nat {
    Sum(s.workers, WorkLeft) + 5 * |s.queue|
  }

  lemma WorkersStep(c: Config, s: State, a: Action)
    requires Enabled(c, s, a) && s.phase != ACTIVE && !a.Enqueue? && !a.ShutdownCall? && !a.ShutdownRecheck?
    ensures WorkersLeft(Apply(c, s, a)) <= WorkersLeft(s)
    ensures CoreAction(a) ==> WorkersLeft(Apply(c, s, a)) < WorkersLeft(s)
  {
    var s' := Apply(c, s, a);
    MovedWorker(c, s, a);
    if Moved(a) != None {
      SumUpdate(s.workers, Moved(a).value, s'.workers[Moved(a).value], WorkLeft);
    }
  }

  lemma ClosingStep(c: Config, s: State, a: Action)
    requires Closing(c, s) && Enabled(c, s, a) && s.phase != ACTIVE && !a.Enqueue?
    ensures ClosingLeft(c, Apply(c, s, a).closer) <= ClosingLeft(c, s.closer)
    ensures (a.ShutdownRecheck? && s.queue == []) || a.JoinThread? || a.FreePool? ==>
      ClosingLeft(c, Apply(c, s, a).closer) < ClosingLeft(c, s.closer)
  {
  }

  /** Once shutdown has begun and no creator is left to enqueue, no step adds work,
      and every step of a worker or of the closing thread removes some, except
      going back to sleep on a non-empty queue. */
  lemma StepReducesWork(c: Config, s: State, a: Action)
    requires Closing(c, s) && Enabled(c, s, a) && s.phase != ACTIVE && !a.Enqueue?
    ensures Left(c, Apply(c, s, a)) <= Left(c, s)
    ensures ActorOf(a) != None && !(a.ShutdownRecheck? && s.queue != []) ==> Left(c, Apply(c, s, a)) < Left(c, s)
  {
    ClosingStep(c, s, a);
    if a.ShutdownRecheck? {
      WokenLeft(s.workers);
    } else {
      WorkersStep(c, s, a);
    }
  }

  // ---- Draining: shutdown has begun, and no creator is past its state check ----

  ghost predicate Draining(c: Config, s: State) {
    Inv(c, s) && s.pending == {} && (s.phase == FLUSH || (s.phase == SHUTDOWN && s.queue == []))
  }

  lemma DrainingStep(c: Config, s: State, a: Action)
    requires Draining(c, s) && Enabled(c, s, a)
    ensures Draining(c, Apply(c, s, a))
  {
    InvStep(c, s, a);
  }

  ghost predicate AllFinished(s: State) {
    forall t :: t in s.tasks ==> s.tasks[t].finished
  }

  lemma FreedMeansFinished(c: Config, s: State)
    requires Draining(c, s) && s.closer == Freed
    ensures AllFinished(s)
  {
    forall t | t in s.tasks
      ensures s.tasks[t].finished
    {
      assert t in s.dequeued;
    }
  }

  // ---- Enabledness of an actor, and its persistence ----

  ghost predicate ActorEnabled(c: Config, s: State, who: Actor) {
    exists a :: ActorOf(a) == Some(who) && Enabled(c, s, a)
  }

  /** The actor has something to do that only it can take away. */
  ghost predicate Willing(s: State, who: Actor) {
    match who
    case Core(w) => s.phase == SHUTDOWN && w < |s.workers| && s.workers[w] != Exited
    case ClosingThread =>
      || (s.closer == FlushReady && s.queue == [])
      || (s.phase == SHUTDOWN && s.closer != Freed && forall w :: 0 <= w < |s.workers| ==> s.workers[w] == Exited)
  }

  ghost predicate Awake(s: State, w: nat) {
    w < |s.workers| && s.workers[w] != Asleep && s.workers[w] != Exited
  }

  /** A worker that is awake has an enabled step, whatever the others are doing. */
  lemma AwakeIsEnabled(c: Config, s: State, w: nat) returns (a: Action)
    requires Inv(c, s) && Awake(s, w)
    ensures ActorOf(a) == Some(Core(w)) && Enabled(c, s, a)
  {
    match s.workers[w] {
      case Ready => a := WorkerLock(w);
      case Taken(t) =>
        a := LockTask(w);
        assert forall v :: 0 <= v < |s.workers| && HoldsLock(s.workers[v], t) ==> Busy(s.workers[v]);
      case Running(_) => a := Execute(w);
      case Finished(_) => a := Reclaim(w);
      case Reclaimed(t) =>
        if j :| j in s.joiners && s.joiners[j] == Waiting(t) {
          a := Release(w, Some(j));
        } else {
          a := Release(w, None);
        }
    }
  }

  lemma WillingIsEnabled(c: Config, s: State, who: Actor) returns (a: Action)
    requires Inv(c, s) && Willing(s, who)
    ensures ActorOf(a) == Some(who) && Enabled(c, s, a)
    ensures !a.Enqueue? && !(a.ShutdownRecheck? && s.queue != [])
  {
    match who
    case Core(w) => a := AwakeIsEnabled(c, s, w);
    case ClosingThread =>
      a := if s.closer == FlushReady then ShutdownRecheck
           else if s.closer == Joining(|s.workers|) then FreePool else JoinThread;
  }

  lemma WillingStays(c: Config, s: State, a: Action, who: Actor)
    requires Draining(c, s) && Willing(s, who) && Enabled(c, s, a) && ActorOf(a) != Some(who)
    ensures Willing(Apply(c, s, a), who)
  {
  }

  lemma SomeoneWilling(c: Config, s: State) returns (who: Actor)
    requires Draining(c, s) && s.closer != Freed && SeesEmptyQueue(s)
    ensures Willing(s, who)
  {
    if w :| s.phase == SHUTDOWN && 0 <= w < |s.workers| && s.workers[w] != Exited {
      who := Core(w);
    } else {
      who := ClosingThread;
    }
  }

  /** The closing thread is awake with the queue drained, or already past its wait. */
  ghost predicate SeesEmptyQueue(s: State) {
    s.phase == SHUTDOWN || (s.closer == FlushReady && s.queue == [])
  }

  // ---- Infinite fair behaviours ----

  datatype Behavior = Behavior(st: nat -> State, act: nat -> Action)

  ghost predicate StepAt(c: Config, b: Behavior, i: nat) {
    Enabled(c, b.st(i), b.act(i)) && b.st(i + 1) == Apply(c, b.st(i), b.act(i))
  }

  ghost predicate IsBehavior(c: Config, b: Behavior) {
    forall i: nat :: StepAt(c, b, i)
  }

  ghost predicate EnabledFrom(c: Config, b: Behavior, who: Actor, i: nat) {
    forall j: nat :: i <= j ==> ActorEnabled(c, b.st(j), who)
  }

  ghost predicate ActsFrom(b: Behavior, who: Actor, i: nat) {
    exists j: nat :: i <= j && ActorOf(b.act(j)) == Some(who)
  }

  /** Weak fairness: a thread that can always take a step does take one.  For a
      running worker this says that its task function returns. */
  ghost predicate Fair(c: Config, b: Behavior) {
    forall who, i: nat :: EnabledFrom(c, b, who, i) ==> ActsFrom(b, who, i)
  }

  lemma DrainAt(c: Config, b: Behavior, k: nat)
    requires IsBehavior(c, b) && Draining(c, b.st(k))
    ensures Draining(c, b.st(k + 1)) && Left(c, b.st(k + 1)) <= Left(c, b.st(k))
    ensures SeesEmptyQueue(b.st(k)) ==> SeesEmptyQueue(b.st(k + 1))
    ensures SeesEmptyQueue(b.st(k)) && ActorOf(b.act(k)) != None ==> Left(c, b.st(k + 1)) < Left(c, b.st(k))
  {
    assert StepAt(c, b, k);
    DrainingStep(c, b.st(k), b.act(k));
    StepReducesWork(c, b.st(k), b.act(k));
  }

  lemma {:induction false} BehaviorDrains(c: Config, b: Behavior, i: nat, j: nat)
    requires IsBehavior(c, b) && Draining(c, b.st(i)) && i <= j
    ensures Draining(c, b.st(j)) && Left(c, b.st(j)) <= Left(c, b.st(i))
    ensures SeesEmptyQueue(b.st(i)) ==> SeesEmptyQueue(b.st(j))
    decreases j - i
  {
    if i < j {
      BehaviorDrains(c, b, i, j - 1);
      DrainAt(c, b, j - 1);
    }
  }

  lemma {:induction false} WillingUntilItActs(c: Config, b: Behavior, who: Actor, i: nat, j: nat)
    requires IsBehavior(c, b) && Draining(c, b.st(i)) && Willing(b.st(i), who) && i <= j
    requires forall k: nat :: i <= k < j ==> ActorOf(b.act(k)) != Some(who)
    ensures Draining(c, b.st(j)) && Willing(b.st(j), who)
    decreases j - i
  {
    if i < j {
      WillingUntilItActs(c, b, who, i, j - 1);
      assert StepAt(c, b, j - 1);
      DrainingStep(c, b.st(j - 1), b.act(j - 1));
      WillingStays(c, b.st(j - 1), b.act(j - 1), who);
    }
  }

  lemma WillingActs(c: Config, b: Behavior, who: Actor, i: nat) returns (j: nat)
    requires IsBehavior(c, b) && Fair(c, b) && Draining(c, b.st(i)) && Willing(b.st(i), who)
    ensures i <= j && ActorOf(b.act(j)) == Some(who)
  {
    if !ActsFrom(b, who, i) {
      forall k: nat | i <= k
        ensures ActorEnabled(c, b.st(k), who)
      {
        WillingUntilItActs(c, b, who, i, k);
        var a := WillingIsEnabled(c, b.st(k), who);
      }
    }
    j :| i <= j && ActorOf(b.act(j)) == Some(who);
  }

  /** From a drained state in which the closing thread is not asleep, every fair
      behaviour frees the pool: each round some thread must act, and every such
      act shrinks Left. */
  lemma {:induction false} FairRunFrees(c: Config, b: Behavior, i: nat) returns (j: nat)
    requires IsBehavior(c, b) && Fair(c, b) && Draining(c, b.st(i)) && SeesEmptyQueue(b.st(i))
    ensures i <= j && b.st(j).closer == Freed && AllFinished(b.st(j))
    decreases Left(c, b.st(i))
  {
    if b.st(i).closer == Freed {
      FreedMeansFinished(c, b.st(i));
      return i;
    }
    var who := SomeoneWilling(c, b.st(i));
    var k := WillingActs(c, b, who, i);
    BehaviorDrains(c, b, i, k);
    DrainAt(c, b, k);
    j := FairRunFrees(c, b, k + 1);
  }

  ghost predicate EventuallyFreed(b: Behavior) {
    exists j: nat :: b.st(j).closer == Freed
  }

  ghost predicate EventuallySeesEmptyQueue(b: Behavior) {
    exists i: nat :: SeesEmptyQueue(b.st(i))
  }

  /** While shutdown is draining, a fair run frees the pool exactly when the closing
      thread is at some moment awake with the queue empty. */
  lemma FairRunFreesExactly(c: Config, b: Behavior)
    requires IsBehavior(c, b) && Fair(c, b) && Draining(c, b.st(0))
    ensures EventuallyFreed(b) <==> EventuallySeesEmptyQueue(b)
  {
    if i: nat :| SeesEmptyQueue(b.st(i)) {
      BehaviorDrains(c, b, 0, i);
      var j := FairRunFrees(c, b, i);
    }
    if j: nat :| b.st(j).closer == Freed {
      BehaviorDrains(c, b, 0, j);
      assert SeesEmptyQueue(b.st(j));
    }
  }

  lemma OnlySpuriousWakesCloser(c: Config, s: State, a: Action)
    requires Enabled(c, s, a) && s.closer == FlushAsleep && s.pending == {} && a != SpuriousCloser
    ensures Apply(c, s, a).closer == FlushAsleep
  {
  }

  /** No worker signals qcond when it empties the queue, so without a spurious
      wake-up a closing thread that went to sleep stays asleep. */
  lemma {:induction false} CloserSleepsOn(c: Config, b: Behavior, i: nat, j: nat)
    requires IsBehavior(c, b) && Draining(c, b.st(i)) && b.st(i).closer == FlushAsleep && i <= j
    requires forall k: nat :: b.act(k) != SpuriousCloser
    ensures b.st(j).closer == FlushAsleep
    decreases j - i
  {
    if i < j {
      CloserSleepsOn(c, b, i, j - 1);
      BehaviorDrains(c, b, i, j - 1);
      assert StepAt(c, b, j - 1);
      OnlySpuriousWakesCloser(c, b.st(j - 1), b.act(j - 1));
    }
  }

  // ---- Letting the workers run out ----

  ghost predicate AllExited(s: State) {
    forall w :: 0 <= w < |s.workers| ==> s.workers[w] == Exited
  }

  /** A worker's step, or a spurious wake-up of a worker. */
  predicate WorkerAction(a: Action) {
    CoreAction(a) || a.SpuriousWorker?
  }

  /** Of a shutdown that has begun, with workers left as long as something is queued. */
  ghost predicate Leaving(c: Config, s: State) {
    Inv(c, s) && s.phase != ACTIVE && (s.queue != [] ==> Exited !in s.workers && s.workers != [])
  }

  /** Such a step leaves creators and the closing thread alone, and less work. */
  lemma LeavingStep(c: Config, s: State, a: Action)
    requires Leaving(c, s) && Enabled(c, s, a) && WorkerAction(a)
    ensures var s' := Apply(c, s, a);
      && Leaving(c, s') && Left(c, s') < Left(c, s)
      && s'.pending == s.pending && s'.closer == s.closer && s'.phase == s.phase && s'.enqueued == s.enqueued
  {
    InvStep(c, s, a);
    StepReducesWork(c, s, a);
    if a.SpuriousWorker? {
      SumUpdate(s.workers, a.w, Ready, WorkLeft);
    }
  }

  /** A worker that has not left can move, if need be after a spurious wake-up. */
  lemma NotExitedIsEnabled(c: Config, s: State, w: nat) returns (a: Action)
    requires Inv(c, s) && w < |s.workers| && s.workers[w] != Exited
    ensures WorkerAction(a) && Enabled(c, s, a)
  {
    if s.workers[w] == Asleep {
      a := SpuriousWorker(w);
    } else {
      a := AwakeIsEnabled(c, s, w);
    }
  }

  lemma CanRunCons(c: Config, s: State, a: Action, rest: seq<Action>)
    requires Enabled(c, s, a) && CanRun(c, Apply(c, s, a), rest)
    ensures CanRun(c, s, [a] + rest) && After(c, s, [a] + rest) == After(c, Apply(c, s, a), rest)
  {
    assert ([a] + rest)[1..] == rest;
  }

  /** The workers can empty the queue and leave, whatever creators and the closing
      thread are waiting for. */
  lemma {:induction false} WorkersRunOut(c: Config, s: State) returns (run: seq<Action>)
    requires Leaving(c, s)
    ensures CanRun(c, s, run) && forall a :: a in run ==> WorkerAction(a)
    ensures var s' := After(c, s, run);
      && Inv(c, s') && AllExited(s') && s'.queue == []
      && s'.pending == s.pending && s'.closer == s.closer && s'.phase == s.phase && s'.enqueued == s.enqueued
    decreases Left(c, s)
  {
    if w :| 0 <= w < |s.workers| && s.workers[w] != Exited {
      var a := NotExitedIsEnabled(c, s, w);
      LeavingStep(c, s, a);
      var rest := WorkersRunOut(c, Apply(c, s, a));
      CanRunCons(c, s, a, rest);
      run := [a] + rest;
    } else {
      run := [];
      assert s.workers != [] ==> s.workers[0] in s.workers;
    }
  }

  /** Once all have left, the closing thread can join them one after the other. */
  lemma {:induction false} JoinAll(c: Config, s: State) returns (run: seq<Action>)
    requires AllExited(s) && s.closer.Joining? && s.closer.i <= |s.workers|
    ensures CanRun(c, s, run) && After(c, s, run) == s.(closer := Joining(|s.workers|))
    ensures forall a :: a in run ==> a == JoinThread
    decreases |s.workers| - s.closer.i
  {
    if s.closer.i == |s.workers| {
      run := [];
    } else {
      var rest := JoinAll(c, Apply(c, s, JoinThread));
      CanRunCons(c, s, JoinThread, rest);
      run := [JoinThread] + rest;
    }
  }

  // ---- What a freed pool leaves behind ----

  /** From any announced shutdown the workers and the closing thread can run to
      the end on their own, leaving the pending creators where they are. */
  lemma {:induction false} RunToFreed(c: Config, s: State) returns (run: seq<Action>)
    requires Inv(c, s) && s.phase == SHUTDOWN
    ensures CanRun(c, s, run) && After(c, s, run).closer == Freed
    ensures After(c, s, run).pending == s.pending && Inv(c, After(c, s, run))
    decreases Left(c, s)
  {
    if s.closer == Freed {
      return [];
    }
    var who: Actor;
    if w :| 0 <= w < |s.workers| && s.workers[w] != Exited {
      who := Core(w);
    } else {
      who := ClosingThread;
    }
    var a := WillingIsEnabled(c, s, who);
    StepReducesWork(c, s, a);
    InvStep(c, s, a);
    var rest := RunToFreed(c, Apply(c, s, a));
    CanRunCons(c, s, a, rest);
    run := [a] + rest;
  }

  ghost predicate EnqueuedFinished(s: State) {
    forall t :: t in s.enqueued ==> t in s.tasks && s.tasks[t].finished
  }

  /** Nothing is queued and nothing will be. */
  ghost predicate Closed(c: Config, s: State) {
    Inv(c, s) && s.phase == SHUTDOWN && s.queue == [] && (s.pending == {} || s.closer == Freed)
  }

  lemma ClosedStep(c: Config, s: State, a: Action)
    requires Closed(c, s) && Enabled(c, s, a)
    ensures Closed(c, Apply(c, s, a))
  {
    InvStep(c, s, a);
  }

  lemma {:induction false} RunKeepsClosed(c: Config, s: State, run: seq<Action>)
    requires Closed(c, s) && CanRun(c, s, run)
    ensures Closed(c, After(c, s, run))
    decreases |run|
  {
    if run != [] {
      ClosedStep(c, s, run[0]);
      RunKeepsClosed(c, Apply(c, s, run[0]), run[1..]);
    }
  }

  lemma ClosedMeansFinished(c: Config, s: State)
    requires Closed(c, s) && s.closer == Freed
    ensures EnqueuedFinished(s)
  {
    assert s.enqueued == s.dequeued;
  }

  /** A pending creator can enqueue its task between the last pthread_join and the free,
      when no worker is left. */
  lemma EnqueuesTooLate(c: Config, s: State) returns (run: seq<Action>)
    requires Inv(c, s) && s.phase == SHUTDOWN && s.queue == [] && s.pending != {} && s.closer != Freed
    ensures CanRun(c, s, run) && After(c, s, run).closer == Freed && !EnqueuedFinished(After(c, s, run))
  {
    var out := WorkersRunOut(c, s);
    var s1 := After(c, s, out);
    var joins := JoinAll(c, s1);
    var s2 := After(c, s1, joins);
    var t :| t in s.pending;
    var last := [Enqueue(t, WakeNobody), FreePool];
    TooLate(c, s2, t);
    RunsCompose(c, s1, joins, last);
    RunsCompose(c, s, out, joins + last);
    run := out + (joins + last);
  }

  lemma TooLate(c: Config, s: State, t: TaskId)
    requires History(s) && FinishedLeft(s) && AllExited(s) && s.closer == Joining(|s.workers|) && t in s.pending
    ensures var run := [Enqueue(t, WakeNobody), FreePool];
      CanRun(c, s, run) && After(c, s, run).closer == Freed && !EnqueuedFinished(After(c, s, run))
  {
    var s1 := DoEnqueue(s, t, WakeNobody);
    assert s1 == Apply(c, s, Enqueue(t, WakeNobody));
    assert t == s1.enqueued[|s.enqueued|] && !s.tasks[t].finished;
    CanRunCons(c, s1, FreePool, []);
    CanRunCons(c, s, Enqueue(t, WakeNobody), [FreePool]);
    assert [Enqueue(t, WakeNobody)] + [FreePool] == [Enqueue(t, WakeNobody), FreePool];
    assert [FreePool] + [] == [FreePool];
  }

  ghost predicate EveryRunFinishesAll(c: Config, s: State) {
    forall run :: CanRun(c, s, run) && After(c, s, run).closer == Freed ==> EnqueuedFinished(After(c, s, run))
  }

  /** When the closing thread has found the queue empty and announced the shutdown,
      every run that frees the pool finishes every task enqueued in it exactly when no
      creator is between its unlocked state check and its enqueue, or the pool has been
      freed already. */
  lemma FreedPoolFinishesExactly(c: Config, s: State)
    requires Reachable(c, s) && s.phase == SHUTDOWN && s.queue == []
    ensures EveryRunFinishesAll(c, s) <==> s.pending == {} || s.closer == Freed
  {
    ReachableInv(c, s);
    if s.pending == {} || s.closer == Freed {
      forall run | CanRun(c, s, run) && After(c, s, run).closer == Freed
        ensures EnqueuedFinished(After(c, s, run))
      {
        RunKeepsClosed(c, s, run);
        ClosedMeansFinished(c, After(c, s, run));
      }
    } else {
      var run := EnqueuesTooLate(c, s);
    }
  }
}
